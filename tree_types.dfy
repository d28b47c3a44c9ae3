/**
 * Tree items of the bookmark tree (features/bookmarks/types/tree.ts): a folder
 * or a bookmark, with the shared fields `id`, `name`, `position`, `parentId`.
 */
module TreeTypes {
  import opened Wrappers

  /** The `type` tag of a tree item. */
  datatype Kind = FolderKind | BookmarkKind

  datatype Node =
    | Folder(id: string, name: string, position: int, parentId: Option<string>,
             isExpanded: bool, children: seq<Node>)
    | Bookmark(id: string, name: string, position: int, parentId: Option<string>,
               url: string, icon: Option<string>, description: Option<string>,
               tags: Option<seq<string>>)
  {
    /** The value of the item's `type` field. */
    function Tag(): Kind {
      if Folder? then FolderKind else BookmarkKind
    }

    /** The same item with another `parentId`. */
    function WithParent(p: Option<string>): (r: Node)
      ensures r == this.(parentId := p)
    {
      match this
      case Folder(id, name, position, _, isExpanded, children) =>
        Folder(id, name, position, p, isExpanded, children)
      case Bookmark(id, name, position, _, url, icon, description, tags) =>
        Bookmark(id, name, position, p, url, icon, description, tags)
    }
  }

  /** JavaScript truthiness of a `string | null` value: present and not empty. */
  predicate Truthy(s: Option<string>) {
    s.Some? && s.value != ""
  }

  predicate IsFolder(item: Node) {
    item.Tag() == FolderKind
  }

  predicate IsBookmark(item: Node) {
    item.Tag() == BookmarkKind
  }

  /** Every item is exactly one of the two variants, and the tag tells which. */
  lemma VariantGuards(item: Node)
    ensures IsFolder(item) != IsBookmark(item)
    ensures IsFolder(item) <==> item.Folder?
    ensures IsBookmark(item) <==> item.Bookmark?
  {
  }

  /** `items.find(i => i.id === id)`: the first element of a flat list with that id. */
  function FindById(items: seq<Node>, id: string): (r: Option<Node>)
    ensures r.Some? ==> r.value in items && r.value.id == id
    ensures r.None? <==> forall i :: 0 <= i < |items| ==> items[i].id != id
  {
    if items == [] then None
    else if items[0].id == id then Some(items[0])
    else FindById(items[1..], id)
  }

  /**
   * The parent chain of `item`, resolved in the flat list `items`, ends
   * (reaches a falsy `parentId` or a parent that is not in the list) within
   * `fuel` hops. With fuel |items| + 1 this is exactly "the chain has no cycle":
   * otherwise the walk of CalculateTreeDepth does not terminate.
   */
  ghost predicate ChainEnds(item: Node, items: seq<Node>, fuel: nat)
    decreases fuel
  {
    || !Truthy(item.parentId)
    || FindById(items, item.parentId.value).None?
    || (fuel > 0 && ChainEnds(FindById(items, item.parentId.value).value, items, fuel - 1))
  }

  /**
   * The number of `parentId` hops from `item`: every truthy `parentId` counts
   * one hop, whether or not the parent is found in `items`.
   */
  ghost function ChainLength(item: Node, items: seq<Node>, fuel: nat): nat
    requires ChainEnds(item, items, fuel)
    decreases fuel
  {
    if !Truthy(item.parentId) then 0
    else match FindById(items, item.parentId.value)
      case None => 1
      case Some(parent) => 1 + ChainLength(parent, items, fuel - 1)
  }

  /** More fuel does not change a chain that already ends. */
  lemma {:induction false} ChainMonotone(item: Node, items: seq<Node>, fuel: nat, more: nat)
    requires ChainEnds(item, items, fuel) && fuel <= more
    ensures ChainEnds(item, items, more)
    ensures ChainLength(item, items, fuel) == ChainLength(item, items, more)
    decreases fuel
  {
    if Truthy(item.parentId) && FindById(items, item.parentId.value).Some? {
      ChainMonotone(FindById(items, item.parentId.value).value, items, fuel - 1, more - 1);
    }
  }

  /** calculateTreeDepth: walk up the `parentId` chain through the flat list. */
  method CalculateTreeDepth(item: Node, items: seq<Node>) returns (depth: nat)
    requires ChainEnds(item, items, |items| + 1)
    ensures depth == ChainLength(item, items, |items| + 1)
  {
    depth := 0;
    var current := item;
    ghost var fuel: nat := |items| + 1;
    while Truthy(current.parentId)
      invariant ChainEnds(current, items, fuel)
      invariant depth + ChainLength(current, items, fuel) == ChainLength(item, items, |items| + 1)
      decreases fuel
    {
      depth := depth + 1;
      var parent := FindById(items, current.parentId.value);
      if parent.None? {
        break;
      }
      current := parent.value;
      fuel := fuel - 1;
    }
  }

  /** An item at the top level (falsy `parentId`) has depth 0. */
  lemma TopLevelDepth(item: Node, items: seq<Node>)
    requires !Truthy(item.parentId)
    ensures ChainEnds(item, items, |items| + 1)
    ensures ChainLength(item, items, |items| + 1) == 0
  {
  }

  /**
   * The hop is counted before the lookup: a `parentId` that names no item of
   * the list still gives depth 1.
   */
  lemma DanglingParentDepth(item: Node, items: seq<Node>)
    requires Truthy(item.parentId) && FindById(items, item.parentId.value).None?
    ensures ChainEnds(item, items, |items| + 1)
    ensures ChainLength(item, items, |items| + 1) == 1
  {
  }

  /**
   * On a chain that ends, the depth of an item whose parent is in the list is
   * one more than the depth of that parent.
   */
  lemma {:induction false} DepthOfChild(item: Node, parent: Node, items: seq<Node>)
    requires Truthy(item.parentId) && FindById(items, item.parentId.value) == Some(parent)
    requires ChainEnds(item, items, |items| + 1)
    ensures ChainEnds(parent, items, |items| + 1)
    ensures ChainLength(item, items, |items| + 1) == 1 + ChainLength(parent, items, |items| + 1)
  {
    ChainMonotone(parent, items, |items|, |items| + 1);
  }
}
