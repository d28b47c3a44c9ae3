/**
 * The high-level bookmark operations (features/bookmarks/hooks/useBookmarkOperations.ts),
 * built on the tree hook. Fresh ids come from `crypto.randomUUID` in the
 * source; here the caller passes them in.
 */
module BookmarkOperations {
  import opened Wrappers
  import opened TreeTypes
  import opened TreeStore
  import opened TreeHook

  /** `BaseBookmarkData & { parentId?: string | null }`; parentId None when the key is absent. */
  datatype BookmarkData = BookmarkData(
    name: string,
    url: string,
    icon: Option<string>,
    description: Option<string>,
    tags: Option<seq<string>>,
    parentId: Option<Option<string>>)

  /** `Partial<BaseBookmarkData>`. */
  datatype BookmarkChanges = BookmarkChanges(
    name: Option<string>,
    url: Option<string>,
    icon: Option<string>,
    description: Option<string>,
    tags: Option<seq<string>>)

  /** The bookmark createBookmark builds: at the top-level count, under the given parent or none. */
  function NewBookmark(freshId: string, count: nat, data: BookmarkData): (b: Node)
    ensures b.Bookmark? && b.id == freshId && b.position == count
    ensures b.name == data.name && b.url == data.url
    ensures b.icon == data.icon && b.description == data.description && b.tags == data.tags
    ensures b.parentId == data.parentId.GetOr(None)
  {
    Bookmark(freshId, data.name, count, data.parentId.GetOr(None), data.url, data.icon, data.description, data.tags)
  }

  /** The folder createFolder builds: expanded, empty, at the top-level count. */
  function NewFolder(freshId: string, count: nat, name: string, parentId: Option<string>): (f: Node)
    ensures f.Folder? && f.id == freshId && f.name == name && f.position == count
    ensures f.parentId == parentId && f.isExpanded && f.children == []
  {
    Folder(freshId, name, count, parentId, true, [])
  }

  /** The update updateBookmark sends: always tagged "bookmark". */
  function BookmarkUpdate(c: BookmarkChanges): (u: Update)
    ensures u.tag == Some(BookmarkKind)
    ensures u.name == c.name && u.url == c.url && u.icon == c.icon && u.description == c.description && u.tags == c.tags
    ensures u.position.None? && u.parentId.None? && u.isExpanded.None?
  {
    Update(Some(BookmarkKind), c.name, None, None, None, c.url, c.icon, c.description, c.tags)
  }

  /** The update updateFolder sends: always tagged "folder". */
  function FolderUpdate(name: Option<string>, isExpanded: Option<bool>): (u: Update)
    ensures u.tag == Some(FolderKind) && u.name == name && u.isExpanded == isExpanded
    ensures u.position.None? && u.parentId.None? && u.url.None? && u.icon.None? && u.description.None? && u.tags.None?
  {
    Update(Some(FolderKind), name, None, None, isExpanded, None, None, None, None)
  }

  /** `items.filter(item => item.parentId === null)`. */
  function TopLevelRoots(items: seq<Node>): (r: seq<Node>)
    ensures forall x :: x in r <==> x in items && x.parentId.None?
    ensures |r| <= |items|
  {
    if items == [] then []
    else (if items[0].parentId.None? then [items[0]] else []) + TopLevelRoots(items[1..])
  }

  /** The filter keeps order: it distributes over concatenation. */
  lemma {:induction false} TopLevelRootsAppend(a: seq<Node>, b: seq<Node>)
    ensures TopLevelRoots(a + b) == TopLevelRoots(a) + TopLevelRoots(b)
    decreases |a|
  {
    if a == [] {
      assert a + b == b;
    } else {
      assert (a + b)[0] == a[0] && (a + b)[1..] == a[1..] + b;
      TopLevelRootsAppend(a[1..], b);
    }
  }

  /** The filter keeps each matching element exactly as often as it occurs, and drops the others. */
  lemma {:induction false} TopLevelRootsCount(a: seq<Node>, x: Node)
    ensures multiset(TopLevelRoots(a))[x] == if x.parentId.None? then multiset(a)[x] else 0
    decreases |a|
  {
    if a != [] {
      TopLevelRootsCount(a[1..], x);
      assert TopLevelRoots(a) == (if a[0].parentId.None? then [a[0]] else []) + TopLevelRoots(a[1..]);
      assert a == [a[0]] + a[1..];
    }
  }

  /** getFolderContents: a null id lists the top-level roots; an id only looks at the top level. */
  function GetFolderContents(items: seq<Node>, folderId: Option<string>): (r: seq<Node>)
    ensures folderId.None? ==> r == TopLevelRoots(items)
    ensures folderId.Some? && FindById(items, folderId.value).Some? && FindById(items, folderId.value).value.Folder? ==>
              r == FindById(items, folderId.value).value.children
    ensures folderId.Some? && !(FindById(items, folderId.value).Some? && FindById(items, folderId.value).value.Folder?) ==>
              r == []
  {
    if folderId.None? then TopLevelRoots(items)
    else match FindById(items, folderId.value)
      case Some(folder) => if folder.Folder? then folder.children else []
      case None => []
  }

  /** `items.some(item => item.type === "folder" && item.parentId === null)`. */
  predicate HasRoot(items: seq<Node>) {
    exists i :: 0 <= i < |items| && items[i].Folder? && items[i].parentId.None?
  }

  /** ensureRootFolder, as a function of the tree. */
  function EnsureRootSpec(items: seq<Node>, freshId: string, name: string): seq<Node> {
    if HasRoot(items) then items else AddSpec(items, NewFolder(freshId, |items|, name, None))
  }

  /** After ensureRootFolder a root folder exists, and it was added only if none existed. */
  lemma EnsureRootMakesRoot(items: seq<Node>, freshId: string, name: string)
    ensures HasRoot(EnsureRootSpec(items, freshId, name))
    ensures HasRoot(items) ==> EnsureRootSpec(items, freshId, name) == items
    ensures !HasRoot(items) ==> EnsureRootSpec(items, freshId, name) == items + [NewFolder(freshId, |items|, name, None)]
  {
    if !HasRoot(items) {
      var r := EnsureRootSpec(items, freshId, name);
      assert r[|items|].Folder? && r[|items|].parentId.None?;
    }
  }

  /** ensureRootFolder is idempotent: a second call changes nothing. */
  lemma EnsureRootIdempotent(items: seq<Node>, id1: string, name1: string, id2: string, name2: string)
    ensures var once := EnsureRootSpec(items, id1, name1);
            EnsureRootSpec(once, id2, name2) == once
  {
    EnsureRootMakesRoot(items, id1, name1);
  }

  /** A new top-level item is appended to the tree; anything else goes through addItem's parent lookup. */
  lemma CreateAtTopLevelAppends(items: seq<Node>, item: Node)
    requires item.parentId.None?
    ensures AddSpec(items, item) == items + [item]
    ensures FindById(AddSpec(items, item), item.id).Some?
  {
    assert (items + [item])[|items|] == item;
  }

  class BookmarkOperations {
    /** The tree hook the operations act on. */
    const tree: BookmarkTreeHook

    constructor (tree: BookmarkTreeHook)
      ensures this.tree == tree
    {
      this.tree := tree;
    }

    /** createBookmark: adds and returns the new bookmark, even when its parent refuses it. */
    method CreateBookmark(freshId: string, data: BookmarkData) returns (b: Node)
      modifies tree
      ensures b == NewBookmark(freshId, |old(tree.items)|, data)
      ensures tree.items == AddSpec(old(tree.items), b) && tree.dragState == old(tree.dragState)
    {
      b := NewBookmark(freshId, |tree.items|, data);
      tree.AddItem(b);
    }

    /** createFolder. */
    method CreateFolder(freshId: string, name: string, parentId: Option<string>) returns (f: Node)
      modifies tree
      ensures f == NewFolder(freshId, |old(tree.items)|, name, parentId)
      ensures tree.items == AddSpec(old(tree.items), f) && tree.dragState == old(tree.dragState)
    {
      f := NewFolder(freshId, |tree.items|, name, parentId);
      tree.AddItem(f);
    }

    /** updateBookmark. */
    method UpdateBookmark(id: string, changes: BookmarkChanges)
      modifies tree
      ensures tree.items == HookUpdateSpec(old(tree.items), id, BookmarkUpdate(changes))
      ensures tree.dragState == old(tree.dragState)
    {
      tree.UpdateItem(id, BookmarkUpdate(changes));
    }

    /** updateFolder. */
    method UpdateFolder(id: string, name: Option<string>, isExpanded: Option<bool>)
      modifies tree
      ensures tree.items == HookUpdateSpec(old(tree.items), id, FolderUpdate(name, isExpanded))
      ensures tree.dragState == old(tree.dragState)
    {
      tree.UpdateItem(id, FolderUpdate(name, isExpanded));
    }

    /** deleteItem: removes the item with its whole subtree. */
    method DeleteItem(id: string)
      modifies tree
      ensures tree.items == RemoveFirst(old(tree.items), id).0 && tree.dragState == old(tree.dragState)
    {
      tree.RemoveItem(id);
    }

    /** ensureRootFolder. */
    method EnsureRootFolder(freshId: string, name: string)
      modifies tree
      ensures tree.items == EnsureRootSpec(old(tree.items), freshId, name)
      ensures tree.dragState == old(tree.dragState)
    {
      var hasRoot := exists i :: 0 <= i < |tree.items| && tree.items[i].Folder? && tree.items[i].parentId.None?;
      if !hasRoot {
        var _ := CreateFolder(freshId, name, None);
      }
    }
  }
}
