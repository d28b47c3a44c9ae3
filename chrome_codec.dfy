/**
 * The typed Chrome bookmark converters (features/bookmarks/components/tree/utils.ts):
 * folders and bookmarks to Chrome records and back.
 */
module ChromeCodec {
  import opened Wrappers
  import opened TreeTypes
  import opened Chrome

  /** `parentId` survives the trip out only when it is truthy. */
  function TruthyParent(p: Option<string>): (r: Option<string>)
    ensures Truthy(p) ==> r == p
    ensures !Truthy(p) ==> r.None?
  {
    if Truthy(p) then p else None
  }

  /** convertToChrome, one item: `children` only for a folder with at least one child. */
  function ToChrome(n: Node): (c: ChromeBookmark)
    ensures c.id == n.id && c.title == n.name && c.index == Some(n.position)
    ensures c.parentId == TruthyParent(n.parentId)
    ensures c.children.Present? <==> n.Folder? && |n.children| > 0
    ensures c.children.Present? ==> |c.children.items| == |n.children|
    decreases n
  {
    ChromeBookmark(n.id, n.name, Some(n.position), TruthyParent(n.parentId),
      if n.Folder? && |n.children| > 0 then Present(seq(|n.children|, i requires 0 <= i < |n.children| => ToChrome(n.children[i])))
      else Absent)
  }

  /** convertToChrome: the items in order. */
  function ToChromeAll(items: seq<Node>): (r: seq<ChromeBookmark>)
    ensures |r| == |items| && forall i :: 0 <= i < |items| ==> r[i] == ToChrome(items[i])
  {
    seq(|items|, i requires 0 <= i < |items| => ToChrome(items[i]))
  }

  /**
   * convertFromChrome, one record: a folder, expanded, exactly when the record
   * has `children`; otherwise a bookmark with an empty url.
   */
  function FromChrome(c: ChromeBookmark): (n: Node)
    ensures n.id == c.id && n.name == c.title && n.position == c.index.GetOr(0) && n.parentId == c.parentId
    ensures n.Folder? <==> c.children.Present?
    ensures n.Folder? ==> n.isExpanded && |n.children| == |c.children.items|
    ensures n.Bookmark? ==> n.url == "" && n.icon.None? && n.description.None? && n.tags.None?
    decreases c
  {
    match c.children
    case Present(kids) =>
      Folder(c.id, c.title, c.index.GetOr(0), c.parentId, true,
             seq(|kids|, i requires 0 <= i < |kids| => FromChrome(kids[i])))
    case Absent =>
      Bookmark(c.id, c.title, c.index.GetOr(0), c.parentId, "", None, None, None)
  }

  /** convertFromChrome: the records in order. */
  function FromChromeAll(records: seq<ChromeBookmark>): (r: seq<Node>)
    ensures |r| == |records| && forall i :: 0 <= i < |records| ==> r[i] == FromChrome(records[i])
  {
    seq(|records|, i requires 0 <= i < |records| => FromChrome(records[i]))
  }

  /** What survives the trip out and back: everything except what the Chrome record has no room for. */
  function Survivor(n: Node): (r: Node)
    decreases n
  {
    if n.Folder? && |n.children| > 0 then
      Folder(n.id, n.name, n.position, TruthyParent(n.parentId), true,
             seq(|n.children|, i requires 0 <= i < |n.children| => Survivor(n.children[i])))
    else
      Bookmark(n.id, n.name, n.position, TruthyParent(n.parentId), "", None, None, None)
  }

  /**
   * Round trip: id, name, position and nesting come back; a non-empty folder
   * comes back expanded, while an empty folder, like any bookmark, comes back
   * as a bookmark with no url; a falsy parentId comes back null.
   */
  lemma {:induction false} RoundTrip(n: Node)
    ensures FromChrome(ToChrome(n)) == Survivor(n)
    decreases n
  {
    if n.Folder? && |n.children| > 0 {
      forall i | 0 <= i < |n.children|
        ensures FromChrome(ToChrome(n.children[i])) == Survivor(n.children[i])
      {
        RoundTrip(n.children[i]);
      }
      var out := ToChrome(n);
      var back := FromChrome(out);
      assert |back.children| == |n.children|;
      assert forall i :: 0 <= i < |n.children| ==> back.children[i] == FromChrome(out.children.items[i]);
    }
  }

  /** Round trip of a whole list, in order. */
  lemma RoundTripAll(items: seq<Node>)
    ensures FromChromeAll(ToChromeAll(items)) == seq(|items|, i requires 0 <= i < |items| => Survivor(items[i]))
  {
    forall i | 0 <= i < |items|
      ensures FromChrome(ToChrome(items[i])) == Survivor(items[i])
    {
      RoundTrip(items[i]);
    }
  }

  /** An empty folder comes back as a bookmark. */
  lemma EmptyFolderComesBackAsBookmark(n: Node)
    requires n.Folder? && n.children == []
    ensures FromChrome(ToChrome(n)).Bookmark?
  {
  }

  /** What convertToChrome writes is canonical. */
  lemma {:induction false} ToChromeCanonical(n: Node)
    ensures Canonical(ToChrome(n))
    decreases n
  {
    if n.Folder? && |n.children| > 0 {
      forall i | 0 <= i < |n.children|
        ensures Canonical(ToChrome(n.children[i]))
      {
        ToChromeCanonical(n.children[i]);
      }
    }
  }

  /** The other way round: reading a canonical record and writing it out gives the record back. */
  lemma {:induction false} ChromeRoundTrip(c: ChromeBookmark)
    requires Canonical(c)
    ensures ToChrome(FromChrome(c)) == c
    decreases c
  {
    if c.children.Present? {
      var kids := c.children.items;
      forall i | 0 <= i < |kids|
        ensures ToChrome(FromChrome(kids[i])) == kids[i]
      {
        ChromeRoundTrip(kids[i]);
      }
      var back := ToChrome(FromChrome(c));
      assert back.children.items == kids;
    }
  }
}
