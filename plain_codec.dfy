/**
 * The folder-only Chrome bookmark converters (app/_components/bookmark-tree/utils.ts),
 * over the untyped tree item of types/bookmark-tree.ts: every item carries a
 * `children` list and there is no folder/bookmark tag.
 */
module PlainCodec {
  import opened Wrappers
  import opened TreeTypes
  import opened Chrome

  /** The untyped tree item. */
  datatype PlainItem = PlainItem(
    id: string,
    name: string,
    isExpanded: bool,
    position: int,
    parentId: Option<string>,
    children: seq<PlainItem>)

  /** convertToChrome, one item: `parentId` only when truthy, `children` only when non-empty. */
  function ToChrome(t: PlainItem): (c: ChromeBookmark)
    ensures c.id == t.id && c.title == t.name && c.index == Some(t.position)
    ensures Truthy(t.parentId) ==> c.parentId == t.parentId
    ensures !Truthy(t.parentId) ==> c.parentId.None?
    ensures c.children.Present? <==> |t.children| > 0
    ensures c.children.Present? ==> |c.children.items| == |t.children|
    decreases t
  {
    ChromeBookmark(t.id, t.name, Some(t.position), if Truthy(t.parentId) then t.parentId else None,
      if |t.children| > 0 then Present(seq(|t.children|, i requires 0 <= i < |t.children| => ToChrome(t.children[i])))
      else Absent)
  }

  /** convertToChrome: the items in order. */
  function ToChromeAll(items: seq<PlainItem>): (r: seq<ChromeBookmark>)
    ensures |r| == |items| && forall i :: 0 <= i < |items| ==> r[i] == ToChrome(items[i])
  {
    seq(|items|, i requires 0 <= i < |items| => ToChrome(items[i]))
  }

  /** convertFromChrome, one record: expanded, index 0 and null parent when absent, no children when absent. */
  function FromChrome(c: ChromeBookmark): (t: PlainItem)
    ensures t.id == c.id && t.name == c.title && t.isExpanded
    ensures t.position == c.index.GetOr(0) && t.parentId == c.parentId
    ensures c.children.Absent? ==> t.children == []
    ensures c.children.Present? ==> |t.children| == |c.children.items|
    decreases c
  {
    PlainItem(c.id, c.title, true, c.index.GetOr(0), c.parentId,
      match c.children
      case Absent => []
      case Present(kids) => seq(|kids|, i requires 0 <= i < |kids| => FromChrome(kids[i])))
  }

  /** convertFromChrome: the records in order. */
  function FromChromeAll(records: seq<ChromeBookmark>): (r: seq<PlainItem>)
    ensures |r| == |records| && forall i :: 0 <= i < |records| ==> r[i] == FromChrome(records[i])
  {
    seq(|records|, i requires 0 <= i < |records| => FromChrome(records[i]))
  }

  /** An item as it would be read back: every item expanded, every falsy parentId null. */
  predicate Normal(t: PlainItem)
    decreases t
  {
    && t.isExpanded
    && (t.parentId.Some? ==> t.parentId.value != "")
    && forall i :: 0 <= i < |t.children| ==> Normal(t.children[i])
  }

  /**
   * Round trip: the item comes back whole except that it is expanded and a
   * falsy parentId is null, at every level.
   */
  lemma {:induction false} RoundTrip(t: PlainItem)
    ensures var back := FromChrome(ToChrome(t));
            && back.id == t.id && back.name == t.name && back.position == t.position && back.isExpanded
            && back.parentId == (if Truthy(t.parentId) then t.parentId else None)
            && |back.children| == |t.children|
            && forall i :: 0 <= i < |t.children| ==> back.children[i] == FromChrome(ToChrome(t.children[i]))
    ensures Normal(FromChrome(ToChrome(t)))
    ensures Normal(t) ==> FromChrome(ToChrome(t)) == t
    decreases t
  {
    forall i | 0 <= i < |t.children|
      ensures Normal(FromChrome(ToChrome(t.children[i])))
      ensures Normal(t.children[i]) ==> FromChrome(ToChrome(t.children[i])) == t.children[i]
    {
      RoundTrip(t.children[i]);
    }
    var back := FromChrome(ToChrome(t));
    if |t.children| > 0 {
      assert forall i :: 0 <= i < |t.children| ==> back.children[i] == FromChrome(ToChrome(t).children.items[i]);
    }
    if Normal(t) {
      assert back.children == t.children;
    }
  }

  /** Round trip of a whole list: a list of normal items comes back unchanged. */
  lemma RoundTripAll(items: seq<PlainItem>)
    requires forall i :: 0 <= i < |items| ==> Normal(items[i])
    ensures FromChromeAll(ToChromeAll(items)) == items
  {
    forall i | 0 <= i < |items|
      ensures FromChrome(ToChrome(items[i])) == items[i]
    {
      RoundTrip(items[i]);
    }
  }

  /** The other way round: reading a canonical record and writing it out gives the record back. */
  lemma {:induction false} ChromeRoundTrip(c: ChromeBookmark)
    requires Canonical(c)
    ensures ToChrome(FromChrome(c)) == c
    decreases c
  {
    if c.children.Present? {
      var kids := c.children.items;
      forall i | 0 <= i < |kids|
        ensures ToChrome(FromChrome(kids[i])) == kids[i]
      {
        ChromeRoundTrip(kids[i]);
      }
      assert ToChrome(FromChrome(c)).children.items == kids;
    }
  }
}
