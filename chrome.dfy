/**
 * The Chrome bookmark record both codecs read and write: `id`, `title`, an
 * optional `index`, an optional `parentId` and optional `children`
 * (`dateAdded` is never read or written by either codec, so it is left out).
 */
module Chrome {
  import opened Wrappers

  datatype ChromeBookmark = ChromeBookmark(
    id: string,
    title: string,
    index: Option<int>,
    parentId: Option<string>,
    children: ChildList)

  /** The optional `children` key. */
  datatype ChildList = Absent | Present(items: seq<ChromeBookmark>)

  /**
   * The records a converter writes: an index is always present, a parentId
   * only when non-empty, and children only when there is at least one,
   * all the way down.
   */
  predicate Canonical(c: ChromeBookmark)
    decreases c
  {
    && c.index.Some?
    && (c.parentId.Some? ==> c.parentId.value != "")
    && (c.children.Present? ==> |c.children.items| > 0
                                && forall i :: 0 <= i < |c.children.items| ==> Canonical(c.children.items[i]))
  }
}
