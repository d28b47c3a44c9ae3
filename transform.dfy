/**
 * The conversion of bookmark rows from the database into the bookmark tree
 * (features/bookmarks/utils/transform.ts): rows without a parent become
 * top-level folders, rows with one become bookmarks under the folder whose id
 * matches (or at the top level), and every level is then sorted by position.
 */
module Transform {
  import opened Wrappers
  import opened JsString
  import opened TreeTypes
  import opened TreeStore
  import TreeLemmas

  /**
   * A bookmark row. `createdById`, `createdAt` and `dateAdded` are never read
   * by the conversion and are left out.
   */
  datatype DbBookmark = DbBookmark(
    id: int,
    description: Option<string>,
    url: string,
    title: string,
    icon: Option<string>,
    tags: Option<string>,
    parentId: Option<string>,
    index: Option<int>)

  /** The JSON values parseTags tells apart. */
  datatype Json = JString(s: string) | JArray(elements: seq<Json>) | JOther

  /** `JSON.parse`, given by the caller: None when it throws. */
  type JsonParser = string -> Option<Json>

  // ---------------------------------------------------------------------------
  // Building nodes from rows
  // ---------------------------------------------------------------------------

  /** All elements of a parsed array are strings. */
  predicate AllStrings(xs: seq<Json>) {
    forall i :: 0 <= i < |xs| ==> xs[i].JString?
  }

  /**
   * parseTags: the strings of a JSON array of strings; `[]` for null or empty
   * input, for text that does not parse, and for any other JSON value.
   */
  function ParseTags(tagsJson: Option<string>, parse: JsonParser): (r: seq<string>)
    ensures !Truthy(tagsJson) ==> r == []
    ensures Truthy(tagsJson) && parse(tagsJson.value).None? ==> r == []
    ensures Truthy(tagsJson) && parse(tagsJson.value).Some? ==>
              var v := parse(tagsJson.value).value;
              && (!(v.JArray? && AllStrings(v.elements)) ==> r == [])
              && (v.JArray? && AllStrings(v.elements) ==>
                    |r| == |v.elements| && forall i :: 0 <= i < |r| ==> r[i] == v.elements[i].s)
  {
    if !Truthy(tagsJson) then []
    else match parse(tagsJson.value)
      case None => []
      case Some(v) =>
        if v.JArray? && AllStrings(v.elements) then
          seq(|v.elements|, i requires 0 <= i < |v.elements| && AllStrings(v.elements) => v.elements[i].s)
        else []
  }

  /** The folder a row without a parent becomes. */
  function RootFolder(row: DbBookmark): (f: Node)
    ensures f.Folder? && f.id == DecimalString(row.id) && f.name == row.title
    ensures f.position == row.index.GetOr(0) && f.parentId.None? && f.isExpanded && f.children == []
  {
    Folder(DecimalString(row.id), row.title, row.index.GetOr(0), None, true, [])
  }

  /** The bookmark a row with a parent becomes. */
  function RowBookmark(row: DbBookmark, parse: JsonParser): (b: Node)
    ensures b.Bookmark? && b.id == DecimalString(row.id) && b.name == row.title
    ensures b.position == row.index.GetOr(0) && b.parentId == row.parentId && b.url == row.url
    ensures b.icon == row.icon && b.description == row.description && b.tags == Some(ParseTags(row.tags, parse))
  {
    Bookmark(DecimalString(row.id), row.title, row.index.GetOr(0), row.parentId, row.url,
             row.icon, row.description, Some(ParseTags(row.tags, parse)))
  }

  // ---------------------------------------------------------------------------
  // The two passes
  // ---------------------------------------------------------------------------

  /** The folder map points at folders of the list. */
  predicate FolderIndex(items: seq<Node>, m: map<string, nat>) {
    forall k :: k in m ==> m[k] < |items| && items[m[k]].Folder?
  }

  /** The first pass over a prefix of the rows: the root folders, and the map from id to folder. */
  function FirstPass(rows: seq<DbBookmark>): (r: (seq<Node>, map<string, nat>))
    ensures FolderIndex(r.0, r.1)
    decreases |rows|
  {
    if rows == [] then ([], map[])
    else
      var (items, m) := FirstPass(rows[..|rows| - 1]);
      var row := rows[|rows| - 1];
      if !Truthy(row.parentId) then (items + [RootFolder(row)], m[DecimalString(row.id) := |items|])
      else (items, m)
  }

  /** `folder.children.push(x)`, as a value. */
  function AppendChild(f: Node, x: Node): (r: Node)
    requires f.Folder?
    ensures r.Folder? && r.children == f.children + [x]
    ensures r.id == f.id && r.name == f.name && r.position == f.position
    ensures r.parentId == f.parentId && r.isExpanded == f.isExpanded
  {
    Folder(f.id, f.name, f.position, f.parentId, f.isExpanded, f.children + [x])
  }

  /** One step of the second pass: a row with a parent goes into its folder, or to the top level. */
  function Place(items: seq<Node>, m: map<string, nat>, row: DbBookmark, parse: JsonParser): (r: seq<Node>)
    requires FolderIndex(items, m)
    ensures FolderIndex(r, m) && |r| >= |items|
  {
    if !Truthy(row.parentId) then items
    else
      var b := RowBookmark(row, parse);
      var key := row.parentId.value;
      if key in m then items[m[key] := AppendChild(items[m[key]], b)]
      else items + [b]
  }

  /** The second pass over a prefix of the rows. */
  function SecondPass(rows: seq<DbBookmark>, items: seq<Node>, m: map<string, nat>, parse: JsonParser): (r: seq<Node>)
    requires FolderIndex(items, m)
    ensures FolderIndex(r, m) && |r| >= |items|
    decreases |rows|
  {
    if rows == [] then items
    else Place(SecondPass(rows[..|rows| - 1], items, m, parse), m, rows[|rows| - 1], parse)
  }

  /** Both passes, before sorting. */
  function Group(rows: seq<DbBookmark>, parse: JsonParser): seq<Node> {
    var (items, m) := FirstPass(rows);
    SecondPass(rows, items, m, parse)
  }

  // ---------------------------------------------------------------------------
  // Sorting
  // ---------------------------------------------------------------------------

  predicate SortedByPosition(s: seq<Node>) {
    forall i, j :: 0 <= i < j < |s| ==> s[i].position <= s[j].position
  }

  /** Places `x` after every item whose position is not greater than its own. */
  function Insert(t: seq<Node>, x: Node): (r: seq<Node>)
    ensures |r| == |t| + 1
    decreases t
  {
    if t == [] then [x]
    else if x.position < t[0].position then [x] + t
    else [t[0]] + Insert(t[1..], x)
  }

  /** `items.sort((a, b) => a.position - b.position)`: a stable sort, here by insertion. */
  function SortByPosition(s: seq<Node>): (r: seq<Node>)
    ensures |r| == |s|
    decreases |s|
  {
    if s == [] then []
    else Insert(SortByPosition(s[..|s| - 1]), s[|s| - 1])
  }

  /**
   * sortTreeItems. The program sorts a level and then sorts the children of
   * each folder in it; sorting the children first gives the same list (see
   * SortCommutes) and makes the recursion structural.
   */
  function SortTree(items: seq<Node>): (r: seq<Node>)
    ensures |r| == |items|
    decreases items, 1
  {
    SortByPosition(SortChildren(items))
  }

  /** The map step of sortTreeItems for one item: a folder gets its children sorted. */
  function SortOne(n: Node): (r: Node)
    ensures r.id == n.id && r.position == n.position && r.Tag() == n.Tag()
    decreases n, 2
  {
    match n
    case Folder(id, name, position, parentId, isExpanded, children) =>
      Folder(id, name, position, parentId, isExpanded, SortTree(children))
    case Bookmark(_, _, _, _, _, _, _, _) => n
  }

  /** The map step of sortTreeItems over a level. */
  function SortChildren(items: seq<Node>): (r: seq<Node>)
    ensures |r| == |items| && forall i :: 0 <= i < |items| ==> r[i] == SortOne(items[i])
    decreases items, 0
  {
    if items == [] then [] else [SortOne(items[0])] + SortChildren(items[1..])
  }

  // ---------------------------------------------------------------------------
  // transformDbDataToTreeItems
  // ---------------------------------------------------------------------------

  method TransformDbDataToTreeItems(rows: seq<DbBookmark>, parse: JsonParser) returns (r: seq<Node>)
    ensures r == SortTree(Group(rows, parse))
  {
    var items: seq<Node> := [];
    var m: map<string, nat> := map[];
    var i := 0;
    while i < |rows|
      invariant 0 <= i <= |rows|
      invariant (items, m) == FirstPass(rows[..i])
    {
      PrefixStep(rows, i);
      FirstPassUnfold(rows[..i + 1]);
      var row := rows[i];
      if !Truthy(row.parentId) {
        m := m[DecimalString(row.id) := |items|];
        items := items + [RootFolder(row)];
      }
      i := i + 1;
    }
    assert rows[..i] == rows;
    ghost var folders := items;
    var j := 0;
    while j < |rows|
      invariant 0 <= j <= |rows|
      invariant FolderIndex(folders, m)
      invariant items == SecondPass(rows[..j], folders, m, parse)
    {
      PrefixStep(rows, j);
      var row := rows[j];
      if Truthy(row.parentId) {
        var bookmark := RowBookmark(row, parse);
        var key := row.parentId.value;
        if key in m {
          items := items[m[key] := AppendChild(items[m[key]], bookmark)];
        } else {
          items := items + [bookmark];
        }
      }
      j := j + 1;
    }
    assert rows[..j] == rows;
    r := SortTree(items);
  }

  lemma PrefixStep<T>(s: seq<T>, i: nat)
    requires i < |s|
    ensures s[..i + 1][..i] == s[..i] && s[..i + 1][i] == s[i] && |s[..i + 1]| == i + 1
  {
  }

  // ---------------------------------------------------------------------------
  // Sorting: order, stability, contents
  // ---------------------------------------------------------------------------

  /** Every level of the tree is ordered by position. */
  predicate SortedDeep(items: seq<Node>)
    decreases items
  {
    && SortedByPosition(items)
    && forall i :: 0 <= i < |items| ==> items[i].Folder? ==> SortedDeep(items[i].children)
  }

  /** Inserting adds exactly the one item. */
  lemma {:induction false} InsertPermutes(t: seq<Node>, x: Node)
    ensures multiset(Insert(t, x)) == multiset(t) + multiset{x}
    decreases t
  {
    if t != [] && x.position >= t[0].position {
      InsertPermutes(t[1..], x);
      InsertUnfold(t, x);
      MultisetCons(t, Insert(t[1..], x), x);
    } else if t != [] {
      InsertFront(t, x);
    }
  }

  lemma MultisetCons<T>(t: seq<T>, rest: seq<T>, x: T)
    requires t != [] && multiset(rest) == multiset(t[1..]) + multiset{x}
    ensures multiset([t[0]] + rest) == multiset(t) + multiset{x}
  {
    assert t == [t[0]] + t[1..];
  }

  /** The sort is a permutation of the level. */
  lemma {:induction false} SortPermutes(s: seq<Node>)
    ensures multiset(SortByPosition(s)) == multiset(s)
    decreases |s|
  {
    if s != [] {
      var front, x := s[..|s| - 1], s[|s| - 1];
      SortPermutes(front);
      InsertPermutes(SortByPosition(front), x);
      assert s == front + [x];
    }
  }

  /** Every item of the list is at `lo` or after it. */
  predicate AllFrom(s: seq<Node>, lo: int) {
    forall i :: 0 <= i < |s| ==> s[i].position >= lo
  }

  lemma {:induction false} InsertFrom(t: seq<Node>, x: Node, lo: int)
    requires AllFrom(t, lo) && x.position >= lo
    ensures AllFrom(Insert(t, x), lo)
    decreases t
  {
    if t != [] && x.position >= t[0].position {
      InsertFrom(t[1..], x, lo);
      InsertUnfold(t, x);
    }
  }

  lemma SortedCons(h: Node, rest: seq<Node>)
    requires SortedByPosition(rest) && AllFrom(rest, h.position)
    ensures SortedByPosition([h] + rest)
  {
  }

  lemma {:induction false} InsertSorted(t: seq<Node>, x: Node)
    requires SortedByPosition(t)
    ensures SortedByPosition(Insert(t, x))
    decreases t
  {
    if t == [] {
    } else if x.position < t[0].position {
      InsertFront(t, x);
      SortedCons(x, t);
    } else {
      InsertSorted(t[1..], x);
      InsertFrom(t[1..], x, t[0].position);
      InsertUnfold(t, x);
      SortedCons(t[0], Insert(t[1..], x));
    }
  }

  lemma InsertFront(t: seq<Node>, x: Node)
    requires t != [] && x.position < t[0].position
    ensures Insert(t, x) == [x] + t
  {
  }

  /** The sort orders the level by position. */
  lemma {:induction false} SortSorted(s: seq<Node>)
    ensures SortedByPosition(SortByPosition(s))
    decreases |s|
  {
    if s != [] {
      SortSorted(s[..|s| - 1]);
      InsertSorted(SortByPosition(s[..|s| - 1]), s[|s| - 1]);
    }
  }

  /** The items of a list at one position, in order. */
  function AtPosition(s: seq<Node>, p: int): (r: seq<Node>)
    ensures |r| <= |s|
  {
    if s == [] then []
    else (if s[0].position == p then [s[0]] else []) + AtPosition(s[1..], p)
  }

  lemma {:induction false} AtPositionAppend(a: seq<Node>, b: seq<Node>, p: int)
    ensures AtPosition(a + b, p) == AtPosition(a, p) + AtPosition(b, p)
    decreases a
  {
    if a != [] {
      assert (a + b)[1..] == a[1..] + b;
      AtPositionAppend(a[1..], b, p);
    } else {
      assert a + b == b;
    }
  }

  lemma {:induction false} AtPositionAbove(t: seq<Node>, p: int)
    requires forall i :: 0 <= i < |t| ==> t[i].position > p
    ensures AtPosition(t, p) == []
    decreases t
  {
    if t != [] {
      AtPositionAbove(t[1..], p);
    }
  }

  /** Inserting keeps the order of the items at each position, the new item last among its equals. */
  lemma {:induction false} AtPositionInsert(t: seq<Node>, x: Node, p: int)
    requires SortedByPosition(t)
    ensures AtPosition(Insert(t, x), p) == AtPosition(t, p) + (if x.position == p then [x] else [])
    decreases t
  {
    if t == [] {
      assert AtPosition([x], p) == (if x.position == p then [x] else []) + AtPosition([], p);
    } else if x.position < t[0].position {
      AtPositionInsertFront(t, x, p);
    } else {
      assert SortedByPosition(t[1..]);
      AtPositionInsert(t[1..], x, p);
      AtPositionInsertPastHead(t, x, p);
    }
  }

  lemma AtPositionInsertFront(t: seq<Node>, x: Node, p: int)
    requires SortedByPosition(t) && t != [] && x.position < t[0].position
    ensures AtPosition(Insert(t, x), p) == AtPosition(t, p) + (if x.position == p then [x] else [])
  {
    var own := if x.position == p then [x] else [];
    assert AtPosition(Insert(t, x), p) == own + AtPosition(t, p) by {
      assert Insert(t, x) == [x] + t;
      AtPositionAppend([x], t, p);
      assert [x][1..] == [];
    }
    if x.position == p {
      AtPositionAbove(t, p);
    }
  }

  lemma AtPositionInsertPastHead(t: seq<Node>, x: Node, p: int)
    requires t != [] && x.position >= t[0].position
    requires AtPosition(Insert(t[1..], x), p) == AtPosition(t[1..], p) + (if x.position == p then [x] else [])
    ensures AtPosition(Insert(t, x), p) == AtPosition(t, p) + (if x.position == p then [x] else [])
  {
    InsertUnfold(t, x);
    AtPositionCons(t[0], Insert(t[1..], x), p);
    AtPositionCons(t[0], t[1..], p);
    assert [t[0]] + t[1..] == t;
  }

  lemma AtPositionCons(h: Node, rest: seq<Node>, p: int)
    ensures AtPosition([h] + rest, p) == AtPosition([h], p) + AtPosition(rest, p)
  {
    AtPositionAppend([h], rest, p);
  }

  /** The sort is stable: the items at each position keep their order. */
  lemma {:induction false} SortStable(s: seq<Node>, p: int)
    ensures AtPosition(SortByPosition(s), p) == AtPosition(s, p)
    decreases |s|
  {
    if s != [] {
      var front, x := s[..|s| - 1], s[|s| - 1];
      var own := if x.position == p then [x] else [];
      assert AtPosition(SortByPosition(s), p) == AtPosition(SortByPosition(front), p) + own by {
        SortSorted(front);
        AtPositionInsert(SortByPosition(front), x, p);
      }
      SortStable(front, p);
      assert AtPosition(s, p) == AtPosition(front, p) + own by {
        assert s == front + [x];
        AtPositionAppend(front, [x], p);
        assert [x][1..] == [];
      }
    }
  }

  lemma {:induction false} InsertIds(t: seq<Node>, x: Node)
    ensures multiset(Ids(Insert(t, x))) == multiset(Ids(t)) + multiset(Ids([x]))
    decreases t
  {
    if t == [] {
    } else if x.position < t[0].position {
      InsertFront(t, x);
      IdsConsMultiset(x, t);
    } else {
      InsertIds(t[1..], x);
      InsertPastHeadIds(t, x);
    }
  }

  lemma InsertPastHeadIds(t: seq<Node>, x: Node)
    requires t != [] && x.position >= t[0].position
    requires multiset(Ids(Insert(t[1..], x))) == multiset(Ids(t[1..])) + multiset(Ids([x]))
    ensures multiset(Ids(Insert(t, x))) == multiset(Ids(t)) + multiset(Ids([x]))
  {
    InsertUnfold(t, x);
    IdsConsMultiset(t[0], Insert(t[1..], x));
    IdsHeadMultiset(t);
    MultisetAddRight(multiset(Ids(t)), multiset(Ids([t[0]])), multiset(Ids(t[1..])), multiset(Ids([x])));
  }

  lemma IdsHeadMultiset(t: seq<Node>)
    requires t != []
    ensures multiset(Ids(t)) == multiset(Ids([t[0]])) + multiset(Ids(t[1..]))
  {
    TreeLemmas.IdsSplitHead(t);
  }

  /** One step of Insert past the head of the list. */
  lemma InsertUnfold(t: seq<Node>, x: Node)
    requires t != [] && x.position >= t[0].position
    ensures Insert(t, x) == [t[0]] + Insert(t[1..], x)
  {
  }

  lemma IdsConsMultiset(n: Node, rest: seq<Node>)
    ensures multiset(Ids([n] + rest)) == multiset(Ids([n])) + multiset(Ids(rest))
  {
    TreeLemmas.IdsCons(n, rest);
  }

  lemma {:induction false} SortByPositionIds(s: seq<Node>)
    ensures multiset(Ids(SortByPosition(s))) == multiset(Ids(s))
    decreases |s|
  {
    if s != [] {
      var front, x := s[..|s| - 1], s[|s| - 1];
      SortByPositionIds(front);
      SortUnfold(s);
      InsertIds(SortByPosition(front), x);
      IdsLastMultiset(s);
    }
  }

  /** One step of SortByPosition. */
  lemma SortUnfold(s: seq<Node>)
    requires s != []
    ensures SortByPosition(s) == Insert(SortByPosition(s[..|s| - 1]), s[|s| - 1])
  {
  }

  lemma IdsLastMultiset(s: seq<Node>)
    requires s != []
    ensures multiset(Ids(s)) == multiset(Ids(s[..|s| - 1])) + multiset(Ids([s[|s| - 1]]))
  {
    var init, last := s[..|s| - 1], s[|s| - 1..];
    assert last == [s[|s| - 1]];
    assert init + last == s;
    TreeLemmas.IdsAppend(init, last);
  }

  /** sortTreeItems keeps every id of the tree, each as often as before. */
  lemma {:induction false} SortTreeIds(items: seq<Node>)
    ensures multiset(Ids(SortTree(items))) == multiset(Ids(items))
    decreases items, 1
  {
    SortChildrenIds(items);
    SortByPositionIds(SortChildren(items));
  }

  lemma {:induction false} SortChildrenIds(items: seq<Node>)
    ensures multiset(Ids(SortChildren(items))) == multiset(Ids(items))
    decreases items, 0
  {
    if items != [] {
      var n := items[0];
      SortChildrenIds(items[1..]);
      TreeLemmas.IdsCons(SortOne(n), SortChildren(items[1..]));
      TreeLemmas.IdsSplitHead(items);
      TreeLemmas.IdsSingle(n);
      TreeLemmas.IdsSingle(SortOne(n));
      if n.Folder? {
        SortTreeIds(n.children);
      }
    }
  }

  /** sortTreeItems orders every level of the tree by position. */
  lemma {:induction false} SortTreeSorted(items: seq<Node>)
    ensures SortedDeep(SortTree(items))
    decreases items, 1
  {
    var mapped := SortChildren(items);
    var r := SortTree(items);
    SortSorted(mapped);
    SortPermutes(mapped);
    forall i | 0 <= i < |r| && r[i].Folder?
      ensures SortedDeep(r[i].children)
    {
      assert r[i] in multiset(mapped);
      var k :| 0 <= k < |mapped| && mapped[k] == r[i];
      assert r[i] == SortOne(items[k]);
      SortTreeSorted(items[k].children);
    }
  }

  /** The map step commutes with inserting, because it keeps every position. */
  lemma {:induction false} SortChildrenInsert(t: seq<Node>, x: Node)
    ensures SortChildren(Insert(t, x)) == Insert(SortChildren(t), SortOne(x))
    decreases t
  {
    if t == [] {
    } else if x.position < t[0].position {
      SortChildrenCons(x, t);
    } else {
      SortChildrenInsert(t[1..], x);
      InsertUnfold(t, x);
      SortChildrenCons(t[0], Insert(t[1..], x));
      SortChildrenCons(t[0], t[1..]);
      assert [t[0]] + t[1..] == t;
      InsertUnfold(SortChildren(t), SortOne(x));
    }
  }

  lemma SortChildrenCons(n: Node, rest: seq<Node>)
    ensures SortChildren([n] + rest) == [SortOne(n)] + SortChildren(rest)
  {
    assert ([n] + rest)[1..] == rest;
  }

  /** Sorting a level and then its folders' children, as sortTreeItems does, gives SortTree. */
  lemma {:induction false} SortCommutes(s: seq<Node>)
    ensures SortChildren(SortByPosition(s)) == SortTree(s)
    decreases |s|
  {
    if s != [] {
      var front, x := s[..|s| - 1], s[|s| - 1];
      SortCommutes(front);
      SortChildrenInsert(SortByPosition(front), x);
      SortChildrenLast(s);
    }
  }

  lemma SortChildrenLast(s: seq<Node>)
    requires s != []
    ensures SortChildren(s)[..|s| - 1] == SortChildren(s[..|s| - 1])
    ensures SortChildren(s)[|s| - 1] == SortOne(s[|s| - 1])
  {
  }

  // ---------------------------------------------------------------------------
  // Grouping: every row lands exactly once, in the right place
  // ---------------------------------------------------------------------------

  /** The rows without a parent, in order. */
  function Roots(rows: seq<DbBookmark>): (r: seq<DbBookmark>)
    ensures |r| <= |rows|
    decreases |rows|
  {
    if rows == [] then []
    else
      var row := rows[|rows| - 1];
      Roots(rows[..|rows| - 1]) + (if !Truthy(row.parentId) then [row] else [])
  }

  /** The ids of the rows, as strings. */
  function RowIds(rows: seq<DbBookmark>): seq<string> {
    seq(|rows|, i requires 0 <= i < |rows| => DecimalString(rows[i].id))
  }

  /** The ids of the rows with a parent, in order. */
  function ChildIds(rows: seq<DbBookmark>): seq<string>
    decreases |rows|
  {
    if rows == [] then []
    else
      var row := rows[|rows| - 1];
      ChildIds(rows[..|rows| - 1]) + (if Truthy(row.parentId) then [DecimalString(row.id)] else [])
  }

  lemma RowIdsAppend(a: seq<DbBookmark>, b: seq<DbBookmark>)
    ensures RowIds(a + b) == RowIds(a) + RowIds(b)
  {
    assert forall i :: 0 <= i < |a + b| ==> RowIds(a + b)[i] == (RowIds(a) + RowIds(b))[i];
  }

  lemma {:induction false} RowIdsSplit(rows: seq<DbBookmark>)
    ensures multiset(RowIds(rows)) == multiset(RowIds(Roots(rows))) + multiset(ChildIds(rows))
    decreases |rows|
  {
    if rows != [] {
      var front, row := rows[..|rows| - 1], rows[|rows| - 1];
      var id := multiset{DecimalString(row.id)};
      RowIdsSplit(front);
      RowIdsLast(rows);
      if Truthy(row.parentId) {
        assert Roots(rows) == Roots(front);
        assert multiset(ChildIds(rows)) == multiset(ChildIds(front)) + id;
        MultisetAddRight(multiset(RowIds(front)), multiset(RowIds(Roots(front))), multiset(ChildIds(front)), id);
      } else {
        assert ChildIds(rows) == ChildIds(front);
        RowIdsLast(Roots(rows));
        assert Roots(rows)[..|Roots(rows)| - 1] == Roots(front);
        MultisetAddLeft(multiset(RowIds(front)), multiset(RowIds(Roots(front))), multiset(ChildIds(front)), id);
      }
    }
  }

  lemma RowIdsLast(rows: seq<DbBookmark>)
    requires rows != []
    ensures multiset(RowIds(rows)) == multiset(RowIds(rows[..|rows| - 1])) + multiset{DecimalString(rows[|rows| - 1].id)}
  {
    assert rows == rows[..|rows| - 1] + [rows[|rows| - 1]];
    RowIdsAppend(rows[..|rows| - 1], [rows[|rows| - 1]]);
  }

  lemma MultisetAddRight<T>(x: multiset<T>, a: multiset<T>, b: multiset<T>, e: multiset<T>)
    requires x == a + b
    ensures x + e == a + (b + e)
  {
  }

  lemma MultisetAddLeft<T>(x: multiset<T>, a: multiset<T>, b: multiset<T>, e: multiset<T>)
    requires x == a + b
    ensures x + e == (a + e) + b
  {
  }

  /** The first pass makes one folder per root row, in row order, and maps each id to its folder. */
  lemma FirstPassRoots(rows: seq<DbBookmark>)
    ensures |FirstPass(rows).0| == |Roots(rows)|
    ensures forall k :: 0 <= k < |Roots(rows)| ==> FirstPass(rows).0[k] == RootFolder(Roots(rows)[k])
    ensures forall key :: key in FirstPass(rows).1 <==> key in RowIds(Roots(rows))
    ensures forall key :: key in FirstPass(rows).1 ==> FirstPass(rows).0[FirstPass(rows).1[key]].id == key
    ensures Ids(FirstPass(rows).0) == RowIds(Roots(rows))
  {
    FirstPassFolders(rows);
    FirstPassMap(rows);
    FirstPassIds(rows);
  }

  /** One step of the first pass and of Roots. */
  lemma FirstPassUnfold(rows: seq<DbBookmark>)
    requires rows != []
    ensures var front, row := rows[..|rows| - 1], rows[|rows| - 1];
            && (!Truthy(row.parentId) ==>
                  && FirstPass(rows).0 == FirstPass(front).0 + [RootFolder(row)]
                  && FirstPass(rows).1 == FirstPass(front).1[DecimalString(row.id) := |FirstPass(front).0|]
                  && Roots(rows) == Roots(front) + [row])
            && (Truthy(row.parentId) ==> FirstPass(rows) == FirstPass(front) && Roots(rows) == Roots(front))
  {
  }

  lemma {:induction false} FirstPassFolders(rows: seq<DbBookmark>)
    ensures |FirstPass(rows).0| == |Roots(rows)|
    ensures forall k :: 0 <= k < |Roots(rows)| ==> FirstPass(rows).0[k] == RootFolder(Roots(rows)[k])
    decreases |rows|
  {
    if rows != [] {
      FirstPassFolders(rows[..|rows| - 1]);
      FirstPassUnfold(rows);
    }
  }

  lemma {:induction false} FirstPassMap(rows: seq<DbBookmark>)
    ensures |FirstPass(rows).0| == |Roots(rows)|
    ensures forall key :: key in FirstPass(rows).1 <==> key in RowIds(Roots(rows))
    ensures forall key :: key in FirstPass(rows).1 ==> FirstPass(rows).0[FirstPass(rows).1[key]].id == key
    decreases |rows|
  {
    if rows != [] {
      var front, row := rows[..|rows| - 1], rows[|rows| - 1];
      FirstPassMap(front);
      FirstPassUnfold(rows);
      if !Truthy(row.parentId) {
        var ids := RowIds(Roots(front));
        var id := DecimalString(row.id);
        assert RowIds(Roots(rows)) == ids + [id] by {
          RowIdsAppend(Roots(front), [row]);
        }
        forall key
          ensures key in FirstPass(rows).1 <==> key in ids + [id]
        {
          assert key in ids + [id] <==> key in ids || key == id;
        }
      }
    }
  }

  lemma {:induction false} FirstPassIds(rows: seq<DbBookmark>)
    ensures Ids(FirstPass(rows).0) == RowIds(Roots(rows))
    decreases |rows|
  {
    if rows != [] {
      var front, row := rows[..|rows| - 1], rows[|rows| - 1];
      FirstPassIds(front);
      FirstPassUnfold(rows);
      if !Truthy(row.parentId) {
        TreeLemmas.IdsAppend(FirstPass(front).0, [RootFolder(row)]);
        TreeLemmas.IdsSingle(RootFolder(row));
        RowIdsAppend(Roots(front), [row]);
      }
    }
  }

  /** `b` is `a`, or the same folder with more children appended. */
  predicate Extends(a: Node, b: Node) {
    if a.Folder? then
      && b.Folder? && b.id == a.id && b.name == a.name && b.position == a.position
      && b.parentId == a.parentId && b.isExpanded == a.isExpanded && a.children <= b.children
    else b == a
  }

  /** Each item of `a` is extended at the same index of `b`, which may be longer. */
  predicate Grows(a: seq<Node>, b: seq<Node>) {
    |a| <= |b| && forall k :: 0 <= k < |a| ==> Extends(a[k], b[k])
  }

  lemma GrowsTrans(a: seq<Node>, b: seq<Node>, c: seq<Node>)
    requires Grows(a, b) && Grows(b, c)
    ensures Grows(a, c)
  {
    forall k | 0 <= k < |a|
      ensures Extends(a[k], c[k])
    {
      assert Extends(a[k], b[k]) && Extends(b[k], c[k]);
    }
  }

  lemma PlaceGrows(items: seq<Node>, m: map<string, nat>, row: DbBookmark, parse: JsonParser)
    requires FolderIndex(items, m)
    ensures Grows(items, Place(items, m, row, parse))
  {
  }

  /** The second pass only appends: what an earlier step placed is still there at the end. */
  lemma {:induction false} SecondPassGrows(rows: seq<DbBookmark>, j: nat, items: seq<Node>, m: map<string, nat>, parse: JsonParser)
    requires FolderIndex(items, m) && j <= |rows|
    ensures Grows(SecondPass(rows[..j], items, m, parse), SecondPass(rows, items, m, parse))
    decreases |rows|
  {
    if j == |rows| {
      assert rows[..j] == rows;
    } else {
      var front := rows[..|rows| - 1];
      assert front[..j] == rows[..j];
      SecondPassGrows(front, j, items, m, parse);
      var before := SecondPass(front, items, m, parse);
      PlaceGrows(before, m, rows[|rows| - 1], parse);
      GrowsTrans(SecondPass(rows[..j], items, m, parse), before, SecondPass(rows, items, m, parse));
    }
  }

  lemma AppendChildIds(f: Node, b: Node)
    requires f.Folder? && b.Bookmark?
    ensures multiset(Ids([AppendChild(f, b)])) == multiset(Ids([f])) + multiset{b.id}
  {
    TreeLemmas.IdsSingle(f);
    TreeLemmas.IdsSingle(AppendChild(f, b));
    TreeLemmas.IdsSingle(b);
    TreeLemmas.IdsAppend(f.children, [b]);
  }

  lemma PlaceIds(items: seq<Node>, m: map<string, nat>, row: DbBookmark, parse: JsonParser)
    requires FolderIndex(items, m)
    ensures multiset(Ids(Place(items, m, row, parse)))
            == multiset(Ids(items)) + (if Truthy(row.parentId) then multiset{DecimalString(row.id)} else multiset{})
  {
    if Truthy(row.parentId) {
      var b := RowBookmark(row, parse);
      var key := row.parentId.value;
      if key in m {
        PlaceInFolderIds(items, m[key], b);
      } else {
        PlaceAtTopIds(items, b);
      }
    }
  }

  lemma PlaceInFolderIds(items: seq<Node>, k: nat, b: Node)
    requires k < |items| && items[k].Folder? && b.Bookmark?
    ensures multiset(Ids(items[k := AppendChild(items[k], b)])) == multiset(Ids(items)) + multiset{b.id}
  {
    AppendChildIds(items[k], b);
    IdsSwapAt(items, k, AppendChild(items[k], b), multiset{b.id});
  }

  /** Setting one item adds what the new item has beyond the old one. */
  lemma IdsSwapAt(items: seq<Node>, k: nat, n: Node, e: multiset<string>)
    requires k < |items| && multiset(Ids([n])) == multiset(Ids([items[k]])) + e
    ensures multiset(Ids(items[k := n])) == multiset(Ids(items)) + e
  {
    IdsAround(items, k, items[k]);
    IdsAround(items, k, n);
    assert items[k := items[k]] == items;
    MultisetGrowMiddle(multiset(Ids(items)), multiset(Ids(items[k := n])), multiset(Ids(items[..k])),
                       multiset(Ids([items[k]])), multiset(Ids([n])), multiset(Ids(items[k + 1..])), e);
  }

  /** The ids of a list with one item set, as the ids around it and the ids of the item. */
  lemma IdsAround(items: seq<Node>, k: nat, n: Node)
    requires k < |items|
    ensures multiset(Ids(items[k := n]))
            == multiset(Ids(items[..k])) + multiset(Ids([n])) + multiset(Ids(items[k + 1..]))
  {
    var r := items[k := n];
    TreeLemmas.IdsSplitAt(r, k);
    assert r[..k] == items[..k] && r[k + 1..] == items[k + 1..];
  }

  lemma MultisetGrowMiddle<T>(x: multiset<T>, y: multiset<T>, f: multiset<T>, a: multiset<T>,
                              a': multiset<T>, c: multiset<T>, e: multiset<T>)
    requires x == f + a + c && y == f + a' + c && a' == a + e
    ensures y == x + e
  {
  }

  lemma PlaceAtTopIds(items: seq<Node>, b: Node)
    requires b.Bookmark?
    ensures multiset(Ids(items + [b])) == multiset(Ids(items)) + multiset{b.id}
  {
    TreeLemmas.IdsAppend(items, [b]);
    TreeLemmas.IdsSingle(b);
  }

  lemma {:induction false} SecondPassIds(rows: seq<DbBookmark>, items: seq<Node>, m: map<string, nat>, parse: JsonParser)
    requires FolderIndex(items, m)
    ensures multiset(Ids(SecondPass(rows, items, m, parse))) == multiset(Ids(items)) + multiset(ChildIds(rows))
    decreases |rows|
  {
    if rows != [] {
      var front := rows[..|rows| - 1];
      SecondPassIds(front, items, m, parse);
      PlaceIds(SecondPass(front, items, m, parse), m, rows[|rows| - 1], parse);
    }
  }

  /** Grouping keeps every row: the tree holds each row's id exactly as often as the rows do. */
  lemma GroupIds(rows: seq<DbBookmark>, parse: JsonParser)
    ensures multiset(Ids(Group(rows, parse))) == multiset(RowIds(rows))
  {
    FirstPassRoots(rows);
    SecondPassIds(rows, FirstPass(rows).0, FirstPass(rows).1, parse);
    RowIdsSplit(rows);
  }

  /** The top level starts with one expanded folder per root row, in row order. */
  lemma GroupKeepsRoots(rows: seq<DbBookmark>, parse: JsonParser)
    ensures |Roots(rows)| <= |Group(rows, parse)|
    ensures forall k :: 0 <= k < |Roots(rows)| ==>
              Extends(RootFolder(Roots(rows)[k]), Group(rows, parse)[k])
  {
    var (items, m) := FirstPass(rows);
    FirstPassRoots(rows);
    SecondPassGrows(rows, 0, items, m, parse);
    assert rows[..0] == [];
  }

  /**
   * A row with a parent becomes a bookmark in the children of the folder
   * whose id is that parent (the last root row with that id), or at the top
   * level when no root row has that id.
   */
  lemma GroupPlacesRow(rows: seq<DbBookmark>, parse: JsonParser, i: int)
    requires 0 <= i < |rows| && Truthy(rows[i].parentId)
    ensures var m := FirstPass(rows).1;
            var key := rows[i].parentId.value;
            var g := Group(rows, parse);
            && (key in m <==> key in RowIds(Roots(rows)))
            && (key in m ==> g[m[key]].Folder? && g[m[key]].id == key && RowBookmark(rows[i], parse) in g[m[key]].children)
            && (key !in m ==> RowBookmark(rows[i], parse) in g)
  {
    var items, m := FirstPass(rows).0, FirstPass(rows).1;
    var key := rows[i].parentId.value;
    var b := RowBookmark(rows[i], parse);
    var before := SecondPass(rows[..i], items, m, parse);
    var after := SecondPass(rows[..i + 1], items, m, parse);
    FirstPassRoots(rows);
    GroupStep(rows, parse, i);
    if key in m {
      PlacedInFolder(items, before, after, Group(rows, parse), m[key], b);
    } else {
      PlacedAtTop(before, after, Group(rows, parse), b);
    }
  }

  /** The step of the second pass that handles row `i`, and what the rest of the pass keeps of it. */
  lemma GroupStep(rows: seq<DbBookmark>, parse: JsonParser, i: int)
    requires 0 <= i < |rows|
    ensures var items, m := FirstPass(rows).0, FirstPass(rows).1;
            var after := SecondPass(rows[..i + 1], items, m, parse);
            && after == Place(SecondPass(rows[..i], items, m, parse), m, rows[i], parse)
            && Grows(after, Group(rows, parse))
            && Grows(items, Group(rows, parse))
  {
    var items, m := FirstPass(rows).0, FirstPass(rows).1;
    assert rows[..i + 1][..i] == rows[..i];
    SecondPassGrows(rows, i + 1, items, m, parse);
    assert rows[..0] == [];
    SecondPassGrows(rows, 0, items, m, parse);
  }

  lemma PlacedInFolder(items: seq<Node>, before: seq<Node>, after: seq<Node>, g: seq<Node>, k: nat, b: Node)
    requires k < |items| && items[k].Folder? && k < |before| && before[k].Folder?
    requires after == before[k := AppendChild(before[k], b)]
    requires Grows(after, g) && Grows(items, g)
    ensures g[k].Folder? && g[k].id == items[k].id && b in g[k].children
  {
    var cs := after[k].children;
    assert cs[|cs| - 1] == b;
    assert Extends(after[k], g[k]);
    assert cs <= g[k].children;
    assert g[k].children[|cs| - 1] == b;
    assert Extends(items[k], g[k]);
  }

  lemma PlacedAtTop(before: seq<Node>, after: seq<Node>, g: seq<Node>, b: Node)
    requires b.Bookmark? && after == before + [b] && Grows(after, g)
    ensures b in g
  {
    assert after[|before|] == b;
    assert Extends(after[|before|], g[|before|]);
  }

  /**
   * transformDbDataToTreeItems keeps every row exactly once and orders every
   * level of the result by position.
   */
  lemma TransformResult(rows: seq<DbBookmark>, parse: JsonParser)
    ensures multiset(Ids(SortTree(Group(rows, parse)))) == multiset(RowIds(rows))
    ensures SortedDeep(SortTree(Group(rows, parse)))
  {
    GroupIds(rows, parse);
    SortTreeIds(Group(rows, parse));
    SortTreeSorted(Group(rows, parse));
  }
}
