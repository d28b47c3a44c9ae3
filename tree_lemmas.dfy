/**
 * Properties of the tree helpers and of moveItem, addItem and updateItem as
 * defined in TreeStore.
 */
module TreeLemmas {
  import opened Wrappers
  import opened TreeTypes
  import opened TreeStore

  // ---------------------------------------------------------------------------
  // Multiset bookkeeping
  // ---------------------------------------------------------------------------

  /** Exchanging a middle part of a sequence exchanges its multiset contribution. */
  lemma MultisetTrade<T>(a: seq<T>, b: seq<T>, b': seq<T>, c: seq<T>, f: multiset<T>, m: multiset<T>)
    requires multiset(b') + f == multiset(b) + m
    ensures multiset(a + b' + c) + f == multiset(a + b + c) + m
  {
    assert multiset(a + b' + c) == multiset(a) + multiset(b') + multiset(c);
    assert multiset(a + b + c) == multiset(a) + multiset(b) + multiset(c);
    calc {
      multiset(a + b' + c) + f;
      multiset(a) + multiset(c) + (multiset(b') + f);
      multiset(a) + multiset(c) + (multiset(b) + m);
      multiset(a + b + c) + m;
    }
  }

  lemma MultisetDropMiddle<T>(a: seq<T>, b: seq<T>, c: seq<T>)
    ensures multiset(a + (b + c)) == multiset(a + c) + multiset(b)
  {
    assert multiset(a + (b + c)) == multiset(a) + (multiset(b) + multiset(c));
    assert multiset(a + c) == multiset(a) + multiset(c);
  }

  /** MultisetTrade with nothing before the exchanged part. */
  lemma MultisetTradeFront<T>(b: seq<T>, b': seq<T>, c: seq<T>, f: multiset<T>, m: multiset<T>)
    requires multiset(b') + f == multiset(b) + m
    ensures multiset(b' + c) + f == multiset(b + c) + m
  {
    calc {
      multiset(b' + c) + f;
      multiset(c) + (multiset(b') + f);
      multiset(c) + (multiset(b) + m);
      multiset(b + c) + m;
    }
  }

  /** MultisetTrade with nothing after the exchanged part. */
  lemma MultisetTradeBack<T>(a: seq<T>, b: seq<T>, b': seq<T>, f: multiset<T>, m: multiset<T>)
    requires multiset(b') + f == multiset(b) + m
    ensures multiset(a + b') + f == multiset(a + b) + m
  {
    calc {
      multiset(a + b') + f;
      multiset(a) + (multiset(b') + f);
      multiset(a) + (multiset(b) + m);
      multiset(a + b) + m;
    }
  }

  lemma MultisetCancel<T>(x: multiset<T>, y: multiset<T>, t: multiset<T>)
    requires x + t == y + t
    ensures x == y
  {
    forall e
      ensures x[e] == y[e]
    {
      assert (x + t)[e] == (y + t)[e];
    }
  }

  // ---------------------------------------------------------------------------
  // Pre-order views
  // ---------------------------------------------------------------------------

  lemma IdsOfAppend(a: seq<Node>, b: seq<Node>)
    ensures IdsOf(a + b) == IdsOf(a) + IdsOf(b)
  {
    assert forall i :: 0 <= i < |a + b| ==> IdsOf(a + b)[i] == (IdsOf(a) + IdsOf(b))[i];
  }

  lemma NodesUnfold(items: seq<Node>)
    requires items != []
    ensures Nodes(items) == [items[0]] + ((if items[0].Folder? then Nodes(items[0].children) else []) + Nodes(items[1..]))
  {
  }

  /** The ids of a tree are the ids of its items in pre-order. */
  lemma {:induction false} IdsArePreorder(items: seq<Node>)
    ensures Ids(items) == IdsOf(Nodes(items))
    decreases items
  {
    if items != [] {
      var n := items[0];
      PreorderUnfold(items);
      if n.Folder? {
        IdsArePreorder(n.children);
      }
      IdsArePreorder(items[1..]);
    }
  }

  /** One step of both views: the first item, what is below it, then the rest. */
  lemma PreorderUnfold(items: seq<Node>)
    requires items != []
    ensures var n := items[0];
            IdsOf(Nodes(items))
            == [n.id] + (IdsOf(if n.Folder? then Nodes(n.children) else []) + IdsOf(Nodes(items[1..])))
    ensures var n := items[0];
            Ids(items) == [n.id] + ((if n.Folder? then Ids(n.children) else []) + Ids(items[1..]))
  {
    var n := items[0];
    NodesUnfold(items);
    IdsOfCons(n, if n.Folder? then Nodes(n.children) else [], Nodes(items[1..]));
    SeqAssoc([n.id], if n.Folder? then Ids(n.children) else [], Ids(items[1..]));
  }

  lemma IdsOfCons(n: Node, below: seq<Node>, rest: seq<Node>)
    ensures IdsOf([n] + (below + rest)) == [n.id] + (IdsOf(below) + IdsOf(rest))
  {
    IdsOfAppend([n], below + rest);
    IdsOfAppend(below, rest);
    assert IdsOf([n]) == [n.id];
  }

  lemma {:induction false} IdsAppend(a: seq<Node>, b: seq<Node>)
    ensures Ids(a + b) == Ids(a) + Ids(b)
    decreases a
  {
    if a == [] {
      assert a + b == b;
    } else {
      assert (a + b)[0] == a[0];
      assert (a + b)[1..] == a[1..] + b;
      IdsAppend(a[1..], b);
    }
  }

  /** The ids of one item: its own, then those below it. */
  lemma IdsSingle(n: Node)
    ensures Ids([n]) == [n.id] + (if n.Folder? then Ids(n.children) else [])
  {
    assert [n][1..] == [];
  }

  lemma IdsCons(n: Node, rest: seq<Node>)
    ensures Ids([n] + rest) == Ids([n]) + Ids(rest)
  {
    IdsAppend([n], rest);
  }

  /** The ids of a non-empty list: those of its first item, then the rest. */
  lemma IdsSplitHead(items: seq<Node>)
    requires items != []
    ensures Ids(items) == Ids([items[0]]) + Ids(items[1..])
  {
    assert items == [items[0]] + items[1..];
    IdsCons(items[0], items[1..]);
  }

  /** The ids around one index of a list, and of the list without that item. */
  lemma IdsSplitAt(items: seq<Node>, k: int)
    requires 0 <= k < |items|
    ensures Ids(items) == Ids(items[..k]) + (Ids([items[k]]) + Ids(items[k + 1..]))
    ensures Ids(items[..k] + items[k + 1..]) == Ids(items[..k]) + Ids(items[k + 1..])
  {
    var front, back := items[..k], items[k + 1..];
    SplitAround(items, k);
    IdsAppend(front, [items[k]] + back);
    IdsCons(items[k], back);
    IdsAppend(front, back);
  }

  lemma SplitAround<T>(s: seq<T>, k: int)
    requires 0 <= k < |s|
    ensures s == s[..k] + ([s[k]] + s[k + 1..])
  {
  }

  lemma WithParentIds(n: Node, p: Option<string>)
    ensures Ids([n.WithParent(p)]) == Ids([n])
  {
    IdsSingle(n.WithParent(p));
    IdsSingle(n);
  }

  /** A folder whose children gain some ids gains exactly those ids. */
  lemma IdsReplaceChildren(f: Node, children: seq<Node>, extra: multiset<string>)
    requires f.Folder?
    requires multiset(Ids(children)) == multiset(Ids(f.children)) + extra
    ensures multiset(Ids([f.(children := children)])) == multiset(Ids([f])) + extra
  {
    IdsSingle(f.(children := children));
    IdsSingle(f);
    MultisetTradeBack([f.id], Ids(f.children), Ids(children), multiset{}, extra);
  }

  lemma SpliceInsertIds(s: seq<Node>, start: int, x: Node)
    ensures multiset(Ids(SpliceInsert(s, start, x))) == multiset(Ids(s)) + multiset(Ids([x]))
  {
    var k := ClampStart(|s|, start);
    var front, back := s[..k], s[k..];
    SpliceShape(s, start, x);
    IdsAppendMultiset(front, [x] + back);
    IdsAppendMultiset([x], back);
    IdsAppendMultiset(front, back);
    MultisetMiddle(multiset(Ids(front)), multiset(Ids([x])), multiset(Ids(back)));
  }

  lemma SpliceShape(s: seq<Node>, start: int, x: Node)
    ensures var k := ClampStart(|s|, start);
            SpliceInsert(s, start, x) == s[..k] + ([x] + s[k..]) && s == s[..k] + s[k..]
  {
  }

  lemma IdsAppendMultiset(a: seq<Node>, b: seq<Node>)
    ensures multiset(Ids(a + b)) == multiset(Ids(a)) + multiset(Ids(b))
  {
    IdsAppend(a, b);
  }

  lemma MultisetMiddle<T>(a: multiset<T>, b: multiset<T>, c: multiset<T>)
    ensures a + (b + c) == a + c + b
  {
  }

  lemma NodesHead(items: seq<Node>)
    requires items != []
    ensures items[0] in Nodes(items)
    ensures items[0].Folder? ==> forall x :: x in Nodes(items[0].children) ==> x in Nodes(items)
    ensures forall x :: x in Nodes(items[1..]) ==> x in Nodes(items)
  {
    NodesUnfold(items);
  }

  /** A top-level item is an item of the tree. */
  lemma {:induction false} NodesTop(items: seq<Node>, k: int)
    requires 0 <= k < |items|
    ensures items[k] in Nodes(items)
    decreases k
  {
    NodesHead(items);
    if k > 0 {
      NodesTop(items[1..], k - 1);
    }
  }

  /** The items below a folder of the tree are items of the tree. */
  lemma {:induction false} NodesNested(items: seq<Node>, f: Node, x: Node)
    requires f in Nodes(items) && f.Folder? && x in Nodes(f.children)
    ensures x in Nodes(items)
    decreases items
  {
    NodesUnfold(items);
    NodesHead(items);
    if f != items[0] {
      if items[0].Folder? && f in Nodes(items[0].children) {
        NodesNested(items[0].children, f, x);
      } else {
        NodesNested(items[1..], f, x);
      }
    }
  }

  // ---------------------------------------------------------------------------
  // findItemRecursive
  // ---------------------------------------------------------------------------

  lemma {:induction false} FirstWithIdAppend(a: seq<Node>, b: seq<Node>, id: string)
    ensures FirstWithId(a + b, id) == if FirstWithId(a, id).Some? then FirstWithId(a, id) else FirstWithId(b, id)
    decreases a
  {
    if a != [] {
      assert (a + b)[1..] == a[1..] + b;
      FirstWithIdAppend(a[1..], b, id);
    } else {
      assert a + b == b;
    }
  }

  lemma {:induction false} FirstWithIdSpec(ns: seq<Node>, id: string)
    ensures FirstWithId(ns, id).Some? <==> id in IdsOf(ns)
    ensures FirstWithId(ns, id).Some? ==> FirstWithId(ns, id).value in ns && FirstWithId(ns, id).value.id == id
    decreases ns
  {
    if ns != [] {
      FirstWithIdSpec(ns[1..], id);
      assert IdsOf(ns) == [ns[0].id] + IdsOf(ns[1..]);
    }
  }

  /** The first match in the pre-order of a list whose head does not match. */
  lemma FirstWithIdPastHead(items: seq<Node>, id: string)
    requires items != [] && items[0].id != id
    ensures var below := if items[0].Folder? then Nodes(items[0].children) else [];
            FirstWithId(Nodes(items), id)
            == if FirstWithId(below, id).Some? then FirstWithId(below, id) else FirstWithId(Nodes(items[1..]), id)
  {
    NodesUnfold(items);
    var below := if items[0].Folder? then Nodes(items[0].children) else [];
    FirstWithIdAppend(below, Nodes(items[1..]), id);
  }

  /** findItemRecursive returns the first item with the id in depth-first pre-order. */
  lemma {:induction false} FindIsFirstInPreorder(items: seq<Node>, id: string)
    ensures Find(items, id) == FirstWithId(Nodes(items), id)
    decreases items
  {
    if items != [] && items[0].id != id {
      FirstWithIdPastHead(items, id);
      if items[0].Folder? {
        FindIsFirstInPreorder(items[0].children, id);
      }
      FindIsFirstInPreorder(items[1..], id);
    }
  }

  /** findItemRecursive finds an item exactly when the id occurs in the tree. */
  lemma FindSpec(items: seq<Node>, id: string)
    ensures Find(items, id).Some? <==> id in Ids(items)
    ensures Find(items, id).Some? ==> Find(items, id).value in Nodes(items) && Find(items, id).value.id == id
  {
    IdsArePreorder(items);
    FindIsFirstInPreorder(items, id);
    FirstWithIdSpec(Nodes(items), id);
  }

  /** With unique ids, two items of the tree with the same id are the same item. */
  lemma UniqueItem(items: seq<Node>, a: Node, b: Node)
    requires UniqueIds(items)
    requires a in Nodes(items) && b in Nodes(items) && a.id == b.id
    ensures a == b
  {
    IdsArePreorder(items);
    var ns := Nodes(items);
    var i :| 0 <= i < |ns| && ns[i] == a;
    var j :| 0 <= j < |ns| && ns[j] == b;
    assert Ids(items)[i] == a.id && Ids(items)[j] == b.id;
  }

  // ---------------------------------------------------------------------------
  // removeItemFromParent
  // ---------------------------------------------------------------------------

  /**
   * `r` is what removing `id` from `items` should give: an item exactly when
   * the id occurs, the tree unchanged otherwise, and when an item is removed
   * it has the id, comes from the tree, and with its whole subtree accounts
   * for every id that disappears.
   */
  ghost predicate RemovesExactly(items: seq<Node>, id: string, r: (seq<Node>, Option<Node>)) {
    && (r.1.Some? <==> id in Ids(items))
    && (r.1.None? ==> r.0 == items)
    && (r.1.Some? ==>
          && r.1.value.id == id
          && r.1.value in Nodes(items)
          && multiset(Ids(items)) == multiset(Ids(r.0)) + multiset(Ids([r.1.value])))
  }

  /** removeItemFromParent removes exactly one item when the id occurs and nothing otherwise. */
  lemma {:induction false} RemoveFirstSpec(items: seq<Node>, id: string)
    ensures RemovesExactly(items, id, RemoveFirst(items, id))
    decreases items, 1
  {
    var k := IndexOfId(items, id);
    if k >= 0 {
      IdsSplitAt(items, k);
      IdsSingle(items[k]);
      NodesTop(items, k);
      MultisetDropMiddle(Ids(items[..k]), Ids([items[k]]), Ids(items[k + 1..]));
    } else {
      RemoveInFoldersSpec(items, id);
    }
  }

  lemma {:induction false} RemoveInFoldersSpec(items: seq<Node>, id: string)
    requires IndexOfId(items, id) == -1
    ensures RemovesExactly(items, id, RemoveInFolders(items, id))
    decreases items, 0
  {
    if items != [] {
      var n := items[0];
      if n.Folder? {
        RemoveFirstSpec(n.children, id);
      }
      if n.Folder? && RemoveFirst(n.children, id).1.Some? {
        RemovedInHead(items, id, RemoveFirst(n.children, id));
      } else {
        assert IndexOfId(items[1..], id) == -1;
        RemoveInFoldersSpec(items[1..], id);
        RemovedInTail(items, id, RemoveInFolders(items[1..], id));
      }
    }
  }

  /** The item was removed below the first item. */
  lemma RemovedInHead(items: seq<Node>, id: string, inner: (seq<Node>, Option<Node>))
    requires items != [] && items[0].id != id && items[0].Folder?
    requires RemovesExactly(items[0].children, id, inner) && inner.1.Some?
    ensures RemovesExactly(items, id, ([items[0].(children := inner.0)] + items[1..], inner.1))
  {
    var n := items[0];
    var n' := n.(children := inner.0);
    var v := multiset(Ids([inner.1.value]));
    IdsSplitHead(items);
    IdsSingle(n);
    NodesHead(items);
    IdsCons(n', items[1..]);
    IdsSingle(n');
    MultisetTrade([n.id], Ids(inner.0), Ids(n.children), Ids(items[1..]), multiset{}, v);
  }

  /** The item was not below the first item; the rest of the list was searched. */
  lemma RemovedInTail(items: seq<Node>, id: string, r: (seq<Node>, Option<Node>))
    requires items != [] && items[0].id != id
    requires items[0].Folder? ==> id !in Ids(items[0].children)
    requires RemovesExactly(items[1..], id, r)
    ensures RemovesExactly(items, id, ([items[0]] + r.0, r.1))
  {
    assert id in Ids(items) <==> id in Ids(items[1..]) by {
      IdsSplitHead(items);
      IdsSingle(items[0]);
    }
    if r.1.None? {
      assert [items[0]] + r.0 == items;
    } else {
      RemovedInTailIds(items, r.0, multiset(Ids([r.1.value])));
      NodesHead(items);
    }
  }

  lemma RemovedInTailIds(items: seq<Node>, rest': seq<Node>, v: multiset<string>)
    requires items != []
    requires multiset(Ids(items[1..])) == multiset(Ids(rest')) + v
    ensures multiset(Ids(items)) == multiset(Ids([items[0]] + rest')) + v
  {
    var n := items[0];
    IdsSplitHead(items);
    IdsCons(n, rest');
    MultisetTradeBack(Ids([n]), Ids(rest'), Ids(items[1..]), multiset{}, v);
  }

  /** With unique ids, the item removeItemFromParent removes is the one findItemRecursive finds. */
  lemma RemovedIsFound(items: seq<Node>, id: string)
    requires UniqueIds(items)
    ensures RemoveFirst(items, id).1 == Find(items, id)
  {
    RemoveFirstSpec(items, id);
    FindSpec(items, id);
    if Find(items, id).Some? {
      UniqueItem(items, RemoveFirst(items, id).1.value, Find(items, id).value);
    }
  }

  // ---------------------------------------------------------------------------
  // Replacing the found item
  // ---------------------------------------------------------------------------

  /** Replacing the item Find returns trades its ids for the new item's ids. */
  lemma {:induction false} ReplaceFirstIds(items: seq<Node>, id: string, m: Node)
    requires Find(items, id).Some?
    ensures multiset(Ids(ReplaceFirst(items, id, m))) + multiset(Ids([Find(items, id).value]))
            == multiset(Ids(items)) + multiset(Ids([m]))
    decreases items
  {
    var n := items[0];
    if n.id == id {
      ReplacedHead(items, m);
    } else if n.Folder? && Find(n.children, id).Some? {
      ReplaceFirstIds(n.children, id, m);
      ReplacedBelowHead(items, ReplaceFirst(n.children, id, m),
                        multiset(Ids([Find(n.children, id).value])), multiset(Ids([m])));
    } else {
      ReplaceFirstIds(items[1..], id, m);
      ReplacedInTail(items, ReplaceFirst(items[1..], id, m),
                     multiset(Ids([Find(items[1..], id).value])), multiset(Ids([m])));
    }
  }

  lemma ReplacedHead(items: seq<Node>, m: Node)
    requires items != []
    ensures multiset(Ids([m] + items[1..])) + multiset(Ids([items[0]])) == multiset(Ids(items)) + multiset(Ids([m]))
  {
    var n, rest := items[0], items[1..];
    IdsSplitHead(items);
    IdsCons(m, rest);
    MultisetTradeFront(Ids([n]), Ids([m]), Ids(rest), multiset(Ids([n])), multiset(Ids([m])));
  }

  lemma ReplacedBelowHead(items: seq<Node>, children: seq<Node>, f: multiset<string>, g: multiset<string>)
    requires items != [] && items[0].Folder?
    requires multiset(Ids(children)) + f == multiset(Ids(items[0].children)) + g
    ensures multiset(Ids([items[0].(children := children)] + items[1..])) + f == multiset(Ids(items)) + g
  {
    var n, rest := items[0], items[1..];
    var n' := n.(children := children);
    IdsSplitHead(items);
    IdsCons(n', rest);
    IdsSingle(n');
    IdsSingle(n);
    MultisetTrade([n.id], Ids(n.children), Ids(children), Ids(rest), f, g);
  }

  lemma ReplacedInTail(items: seq<Node>, rest': seq<Node>, f: multiset<string>, g: multiset<string>)
    requires items != []
    requires multiset(Ids(rest')) + f == multiset(Ids(items[1..])) + g
    ensures multiset(Ids([items[0]] + rest')) + f == multiset(Ids(items)) + g
  {
    var n, rest := items[0], items[1..];
    IdsSplitHead(items);
    IdsCons(n, rest');
    MultisetTradeBack(Ids([n]), Ids(rest), Ids(rest'), f, g);
  }

  /** After replacing the found item by one with the same id, Find returns the new item. */
  lemma {:induction false} FindAfterReplace(items: seq<Node>, id: string, m: Node)
    requires Find(items, id).Some? && m.id == id
    ensures Find(ReplaceFirst(items, id, m), id) == Some(m)
    decreases items
  {
    var n := items[0];
    if n.id != id {
      if n.Folder? && Find(n.children, id).Some? {
        FindAfterReplace(n.children, id, m);
      } else {
        FindAfterReplace(items[1..], id, m);
      }
    }
  }

  /** Replacing an item by one with the same ids conserves the ids of the tree. */
  lemma ReplaceKeepsIds(items: seq<Node>, id: string, m: Node)
    requires Find(items, id).Some? && Ids([m]) == Ids([Find(items, id).value])
    ensures multiset(Ids(ReplaceFirst(items, id, m))) == multiset(Ids(items))
  {
    ReplaceFirstIds(items, id, m);
    MultisetCancel(multiset(Ids(ReplaceFirst(items, id, m))), multiset(Ids(items)), multiset(Ids([m])));
  }

  // ---------------------------------------------------------------------------
  // updatePositions
  // ---------------------------------------------------------------------------

  /** After updatePositions every position is its index and every parentId its folder's id. */
  lemma {:induction false} RenumberPositioned(items: seq<Node>, parentId: Option<string>)
    ensures Positioned(Renumber(items, parentId), parentId)
    decreases items
  {
    RenumberFromAt(items, parentId, 0);
    var r := Renumber(items, parentId);
    forall i | 0 <= i < |items|
      ensures r[i].Folder? ==> Positioned(r[i].children, Some(r[i].id))
    {
      if items[i].Folder? {
        RenumberPositioned(items[i].children, Some(items[i].id));
      }
    }
  }

  /** updatePositions touches nothing but `position` and `parentId`. */
  lemma {:induction false} RenumberSameShape(items: seq<Node>, parentId: Option<string>, start: int)
    ensures SameShape(RenumberFrom(items, parentId, start), items)
    decreases items
  {
    RenumberFromAt(items, parentId, start);
    var r := RenumberFrom(items, parentId, start);
    forall i | 0 <= i < |items|
      ensures r[i].Folder? ==> SameShape(r[i].children, items[i].children)
    {
      if items[i].Folder? {
        RenumberSameShape(items[i].children, Some(items[i].id), 0);
      }
    }
  }

  /** updatePositions changes nothing on a tree that is already numbered. */
  lemma {:induction false} RenumberIdempotent(items: seq<Node>, parentId: Option<string>)
    requires Positioned(items, parentId)
    ensures Renumber(items, parentId) == items
    decreases items
  {
    RenumberFromAt(items, parentId, 0);
    var r := Renumber(items, parentId);
    forall i | 0 <= i < |items|
      ensures r[i] == items[i]
    {
      if items[i].Folder? {
        RenumberIdempotent(items[i].children, Some(items[i].id));
      }
    }
  }

  /** Trees of the same shape have the same ids, in the same order. */
  lemma {:induction false} SameShapeIds(a: seq<Node>, b: seq<Node>)
    requires SameShape(a, b)
    ensures Ids(a) == Ids(b)
    decreases a
  {
    if a != [] {
      if a[0].Folder? {
        SameShapeIds(a[0].children, b[0].children);
      }
      assert SameShape(a[1..], b[1..]);
      SameShapeIds(a[1..], b[1..]);
    }
  }

  lemma RenumberIds(items: seq<Node>, parentId: Option<string>)
    ensures Ids(Renumber(items, parentId)) == Ids(items)
  {
    RenumberSameShape(items, parentId, 0);
    SameShapeIds(Renumber(items, parentId), items);
  }

  /** Trees of the same shape find items of the same shape. */
  lemma {:induction false} FindSameShape(a: seq<Node>, b: seq<Node>, id: string)
    requires SameShape(a, b)
    ensures Find(a, id).Some? <==> Find(b, id).Some?
    ensures Find(a, id).Some? ==> SameShape([Find(a, id).value], [Find(b, id).value])
    decreases a
  {
    if a != [] {
      assert SameShape(a[1..], b[1..]);
      FindSameShape(a[1..], b[1..], id);
      if a[0].Folder? {
        FindSameShape(a[0].children, b[0].children, id);
      }
    }
  }

  // ---------------------------------------------------------------------------
  // moveItem
  // ---------------------------------------------------------------------------

  /** Whatever moveItem places, the source's ids are all the detached tree gains. */
  lemma PlacementIds(detached: seq<Node>, source: Node, targetId: string, position: DropPosition)
    requires Placement(detached, source, targetId, position).Some?
    ensures multiset(Ids(Placement(detached, source, targetId, position).value))
            == multiset(Ids(detached)) + multiset(Ids([source]))
  {
    var target := Find(detached, targetId).value;
    if position == Inside && target.Folder? {
      PlacedInsideIds(detached, source, targetId, target);
    } else if Truthy(target.parentId) {
      PlacedBesideNestedIds(detached, source, targetId, target, position);
    } else {
      PlacedBesideTopIds(detached, source, targetId, target, position);
    }
  }

  lemma PlacedInsideIds(detached: seq<Node>, source: Node, targetId: string, target: Node)
    requires Find(detached, targetId) == Some(target) && target.Folder?
    ensures Placement(detached, source, targetId, Inside).Some?
    ensures multiset(Ids(Placement(detached, source, targetId, Inside).value))
            == multiset(Ids(detached)) + multiset(Ids([source]))
  {
    PlacementInside(detached, source, targetId, target);
    WithParentIds(source, Some(target.id));
    AppendedToFolderIds(detached, targetId, target, source.WithParent(Some(target.id)));
  }

  /** "inside" a folder target appends the source to its children. */
  lemma PlacementInside(detached: seq<Node>, source: Node, targetId: string, target: Node)
    requires Find(detached, targetId) == Some(target) && target.Folder?
    ensures Placement(detached, source, targetId, Inside)
            == Some(ReplaceFirst(detached, targetId, target.(children := target.children + [source.WithParent(Some(target.id))])))
  {
  }

  lemma PlacedBesideNestedIds(detached: seq<Node>, source: Node, targetId: string, target: Node, position: DropPosition)
    requires Find(detached, targetId) == Some(target) && !(position == Inside && target.Folder?)
    requires Truthy(target.parentId) && Placement(detached, source, targetId, position).Some?
    ensures multiset(Ids(Placement(detached, source, targetId, position).value))
            == multiset(Ids(detached)) + multiset(Ids([source]))
  {
    var parent := Find(detached, target.parentId.value).value;
    var k := IndexOfId(parent.children, targetId);
    WithParentIds(source, target.parentId);
    SplicedIntoFolderIds(detached, target.parentId.value, parent, if position == Before then k else k + 1,
                         source.WithParent(target.parentId));
  }

  lemma PlacedBesideTopIds(detached: seq<Node>, source: Node, targetId: string, target: Node, position: DropPosition)
    requires Find(detached, targetId) == Some(target) && !(position == Inside && target.Folder?)
    requires !Truthy(target.parentId)
    ensures Placement(detached, source, targetId, position).Some?
    ensures multiset(Ids(Placement(detached, source, targetId, position).value))
            == multiset(Ids(detached)) + multiset(Ids([source]))
  {
    var k := IndexOfId(detached, targetId);
    var spliced := SpliceInsert(detached, if position == Before then k else k + 1, source.WithParent(target.parentId));
    assert Placement(detached, source, targetId, position) == Some(spliced) by {
      PlacementBesideTop(detached, source, targetId, target, position);
    }
    SplicedBesideIds(detached, if position == Before then k else k + 1, source, target.parentId);
  }

  lemma SplicedBesideIds(s: seq<Node>, index: int, source: Node, p: Option<string>)
    ensures multiset(Ids(SpliceInsert(s, index, source.WithParent(p)))) == multiset(Ids(s)) + multiset(Ids([source]))
  {
    SpliceInsertIds(s, index, source.WithParent(p));
    WithParentIds(source, p);
  }

  /** "before" or "after" a top-level target splices the source in beside it. */
  lemma PlacementBesideTop(detached: seq<Node>, source: Node, targetId: string, target: Node, position: DropPosition)
    requires Find(detached, targetId) == Some(target) && !(position == Inside && target.Folder?)
    requires !Truthy(target.parentId)
    ensures var k := IndexOfId(detached, targetId);
            Placement(detached, source, targetId, position)
            == Some(SpliceInsert(detached, if position == Before then k else k + 1, source.WithParent(target.parentId)))
  {
  }

  /** Appending a child to the folder Find returns adds exactly the child's ids. */
  lemma AppendedToFolderIds(items: seq<Node>, id: string, folder: Node, x: Node)
    requires Find(items, id) == Some(folder) && folder.Folder?
    ensures multiset(Ids(ReplaceFirst(items, id, folder.(children := folder.children + [x]))))
            == multiset(Ids(items)) + multiset(Ids([x]))
  {
    IdsAppend(folder.children, [x]);
    ReplacedFolderIds(items, id, folder, folder.children + [x], multiset(Ids([x])));
  }

  /** Splicing a child into the folder Find returns adds exactly the child's ids. */
  lemma SplicedIntoFolderIds(items: seq<Node>, id: string, folder: Node, index: int, x: Node)
    requires Find(items, id) == Some(folder) && folder.Folder?
    ensures multiset(Ids(ReplaceFirst(items, id, folder.(children := SpliceInsert(folder.children, index, x)))))
            == multiset(Ids(items)) + multiset(Ids([x]))
  {
    SpliceInsertIds(folder.children, index, x);
    ReplacedFolderIds(items, id, folder, SpliceInsert(folder.children, index, x), multiset(Ids([x])));
  }

  /** Giving the folder Find returns new children adds what the new children add. */
  lemma ReplacedFolderIds(items: seq<Node>, id: string, folder: Node, children: seq<Node>, extra: multiset<string>)
    requires Find(items, id) == Some(folder) && folder.Folder?
    requires multiset(Ids(children)) == multiset(Ids(folder.children)) + extra
    ensures multiset(Ids(ReplaceFirst(items, id, folder.(children := children)))) == multiset(Ids(items)) + extra
  {
    var folder' := folder.(children := children);
    IdsReplaceChildren(folder, children, extra);
    ReplaceFirstIds(items, id, folder');
    MultisetSwapCancel(multiset(Ids(ReplaceFirst(items, id, folder'))), multiset(Ids(items)),
                       multiset(Ids([folder])), multiset(Ids([folder'])), extra);
  }

  lemma MultisetSwapCancel<T>(x: multiset<T>, y: multiset<T>, f: multiset<T>, f': multiset<T>, e: multiset<T>)
    requires x + f == y + f' && f' == f + e
    ensures x == y + e
  {
    forall o
      ensures x[o] == (y + e)[o]
    {
      assert (x + f)[o] == (y + f')[o];
    }
  }

  /** A move that completes keeps every id of the tree, each exactly as often as before. */
  lemma MoveConservesIds(items: seq<Node>, sourceId: string, targetId: Option<string>, position: DropPosition)
    requires UniqueIds(items)
    requires MoveSpec(items, sourceId, targetId, position).Moved?
    ensures multiset(Ids(MoveSpec(items, sourceId, targetId, position).tree)) == multiset(Ids(items))
  {
    var source := Find(items, sourceId).value;
    var detached := RemoveFirst(items, sourceId).0;
    RemovedIsFound(items, sourceId);
    RemoveFirstSpec(items, sourceId);
    var placed;
    if !Truthy(targetId) {
      placed := SpliceInsert(detached, GetInsertIndex(position, 0), source.WithParent(None));
      SpliceInsertIds(detached, GetInsertIndex(position, 0), source.WithParent(None));
      WithParentIds(source, None);
    } else {
      placed := Placement(detached, source, targetId.value, position).value;
      PlacementIds(detached, source, targetId.value, position);
    }
    RenumberIds(placed, None);
  }

  /** A completed move leaves the whole tree numbered. */
  lemma MovePositioned(items: seq<Node>, sourceId: string, targetId: Option<string>, position: DropPosition)
    requires MoveSpec(items, sourceId, targetId, position).Moved?
    ensures Positioned(MoveSpec(items, sourceId, targetId, position).tree, None)
  {
    var source := Find(items, sourceId).value;
    var detached := RemoveFirst(items, sourceId).0;
    if !Truthy(targetId) {
      RenumberPositioned(SpliceInsert(detached, GetInsertIndex(position, 0), source.WithParent(None)), None);
    } else {
      RenumberPositioned(Placement(detached, source, targetId.value, position).value, None);
    }
  }

  /** moveItem leaves the state alone exactly when the source id is not in the tree. */
  lemma MoveMissingSource(items: seq<Node>, sourceId: string, targetId: Option<string>, position: DropPosition)
    ensures MoveSpec(items, sourceId, targetId, position).SourceMissing? <==> sourceId !in Ids(items)
  {
    FindSpec(items, sourceId);
  }

  /**
   * A move to the top level (falsy target id) always completes and puts the
   * source at index 0, or 1 for "after" (clamped to the length), with
   * parentId None.
   */
  lemma MoveToTopLevel(items: seq<Node>, sourceId: string, targetId: Option<string>, position: DropPosition)
    requires sourceId in Ids(items) && !Truthy(targetId)
    ensures MoveSpec(items, sourceId, targetId, position).Moved?
    ensures var tree := MoveSpec(items, sourceId, targetId, position).tree;
            var k := ClampStart(|RemoveFirst(items, sourceId).0|, if position == After then 1 else 0);
            k < |tree| && tree[k].id == sourceId && tree[k].position == k && tree[k].parentId == None
  {
    FindSpec(items, sourceId);
    var source := Find(items, sourceId).value;
    var detached := RemoveFirst(items, sourceId).0;
    var placed := SpliceInsert(detached, GetInsertIndex(position, 0), source.WithParent(None));
    RenumberFromAt(placed, None, 0);
  }

  /**
   * With unique ids, a move onto the source itself or onto anything below it
   * does not complete: the target is gone once the source is detached.
   */
  lemma MoveIntoOwnSubtreeAborts(items: seq<Node>, sourceId: string, source: Node, targetId: string,
                                 position: DropPosition)
    requires UniqueIds(items) && Find(items, sourceId) == Some(source)
    requires targetId != "" && targetId in Ids([source])
    ensures MoveSpec(items, sourceId, Some(targetId), position) == Aborted(DetachedView(items, sourceId))
  {
    RemovedIsFound(items, sourceId);
    RemoveFirstSpec(items, sourceId);
    var detached := RemoveFirst(items, sourceId).0;
    DistinctCount(Ids(items), targetId);
    assert multiset(Ids([source]))[targetId] >= 1;
    assert targetId !in Ids(detached);
    FindSpec(detached, targetId);
  }

  lemma {:induction false} DistinctCount(s: seq<string>, x: string)
    requires forall i, j :: 0 <= i < j < |s| ==> s[i] != s[j]
    ensures multiset(s)[x] <= 1
    decreases s
  {
    if s != [] {
      assert s == [s[0]] + s[1..];
      DistinctCount(s[1..], x);
      if s[0] == x {
        assert x !in s[1..];
      }
    }
  }

  /**
   * An abandoned move of a nested item still removes it from the tree the old
   * state shows: the detach happened in a `children` array both states share.
   */
  lemma AbortedNestedMoveLosesSource(items: seq<Node>, sourceId: string, source: Node, targetId: Option<string>,
                                     position: DropPosition)
    requires UniqueIds(items) && Find(items, sourceId) == Some(source)
    requires IndexOfId(items, sourceId) == -1
    requires MoveSpec(items, sourceId, targetId, position).Aborted?
    ensures var visible := MoveSpec(items, sourceId, targetId, position).visible;
            multiset(Ids(visible)) + multiset(Ids([source])) == multiset(Ids(items))
            && sourceId !in Ids(visible)
  {
    assert MoveSpec(items, sourceId, targetId, position).visible == RemoveFirst(items, sourceId).0;
    RemovalDropsSource(items, sourceId, source);
  }

  /** With unique ids, removing an item takes its ids, its own included, out of the tree. */
  lemma RemovalDropsSource(items: seq<Node>, sourceId: string, source: Node)
    requires UniqueIds(items) && Find(items, sourceId) == Some(source)
    ensures multiset(Ids(RemoveFirst(items, sourceId).0)) + multiset(Ids([source])) == multiset(Ids(items))
    ensures sourceId !in Ids(RemoveFirst(items, sourceId).0)
  {
    RemovedIsFound(items, sourceId);
    RemoveFirstSpec(items, sourceId);
    FindSpec(items, sourceId);
    DistinctCount(Ids(items), sourceId);
    IdsSingle(source);
    assert multiset(Ids([source]))[sourceId] >= 1;
  }

  /**
   * "inside" on a folder target appends the source as the folder's last child
   * (the folder as it stands once the source is detached).
   */
  lemma MoveInsideAppends(items: seq<Node>, sourceId: string, targetId: string, folder: Node)
    requires sourceId in Ids(items) && targetId != ""
    requires Find(RemoveFirst(items, sourceId).0, targetId) == Some(folder) && folder.Folder?
    ensures MoveSpec(items, sourceId, Some(targetId), Inside).Moved?
    ensures var tree := MoveSpec(items, sourceId, Some(targetId), Inside).tree;
            Find(tree, targetId).Some? && Find(tree, targetId).value.Folder?
            && IdsOf(Find(tree, targetId).value.children) == IdsOf(folder.children) + [sourceId]
  {
    var detached := RemoveFirst(items, sourceId).0;
    var source := FoundWithId(items, sourceId);
    FoundIdMatches(detached, targetId, folder);
    var src := source.WithParent(Some(folder.id));
    var folder' := folder.(children := folder.children + [src]);
    var placed := MoveInsideOutcome(items, sourceId, source, targetId, folder);
    ReplacedFolderAfterRenumber(detached, targetId, folder, folder');
    assert IdsOf(folder'.children) == IdsOf(folder.children) + [sourceId] by {
      IdsOfAppend(folder.children, [src]);
    }
  }

  /** An id of the tree is found, as an item carrying that id. */
  lemma FoundWithId(items: seq<Node>, id: string) returns (n: Node)
    requires id in Ids(items)
    ensures Find(items, id) == Some(n) && n.id == id
  {
    FindSpec(items, id);
    n := Find(items, id).value;
  }

  lemma FoundIdMatches(items: seq<Node>, id: string, n: Node)
    requires Find(items, id) == Some(n)
    ensures n.id == id
  {
    FindSpec(items, id);
  }

  /** A folder put in place of a found item is still found, with the same child ids, after renumbering. */
  lemma ReplacedFolderAfterRenumber(items: seq<Node>, id: string, old_: Node, folder: Node)
    requires Find(items, id) == Some(old_) && folder.Folder? && folder.id == id
    ensures var g := Find(Renumber(ReplaceFirst(items, id, folder), None), id);
            g.Some? && g.value.Folder? && IdsOf(g.value.children) == IdsOf(folder.children)
  {
    FindSpec(items, id);
    FindAfterReplace(items, id, folder);
    FoundAfterRenumber(ReplaceFirst(items, id, folder), id, folder);
  }

  /** The outcome of "inside" on a folder target, spelled out. */
  lemma MoveInsideOutcome(items: seq<Node>, sourceId: string, source: Node, targetId: string, folder: Node)
    returns (placed: seq<Node>)
    requires Find(items, sourceId) == Some(source) && targetId != ""
    requires Find(RemoveFirst(items, sourceId).0, targetId) == Some(folder) && folder.Folder?
    ensures placed == ReplaceFirst(RemoveFirst(items, sourceId).0, targetId,
                                   folder.(children := folder.children + [source.WithParent(Some(folder.id))]))
    ensures MoveSpec(items, sourceId, Some(targetId), Inside) == Moved(Renumber(placed, None))
  {
    placed := ReplaceFirst(RemoveFirst(items, sourceId).0, targetId,
                           folder.(children := folder.children + [source.WithParent(Some(folder.id))]));
    assert Placement(RemoveFirst(items, sourceId).0, source, targetId, Inside) == Some(placed);
  }

  /** updatePositions keeps a found folder a folder with the same child ids. */
  lemma FoundAfterRenumber(items: seq<Node>, id: string, folder: Node)
    requires Find(items, id) == Some(folder) && folder.Folder?
    ensures var g := Find(Renumber(items, None), id);
            g.Some? && g.value.Folder? && IdsOf(g.value.children) == IdsOf(folder.children)
  {
    var tree := Renumber(items, None);
    RenumberSameShape(items, None, 0);
    FindSameShape(tree, items, id);
    var g := Find(tree, id).value;
    assert [g][0] == g && [folder][0] == folder;
    assert SameShape(g.children, folder.children);
  }

  /**
   * "before"/"after" beside a top-level target puts the source just before or
   * just after it.
   */
  lemma MoveBesideTopLevel(items: seq<Node>, sourceId: string, targetId: string, position: DropPosition)
    requires sourceId in Ids(items) && targetId != "" && position != Inside
    requires var detached := RemoveFirst(items, sourceId).0;
             Find(detached, targetId).Some? && !Truthy(Find(detached, targetId).value.parentId)
             && IndexOfId(detached, targetId) >= 0
    ensures MoveSpec(items, sourceId, Some(targetId), position).Moved?
    ensures var detached := RemoveFirst(items, sourceId).0;
            var tree := MoveSpec(items, sourceId, Some(targetId), position).tree;
            var k := IndexOfId(detached, targetId);
            |tree| == |detached| + 1 &&
            if position == Before then tree[k].id == sourceId && tree[k + 1].id == targetId
            else tree[k].id == targetId && tree[k + 1].id == sourceId
  {
    var source := FoundWithId(items, sourceId);
    var detached := RemoveFirst(items, sourceId).0;
    var target := Find(detached, targetId).value;
    var k := IndexOfId(detached, targetId);
    var x := source.WithParent(target.parentId);
    var placed := MoveBesideOutcome(items, sourceId, source, targetId, target, position);
    assert placed == SpliceInsert(detached, if position == Before then k else k + 1, x);
    RenumberedBeside(detached, k, position, x);
    assert x.id == sourceId && detached[k].id == targetId;
  }

  /** After splicing beside index `k` and renumbering, the ids sit as the splice put them. */
  lemma RenumberedBeside(s: seq<Node>, k: int, position: DropPosition, x: Node)
    requires 0 <= k < |s|
    ensures var tree := Renumber(SpliceInsert(s, if position == Before then k else k + 1, x), None);
            |tree| == |s| + 1 &&
            if position == Before then tree[k].id == x.id && tree[k + 1].id == s[k].id
            else tree[k].id == s[k].id && tree[k + 1].id == x.id
  {
    var placed := SpliceInsert(s, if position == Before then k else k + 1, x);
    SplicedBeside(s, k, position, x);
    RenumberKeepsIdAt(placed, None, k);
    RenumberKeepsIdAt(placed, None, k + 1);
  }

  lemma RenumberKeepsIdAt(items: seq<Node>, parentId: Option<string>, i: int)
    requires 0 <= i < |items|
    ensures |Renumber(items, parentId)| == |items| && Renumber(items, parentId)[i].id == items[i].id
  {
    RenumberFromAt(items, parentId, 0);
  }

  lemma MoveBesideOutcome(items: seq<Node>, sourceId: string, source: Node, targetId: string, target: Node,
                          position: DropPosition)
    returns (placed: seq<Node>)
    requires Find(items, sourceId) == Some(source) && targetId != "" && position != Inside
    requires Find(RemoveFirst(items, sourceId).0, targetId) == Some(target) && !Truthy(target.parentId)
    ensures var detached := RemoveFirst(items, sourceId).0;
            var k := IndexOfId(detached, targetId);
            placed == SpliceInsert(detached, if position == Before then k else k + 1, source.WithParent(target.parentId))
    ensures MoveSpec(items, sourceId, Some(targetId), position) == Moved(Renumber(placed, None))
  {
    var detached := RemoveFirst(items, sourceId).0;
    var k := IndexOfId(detached, targetId);
    placed := SpliceInsert(detached, if position == Before then k else k + 1, source.WithParent(target.parentId));
    assert Placement(detached, source, targetId, position) == Some(placed);
  }

  /** Splicing beside index `k`: the new item and the old one at `k`, in drop order. */
  lemma SplicedBeside(s: seq<Node>, k: int, position: DropPosition, x: Node)
    requires 0 <= k < |s|
    ensures var placed := SpliceInsert(s, if position == Before then k else k + 1, x);
            if position == Before then placed[k] == x && placed[k + 1] == s[k]
            else placed[k] == s[k] && placed[k + 1] == x
  {
    var index := if position == Before then k else k + 1;
    assert ClampStart(|s|, index) == index;
    var placed := SpliceInsert(s, index, x);
    if position == Before {
      assert placed[k + 1] == placed[index + 1..][0];
    } else {
      assert placed[k] == placed[..index][k];
    }
  }

  /**
   * "before"/"after" beside a target inside a folder: the source goes into
   * that folder's children just before or just after the target.
   */
  lemma MoveBesideNested(items: seq<Node>, sourceId: string, targetId: string, position: DropPosition,
                         target: Node, parent: Node)
    requires sourceId in Ids(items) && targetId != "" && position != Inside
    requires Find(RemoveFirst(items, sourceId).0, targetId) == Some(target) && Truthy(target.parentId)
    requires Find(RemoveFirst(items, sourceId).0, target.parentId.value) == Some(parent) && parent.Folder?
    requires IndexOfId(parent.children, targetId) >= 0
    ensures MoveSpec(items, sourceId, Some(targetId), position).Moved?
    ensures var g := Find(MoveSpec(items, sourceId, Some(targetId), position).tree, target.parentId.value);
            var k := IndexOfId(parent.children, targetId);
            && g.Some? && g.value.Folder?
            && |g.value.children| == |parent.children| + 1
            && if position == Before then g.value.children[k].id == sourceId && g.value.children[k + 1].id == targetId
               else g.value.children[k].id == targetId && g.value.children[k + 1].id == sourceId
  {
    var source := FoundWithId(items, sourceId);
    var detached, pid, k := RemoveFirst(items, sourceId).0, target.parentId.value, IndexOfId(parent.children, targetId);
    var x := source.WithParent(target.parentId);
    var placed := MoveBesideNestedOutcome(items, sourceId, source, targetId, target, parent, position);
    assert placed == ReplaceFirst(detached, pid,
      parent.(children := SpliceInsert(parent.children, if position == Before then k else k + 1, x)));
    FolderChildrenBeside(detached, pid, parent, k, position, x);
    assert x.id == sourceId && parent.children[k].id == targetId;
  }

  /** After splicing beside child k and renumbering, the folder's child ids sit as the splice put them. */
  lemma FolderChildrenBeside(detached: seq<Node>, pid: string, parent: Node, k: int, position: DropPosition, x: Node)
    requires Find(detached, pid) == Some(parent) && parent.Folder? && 0 <= k < |parent.children|
    ensures var spliced := SpliceInsert(parent.children, if position == Before then k else k + 1, x);
            var g := Find(Renumber(ReplaceFirst(detached, pid, parent.(children := spliced)), None), pid);
            && g.Some? && g.value.Folder?
            && |g.value.children| == |parent.children| + 1
            && if position == Before then g.value.children[k].id == x.id && g.value.children[k + 1].id == parent.children[k].id
               else g.value.children[k].id == parent.children[k].id && g.value.children[k + 1].id == x.id
  {
    var spliced := SpliceInsert(parent.children, if position == Before then k else k + 1, x);
    SplicedBeside(parent.children, k, position, x);
    FoundIdMatches(detached, pid, parent);
    ReplacedFolderAfterRenumber(detached, pid, parent, parent.(children := spliced));
    var g := Find(Renumber(ReplaceFirst(detached, pid, parent.(children := spliced)), None), pid).value;
    assert |g.children| == |IdsOf(g.children)| && |spliced| == |IdsOf(spliced)|;
    assert g.children[k].id == IdsOf(g.children)[k] == IdsOf(spliced)[k] == spliced[k].id;
    assert g.children[k + 1].id == IdsOf(g.children)[k + 1] == IdsOf(spliced)[k + 1] == spliced[k + 1].id;
  }

  /**
   * "inside" onto a target that is not a folder falls through to the "after"
   * insertion: the move ends exactly as a drop "after" that target.
   */
  lemma InsideOntoNonFolderIsAfter(items: seq<Node>, sourceId: string, targetId: string)
    requires sourceId in Ids(items) && targetId != ""
    requires var t := Find(RemoveFirst(items, sourceId).0, targetId); t.Some? && !t.value.Folder?
    ensures MoveSpec(items, sourceId, Some(targetId), Inside) == MoveSpec(items, sourceId, Some(targetId), After)
  {
    var source := FoundWithId(items, sourceId);
    var detached := RemoveFirst(items, sourceId).0;
    assert Placement(detached, source, targetId, Inside) == Placement(detached, source, targetId, After);
  }

  /** The outcome of a move beside a nested target, spelled out. */
  lemma MoveBesideNestedOutcome(items: seq<Node>, sourceId: string, source: Node, targetId: string, target: Node,
                                parent: Node, position: DropPosition)
    returns (placed: seq<Node>)
    requires Find(items, sourceId) == Some(source) && targetId != "" && position != Inside
    requires Find(RemoveFirst(items, sourceId).0, targetId) == Some(target) && Truthy(target.parentId)
    requires Find(RemoveFirst(items, sourceId).0, target.parentId.value) == Some(parent) && parent.Folder?
    ensures var k := IndexOfId(parent.children, targetId);
            placed == ReplaceFirst(RemoveFirst(items, sourceId).0, target.parentId.value,
              parent.(children := SpliceInsert(parent.children, if position == Before then k else k + 1,
                                               source.WithParent(target.parentId))))
    ensures MoveSpec(items, sourceId, Some(targetId), position) == Moved(Renumber(placed, None))
  {
    var detached := RemoveFirst(items, sourceId).0;
    var k := IndexOfId(parent.children, targetId);
    placed := ReplaceFirst(detached, target.parentId.value,
      parent.(children := SpliceInsert(parent.children, if position == Before then k else k + 1,
                                       source.WithParent(target.parentId))));
    assert Placement(detached, source, targetId, position) == Some(placed);
  }

  // ---------------------------------------------------------------------------
  // addItem and updateItem
  // ---------------------------------------------------------------------------

  /**
   * addItem appends the item at the top level when its parentId is null, as
   * the last child of its parent when that is a folder, and otherwise leaves
   * the tree alone; the tree gains exactly the item's ids.
   */
  lemma AddItemIds(items: seq<Node>, item: Node)
    ensures var added := item.parentId.None? ||
                         (Find(items, item.parentId.value).Some? && Find(items, item.parentId.value).value.Folder?);
            multiset(Ids(AddSpec(items, item)))
            == multiset(Ids(items)) + (if added then multiset(Ids([item])) else multiset{})
  {
    if item.parentId.None? {
      assert AddSpec(items, item) == items + [item];
      IdsAppend(items, [item]);
    } else if Find(items, item.parentId.value).Some? && Find(items, item.parentId.value).value.Folder? {
      AddIntoFolderIds(items, item);
    } else {
      assert AddSpec(items, item) == items;
    }
  }

  lemma AddIntoFolderIds(items: seq<Node>, item: Node)
    requires item.parentId.Some? && Find(items, item.parentId.value).Some?
    requires Find(items, item.parentId.value).value.Folder?
    ensures multiset(Ids(AddSpec(items, item))) == multiset(Ids(items)) + multiset(Ids([item]))
  {
    var parent := Find(items, item.parentId.value).value;
    assert AddSpec(items, item) == ReplaceFirst(items, item.parentId.value, parent.(children := parent.children + [item]));
    AppendedToFolderIds(items, item.parentId.value, parent, item);
  }

  /** addItem under a folder makes the item that folder's last child. */
  lemma AddIntoFolder(items: seq<Node>, item: Node, parent: Node)
    requires item.parentId.Some? && Find(items, item.parentId.value) == Some(parent) && parent.Folder?
    ensures Find(AddSpec(items, item), item.parentId.value) == Some(parent.(children := parent.children + [item]))
  {
    FindSpec(items, item.parentId.value);
    FindAfterReplace(items, item.parentId.value, parent.(children := parent.children + [item]));
  }

  /** An accepted update replaces the item by the merged item; ids are never affected. */
  lemma UpdateItemSpec(items: seq<Node>, id: string, u: Update)
    ensures multiset(Ids(UpdateSpec(items, id, u))) == multiset(Ids(items))
    ensures Find(items, id).Some? && Accepts(Find(items, id).value, u) ==>
              Find(UpdateSpec(items, id, u), id) == Some(Merge(Find(items, id).value, u))
    ensures Find(items, id).None? || !Accepts(Find(items, id).value, u) ==> UpdateSpec(items, id, u) == items
  {
    if Find(items, id).Some? && Accepts(Find(items, id).value, u) {
      UpdateAcceptedSpec(items, id, Find(items, id).value, u);
    }
  }

  lemma UpdateAcceptedSpec(items: seq<Node>, id: string, n: Node, u: Update)
    requires Find(items, id) == Some(n) && Accepts(n, u)
    ensures UpdateSpec(items, id, u) == ReplaceFirst(items, id, Merge(n, u))
    ensures multiset(Ids(ReplaceFirst(items, id, Merge(n, u)))) == multiset(Ids(items))
    ensures Find(ReplaceFirst(items, id, Merge(n, u)), id) == Some(Merge(n, u))
  {
    FoundIdMatches(items, id, n);
    assert Ids([Merge(n, u)]) == Ids([n]) by {
      IdsSingle(n);
      IdsSingle(Merge(n, u));
    }
    ReplaceKeepsIds(items, id, Merge(n, u));
    FindAfterReplace(items, id, Merge(n, u));
  }
}
