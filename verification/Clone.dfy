/** Deep copies of values: fresh maps and slices filled key by key and item by item. */
module Clone {
  import opened StoreModel
  import opened ValueStore

  /** A copy: nodes of its own that hold the same abstract value. */
  ghost predicate CopyOf(c: Any, t: Shape, s: Shape)
    reads Foot(t)
  {
    && Models(Now(Foot(t)), c, t) && TreeShaped(t)
    && Abs(t) == Abs(s) && (ScalarLeaves(s) ==> ScalarLeaves(t))
  }

  // ---------------------------------------------------------------------------
  // Maps
  // ---------------------------------------------------------------------------

  /** The copy of a map while it is being filled: the keys it has are copies. */
  ghost predicate Partial(t: Shape, s: Shape, left: set<string>) {
    && t.MapShape? && s.MapShape? && TreeShaped(t) && t.kids.Keys == s.kids.Keys - left
    && (forall k :: k in t.kids ==> Abs(t.kids[k]) == Abs(s.kids[k]))
    && (ScalarLeaves(s) ==> ScalarLeaves(t))
  }

  lemma PartialDone(t: Shape, s: Shape)
    requires Partial(t, s, {})
    ensures Abs(t) == Abs(s)
  {
  }

  lemma PartialMore(t: Shape, s: Shape, left: set<string>, k: string, x: Shape)
    requires Partial(t, s, left) && left <= s.kids.Keys && k in left
    requires TreeShaped(x) && Foot(x) !! Foot(t) && Abs(x) == Abs(s.kids[k])
    requires ScalarLeaves(s) ==> ScalarLeaves(x)
    ensures Partial(Put(t, [], k, x), s, left - {k})
  {
    PutTreeShaped(t, [], k, x);
    if ScalarLeaves(s) {
      PutScalarLeaves(t, [], k, x);
    }
  }

  /** The assignment out[k] = c. */
  method FillKey(out: MapNode, k: string, c: Any, ghost t: Shape, ghost x: Shape)
    requires t.MapShape? && t.node == out && TreeShaped(t) && Foot(x) !! Foot(t)
    requires Models(Now(Foot(t)), MapRef(out), t) && Models(Now(Foot(x)), c, x)
    modifies out
    ensures Foot(Put(t, [], k, x)) <= Foot(t) + Foot(x)
    ensures Models(Now(Foot(Put(t, [], k, x))), MapRef(out), Put(t, [], k, x))
  {
    ghost var objs := Foot(t) + Foot(x);
    ModelsIn(Foot(t), objs, MapRef(out), t);
    ModelsIn(Foot(x), objs, c, x);
    Undisturbed(Now(objs), Written(Now(objs), out, k, c), c, x);
    WriteModels(Now(objs), MapRef(out), t, [], k, c, x);
    PutFoot(t, [], k, x);
    WriteNode(out, k, c, objs);
    ModelsIn(objs, Foot(Put(t, [], k, x)), MapRef(out), Put(t, [], k, x));
  }

  /** One turn of cloneMap's loop. */
  method CloneKey(src: MapNode, out: MapNode, k: string, ghost s: Shape, ghost nodes: set<object>,
                  ghost t: Shape, ghost mine: set<object>, ghost left: set<string>)
    returns (ghost t': Shape)
    requires s.MapShape? && Models(Now(nodes), MapRef(src), s) && Foot(s) <= nodes && out !in nodes
    requires left <= s.kids.Keys && k in left && Partial(t, s, left) && Foot(t) == mine
    requires t.node == out && Models(Now(mine), MapRef(out), t)
    modifies out
    ensures Partial(t', s, left - {k}) && t'.node == out && Models(Now(Foot(t')), MapRef(out), t')
    ensures forall o :: o in Foot(t') ==> o in mine || fresh(o)
    decreases s, 0
  {
    KidFoot(s, k);
    var c, x := CloneValue(src.m[k], s.kids[k], nodes);
    PartialMore(t, s, left, k, x);
    FillKey(out, k, c, t, x);
    t' := Put(t, [], k, x);
  }

  /** cloneMap's loop, into an empty map, in any order of the keys. */
  method CloneKeys(src: MapNode, out: MapNode, ghost s: Shape, ghost nodes: set<object>, ghost start: Shape)
    returns (ghost t: Shape)
    requires s.MapShape? && Models(Now(nodes), MapRef(src), s) && Foot(s) <= nodes && out !in nodes
    requires Partial(start, s, s.kids.Keys) && start.node == out && Foot(start) == {out}
    requires Models(Now({out}), MapRef(out), start)
    modifies out
    ensures CopyOf(MapRef(out), t, s) && forall o :: o in Foot(t) ==> o == out || fresh(o)
    decreases s, 1
  {
    t := start;
    var keys := src.m.Keys;
    while keys != {}
      invariant keys <= s.kids.Keys && Partial(t, s, keys) && t.node == out
      invariant (forall o :: o in Foot(t) ==> o == out || fresh(o)) && Models(Now(Foot(t)), MapRef(out), t)
      invariant Now(nodes) == old(Now(nodes))
      decreases keys
    {
      var k :| k in keys;
      t := CloneKey(src, out, k, s, nodes, t, Foot(t), keys);
      keys := keys - {k};
    }
    PartialDone(t, s);
  }

  method CloneMap(src: MapNode, ghost s: Shape, ghost nodes: set<object>) returns (out: MapNode, ghost t: Shape)
    requires s.MapShape? && Models(Now(nodes), MapRef(src), s) && Foot(s) <= nodes
    ensures CopyOf(MapRef(out), t, s) && fresh(Foot(t))
    decreases s, 2
  {
    out := new MapNode();
    ghost var start := MapShape(out, map[]);
    EmptyMap(out, start);
    t := CloneKeys(src, out, s, nodes, start);
  }

  // ---------------------------------------------------------------------------
  // Slices
  // ---------------------------------------------------------------------------

  ghost function PutItem(t: Shape, i: nat, x: Shape): (r: Shape)
    requires t.ListShape? && i < |t.elements|
    ensures r.ListShape? && r.items == t.items
  {
    ListShape(t.items, t.elements[i := x])
  }

  ghost function ItemWritten(h: Heap, a: array<Any>, i: nat, w: Any): Heap
    requires a in h.slices && i < |h.slices[a]|
  {
    h.(slices := h.slices[a := h.slices[a][i := w]])
  }

  /** A slice while it is being filled: the first items are copies, the others still nil. */
  ghost predicate PartialList(t: Shape, s: Shape, n: nat) {
    && t.ListShape? && s.ListShape? && TreeShaped(t) && n <= |t.elements| == |s.elements|
    && (forall j :: 0 <= j < n ==> Abs(t.elements[j]) == Abs(s.elements[j]))
    && (forall j :: n <= j < |t.elements| ==> t.elements[j] == LeafShape(Nil))
    && (ScalarLeaves(s) ==> ScalarLeaves(t))
  }

  lemma PutItemFoot(t: Shape, i: nat, x: Shape)
    requires t.ListShape? && i < |t.elements|
    ensures Foot(PutItem(t, i, x)) <= Foot(t) + Foot(x)
  {
    var r := PutItem(t, i, x);
    forall o | o in Foot(r) ensures o in Foot(t) + Foot(x) {
      InElementsFoot(r, |r.elements|, o);
      InElementsFoot(t, |t.elements|, o);
    }
  }

  lemma PutItemTreeShaped(t: Shape, i: nat, x: Shape)
    requires t.ListShape? && i < |t.elements| && TreeShaped(t) && TreeShaped(x) && Foot(x) !! Foot(t)
    ensures TreeShaped(PutItem(t, i, x))
  {
    forall j | 0 <= j < |t.elements| ensures Foot(t.elements[j]) <= Foot(t) {
      ElementFoot(t, j);
    }
  }

  lemma PutItemModels(h: Heap, t: Shape, i: nat, w: Any, x: Shape)
    requires t.ListShape? && i < |t.elements| && TreeShaped(t) && Foot(x) !! Foot(t)
    requires Models(h, SliceRef(t.items), t) && Models(h, w, x)
    ensures Models(ItemWritten(h, t.items, i, w), SliceRef(t.items), PutItem(t, i, x))
  {
    var h' := ItemWritten(h, t.items, i, w);
    Undisturbed(h, h', w, x);
    forall j | 0 <= j < |t.elements| && j != i ensures Models(h', h'.slices[t.items][j], t.elements[j]) {
      Undisturbed(h, h', h.slices[t.items][j], t.elements[j]);
    }
  }

  lemma PartialListMore(t: Shape, s: Shape, n: nat, x: Shape)
    requires PartialList(t, s, n) && n < |s.elements|
    requires TreeShaped(x) && Foot(x) !! Foot(t) && Abs(x) == Abs(s.elements[n])
    requires ScalarLeaves(s) ==> ScalarLeaves(x)
    ensures PartialList(PutItem(t, n, x), s, n + 1)
  {
    PutItemTreeShaped(t, n, x);
  }

  lemma PartialListDone(t: Shape, s: Shape)
    requires s.ListShape? && PartialList(t, s, |s.elements|)
    ensures Abs(t) == Abs(s)
  {
  }

  method WriteItem(a: array<Any>, i: nat, w: Any, ghost objs: set<object>)
    requires a in objs && i < a.Length
    modifies a
    ensures a in Now(objs).slices && Now(objs) == ItemWritten(old(Now(objs)), a, i, w)
  {
    a[i] := w;
    assert a[..] == old(a[..])[i := w];
  }

  /** The assignment out[i] = c. */
  method FillItem(out: array<Any>, i: nat, c: Any, ghost t: Shape, ghost x: Shape)
    requires t.ListShape? && t.items == out && TreeShaped(t) && Foot(x) !! Foot(t) && i < |t.elements|
    requires Models(Now(Foot(t)), SliceRef(out), t) && Models(Now(Foot(x)), c, x)
    modifies out
    ensures Foot(PutItem(t, i, x)) <= Foot(t) + Foot(x)
    ensures Models(Now(Foot(PutItem(t, i, x))), SliceRef(out), PutItem(t, i, x))
  {
    ghost var objs := Foot(t) + Foot(x);
    ModelsIn(Foot(t), objs, SliceRef(out), t);
    ModelsIn(Foot(x), objs, c, x);
    PutItemModels(Now(objs), t, i, c, x);
    PutItemFoot(t, i, x);
    WriteItem(out, i, c, objs);
    ModelsIn(objs, Foot(PutItem(t, i, x)), SliceRef(out), PutItem(t, i, x));
  }

  /** One turn of cloneSlice's loop. */
  method CloneItem(src: array<Any>, out: array<Any>, i: nat, ghost s: Shape, ghost nodes: set<object>,
                   ghost t: Shape, ghost mine: set<object>)
    returns (ghost t': Shape)
    requires s.ListShape? && Models(Now(nodes), SliceRef(src), s) && Foot(s) <= nodes && out !in nodes
    requires i < |s.elements| && PartialList(t, s, i) && Foot(t) == mine
    requires t.items == out && Models(Now(mine), SliceRef(out), t)
    modifies out
    ensures PartialList(t', s, i + 1) && t'.items == out && Models(Now(Foot(t')), SliceRef(out), t')
    ensures forall o :: o in Foot(t') ==> o in mine || fresh(o)
    decreases s, 0
  {
    ElementFoot(s, i);
    assert Now(nodes).slices[src][i] == src[i];
    var c, x := CloneValue(src[i], s.elements[i], nodes);
    PartialListMore(t, s, i, x);
    FillItem(out, i, c, t, x);
    t' := PutItem(t, i, x);
  }

  lemma NilList(a: array<Any>, t: Shape)
    requires t == ListShape(a, seq(a.Length, i => LeafShape(Nil)))
    requires forall i :: 0 <= i < a.Length ==> a[i] == Leaf(Nil)
    ensures Foot(t) == {a} && TreeShaped(t) && ScalarLeaves(t)
    ensures Models(Now(Foot(t)), SliceRef(a), t)
  {
    forall o | o in Foot(t) ensures o == a {
      InElementsFoot(t, |t.elements|, o);
    }
  }

  /** cloneSlice's loop, over a slice of nils. */
  method CloneItems(src: array<Any>, out: array<Any>, ghost s: Shape, ghost nodes: set<object>, ghost start: Shape)
    returns (ghost t: Shape)
    requires s.ListShape? && Models(Now(nodes), SliceRef(src), s) && Foot(s) <= nodes && out !in nodes
    requires PartialList(start, s, 0) && start.items == out && Foot(start) == {out}
    requires Models(Now({out}), SliceRef(out), start)
    modifies out
    ensures CopyOf(SliceRef(out), t, s) && forall o :: o in Foot(t) ==> o == out || fresh(o)
    decreases s, 1
  {
    t := start;
    for i := 0 to src.Length
      invariant PartialList(t, s, i) && t.items == out
      invariant (forall o :: o in Foot(t) ==> o == out || fresh(o)) && Models(Now(Foot(t)), SliceRef(out), t)
      invariant Now(nodes) == old(Now(nodes))
    {
      t := CloneItem(src, out, i, s, nodes, t, Foot(t));
    }
    PartialListDone(t, s);
  }

  method CloneSlice(src: array<Any>, ghost s: Shape, ghost nodes: set<object>) returns (out: array<Any>, ghost t: Shape)
    requires s.ListShape? && Models(Now(nodes), SliceRef(src), s) && Foot(s) <= nodes
    ensures CopyOf(SliceRef(out), t, s) && fresh(Foot(t))
    decreases s, 2
  {
    out := new Any[src.Length](i => Leaf(Nil));
    ghost var start := ListShape(out, seq(out.Length, i => LeafShape(Nil)));
    NilList(out, start);
    t := CloneItems(src, out, s, nodes, start);
  }

  // ---------------------------------------------------------------------------
  // Any value
  // ---------------------------------------------------------------------------

  /** A deep copy: the same abstract value on fresh nodes only. */
  method CloneValue(v: Any, ghost s: Shape, ghost nodes: set<object>) returns (c: Any, ghost t: Shape)
    requires Models(Now(nodes), v, s) && Foot(s) <= nodes
    ensures CopyOf(c, t, s) && fresh(Foot(t))
    decreases s, 3
  {
    match v
    case Leaf(_) =>
      c, t := v, s;
    case MapRef(node) =>
      var out, x := CloneMap(node, s, nodes);
      c, t := MapRef(out), x;
    case SliceRef(items) =>
      var out, x := CloneSlice(items, s, nodes);
      c, t := SliceRef(out), x;
  }
}
