/** Snapshot isolation: whatever is written to the store and to a snapshot afterwards, in any
    order, each side ends as if only its own writes had happened. */
module Isolation {
  import opened StoreModel
  import opened ValueStore
  import opened Clone
  import opened MapStore

  /** A Set on the store, of a value with its shape, or an assignment to a map or slice on the
      other side, of any value: a scalar, or a map or slice made there or found anywhere. */
  datatype Write =
    | ToStore(key: string, value: Any, x: Shape)
    | ToMap(node: MapNode, k: string, member: Any)
    | ToSlice(items: array<Any>, i: nat, item: Any)

  /** The nodes written on the other side are its own: those of the snapshot, and maps and
      slices made for it. */
  ghost predicate Within(ws: seq<Write>, nodes: set<object>) {
    forall i :: 0 <= i < |ws| ==>
      && (ws[i].ToMap? ==> ws[i].node in nodes)
      && (ws[i].ToSlice? ==> ws[i].items in nodes && ws[i].i < ws[i].items.Length)
  }

  /** A value to be stored: a tree of supplied nodes with scalars at its leaves. */
  ghost predicate Ready(w: Write, supply: set<object>)
    reads if w.ToStore? then Foot(w.x) else {}
  {
    w.ToStore? ==>
      Foot(w.x) <= supply && TreeShaped(w.x) && ScalarLeaves(w.x) && Models(Now(Foot(w.x)), w.value, w.x)
  }

  /** No node is stored twice. */
  ghost predicate Separate(ws: seq<Write>) {
    forall i, j :: 0 <= i < j < |ws| && ws[i].ToStore? && ws[j].ToStore? ==> Foot(ws[i].x) !! Foot(ws[j].x)
  }

  /** What the writes to the store alone make of its contents. */
  ghost function OnStore(m: Contents, ws: seq<Write>): Contents {
    if ws == [] then m
    else
      var before := OnStore(m, ws[..|ws| - 1]);
      var w := ws[|ws| - 1];
      if w.ToStore? then StoreModel.Set(before, w.key, Abs(w.x)) else before
  }

  /** What the writes to the snapshot alone make of its nodes. */
  ghost function OnCopy(h: Heap, ws: seq<Write>): Heap {
    if ws == [] then h
    else
      var before := OnCopy(h, ws[..|ws| - 1]);
      match ws[|ws| - 1]
      case ToStore(_, _, _) => before
      case ToMap(n, k, v) => if n in before.maps then Written(before, n, k, v) else before
      case ToSlice(a, i, v) =>
        if a in before.slices && i < |before.slices[a]| then ItemWritten(before, a, i, v) else before
  }

  lemma OnStoreOne(m: Contents, w: Write)
    ensures OnStore(m, [w]) == if w.ToStore? then StoreModel.Set(m, w.key, Abs(w.x)) else m
  {
    assert [w][0] == w && [w][..0] == [];
  }

  lemma OnCopyOne(h: Heap, w: Write)
    ensures w.ToStore? ==> OnCopy(h, [w]) == h
    ensures w.ToMap? && w.node in h.maps ==> OnCopy(h, [w]) == Written(h, w.node, w.k, w.member)
    ensures w.ToSlice? && w.items in h.slices && w.i < |h.slices[w.items]| ==>
              OnCopy(h, [w]) == ItemWritten(h, w.items, w.i, w.item)
  {
    assert [w][0] == w && [w][..0] == [];
  }

  /** A Set beside the nodes of the other side. */
  method ApplySet(store: MapValueStore, w: Write, ghost nodes: set<object>, ghost mine: set<object>)
    requires w.ToStore? && store.Valid() && nodes !! store.repr && store !in nodes
    requires Ready(w, mine) && mine !! store.repr && mine !! nodes && store !in mine
    modifies store, store.repr
    ensures store.Valid() && nodes !! store.repr
    ensures forall o :: o in store.repr ==> o in old(store.repr) || o in mine || fresh(o)
    ensures store.Contents() == StoreModel.Set(old(store.Contents()), w.key, Abs(w.x))
  {
    store.Set(w.key, w.value, w.x);
  }

  /** An assignment on the other side. */
  method ApplyAssignment(w: Write, ghost nodes: set<object>)
    requires !w.ToStore? && Within([w], nodes)
    modifies nodes
    ensures Now(nodes) == OnCopy(old(Now(nodes)), [w])
  {
    assert [w][0] == w;
    OnCopyOne(Now(nodes), w);
    if w.ToMap? {
      WriteNode(w.node, w.k, w.member, nodes);
    } else {
      WriteItem(w.items, w.i, w.item, nodes);
    }
  }

  /** One write beside the other side. */
  method Apply(store: MapValueStore, w: Write, ghost nodes: set<object>, ghost mine: set<object>)
    requires store.Valid() && nodes !! store.repr && store !in nodes && Within([w], nodes)
    requires Ready(w, mine) && mine !! store.repr && mine !! nodes && store !in mine
    modifies store, store.repr, nodes
    ensures store.Valid() && nodes !! store.repr
    ensures forall o :: o in store.repr ==> o in old(store.repr) || o in mine || fresh(o)
    ensures store.Contents() == OnStore(old(store.Contents()), [w])
    ensures Now(nodes) == OnCopy(old(Now(nodes)), [w])
  {
    OnStoreOne(store.Contents(), w);
    if w.ToStore? {
      OnCopyOne(Now(nodes), w);
      ApplySet(store, w, nodes, mine);
    } else {
      ApplyAssignment(w, nodes);
    }
  }

  /** The nodes of the values stored by the first writes. */
  ghost function Used(ws: seq<Write>): set<object> {
    if ws == [] then {}
    else Used(ws[..|ws| - 1]) + (if ws[|ws| - 1].ToStore? then Foot(ws[|ws| - 1].x) else {})
  }

  lemma {:induction false} UsedApart(ws: seq<Write>, n: nat, j: nat)
    requires Separate(ws) && n <= j < |ws| && ws[j].ToStore?
    ensures Used(ws[..n]) !! Foot(ws[j].x)
  {
    if n > 0 {
      assert ws[..n][..n - 1] == ws[..n - 1];
      UsedApart(ws, n - 1, j);
    }
  }

  ghost function Stores(w: Write): set<object> {
    if w.ToStore? then Foot(w.x) else {}
  }

  lemma OneMore(ws: seq<Write>, i: nat, m: Contents, h: Heap)
    requires i < |ws|
    ensures Used(ws[..i + 1]) == Used(ws[..i]) + Stores(ws[i])
    ensures OnStore(m, ws[..i + 1]) == OnStore(OnStore(m, ws[..i]), [ws[i]])
    ensures OnCopy(h, ws[..i + 1]) == OnCopy(OnCopy(h, ws[..i]), [ws[i]])
  {
    assert ws[..i + 1][..i] == ws[..i] && ws[..i + 1][i] == ws[i];
    assert [ws[i]][0] == ws[i] && [ws[i]][..0] == [];
  }

  /** The write leaves the values of the later ones as they are. */
  method Turn(store: MapValueStore, ws: seq<Write>, i: nat, ghost nodes: set<object>, ghost supply: set<object>)
    requires i < |ws| && store.Valid() && nodes !! store.repr && store !in nodes && Within(ws, nodes)
    requires supply !! nodes && store !in supply && Separate(ws)
    requires forall j :: i <= j < |ws| && ws[j].ToStore? ==> Foot(ws[j].x) !! store.repr
    requires forall j :: i <= j < |ws| ==> Ready(ws[j], supply)
    modifies store, store.repr, nodes
    ensures store.Valid() && nodes !! store.repr
    ensures forall o :: o in store.repr ==> o in old(store.repr) || o in Stores(ws[i]) || fresh(o)
    ensures forall j :: i < j < |ws| ==> Ready(ws[j], supply)
    ensures store.Contents() == OnStore(old(store.Contents()), [ws[i]])
    ensures Now(nodes) == OnCopy(old(Now(nodes)), [ws[i]])
  {
    assert [ws[i]][0] == ws[i];
    Apply(store, ws[i], nodes, Stores(ws[i]));
  }

  /** Any run of writes to the store and to a snapshot of it. */
  method Run(store: MapValueStore, ws: seq<Write>, ghost nodes: set<object>, ghost supply: set<object>)
    requires store.Valid() && nodes !! store.repr && store !in nodes && Within(ws, nodes)
    requires supply !! store.repr && supply !! nodes && store !in supply && Separate(ws)
    requires forall j :: 0 <= j < |ws| ==> Ready(ws[j], supply)
    modifies store, store.repr, nodes, supply
    ensures store.Valid() && nodes !! store.repr
    ensures store.Contents() == OnStore(old(store.Contents()), ws)
    ensures Now(nodes) == OnCopy(old(Now(nodes)), ws)
  {
    for i := 0 to |ws|
      invariant store.Valid() && nodes !! store.repr && Used(ws[..i]) <= supply
      invariant forall o :: o in store.repr ==> o in old(store.repr) || o in Used(ws[..i]) || fresh(o)
      invariant forall j :: i <= j < |ws| ==> Ready(ws[j], supply)
      invariant store.Contents() == OnStore(old(store.Contents()), ws[..i])
      invariant Now(nodes) == OnCopy(old(Now(nodes)), ws[..i])
    {
      OneMore(ws, i, old(store.Contents()), old(Now(nodes)));
      forall j | i <= j < |ws| && ws[j].ToStore? ensures Foot(ws[j].x) !! store.repr {
        UsedApart(ws, i, j);
      }
      Turn(store, ws, i, nodes, supply);
    }
    assert ws[..|ws|] == ws;
  }

  lemma {:induction false} SetsMissCopy(h: Heap, ws: seq<Write>)
    requires forall i :: 0 <= i < |ws| ==> ws[i].ToStore?
    ensures OnCopy(h, ws) == h
  {
    if ws != [] {
      SetsMissCopy(h, ws[..|ws| - 1]);
    }
  }

  lemma {:induction false} CopyWritesMissStore(m: Contents, ws: seq<Write>)
    requires forall i :: 0 <= i < |ws| ==> !ws[i].ToStore?
    ensures OnStore(m, ws) == m
  {
    if ws != [] {
      CopyWritesMissStore(m, ws[..|ws| - 1]);
    }
  }

  /** After any number of Set calls a snapshot still shows the contents it was taken of. */
  method SnapshotThenSets(store: MapValueStore, ws: seq<Write>, ghost supply: set<object>)
    returns (copy: MapNode, ghost t: Shape)
    requires store.Valid() && supply !! store.repr && store !in supply && Separate(ws)
    requires forall j :: 0 <= j < |ws| ==> ws[j].ToStore? && Ready(ws[j], supply)
    modifies store, store.repr, supply
    ensures Models(Now(Foot(t)), MapRef(copy), t) && Abs(t) == Map(old(store.Contents()))
    ensures store.Valid() && store.Contents() == OnStore(old(store.Contents()), ws)
  {
    copy, t := store.Snapshot();
    SetsMissCopy(Now(Foot(t)), ws);
    Run(store, ws, Foot(t), supply);
  }
}
