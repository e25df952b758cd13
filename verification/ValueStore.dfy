/** The value store on the heap: nested mutable maps and slices, walked in place.

    A ghost shape names the node at every position. The store is tree-shaped when no node
    occurs twice; its contents are the abstract value of its shape. What the nodes hold at
    one moment is captured as a value, so that the effect of a write is stated by ordinary
    lemmas. */
module ValueStore {
  import opened StoreModel

  /** An `any` value: a scalar, or a reference to a shared map or slice. */
  datatype Any = Leaf(value: Value) | MapRef(node: MapNode) | SliceRef(items: array<Any>)

  class MapNode {
    var m: map<string, Any>

    constructor ()
      ensures m == map[]
    {
      m := map[];
    }
  }

  datatype Shape =
    | LeafShape(value: Value)
    | MapShape(node: MapNode, kids: map<string, Shape>)
    | ListShape(items: array<Any>, elements: seq<Shape>)

  // ---------------------------------------------------------------------------
  // Shapes
  // ---------------------------------------------------------------------------

  /** The nodes at and below a position. */
  ghost function Foot(s: Shape): set<object>
    decreases s, 1
  {
    match s
    case LeafShape(_) => {}
    case MapShape(node, kids) => {node} + KidsFoot(s, kids.Keys)
    case ListShape(items, elements) => {items} + ElementsFoot(s, |elements|)
  }

  ghost function KidsFoot(s: Shape, keys: set<string>): set<object>
    requires s.MapShape? && keys <= s.kids.Keys
    decreases s, 0, keys
  {
    if keys == {} then {}
    else
      var k :| k in keys;
      Foot(s.kids[k]) + KidsFoot(s, keys - {k})
  }

  ghost function ElementsFoot(s: Shape, n: nat): set<object>
    requires s.ListShape? && n <= |s.elements|
    decreases s, 0, n
  {
    if n == 0 then {} else ElementsFoot(s, n - 1) + Foot(s.elements[n - 1])
  }

  lemma {:induction false} InKidsFoot(s: Shape, keys: set<string>, o: object)
    requires s.MapShape? && keys <= s.kids.Keys
    ensures o in KidsFoot(s, keys) <==> exists k :: k in keys && o in Foot(s.kids[k])
    decreases keys
  {
    if keys != {} {
      var k :| k in keys && KidsFoot(s, keys) == Foot(s.kids[k]) + KidsFoot(s, keys - {k});
      InKidsFoot(s, keys - {k}, o);
    }
  }

  lemma {:induction false} InElementsFoot(s: Shape, n: nat, o: object)
    requires s.ListShape? && n <= |s.elements|
    ensures o in ElementsFoot(s, n) <==> exists i :: 0 <= i < n && o in Foot(s.elements[i])
    decreases n
  {
    if n > 0 {
      InElementsFoot(s, n - 1, o);
    }
  }

  lemma KidFoot(s: Shape, k: string)
    requires s.MapShape? && k in s.kids
    ensures Foot(s.kids[k]) <= Foot(s)
  {
    forall o | o in Foot(s.kids[k]) ensures o in Foot(s) {
      InKidsFoot(s, s.kids.Keys, o);
    }
  }

  lemma KidsFeet(s: Shape)
    requires s.MapShape?
    ensures forall k :: k in s.kids ==> Foot(s.kids[k]) <= Foot(s)
  {
    forall k | k in s.kids ensures Foot(s.kids[k]) <= Foot(s) {
      KidFoot(s, k);
    }
  }

  lemma ElementFoot(s: Shape, i: nat)
    requires s.ListShape? && i < |s.elements|
    ensures Foot(s.elements[i]) <= Foot(s)
  {
    forall o | o in Foot(s.elements[i]) ensures o in Foot(s) {
      InElementsFoot(s, |s.elements|, o);
    }
  }

  /** No node occurs twice. */
  ghost predicate TreeShaped(s: Shape) {
    match s
    case LeafShape(_) => true
    case MapShape(node, kids) =>
      && (forall k :: k in kids ==> TreeShaped(kids[k]) && node !in Foot(kids[k]))
      && forall k, k' :: k in kids && k' in kids && k != k' ==> Foot(kids[k]) !! Foot(kids[k'])
    case ListShape(items, elements) =>
      && (forall i :: 0 <= i < |elements| ==> TreeShaped(elements[i]) && items !in Foot(elements[i]))
      && forall i, j :: 0 <= i < j < |elements| ==> Foot(elements[i]) !! Foot(elements[j])
  }

  ghost function Abs(s: Shape): Value {
    match s
    case LeafShape(value) => value
    case MapShape(_, kids) => Map(map k | k in kids :: Abs(kids[k]))
    case ListShape(_, elements) => List(seq(|elements|, i requires 0 <= i < |elements| => Abs(elements[i])))
  }

  /** Scalars at the leaves. */
  ghost predicate ScalarLeaves(s: Shape) {
    match s
    case LeafShape(value) => !value.Map? && !value.List?
    case MapShape(_, kids) => forall k :: k in kids ==> ScalarLeaves(kids[k])
    case ListShape(_, elements) => forall i :: 0 <= i < |elements| ==> ScalarLeaves(elements[i])
  }

  // ---------------------------------------------------------------------------
  // The nodes' contents at one moment
  // ---------------------------------------------------------------------------

  datatype Heap = Heap(maps: map<MapNode, map<string, Any>>, slices: map<array<Any>, seq<Any>>)

  ghost function Now(objs: set<object>): Heap
    reads objs
  {
    Heap(map n: MapNode | n in objs :: n.m, map a: array<Any> | a in objs :: a[..])
  }

  /** Below the value, the heap looks like the shape. */
  ghost predicate Models(h: Heap, v: Any, s: Shape)
    decreases s
  {
    match s
    case LeafShape(value) => v == Leaf(value)
    case MapShape(node, kids) =>
      && v == MapRef(node) && node in h.maps && h.maps[node].Keys == kids.Keys
      && forall k :: k in kids ==> Models(h, h.maps[node][k], kids[k])
    case ListShape(items, elements) =>
      && v == SliceRef(items) && items in h.slices && |h.slices[items]| == |elements|
      && forall i :: 0 <= i < |elements| ==> Models(h, h.slices[items][i], elements[i])
  }

  /** The second heap holds the same at these nodes. */
  ghost predicate Agree(h: Heap, h': Heap, objs: set<object>) {
    && (forall n :: n in h.maps && n in objs ==> n in h'.maps && h'.maps[n] == h.maps[n])
    && (forall a :: a in h.slices && a in objs ==> a in h'.slices && h'.slices[a] == h.slices[a])
  }

  /** A value whose nodes hold the same still has its shape: whatever is written elsewhere
      is invisible to it. */
  lemma {:induction false} Undisturbed(h: Heap, h': Heap, v: Any, s: Shape)
    requires Models(h, v, s) && Agree(h, h', Foot(s))
    ensures Models(h', v, s)
    decreases s
  {
    match s
    case LeafShape(_) =>
    case MapShape(node, kids) =>
      forall k | k in kids ensures Models(h', h'.maps[node][k], kids[k]) {
        KidFoot(s, k);
        Undisturbed(h, h', h.maps[node][k], kids[k]);
      }
    case ListShape(items, elements) =>
      forall i | 0 <= i < |elements| ensures Models(h', h'.slices[items][i], elements[i]) {
        ElementFoot(s, i);
        Undisturbed(h, h', h.slices[items][i], elements[i]);
      }
  }

  // ---------------------------------------------------------------------------
  // Positions
  // ---------------------------------------------------------------------------

  /** There are maps all along the path. */
  ghost predicate HasMap(s: Shape, path: seq<string>)
    decreases path
  {
    s.MapShape? && (path == [] || (path[0] in s.kids && HasMap(s.kids[path[0]], path[1..])))
  }

  ghost function MapAt(s: Shape, path: seq<string>): (r: Shape)
    requires HasMap(s, path)
    ensures r.MapShape?
    decreases path
  {
    if path == [] then s else MapAt(s.kids[path[0]], path[1..])
  }

  /** The shape after binding a key in the map at a path. */
  ghost function Put(s: Shape, path: seq<string>, k: string, x: Shape): (r: Shape)
    requires HasMap(s, path)
    ensures r.MapShape? && r.node == s.node
    decreases path
  {
    if path == [] then MapShape(s.node, s.kids[k := x])
    else MapShape(s.node, s.kids[path[0] := Put(s.kids[path[0]], path[1..], k, x)])
  }

  lemma {:induction false} MapAtInFoot(s: Shape, path: seq<string>)
    requires HasMap(s, path)
    ensures MapAt(s, path).node in Foot(s) && Foot(MapAt(s, path)) <= Foot(s)
    decreases path
  {
    if path != [] {
      MapAtInFoot(s.kids[path[0]], path[1..]);
      KidFoot(s, path[0]);
    }
  }

  lemma FootOfUpdate(s: Shape, j: string, x: Shape)
    requires s.MapShape?
    ensures Foot(MapShape(s.node, s.kids[j := x])) <= Foot(s) + Foot(x)
  {
    var t := MapShape(s.node, s.kids[j := x]);
    forall o | o in Foot(t) ensures o in Foot(s) + Foot(x) {
      InKidsFoot(t, t.kids.Keys, o);
      InKidsFoot(s, s.kids.Keys, o);
    }
  }

  lemma {:induction false} PutFoot(s: Shape, path: seq<string>, k: string, x: Shape)
    requires HasMap(s, path)
    ensures Foot(Put(s, path, k, x)) <= Foot(s) + Foot(x)
    decreases path
  {
    if path == [] {
      FootOfUpdate(s, k, x);
    } else {
      var kid := Put(s.kids[path[0]], path[1..], k, x);
      PutFoot(s.kids[path[0]], path[1..], k, x);
      KidFoot(s, path[0]);
      FootOfUpdate(s, path[0], kid);
    }
  }

  /** A kid may be replaced by a tree that meets nothing else of the shape. */
  lemma UpdateTreeShaped(s: Shape, j: string, x: Shape)
    requires s.MapShape? && TreeShaped(s) && TreeShaped(x) && s.node !in Foot(x)
    requires forall i :: i in s.kids && i != j ==> Foot(s.kids[i]) !! Foot(x)
    ensures TreeShaped(MapShape(s.node, s.kids[j := x]))
  {
  }

  lemma {:induction false} PutTreeShaped(s: Shape, path: seq<string>, k: string, x: Shape)
    requires HasMap(s, path) && TreeShaped(s) && TreeShaped(x) && Foot(s) !! Foot(x)
    ensures TreeShaped(Put(s, path, k, x))
    decreases path
  {
    KidsFeet(s);
    if path == [] {
      UpdateTreeShaped(s, k, x);
    } else {
      var kid := s.kids[path[0]];
      PutTreeShaped(kid, path[1..], k, x);
      PutFoot(kid, path[1..], k, x);
      UpdateTreeShaped(s, path[0], Put(kid, path[1..], k, x));
    }
  }

  lemma {:induction false} PutScalarLeaves(s: Shape, path: seq<string>, k: string, x: Shape)
    requires HasMap(s, path) && ScalarLeaves(s) && ScalarLeaves(x)
    ensures ScalarLeaves(Put(s, path, k, x))
    decreases path
  {
    if path != [] {
      PutScalarLeaves(s.kids[path[0]], path[1..], k, x);
    }
  }

  /** Binding a key on shapes is setting its path on contents. */
  lemma {:induction false} PutIsSet(s: Shape, path: seq<string>, k: string, x: Shape)
    requires HasMap(s, path)
    ensures Abs(Put(s, path, k, x)) == Map(SetPath(Abs(s).entries, path + [k], Abs(x)))
    decreases path
  {
    if path == [] {
      assert path + [k] == [k];
      AbsOfUpdate(s, k, x);
    } else {
      PutIsSet(s.kids[path[0]], path[1..], k, x);
      assert (path + [k])[1..] == path[1..] + [k];
      AbsOfUpdate(s, path[0], Put(s.kids[path[0]], path[1..], k, x));
      assert Child(Abs(s).entries, path[0]) == Abs(s.kids[path[0]]).entries;
    }
  }

  lemma AbsOfUpdate(s: Shape, j: string, x: Shape)
    requires s.MapShape?
    ensures Abs(MapShape(s.node, s.kids[j := x])) == Map(Abs(s).entries[j := Abs(x)])
  {
  }

  /** The heap after binding a key at one node. */
  ghost function Written(h: Heap, n: MapNode, k: string, w: Any): Heap
    requires n in h.maps
  {
    h.(maps := h.maps[n := h.maps[n][k := w]])
  }

  lemma {:induction false} ModelsHasNode(h: Heap, v: Any, s: Shape, path: seq<string>)
    requires Models(h, v, s) && HasMap(s, path)
    ensures MapAt(s, path).node in h.maps
    ensures Models(h, MapRef(MapAt(s, path).node), MapAt(s, path))
    decreases path
  {
    if path != [] {
      ModelsHasNode(h, h.maps[s.node][path[0]], s.kids[path[0]], path[1..]);
    }
  }

  lemma WriteHere(h: Heap, s: Shape, k: string, w: Any, x: Shape)
    requires s.MapShape? && Models(h, MapRef(s.node), s) && TreeShaped(s)
    requires Models(Written(h, s.node, k, w), w, x)
    ensures Models(Written(h, s.node, k, w), MapRef(s.node), MapShape(s.node, s.kids[k := x]))
  {
    var h' := Written(h, s.node, k, w);
    forall j | j in s.kids && j != k ensures Models(h', h'.maps[s.node][j], s.kids[j]) {
      Undisturbed(h, h', h.maps[s.node][j], s.kids[j]);
    }
  }

  /** A write below one kid does not touch the map itself and the other kids. */
  lemma OthersKeep(h: Heap, s: Shape, j: string, n: MapNode, k: string, w: Any)
    requires s.MapShape? && Models(h, MapRef(s.node), s) && TreeShaped(s)
    requires j in s.kids && n in Foot(s.kids[j]) && n in h.maps
    ensures n != s.node
    ensures forall i :: i in s.kids && i != j ==> Models(Written(h, n, k, w), h.maps[s.node][i], s.kids[i])
  {
    forall i | i in s.kids && i != j ensures Models(Written(h, n, k, w), h.maps[s.node][i], s.kids[i]) {
      WrittenElsewhere(h, n, k, w, h.maps[s.node][i], s.kids[i]);
    }
  }

  lemma WriteBelow(h: Heap, s: Shape, j: string, n: MapNode, k: string, w: Any, kid: Shape)
    requires s.MapShape? && Models(h, MapRef(s.node), s) && TreeShaped(s)
    requires j in s.kids && n in Foot(s.kids[j]) && n in h.maps
    requires Models(Written(h, n, k, w), h.maps[s.node][j], kid)
    ensures Models(Written(h, n, k, w), MapRef(s.node), MapShape(s.node, s.kids[j := kid]))
  {
    OthersKeep(h, s, j, n, k, w);
    assert Written(h, n, k, w).maps[s.node] == h.maps[s.node];
  }

  lemma WrittenElsewhere(h: Heap, n: MapNode, k: string, w: Any, v: Any, s: Shape)
    requires Models(h, v, s) && n in h.maps && n !in Foot(s)
    ensures Models(Written(h, n, k, w), v, s)
  {
    Undisturbed(h, Written(h, n, k, w), v, s);
  }

  /** One write to the map at a path turns the shape into the shape with that key bound. */
  lemma {:induction false} WriteModels(h: Heap, v: Any, s: Shape, path: seq<string>, k: string, w: Any, x: Shape)
    requires Models(h, v, s) && HasMap(s, path) && TreeShaped(s) && MapAt(s, path).node in h.maps
    requires Models(Written(h, MapAt(s, path).node, k, w), w, x)
    ensures Models(Written(h, MapAt(s, path).node, k, w), v, Put(s, path, k, x))
    decreases path
  {
    if path == [] {
      WriteHere(h, s, k, w, x);
    } else {
      var kid := s.kids[path[0]];
      MapAtInFoot(kid, path[1..]);
      WriteModels(h, h.maps[s.node][path[0]], kid, path[1..], k, w, x);
      WriteBelow(h, s, path[0], MapAt(s, path).node, k, w, Put(kid, path[1..], k, x));
    }
  }

  // ---------------------------------------------------------------------------
  // Paths already stored
  // ---------------------------------------------------------------------------

  function Init(path: seq<string>): seq<string>
    requires |path| > 0
  {
    path[..|path| - 1]
  }

  function Last(path: seq<string>): string
    requires |path| > 0
  {
    path[|path| - 1]
  }

  /** The shape already has this value at this path. */
  ghost predicate Stored(s: Shape, path: seq<string>, x: Shape)
    requires |path| > 0
  {
    HasMap(s, Init(path)) && var m := MapAt(s, Init(path)); Last(path) in m.kids && m.kids[Last(path)] == x
  }

  lemma {:induction false} PutMapAt(s: Shape, path: seq<string>, k: string, x: Shape)
    requires HasMap(s, path)
    ensures HasMap(Put(s, path, k, x), path)
    ensures MapAt(Put(s, path, k, x), path) == MapShape(MapAt(s, path).node, MapAt(s, path).kids[k := x])
    decreases path
  {
    if path != [] {
      PutMapAt(s.kids[path[0]], path[1..], k, x);
    }
  }

  lemma PutStores(s: Shape, path: seq<string>, k: string, x: Shape)
    requires HasMap(s, path)
    ensures HasMap(Put(s, path, k, x), path) && Stored(Put(s, path, k, x), path + [k], x)
    ensures MapAt(Put(s, path, k, x), path) == MapShape(MapAt(s, path).node, MapAt(s, path).kids[k := x])
  {
    PutMapAt(s, path, k, x);
    assert Init(path + [k]) == path;
  }

  lemma {:induction false} MapAtChild(s: Shape, path: seq<string>, k: string)
    requires HasMap(s, path) && k in MapAt(s, path).kids && MapAt(s, path).kids[k].MapShape?
    ensures HasMap(s, path + [k]) && MapAt(s, path + [k]) == MapAt(s, path).kids[k]
    decreases path
  {
    if path == [] {
      assert (path + [k])[1..] == [];
    } else {
      MapAtChild(s.kids[path[0]], path[1..], k);
      assert (path + [k])[1..] == path[1..] + [k];
    }
  }

  lemma {:induction false} PutAgain(s: Shape, path: seq<string>, k: string, x: Shape)
    requires HasMap(s, path) && Stored(s, path + [k], x)
    ensures Put(s, path, k, x) == s
    decreases path
  {
    assert Init(path + [k]) == path;
    if path == [] {
      assert s.kids[k := x] == s.kids;
    } else {
      assert Init(path[1..] + [k]) == path[1..];
      PutAgain(s.kids[path[0]], path[1..], k, x);
      assert s.kids[path[0] := s.kids[path[0]]] == s.kids;
    }
  }

  /** No map can be found at this path of the contents. */
  predicate NoMapAt(m: Contents, path: seq<string>)
    requires |path| > 0
  {
    var v := GetPath(m, path);
    v.None? || !v.value.Map?
  }

  lemma EmptyHere(m: Contents, k: string, path: seq<string>, whole: seq<string>, rest: seq<string>, value: Value)
    requires |rest| > 0 && path == [k] && |whole| > 1 && whole[0] == k && whole[1..] == rest && NoMapAt(m, path)
    ensures SetPath(SetPath(m, path, Map(map[])), whole, value) == SetPath(m, whole, value)
  {
    assert Child(m, k) == map[];
    assert Child(m[k := Map(map[])], k) == map[];
  }

  lemma NoMapOneDown(m: Contents, path: seq<string>)
    requires |path| > 1 && NoMapAt(m, path)
    ensures NoMapAt(Child(m, path[0]), path[1..])
  {
    if !(path[0] in m && m[path[0]].Map?) {
      assert Child(m, path[0]) == map[];
    }
  }

  /** Putting an empty map where there was none does not change what a longer Set makes. */
  lemma {:induction false} EmptyOnTheWay(m: Contents, path: seq<string>, rest: seq<string>, value: Value)
    requires |path| > 0 && |rest| > 0 && NoMapAt(m, path)
    ensures SetPath(SetPath(m, path, Map(map[])), path + rest, value) == SetPath(m, path + rest, value)
    decreases path
  {
    assert (path + rest)[0] == path[0] && (path + rest)[1..] == path[1..] + rest;
    if |path| == 1 {
      assert path[1..] + rest == rest;
      EmptyHere(m, path[0], path, path + rest, rest, value);
    } else {
      NoMapOneDown(m, path);
      EmptyOnTheWay(Child(m, path[0]), path[1..], rest, value);
    }
  }

  /** Where the node at a path holds no map under a key, neither shape nor contents do. */
  lemma {:induction false} NoMapBelow(h: Heap, v: Any, s: Shape, path: seq<string>, part: string)
    requires Models(h, v, s) && HasMap(s, path) && ScalarLeaves(s) && MapAt(s, path).node in h.maps
    requires part in h.maps[MapAt(s, path).node] ==> !h.maps[MapAt(s, path).node][part].MapRef?
    ensures !HasMap(s, path + [part]) && NoMapAt(Abs(s).entries, path + [part])
    decreases path
  {
    if path == [] {
      assert path + [part] == [part];
      if part in s.kids {
        assert Models(h, h.maps[s.node][part], s.kids[part]);
      }
    } else {
      assert (path + [part])[0] == path[0] && (path + [part])[1..] == path[1..] + [part];
      NoMapBelow(h, h.maps[s.node][path[0]], s.kids[path[0]], path[1..], part);
    }
  }

  lemma {:induction false} HasMapPrefix(s: Shape, path: seq<string>, n: nat)
    requires HasMap(s, path) && n <= |path|
    ensures HasMap(s, path[..n])
    decreases path
  {
    if n > 0 {
      HasMapPrefix(s.kids[path[0]], path[1..], n - 1);
      assert path[..n][1..] == path[1..][..n - 1];
    }
  }

  // ---------------------------------------------------------------------------
  // Seen by different sets of nodes
  // ---------------------------------------------------------------------------

  lemma NowAgrees(a: set<object>, b: set<object>, objs: set<object>)
    requires objs <= b
    ensures Agree(Now(a), Now(b), objs)
  {
  }

  lemma ModelsIn(a: set<object>, b: set<object>, v: Any, s: Shape)
    requires Models(Now(a), v, s) && Foot(s) <= b
    ensures Models(Now(b), v, s)
  {
    NowAgrees(a, b, Foot(s));
    Undisturbed(Now(a), Now(b), v, s);
  }

  lemma EmptyMap(n: MapNode, y: Shape)
    requires y == MapShape(n, map[]) && n.m == map[]
    ensures Foot(y) == {n} && TreeShaped(y) && ScalarLeaves(y)
    ensures Models(Now(Foot(y)), MapRef(n), y)
  {
  }

  /** The assignment current[part] = w, seen by a set of nodes. */
  method WriteNode(n: MapNode, part: string, w: Any, ghost objs: set<object>)
    requires n in objs
    modifies n
    ensures n in Now(objs).maps && Now(objs) == Written(old(Now(objs)), n, part, w)
  {
    n.m := n.m[part := w];
  }
}
