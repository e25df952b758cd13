/** The store itself: Set, Get, SetNested and Snapshot as the code runs them. */
module MapStore {
  import opened Prelude
  import opened StoreModel
  import opened ValueStore
  import opened Clone

  /** A shape fixes the value it is the shape of. */
  lemma ModelsUnique(h: Heap, v: Any, w: Any, s: Shape)
    requires Models(h, v, s) && Models(h, w, s)
    ensures v == w
  {
  }

  /** No map key has a dot, however deep below maps. */
  ghost predicate DotFree(x: Shape) {
    x.MapShape? ==> forall k :: k in x.kids ==> '.' !in k && DotFree(x.kids[k])
  }

  lemma SplitSingle(key: string)
    requires |Split(key)| == 1
    ensures Split(key) == [key]
  {
    if key != "" {
      SplitSingle(key[1..]);
      assert [key[0]] + key[1..] == key;
    }
  }

  /** These nodes hold a tree-shaped store of this shape. */
  ghost predicate Holds(h: Heap, root: MapNode, s: Shape, repr: set<object>) {
    && s.MapShape? && s.node == root && TreeShaped(s) && ScalarLeaves(s)
    && Foot(s) <= repr && root in repr
    && Models(h, MapRef(root), s)
  }

  lemma HoldsMore(root: MapNode, s: Shape, repr: set<object>, more: set<object>)
    requires Holds(Now(repr), root, s, repr) && repr <= more
    ensures Holds(Now(more), root, s, more)
  {
    ModelsIn(repr, more, MapRef(root), s);
  }

  /** A value that may be bound under a key: one that shares nothing with the store, or the
      one that is bound there already. */
  ghost predicate Linkable(s: Shape, path: seq<string>, part: string, y: Shape) {
    Stored(s, path + [part], y) || (TreeShaped(y) && ScalarLeaves(y) && Foot(y) !! Foot(s))
  }

  lemma BindNew(h: Heap, root: MapNode, s: Shape, repr: set<object>, path: seq<string>, part: string, w: Any, y: Shape)
    requires Holds(h, root, s, repr) && HasMap(s, path)
    requires Models(h, w, y) && TreeShaped(y) && ScalarLeaves(y) && Foot(y) <= repr && Foot(y) !! Foot(s)
    ensures MapAt(s, path).node in h.maps
    ensures Holds(Written(h, MapAt(s, path).node, part, w), root, Put(s, path, part, y), repr)
  {
    ModelsHasNode(h, MapRef(root), s, path);
    MapAtInFoot(s, path);
    Undisturbed(h, Written(h, MapAt(s, path).node, part, w), w, y);
    WriteModels(h, MapRef(root), s, path, part, w, y);
    PutTreeShaped(s, path, part, y);
    PutScalarLeaves(s, path, part, y);
    PutFoot(s, path, part, y);
  }

  lemma BindSame(h: Heap, root: MapNode, s: Shape, path: seq<string>, part: string, w: Any, y: Shape)
    requires s.MapShape? && HasMap(s, path) && Stored(s, path + [part], y)
    requires Models(h, MapRef(root), s) && Models(h, w, y)
    ensures MapAt(s, path).node in h.maps && Written(h, MapAt(s, path).node, part, w) == h
    ensures Put(s, path, part, y) == s
  {
    assert Init(path + [part]) == path;
    ModelsHasNode(h, MapRef(root), s, path);
    var n := MapAt(s, path).node;
    ModelsUnique(h, h.maps[n][part], w, y);
    assert h.maps[n][part := w] == h.maps[n];
    assert h.maps[n := h.maps[n]] == h.maps;
    PutAgain(s, path, part, y);
  }

  /** Binding keeps the store whole; binding what is there already changes nothing. */
  lemma BindHolds(h: Heap, root: MapNode, s: Shape, repr: set<object>, path: seq<string>, part: string, w: Any,
                  y: Shape)
    requires Holds(h, root, s, repr) && HasMap(s, path) && Linkable(s, path, part, y)
    requires Models(h, w, y) && Foot(y) <= repr
    ensures MapAt(s, path).node in h.maps
    ensures Holds(Written(h, MapAt(s, path).node, part, w), root, Put(s, path, part, y), repr)
    ensures Stored(s, path + [part], y) ==>
              Written(h, MapAt(s, path).node, part, w) == h && Put(s, path, part, y) == s
  {
    if Stored(s, path + [part], y) {
      BindSame(h, root, s, path, part, w, y);
    } else {
      BindNew(h, root, s, repr, path, part, w, y);
    }
  }

  /** An empty map put where there was none: it can be entered, and a longer Set makes the
      same of the contents as before. */
  lemma Grafted(s: Shape, path: seq<string>, part: string, y: Shape, parts: seq<string>, value: Value)
    requires HasMap(s, path) && y.MapShape? && y.kids == map[]
    requires path + [part] <= parts && |path| + 1 < |parts| && NoMapAt(Abs(s).entries, path + [part])
    ensures HasMap(Put(s, path, part, y), path + [part]) && MapAt(Put(s, path, part, y), path + [part]) == y
    ensures SetPath(Abs(Put(s, path, part, y)).entries, parts, value) == SetPath(Abs(s).entries, parts, value)
  {
    PutStores(s, path, part, y);
    MapAtChild(Put(s, path, part, y), path, part);
    PutIsSet(s, path, part, y);
    assert Abs(y) == Map(map[]);
    EmptyPassed(Abs(s).entries, path + [part], parts, value);
  }

  lemma Linked(s: Shape, parts: seq<string>, x: Shape)
    requires |parts| > 0 && HasMap(s, Init(parts))
    ensures Abs(Put(s, Init(parts), Last(parts), x)).entries == SetPath(Abs(s).entries, parts, Abs(x))
    ensures Stored(Put(s, Init(parts), Last(parts), x), parts, x)
    ensures parts == Init(parts) + [Last(parts)]
  {
    InitLast(parts);
    PutIsSet(s, Init(parts), Last(parts), x);
    PutStores(s, Init(parts), Last(parts), x);
  }

  /** What is bound at a path of the store. */
  ghost function Bound(s: Shape, parts: seq<string>): Option<Shape>
    requires |parts| > 0
  {
    if HasMap(s, Init(parts)) && Last(parts) in MapAt(s, Init(parts)).kids
    then Some(MapAt(s, Init(parts)).kids[Last(parts)]) else None
  }

  lemma {:induction false} BoundIsGet(s: Shape, parts: seq<string>)
    requires |parts| > 0 && s.MapShape? && ScalarLeaves(s)
    ensures GetPath(Abs(s).entries, parts) ==
            (match Bound(s, parts) case None => None case Some(y) => Some(Abs(y)))
    decreases parts
  {
    if |parts| > 1 {
      assert Init(parts)[1..] == Init(parts[1..]) && Last(parts[1..]) == Last(parts);
      if parts[0] in s.kids {
        var kid := s.kids[parts[0]];
        assert ScalarLeaves(kid);
        if kid.MapShape? {
          BoundIsGet(kid, parts[1..]);
        } else {
          assert Abs(s).entries[parts[0]] == Abs(kid) && !Abs(kid).Map?;
          assert Init(parts)[0] == parts[0] && !HasMap(s, Init(parts));
        }
      }
    }
  }

  /** Where the walk finds no map for a part, nothing is bound at the path. */
  lemma NothingBound(h: Heap, root: MapNode, s: Shape, repr: set<object>, parts: seq<string>, j: nat)
    requires Holds(h, root, s, repr) && j + 1 < |parts| && HasMap(s, parts[..j]) && MapAt(s, parts[..j]).node in h.maps
    requires var m := h.maps[MapAt(s, parts[..j]).node]; parts[j] in m ==> !m[parts[j]].MapRef?
    ensures Bound(s, parts) == None
  {
    NoMapBelow(h, MapRef(root), s, parts[..j], parts[j]);
    assert parts[..j] + [parts[j]] == Init(parts)[..j + 1];
    if HasMap(s, Init(parts)) {
      HasMapPrefix(s, Init(parts), j + 1);
    }
  }

  /** The nodes of a stored map hold what its shape says. */
  lemma MemberOf(h: Heap, root: MapNode, s: Shape, repr: set<object>, prefix: string, x: Shape)
    requires Holds(h, root, s, repr) && Stored(s, Split(prefix), x) && x.MapShape?
    ensures Models(h, MapRef(x.node), x) && Foot(x) <= repr
  {
    var parts := Split(prefix);
    InitLast(parts);
    StoredFoot(s, parts, x);
    MapAtChild(s, Init(parts), Last(parts));
    ModelsHasNode(h, MapRef(root), s, parts);
  }

  /** A member of a stored map is stored under the longer key. */
  lemma MemberStored(s: Shape, prefix: string, x: Shape, k: string)
    requires Stored(s, Split(prefix), x) && x.MapShape? && k in x.kids && '.' !in k
    ensures Stored(s, Split(prefix + "." + k), x.kids[k]) && Foot(x.kids[k]) <= Foot(x)
    ensures Linkable(s, Init(Split(prefix + "." + k)), Last(Split(prefix + "." + k)), x.kids[k])
  {
    var parts := Split(prefix);
    InitLast(parts);
    SplitConcat(prefix, k);
    SplitPlain(k);
    assert Init(parts + [k]) == parts && Last(parts + [k]) == k;
    MapAtChild(s, Init(parts), Last(parts));
    KidFoot(x, k);
  }

  /** What is stored belongs to the store. */
  lemma StoredFoot(s: Shape, parts: seq<string>, x: Shape)
    requires |parts| > 0 && Stored(s, parts, x)
    ensures Foot(x) <= Foot(s)
  {
    MapAtInFoot(s, Init(parts));
    KidFoot(MapAt(s, Init(parts)), Last(parts));
  }

  lemma TakeNext(parts: seq<string>, j: nat)
    requires j < |parts|
    ensures parts[..j + 1] == parts[..j] + [parts[j]]
  {
  }

  lemma HasMapOnTheWay(s: Shape, parts: seq<string>, j: nat)
    requires j + 1 < |parts| && HasMap(s, Init(parts))
    ensures HasMap(s, parts[..j] + [parts[j]])
  {
    HasMapPrefix(s, Init(parts), j + 1);
    assert Init(parts)[..j + 1] == parts[..j] + [parts[j]];
  }

  lemma InitLast(path: seq<string>)
    requires |path| > 0
    ensures path == Init(path) + [Last(path)]
  {
  }

  lemma EmptyPassed(m: Contents, path: seq<string>, parts: seq<string>, value: Value)
    requires |path| > 0 && path <= parts && |path| < |parts| && NoMapAt(m, path)
    ensures SetPath(SetPath(m, path, Map(map[])), parts, value) == SetPath(m, parts, value)
  {
    assert parts == path + parts[|path|..];
    EmptyOnTheWay(m, path, parts[|path|..], value);
  }

  class MapValueStore {
    const values: MapNode
    ghost var shape: Shape
    ghost var repr: set<object>

    /** The nodes of the store are among the represented ones. */
    ghost predicate Sound()
      reads this, repr
    {
      this !in repr && Holds(Now(repr), values, shape, repr)
    }

    ghost predicate Valid()
      reads this, repr
    {
      Sound() && repr == Foot(shape)
    }

    /** Shape, nodes and what they hold are these. */
    ghost predicate Unchanged(s: Shape, nodes: set<object>, h: Heap)
      reads this, repr
    {
      shape == s && repr == nodes && Now(repr) == h
    }

    ghost function Contents(): Contents
      requires Sound()
      reads this, repr
    {
      Abs(shape).entries
    }

    constructor ()
      ensures Valid() && fresh(repr) && Contents() == map[]
    {
      values := new MapNode();
      new;
      shape := MapShape(values, map[]);
      repr := {values};
    }

    /** One write to the map at a path. */
    method Bind(current: MapNode, part: string, w: Any, ghost path: seq<string>, ghost y: Shape)
      requires Sound() && HasMap(shape, path) && MapAt(shape, path).node == current
      requires Models(Now(repr), w, y) && Foot(y) <= repr && Linkable(shape, path, part, y)
      modifies this`shape, current
      ensures Sound() && shape == Put(old(shape), path, part, y) && repr == old(repr)
      ensures old(Stored(shape, path + [part], y)) ==> shape == old(shape) && Now(repr) == old(Now(repr))
    {
      MapAtInFoot(shape, path);
      BindHolds(Now(repr), values, shape, repr, path, part, w, y);
      WriteNode(current, part, w, repr);
      shape := Put(shape, path, part, y);
    }

    /** The nodes of a value join the representation before it is linked. */
    ghost method Adopt(value: Any, x: Shape)
      requires Sound() && Models(Now(Foot(x)), value, x) && this !in Foot(x)
      modifies this`repr
      ensures Sound() && repr == old(repr) + Foot(x) && Models(Now(repr), value, x)
      ensures Foot(x) <= old(repr) ==> repr == old(repr)
    {
      HoldsMore(values, shape, repr, repr + Foot(x));
      ModelsIn(Foot(x), repr + Foot(x), value, x);
      repr := repr + Foot(x);
    }

    /** The new map of the loop, linked in. */
    method Graft(current: MapNode, part: string, ghost path: seq<string>) returns (next: MapNode)
      requires Sound() && HasMap(shape, path) && MapAt(shape, path).node == current && current in repr
      modifies this, current
      ensures fresh(next) && repr == old(repr) + {next}
      ensures Sound() && shape == Put(old(shape), path, part, MapShape(next, map[]))
    {
      next := new MapNode();
      ghost var y := MapShape(next, map[]);
      EmptyMap(next, y);
      Adopt(MapRef(next), y);
      Bind(current, part, MapRef(next), path, y);
    }

    method CreateMap(current: MapNode, part: string, ghost path: seq<string>, ghost parts: seq<string>,
                     ghost value: Value)
      returns (next: MapNode)
      requires Sound() && HasMap(shape, path) && MapAt(shape, path).node == current && current in repr
      requires part in current.m ==> !current.m[part].MapRef?
      requires path + [part] <= parts && |path| + 1 < |parts|
      modifies this, repr
      ensures Sound() && HasMap(shape, path + [part]) && MapAt(shape, path + [part]).node == next && next in repr
      ensures SetPath(Contents(), parts, value) == SetPath(old(Contents()), parts, value)
      ensures repr == old(repr) + {next} && fresh(next)
      ensures !old(HasMap(shape, path + [part]))
    {
      ModelsHasNode(Now(repr), MapRef(values), shape, path);
      NoMapBelow(Now(repr), MapRef(values), shape, path, part);
      ghost var s := shape;
      next := Graft(current, part, path);
      Grafted(s, path, part, MapShape(next, map[]), parts, value);
    }

    /** One turn of the loop. */
    method Enter(current: MapNode, part: string, ghost path: seq<string>, ghost parts: seq<string>, ghost value: Value)
      returns (next: MapNode)
      requires Sound() && HasMap(shape, path) && MapAt(shape, path).node == current && current in repr
      requires path + [part] <= parts && |path| + 1 < |parts|
      modifies this, repr
      ensures Sound() && HasMap(shape, path + [part]) && MapAt(shape, path + [part]).node == next && next in repr
      ensures SetPath(Contents(), parts, value) == SetPath(old(Contents()), parts, value)
      ensures old(repr) <= repr && fresh(repr - old(repr))
      ensures old(HasMap(shape, path + [part])) ==> Unchanged(old(shape), old(repr), old(Now(repr)))
    {
      ModelsHasNode(Now(repr), MapRef(values), shape, path);
      ghost var m := MapAt(shape, path);
      if part in current.m && current.m[part].MapRef? {
        next := current.m[part].node;
        assert Models(Now(repr), current.m[part], m.kids[part]);
        MapAtChild(shape, path, part);
        MapAtInFoot(shape, path + [part]);
      } else {
        next := CreateMap(current, part, path, parts, value);
      }
    }

    /** The cursor loop of Set: walks to the map that will hold the last part, putting empty
        maps where a part is missing or is not a map. */
    method Descend(parts: seq<string>, ghost value: Value) returns (current: MapNode)
      requires Sound() && |parts| > 0
      modifies this, repr
      ensures Sound() && HasMap(shape, Init(parts)) && MapAt(shape, Init(parts)).node == current && current in repr
      ensures SetPath(Contents(), parts, value) == SetPath(old(Contents()), parts, value)
      ensures old(repr) <= repr && fresh(repr - old(repr))
      ensures old(HasMap(shape, Init(parts))) ==> Unchanged(old(shape), old(repr), old(Now(repr)))
    {
      current := values;
      var j := 0;
      while j < |parts| - 1
        invariant 0 <= j <= |parts| - 1
        invariant Sound() && HasMap(shape, parts[..j]) && MapAt(shape, parts[..j]).node == current && current in repr
        invariant SetPath(Contents(), parts, value) == SetPath(old(Contents()), parts, value)
        invariant old(repr) <= repr && fresh(repr - old(repr))
        invariant old(HasMap(shape, Init(parts))) ==> Unchanged(old(shape), old(repr), old(Now(repr)))
      {
        TakeNext(parts, j);
        if old(HasMap(shape, Init(parts))) {
          HasMapOnTheWay(shape, parts, j);
        }
        current := Enter(current, parts[j], parts[..j], parts, value);
        j := j + 1;
      }
    }

    /** The nodes of a value that was replaced leave the representation. */
    ghost method Shed()
      requires Sound()
      modifies this`repr
      ensures Valid() && repr <= old(repr) && shape == old(shape)
      ensures old(Valid()) ==> repr == old(repr)
    {
      ghost var known := repr;
      repr := Foot(shape);
      ModelsIn(known, repr, MapRef(values), shape);
    }

    /** The final assignment of Set. */
    method Link(current: MapNode, last: string, value: Any, ghost parts: seq<string>, ghost x: Shape)
      requires Sound() && current in repr && |parts| > 0 && last == Last(parts)
      requires HasMap(shape, Init(parts)) && MapAt(shape, Init(parts)).node == current
      requires Models(Now(Foot(x)), value, x) && this !in Foot(x) && Linkable(shape, Init(parts), last, x)
      modifies this, current
      ensures Sound() && repr == old(repr) + Foot(x) && Stored(shape, parts, x)
      ensures Contents() == SetPath(old(Contents()), parts, Abs(x))
      ensures old(Stored(shape, parts, x)) ==> shape == old(shape) && Now(repr) == old(Now(repr))
    {
      ghost var again := Stored(shape, parts, x);
      if again {
        StoredFoot(shape, parts, x);
      }
      Adopt(value, x);
      assert again ==> repr == old(repr);
      ghost var s := shape;
      Linked(s, parts, x);
      Bind(current, last, value, Init(parts), x);
      assert shape == Put(s, Init(parts), Last(parts), x);
    }

    /** Set on a key of several parts. */
    method SetDeep(parts: seq<string>, value: Any, ghost x: Shape, ghost nodes: set<object>)
      requires nodes == Foot(x) && Valid() && Models(Now(Foot(x)), value, x) && this !in Foot(x)
      requires |parts| > 0 && Linkable(shape, Init(parts), Last(parts), x)
      modifies this, repr
      ensures Sound() && forall o :: o in repr ==> o in old(repr) || o in nodes || fresh(o)
      ensures Contents() == SetPath(old(Contents()), parts, Abs(x)) && Stored(shape, parts, x)
      ensures old(Stored(shape, parts, x)) ==> shape == old(shape) && Now(repr) == old(Now(repr))
    {
      InitLast(parts);
      ghost var again := Stored(shape, parts, x);
      if again {
        StoredFoot(shape, parts, x);
        ModelsIn(nodes, repr, value, x);
      }
      var current := Descend(parts, Abs(x));
      if again {
        ModelsIn(repr, nodes, value, x);
      } else {
        assert nodes !! repr;
        assert Now(nodes) == old(Now(nodes));
      }
      Link(current, parts[|parts| - 1], value, parts, x);
    }

    /** Both branches of Set. */
    method SetParts(key: string, value: Any, ghost x: Shape)
      requires Valid() && Models(Now(Foot(x)), value, x) && this !in Foot(x)
      requires Linkable(shape, Init(Split(key)), Last(Split(key)), x)
      modifies this, repr
      ensures Sound() && forall o :: o in repr ==> o in old(repr) || o in Foot(x) || fresh(o)
      ensures Contents() == StoreModel.Set(old(Contents()), key, Abs(x)) && Stored(shape, Split(key), x)
      ensures old(Stored(shape, Split(key), x)) ==> shape == old(shape) && Now(repr) == old(Now(repr))
    {
      var parts := Split(key);
      InitLast(parts);
      if |parts| == 1 {
        SplitSingle(key);
        Link(values, key, value, parts, x);
      } else {
        SetDeep(parts, value, x, Foot(x));
      }
    }

    /** Set: afterwards the contents are the old contents with the key's path set. Setting
        what is there already changes no node. */
    method Set(key: string, value: Any, ghost x: Shape)
      requires Valid() && Models(Now(Foot(x)), value, x) && this !in Foot(x)
      requires Linkable(shape, Init(Split(key)), Last(Split(key)), x)
      modifies this, repr
      ensures Valid() && forall o :: o in repr ==> o in old(repr) || o in Foot(x) || fresh(o)
      ensures Contents() == StoreModel.Set(old(Contents()), key, Abs(x)) && Stored(shape, Split(key), x)
      ensures old(Stored(shape, Split(key), x)) ==> shape == old(shape) && Now(repr) == old(Now(repr))
    {
      SetParts(key, value, x);
      Shed();
    }

    /** SetNested: the whole state is the one Set leaves, whatever order the keys of the maps
        are visited in. */
    method SetNested(prefix: string, value: Any, ghost x: Shape)
      requires Valid() && Models(Now(Foot(x)), value, x) && this !in Foot(x) && DotFree(x)
      requires Linkable(shape, Init(Split(prefix)), Last(Split(prefix)), x)
      modifies this, repr, Foot(x)
      ensures Valid() && forall o :: o in repr ==> o in old(repr) || o in Foot(x) || fresh(o)
      ensures Contents() == StoreModel.Set(old(Contents()), prefix, Abs(x)) && Stored(shape, Split(prefix), x)
      ensures old(Stored(shape, Split(prefix), x)) ==> shape == old(shape) && Now(repr) == old(Now(repr))
      decreases x, 1
    {
      Set(prefix, value, x);
      if value.MapRef? {
        Expand(prefix, value.node, x);
      }
    }

    /** Storing the members of a stored map once more, each under its own key, is idle. */
    method Expand(prefix: string, n: MapNode, ghost x: Shape)
      requires Valid() && Stored(shape, Split(prefix), x) && x.MapShape? && x.node == n && DotFree(x)
      modifies this, repr
      ensures Valid() && shape == old(shape) && Now(repr) == old(Now(repr))
      decreases x, 0
    {
      MemberOf(Now(repr), values, shape, repr, prefix, x);
      var keys := n.m.Keys;
      while keys != {}
        invariant keys <= x.kids.Keys
        invariant Valid() && shape == old(shape) && Now(repr) == old(Now(repr))
        decreases keys
      {
        var k :| k in keys;
        MemberOf(Now(repr), values, shape, repr, prefix, x);
        MemberStored(shape, prefix, x, k);
        ModelsIn(repr, Foot(x.kids[k]), n.m[k], x.kids[k]);
        SetNested(prefix + "." + k, n.m[k], x.kids[k]);
        keys := keys - {k};
      }
    }

    /** One turn of Get's loop: the next map, or none. */
    method Follow(current: MapNode, j: nat, parts: seq<string>) returns (next: Option<MapNode>)
      requires Valid() && j + 1 < |parts| && HasMap(shape, parts[..j]) && MapAt(shape, parts[..j]).node == current
      ensures next.Some? ==> HasMap(shape, parts[..j + 1]) && MapAt(shape, parts[..j + 1]).node == next.value
      ensures next.None? ==> Bound(shape, parts) == None
    {
      TakeNext(parts, j);
      ModelsHasNode(Now(repr), MapRef(values), shape, parts[..j]);
      if parts[j] !in current.m || !current.m[parts[j]].MapRef? {
        NothingBound(Now(repr), values, shape, repr, parts, j);
        return None;
      }
      MapAtChild(shape, parts[..j], parts[j]);
      return Some(current.m[parts[j]].node);
    }

    /** Get's loop: the map that may hold the last part, or none. */
    method Walk(parts: seq<string>) returns (last: Option<MapNode>)
      requires Valid() && |parts| > 0
      ensures last.Some? ==> HasMap(shape, Init(parts)) && MapAt(shape, Init(parts)).node == last.value
      ensures last.None? ==> Bound(shape, parts) == None
    {
      var current := values;
      var j := 0;
      while j < |parts| - 1
        invariant 0 <= j <= |parts| - 1
        invariant HasMap(shape, parts[..j]) && MapAt(shape, parts[..j]).node == current
      {
        last := Follow(current, j, parts);
        if last.None? {
          return;
        }
        current := last.value;
        j := j + 1;
      }
      return Some(current);
    }

    /** Get: the value found is the one the contents have at the key's path. */
    method Get(key: string) returns (r: Option<Any>)
      requires Valid()
      ensures r.Some? <==> StoreModel.Get(Contents(), key).Some?
      ensures r.Some? ==> Bound(shape, Split(key)).Some? && Models(Now(repr), r.value, Bound(shape, Split(key)).value)
      ensures r.Some? ==> StoreModel.Get(Contents(), key) == Some(Abs(Bound(shape, Split(key)).value))
    {
      var parts := Split(key);
      BoundIsGet(shape, parts);
      if |parts| == 1 {
        SplitSingle(key);
        r := Lookup(values, key, parts);
        return;
      }
      var last := Walk(parts);
      if last.None? {
        return None;
      }
      r := Lookup(last.value, parts[|parts| - 1], parts);
    }

    method Lookup(current: MapNode, last: string, ghost parts: seq<string>) returns (r: Option<Any>)
      requires Valid() && |parts| > 0 && last == Last(parts)
      requires HasMap(shape, Init(parts)) && MapAt(shape, Init(parts)).node == current
      ensures r.Some? <==> Bound(shape, parts).Some?
      ensures r.Some? ==> Models(Now(repr), r.value, Bound(shape, parts).value)
    {
      ModelsHasNode(Now(repr), MapRef(values), shape, Init(parts));
      if last !in current.m {
        return None;
      }
      return Some(current.m[last]);
    }

    /** Snapshot: the same contents on nodes of its own. */
    method Snapshot() returns (copy: MapNode, ghost t: Shape)
      requires Valid()
      ensures CopyOf(MapRef(copy), t, shape) && fresh(Foot(t)) && Foot(t) !! repr
      ensures Abs(t) == Map(Contents())
    {
      copy, t := CloneMap(values, shape, repr);
    }
  }
}
