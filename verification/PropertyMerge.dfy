/** The properties a run starts with: what the store holds once the global properties and then
    those of the flow are set, in whatever orders the two maps are visited. */
module PropertyMerge {
  import opened Prelude
  import opened StoreModel

  /** Every name once, in some order. */
  ghost predicate Lists(order: seq<string>, names: set<string>) {
    Distinct(order) && Elems(order) == names
  }

  lemma ListsMore(order: seq<string>, names: set<string>, n: string)
    requires Lists(order, names) && n !in names
    ensures Lists(order + [n], names + {n})
  {
    ElemsAppend(order, n);
    assert n in order ==> n in Elems(order);
  }

  /** The path of a property. */
  function PathOf(name: string): (p: seq<string>)
    ensures |p| > 0
  {
    Split("properties." + name)
  }

  /** The store after setting these properties in this order. */
  function SetAll(store: Contents, properties: map<string, Value>, order: seq<string>): Contents {
    if order == [] then store
    else
      var n := order[|order| - 1];
      var before := SetAll(store, properties, order[..|order| - 1]);
      if n in properties then Set(before, "properties." + n, properties[n]) else before
  }

  /** The store after setting the global properties and then those of the flow. */
  function Merge(store: Contents, globals: map<string, Value>, flow: map<string, Value>, first: seq<string>,
                 second: seq<string>): Contents {
    SetAll(SetAll(store, globals, first), flow, second)
  }

  // ---------------------------------------------------------------------------
  // Names and paths
  // ---------------------------------------------------------------------------

  lemma {:induction false} SplitInjective(a: string, b: string)
    requires Split(a) == Split(b)
    ensures a == b
  {
    if a != "" && b != "" {
      SplitFirst(a);
      SplitFirst(b);
      SplitTail(a, b);
      SplitInjective(a[1..], b[1..]);
      assert a == [a[0]] + a[1..] && b == [b[0]] + b[1..];
    } else if a != "" {
      SplitFirst(a);
    } else if b != "" {
      SplitFirst(b);
    }
  }

  /** A first dot opens an empty part, any other first character stands in the first part. */
  lemma SplitFirst(a: string)
    requires a != ""
    ensures a[0] == '.' ==> Split(a)[0] == "" && |Split(a)| > 1
    ensures a[0] != '.' ==> Split(a)[0] != "" && Split(a)[0][0] == a[0]
  {
  }

  lemma SplitTail(a: string, b: string)
    requires a != "" && b != "" && Split(a) == Split(b) && a[0] == b[0]
    ensures Split(a[1..]) == Split(b[1..])
  {
    var x, y := Split(a[1..]), Split(b[1..]);
    if a[0] == '.' {
      assert x == ([""] + x)[1..] && y == ([""] + y)[1..];
    } else {
      assert x[0] == ([a[0]] + x[0])[1..] && y[0] == ([a[0]] + y[0])[1..];
      assert x == [x[0]] + x[1..] && y == [y[0]] + y[1..];
      assert Split(a)[1..] == x[1..] && Split(b)[1..] == y[1..];
    }
  }

  lemma PathInjective(k: string, n: string)
    requires PathOf(k) == PathOf(n)
    ensures k == n
  {
    var p := "properties.";
    SplitInjective(p + k, p + n);
    assert k == (p + k)[|p|..] && n == (p + n)[|p|..];
  }

  // ---------------------------------------------------------------------------
  // When the orders do not matter
  // ---------------------------------------------------------------------------

  /** The value holds, at this path inside it, the other one. */
  predicate Contains(v: Value, rest: seq<string>, w: Value)
    requires |rest| > 0
  {
    v.Map? && GetPath(v.entries, rest) == Some(w)
  }

  /** The path of the second name inside the value of the first. */
  function Rest(k: string, n: string): (r: seq<string>)
    requires PathOf(k) < PathOf(n)
    ensures |r| > 0 && PathOf(n) == PathOf(k) + r
  {
    PathOf(n)[|PathOf(k)|..]
  }

  /** Wherever one name continues another, the value of the shorter one already holds that of
      the longer one. */
  ghost predicate Coherent(ps: map<string, Value>) {
    forall k, n :: k in ps && n in ps && PathOf(k) < PathOf(n) ==> Contains(ps[k], Rest(k, n), ps[n])
  }

  /** Every property can be read under its name. */
  ghost predicate AllRead(store: Contents, ps: map<string, Value>) {
    forall k :: k in ps ==> Get(store, "properties." + k) == Some(ps[k])
  }

  // ---------------------------------------------------------------------------
  // Writing through a prefix
  // ---------------------------------------------------------------------------

  lemma {:induction false} SetThrough(m: Contents, p: seq<string>, rest: seq<string>, x: Value)
    requires |p| > 0 && |rest| > 0
    ensures GetPath(SetPath(m, p + rest, x), p) ==
            Some(Map(SetPath(match GetPath(m, p) case Some(Map(e)) => e case _ => map[], rest, x)))
    decreases p
  {
    assert (p + rest)[0] == p[0] && (p + rest)[1..] == p[1..] + rest;
    if |p| == 1 {
      assert p[1..] + rest == rest;
    } else {
      SetThrough(Child(m, p[0]), p[1..], rest, x);
      if !(p[0] in m && m[p[0]].Map?) {
        assert GetPath(Child(m, p[0]), p[1..]) == None;
      }
    }
  }

  lemma PrefixSplits(p: seq<string>, q: seq<string>)
    requires p < q
    ensures |q[|p|..]| > 0 && q == p + q[|p|..]
  {
  }

  // ---------------------------------------------------------------------------
  // Maps that agree except below some paths
  // ---------------------------------------------------------------------------

  /** What is found, with maps told from other values but not from each other. */
  function Flat(o: Option<Value>): Option<Value> {
    if o.Some? && o.value.Map? then Some(Map(map[])) else o
  }

  /** None of the paths leads to this one. */
  ghost predicate Clear(paths: set<seq<string>>, q: seq<string>) {
    forall r :: r in paths ==> !(r <= q)
  }

  ghost predicate Near(a: Contents, b: Contents, paths: set<seq<string>>) {
    forall q: seq<string> :: |q| > 0 && Clear(paths, q) ==> Flat(GetPath(a, q)) == Flat(GetPath(b, q))
  }

  lemma NearMore(a: Contents, b: Contents, paths: set<seq<string>>, more: set<seq<string>>)
    requires Near(a, b, paths) && paths <= more
    ensures Near(a, b, more)
  {
    forall q: seq<string> | |q| > 0 && Clear(more, q) ensures Flat(GetPath(a, q)) == Flat(GetPath(b, q)) {
      assert Clear(paths, q);
    }
  }

  lemma NearKids(v: Value, w: Value, k: string)
    requires v.Map? && w.Map? && Near(v.entries, w.entries, {}) && k in v.entries && k in w.entries
    ensures Flat(Some(v.entries[k])) == Flat(Some(w.entries[k]))
    ensures v.entries[k].Map? ==> w.entries[k].Map? && Near(v.entries[k].entries, w.entries[k].entries, {})
  {
    assert Clear({}, [k]);
    assert GetPath(v.entries, [k]) == Some(v.entries[k]) && GetPath(w.entries, [k]) == Some(w.entries[k]);
    if v.entries[k].Map? {
      var a, b := v.entries[k].entries, w.entries[k].entries;
      forall q: seq<string> | |q| > 0 && Clear({}, q) ensures Flat(GetPath(a, q)) == Flat(GetPath(b, q)) {
        assert Clear({}, [k] + q);
        GetThrough(v.entries, [k], q);
        GetThrough(w.entries, [k], q);
      }
    }
  }

  lemma NearKeys(v: Value, w: Value)
    requires v.Map? && w.Map? && Near(v.entries, w.entries, {})
    ensures v.entries.Keys == w.entries.Keys
  {
    forall k ensures k in v.entries <==> k in w.entries {
      assert Clear({}, [k]);
      assert Flat(GetPath(v.entries, [k])) == Flat(GetPath(w.entries, [k]));
    }
  }

  /** Maps that agree at every path are equal. */
  lemma {:induction false} NearIsEqual(v: Value, w: Value)
    requires v.Map? && w.Map? && Near(v.entries, w.entries, {})
    ensures v == w
    decreases v
  {
    NearKeys(v, w);
    forall k | k in v.entries ensures v.entries[k] == w.entries[k] {
      NearKids(v, w, k);
      if v.entries[k].Map? {
        NearIsEqual(v.entries[k], w.entries[k]);
      }
    }
    assert v.entries == w.entries;
  }

  /** What one write does to what is found at a path it does not lead to. */
  lemma SetSeen(m: Contents, r: seq<string>, x: Value, q: seq<string>)
    requires |r| > 0 && |q| > 0 && !(r <= q)
    ensures q < r ==> Flat(GetPath(SetPath(m, r, x), q)) == Some(Map(map[]))
    ensures !(q < r) ==> GetPath(SetPath(m, r, x), q) == GetPath(m, q)
  {
    if q < r {
      PrefixSplits(q, r);
      SetThrough(m, q, r[|q|..], x);
    } else {
      SetKeepsOtherPath(m, r, x, q);
    }
  }

  /** On the way to something found there is a map. */
  lemma MapOnTheWay(m: Contents, r: seq<string>, q: seq<string>)
    requires |q| > 0 && q < r && GetPath(m, r).Some?
    ensures Flat(GetPath(m, q)) == Some(Map(map[]))
  {
    PrefixSplits(q, r);
    GetThrough(m, q, r[|q|..]);
  }

  /** A write at one of the paths does not show. */
  lemma SetBelow(a: Contents, b: Contents, paths: set<seq<string>>, r: seq<string>, x: Value)
    requires |r| > 0 && r in paths && Near(a, b, paths) && GetPath(b, r).Some?
    ensures Near(SetPath(a, r, x), b, paths)
  {
    forall q: seq<string> | |q| > 0 && Clear(paths, q)
      ensures Flat(GetPath(SetPath(a, r, x), q)) == Flat(GetPath(b, q))
    {
      SetSeen(a, r, x, q);
      if q < r {
        MapOnTheWay(b, r, q);
      }
    }
  }

  /** Writing what belongs there mends the path. */
  lemma SetMends(a: Contents, b: Contents, paths: set<seq<string>>, r: seq<string>, x: Value)
    requires |r| > 0 && Near(a, b, paths + {r}) && GetPath(b, r) == Some(x)
    ensures Near(SetPath(a, r, x), b, paths)
  {
    SetBelow(a, b, paths + {r}, r, x);
    forall q: seq<string> | |q| > 0 && Clear(paths, q)
      ensures Flat(GetPath(SetPath(a, r, x), q)) == Flat(GetPath(b, q))
    {
      if r <= q {
        SetThenGetPath(a, r, x);
        if r != q {
          PrefixSplits(r, q);
          GetThrough(SetPath(a, r, x), r, q[|r|..]);
          GetThrough(b, r, q[|r|..]);
        }
      } else {
        assert Clear(paths + {r}, q);
      }
    }
  }

  // ---------------------------------------------------------------------------
  // One property after the other
  // ---------------------------------------------------------------------------

  /** Under this name stands the value, except perhaps below some paths inside it. */
  ghost predicate Stands(store: Contents, k: string, v: Value, paths: set<seq<string>>) {
    match GetPath(store, PathOf(k))
    case None => false
    case Some(w) => if v.Map? then w.Map? && Near(w.entries, v.entries, paths) else w == v
  }

  lemma StandsMore(store: Contents, k: string, v: Value, paths: set<seq<string>>, more: set<seq<string>>)
    requires Stands(store, k, v, paths) && paths <= more
    ensures Stands(store, k, v, more)
  {
    if v.Map? {
      NearMore(GetPath(store, PathOf(k)).value.entries, v.entries, paths, more);
    }
  }

  lemma ReadStands(store: Contents, k: string, v: Value, paths: set<seq<string>>)
    requires GetPath(store, PathOf(k)) == Some(v)
    ensures Stands(store, k, v, paths)
  {
  }

  lemma StandsIsRead(store: Contents, k: string, v: Value)
    requires Stands(store, k, v, {})
    ensures GetPath(store, PathOf(k)) == Some(v)
  {
    if v.Map? {
      NearIsEqual(GetPath(store, PathOf(k)).value, v);
    }
  }

  /** The places inside the first property where these others go. */
  ghost function Below(k: string, names: set<string>): set<seq<string>> {
    set n | n in names && PathOf(k) < PathOf(n) :: Rest(k, n)
  }

  /** Setting a property that continues the name writes inside its value. */
  lemma SetInside(store: Contents, k: string, n: string, x: Value)
    requires PathOf(k) < PathOf(n)
    ensures GetPath(SetPath(store, PathOf(n), x), PathOf(k)) ==
            Some(Map(SetPath(match GetPath(store, PathOf(k)) case Some(Map(e)) => e case _ => map[], Rest(k, n), x)))
  {
    SetThrough(store, PathOf(k), Rest(k, n), x);
  }

  /** A property whose name does not lead to k disturbs it at most where it goes itself. */
  lemma OtherSet(store: Contents, merged: map<string, Value>, k: string, n: string, x: Value,
                 paths: set<seq<string>>)
    requires Coherent(merged) && k in merged && n in merged && !(PathOf(n) <= PathOf(k))
    requires Stands(store, k, merged[k], paths) && (PathOf(k) < PathOf(n) ==> Rest(k, n) in paths)
    ensures Stands(SetPath(store, PathOf(n), x), k, merged[k], paths)
  {
    if PathOf(k) < PathOf(n) {
      SetInside(store, k, n, x);
      SetBelow(GetPath(store, PathOf(k)).value.entries, merged[k].entries, paths, Rest(k, n), x);
    } else {
      SetKeepsOtherPath(store, PathOf(n), x, PathOf(k));
    }
  }

  /** A property whose name leads to k brings the value of k with it. */
  lemma LeadingSet(store: Contents, merged: map<string, Value>, k: string, n: string)
    requires Coherent(merged) && k in merged && n in merged && PathOf(n) <= PathOf(k)
    ensures GetPath(SetPath(store, PathOf(n), merged[n]), PathOf(k)) == Some(merged[k])
  {
    SetThenGetPath(store, PathOf(n), merged[n]);
    if PathOf(n) == PathOf(k) {
      PathInjective(n, k);
    } else {
      GetThrough(SetPath(store, PathOf(n), merged[n]), PathOf(n), Rest(n, k));
    }
  }

  /** The right value of a property that continues the name mends that place. */
  lemma MendingSet(store: Contents, merged: map<string, Value>, k: string, n: string, paths: set<seq<string>>)
    requires Coherent(merged) && k in merged && n in merged && PathOf(k) < PathOf(n)
    requires Stands(store, k, merged[k], paths + {Rest(k, n)})
    ensures Stands(SetPath(store, PathOf(n), merged[n]), k, merged[k], paths)
  {
    SetInside(store, k, n, merged[n]);
    SetMends(GetPath(store, PathOf(k)).value.entries, merged[k].entries, paths, Rest(k, n), merged[n]);
  }

  lemma OrderSplits(order: seq<string>, names: set<string>) returns (m: nat)
    requires order != [] && Elems(order) <= names
    ensures m == |order| - 1 && order[m] in names && Elems(order[..m]) <= names
    ensures forall k :: k in order <==> k == order[m] || k in order[..m]
  {
    m := |order| - 1;
    assert order == order[..m] + [order[m]];
  }

  /** The global properties leave k standing, except where those of the flow will go. */
  lemma {:induction false} GlobalsKeep(store: Contents, globals: map<string, Value>, flow: map<string, Value>,
                                       order: seq<string>, k: string)
    requires Coherent(globals + flow) && k in globals && Elems(order) <= globals.Keys && k in order
    requires forall n :: n in flow ==> !(PathOf(n) <= PathOf(k))
    ensures Stands(SetAll(store, globals, order), k, globals[k], Below(k, flow.Keys))
    decreases |order|
  {
    var merged, paths := globals + flow, Below(k, flow.Keys);
    var m := OrderSplits(order, globals.Keys);
    var n, before := order[m], SetAll(store, globals, order[..m]);
    assert merged[k] == globals[k];
    if PathOf(n) <= PathOf(k) {
      LeadingSet(before, merged, k, n);
      ReadStands(SetPath(before, PathOf(n), merged[n]), k, merged[k], paths);
    } else {
      GlobalsKeep(store, globals, flow, order[..m], k);
      if PathOf(k) < PathOf(n) && n !in flow {
        StandsMore(before, k, merged[k], paths, paths + {Rest(k, n)});
        MendingSet(before, merged, k, n, paths);
      } else {
        OtherSet(before, merged, k, n, globals[n], paths);
      }
    }
  }

  /** Those of the flow mend it, or bring it with them. */
  lemma {:induction false} FlowMends(store: Contents, merged: map<string, Value>, flow: map<string, Value>,
                                     order: seq<string>, k: string)
    requires Coherent(merged) && k in merged && Elems(order) <= flow.Keys
    requires forall n :: n in flow ==> n in merged && merged[n] == flow[n]
    requires Stands(store, k, merged[k], Below(k, flow.Keys)) || exists n :: n in order && PathOf(n) <= PathOf(k)
    ensures Stands(SetAll(store, flow, order), k, merged[k], Below(k, flow.Keys - Elems(order)))
    decreases |order|
  {
    var paths := Below(k, flow.Keys - Elems(order));
    if order == [] {
      assert flow.Keys - Elems(order) == flow.Keys;
    } else {
      var m := OrderSplits(order, flow.Keys);
      var n, before := order[m], SetAll(store, flow, order[..m]);
      if PathOf(n) <= PathOf(k) {
        LeadingSet(before, merged, k, n);
        ReadStands(SetPath(before, PathOf(n), merged[n]), k, merged[k], paths);
      } else {
        FlowMends(store, merged, flow, order[..m], k);
        LastMends(before, merged, flow, order, m, k);
      }
    }
  }

  lemma LastMends(before: Contents, merged: map<string, Value>, flow: map<string, Value>, order: seq<string>,
                  m: nat, k: string)
    requires Coherent(merged) && k in merged && |order| == m + 1 && Elems(order) <= flow.Keys
    requires forall n :: n in flow ==> n in merged && merged[n] == flow[n]
    requires Stands(before, k, merged[k], Below(k, flow.Keys - Elems(order[..m]))) && !(PathOf(order[m]) <= PathOf(k))
    ensures Stands(Set(before, "properties." + order[m], flow[order[m]]), k, merged[k],
                   Below(k, flow.Keys - Elems(order)))
  {
    var n, paths := order[m], Below(k, flow.Keys - Elems(order));
    var wide := Below(k, flow.Keys - Elems(order[..m]));
    OneLess(flow.Keys, order, m, k);
    if PathOf(k) < PathOf(n) {
      StandsMore(before, k, merged[k], wide, paths + {Rest(k, n)});
      MendingSet(before, merged, k, n, paths);
    } else {
      StandsMore(before, k, merged[k], wide, paths);
      OtherSet(before, merged, k, n, flow[n], paths);
    }
  }

  /** With one more name set there is at most its own place less to be mended. */
  lemma OneLess(names: set<string>, order: seq<string>, m: nat, k: string)
    requires |order| == m + 1
    ensures var wide, paths := Below(k, names - Elems(order[..m])), Below(k, names - Elems(order));
            if PathOf(k) < PathOf(order[m]) then wide <= paths + {Rest(k, order[m])} else wide <= paths
  {
    assert order == order[..m] + [order[m]];
    ElemsAppend(order[..m], order[m]);
  }

  lemma CoherentIsRead(store: Contents, globals: map<string, Value>, flow: map<string, Value>,
                       first: seq<string>, second: seq<string>, k: string)
    requires Lists(first, globals.Keys) && Lists(second, flow.Keys)
    requires Coherent(globals + flow) && k in globals + flow
    ensures Get(Merge(store, globals, flow, first, second), "properties." + k) == Some((globals + flow)[k])
  {
    var merged, middle := globals + flow, SetAll(store, globals, first);
    if n :| n in flow && PathOf(n) <= PathOf(k) {
      assert n in Elems(second) && n in second;
    } else {
      assert k !in flow && k in Elems(first) && k in first;
      GlobalsKeep(store, globals, flow, first, k);
    }
    FlowMends(middle, merged, flow, second, k);
    assert flow.Keys - Elems(second) == {} && Below(k, {}) == {};
    StandsIsRead(Merge(store, globals, flow, first, second), k, merged[k]);
  }

  lemma ReadIsCoherent(store: Contents, ps: map<string, Value>)
    requires AllRead(store, ps)
    ensures Coherent(ps)
  {
    forall k, n | k in ps && n in ps && PathOf(k) < PathOf(n) ensures Contains(ps[k], Rest(k, n), ps[n]) {
      assert Get(store, "properties." + k) == Some(ps[k]) && Get(store, "properties." + n) == Some(ps[n]);
      GetThrough(store, PathOf(k), Rest(k, n));
    }
  }

  /** Whatever the two orders: every property of the flow, and every global one the flow does
      not override, can be read under its name exactly when wherever one name continues
      another, the value of the shorter one already holds that of the longer one. */
  lemma FlowPropertyWins(store: Contents, globals: map<string, Value>, flow: map<string, Value>,
                         first: seq<string>, second: seq<string>)
    requires Lists(first, globals.Keys) && Lists(second, flow.Keys)
    ensures AllRead(Merge(store, globals, flow, first, second), globals + flow) <==> Coherent(globals + flow)
  {
    var merged, end := globals + flow, Merge(store, globals, flow, first, second);
    if Coherent(merged) {
      forall k | k in merged ensures Get(end, "properties." + k) == Some(merged[k]) {
        CoherentIsRead(store, globals, flow, first, second, k);
      }
    }
    if AllRead(end, merged) {
      ReadIsCoherent(end, merged);
    }
  }

  // ---------------------------------------------------------------------------
  // When the order does not show
  // ---------------------------------------------------------------------------

  lemma ShorterHere(m: Contents, key: string, path: seq<string>, v: Value, w: Value)
    requires |path| > 1 && path[0] == key
    ensures SetPath(SetPath(m, path, w), [key], v) == SetPath(m, [key], v)
  {
    SetPathByHead(m, path, w);
  }

  lemma SameBelow(m: Contents, key: string, v: Value, w: Value, p: seq<string>, q: seq<string>)
    requires |p| > 1 && |q| > 1 && p[0] == key == q[0]
    requires SetPath(SetPath(Child(m, key), q[1..], w), p[1..], v) == SetPath(Child(m, key), p[1..], v)
    ensures SetPath(SetPath(m, q, w), p, v) == SetPath(m, p, v)
  {
    SetPathByHead(m, q, w);
    SetPathByHead(m, p, v);
    SetPathByHead(SetPath(m, q, w), p, v);
    assert Child(SetPath(m, q, w), key) == SetPath(Child(m, key), q[1..], w);
  }

  /** A later write to a shorter path leaves no trace of the first one. */
  lemma {:induction false} ShorterSetWins(m: Contents, p: seq<string>, rest: seq<string>, v: Value, w: Value)
    requires |p| > 0 && |rest| > 0
    ensures SetPath(SetPath(m, p + rest, w), p, v) == SetPath(m, p, v)
    decreases p
  {
    assert (p + rest)[0] == p[0] && (p + rest)[1..] == p[1..] + rest;
    if |p| == 1 {
      assert p == [p[0]];
      ShorterHere(m, p[0], p + rest, v, w);
    } else {
      ShorterSetWins(Child(m, p[0]), p[1..], rest, v, w);
      SameBelow(m, p[0], v, w, p, p + rest);
    }
  }

  lemma CoherentSetsCommute(m: Contents, ps: map<string, Value>, k: string, n: string)
    requires Coherent(ps) && k in ps && n in ps && k != n
    ensures SetPath(SetPath(m, PathOf(k), ps[k]), PathOf(n), ps[n]) ==
            SetPath(SetPath(m, PathOf(n), ps[n]), PathOf(k), ps[k])
  {
    if PathOf(k) == PathOf(n) {
      PathInjective(k, n);
    } else if PathOf(k) < PathOf(n) {
      LongerSetIsIdle(m, ps, k, n);
    } else if PathOf(n) < PathOf(k) {
      LongerSetIsIdle(m, ps, n, k);
    } else {
      SetPathsCommute(m, PathOf(k), ps[k], PathOf(n), ps[n]);
    }
  }

  lemma LongerSetIsIdle(m: Contents, ps: map<string, Value>, k: string, n: string)
    requires Coherent(ps) && k in ps && n in ps && PathOf(k) < PathOf(n)
    ensures SetPath(SetPath(m, PathOf(k), ps[k]), PathOf(n), ps[n]) == SetPath(m, PathOf(k), ps[k])
    ensures SetPath(SetPath(m, PathOf(n), ps[n]), PathOf(k), ps[k]) == SetPath(m, PathOf(k), ps[k])
  {
    var m' := SetPath(m, PathOf(k), ps[k]);
    SetThenGetPath(m, PathOf(k), ps[k]);
    GetThrough(m', PathOf(k), Rest(k, n));
    SetAgain(m', PathOf(n), ps[n]);
    ShorterSetWins(m, PathOf(k), Rest(k, n), ps[k], ps[n]);
  }

  /** A property may as well be set last. */
  lemma {:induction false} MoveToEnd(store: Contents, ps: map<string, Value>, a: seq<string>, n: string, b: seq<string>)
    requires Coherent(ps) && n in ps && n !in b && Elems(b) <= ps.Keys
    ensures SetAll(store, ps, a + [n] + b) == SetAll(store, ps, a + b + [n])
    decreases |b|
  {
    if b == [] {
      assert a + [n] + b == a + b + [n];
    } else {
      var m := OrderSplits(b, ps.Keys);
      var c, x := b[..m], b[m];
      MoveToEnd(store, ps, a, n, c);
      MoveOver(store, ps, a + [n] + c, a + c, n, x);
      assert b == c + [x];
      AppendAssoc(a + [n], c, x);
      AppendAssoc(a, c, x);
    }
  }

  lemma MoveOver(store: Contents, ps: map<string, Value>, one: seq<string>, two: seq<string>, n: string, x: string)
    requires Coherent(ps) && n in ps && x in ps && n != x
    requires SetAll(store, ps, one) == SetAll(store, ps, two + [n])
    ensures SetAll(store, ps, one + [x]) == SetAll(store, ps, two + [x] + [n])
  {
    SetLast(store, ps, one, x);
    SetLast(store, ps, two, n);
    SetLast(store, ps, two, x);
    SetLast(store, ps, two + [x], n);
    CoherentSetsCommute(SetAll(store, ps, two), ps, n, x);
  }

  lemma SetLast(store: Contents, ps: map<string, Value>, order: seq<string>, n: string)
    requires n in ps
    ensures SetAll(store, ps, order + [n]) == SetPath(SetAll(store, ps, order), PathOf(n), ps[n])
  {
    assert (order + [n])[..|order|] == order;
  }

  lemma TakeOut(order: seq<string>, names: set<string>, n: string) returns (a: seq<string>, b: seq<string>)
    requires Lists(order, names) && n in names
    ensures order == a + [n] + b && n !in b && Lists(a + b, names - {n})
  {
    assert n in order;
    var i :| 0 <= i < |order| && order[i] == n;
    a, b := order[..i], order[i + 1..];
    var c := a + b;
    forall j | 0 <= j < |c| ensures c[j] == order[if j < i then j else j + 1] {
    }
    forall x ensures x in Elems(c) <==> x in names - {n} {
      if x in names - {n} {
        assert x in order;
        var j :| 0 <= j < |order| && order[j] == x;
        assert c[if j < i then j else j - 1] == x;
      }
    }
  }

  /** Of coherent properties every order makes the same store. */
  lemma {:induction false} OrdersAgree(store: Contents, ps: map<string, Value>, one: seq<string>, two: seq<string>,
                                       names: set<string>)
    requires Coherent(ps) && names <= ps.Keys && Lists(one, names) && Lists(two, names)
    ensures SetAll(store, ps, one) == SetAll(store, ps, two)
    decreases |one|
  {
    if one == [] {
      DistinctSize(two);
    } else {
      var m := OrderSplits(one, names);
      var n := one[m];
      assert one == one[..m] + [n] + [];
      var a, b := TakeOut(one, names, n);
      LastOut(one, m, a, b);
      var c, d := TakeOut(two, names, n);
      OrdersAgree(store, ps, one[..m], c + d, names - {n});
      MoveToEnd(store, ps, c, n, d);
      SetLast(store, ps, one[..m], n);
      SetLast(store, ps, c + d, n);
      assert one == one[..m] + [n];
    }
  }

  lemma LastOut(one: seq<string>, m: nat, a: seq<string>, b: seq<string>)
    requires Distinct(one) && |one| == m + 1 && one == a + [one[m]] + b
    ensures a + b == one[..m]
  {
    assert one[|a|] == one[m];
    assert b == [];
  }

  lemma {:induction false} SomeOrder(names: set<string>) returns (order: seq<string>)
    ensures Lists(order, names)
  {
    order := [];
    if names != {} {
      var n :| n in names;
      var rest := SomeOrder(names - {n});
      ListsMore(rest, names - {n}, n);
      order := rest + [n];
      assert names - {n} + {n} == names;
    }
  }

  /** Two orders that differ in their last two names. */
  lemma TwoOrders(names: set<string>, k: string, n: string) returns (rest: seq<string>)
    requires k in names && n in names && k != n
    ensures Lists(rest + [k] + [n], names) && Lists(rest + [n] + [k], names)
  {
    rest := SomeOrder(names - {k, n});
    ListsMore(rest, names - {k, n}, k);
    ListsMore(rest + [k], names - {k, n} + {k}, n);
    ListsMore(rest, names - {k, n}, n);
    ListsMore(rest + [n], names - {k, n} + {n}, k);
    assert names - {k, n} + {k} + {n} == names == names - {k, n} + {n} + {k};
  }

  /** With the shorter name last, the longer one is looked up inside the value of the shorter. */
  lemma LastTwo(store: Contents, ps: map<string, Value>, rest: seq<string>, k: string, n: string)
    requires k in ps && n in ps && PathOf(k) < PathOf(n)
    ensures GetPath(SetAll(store, ps, rest + [k] + [n]), PathOf(n)) == Some(ps[n])
    ensures GetPath(SetAll(store, ps, rest + [n] + [k]), PathOf(n)) ==
            if ps[k].Map? then GetPath(ps[k].entries, Rest(k, n)) else None
  {
    SetLast(store, ps, rest + [k], n);
    SetLast(store, ps, rest + [n], k);
    SetThenGetPath(SetAll(store, ps, rest + [k]), PathOf(n), ps[n]);
    var m := SetAll(store, ps, rest + [n]);
    SetThenGetPath(m, PathOf(k), ps[k]);
    GetThrough(SetPath(m, PathOf(k), ps[k]), PathOf(k), Rest(k, n));
  }

  /** Every order makes the same store. */
  ghost predicate OrderHides(store: Contents, ps: map<string, Value>) {
    forall one: seq<string>, two: seq<string> :: Lists(one, ps.Keys) && Lists(two, ps.Keys) ==>
      SetAll(store, ps, one) == SetAll(store, ps, two)
  }

  lemma CoherentHides(store: Contents, ps: map<string, Value>)
    requires Coherent(ps)
    ensures OrderHides(store, ps)
  {
    forall one: seq<string>, two: seq<string> | Lists(one, ps.Keys) && Lists(two, ps.Keys)
      ensures SetAll(store, ps, one) == SetAll(store, ps, two)
    {
      OrdersAgree(store, ps, one, two, ps.Keys);
    }
  }

  lemma ClashShows(store: Contents, ps: map<string, Value>, k: string, n: string)
    requires k in ps && n in ps && PathOf(k) < PathOf(n) && !Contains(ps[k], Rest(k, n), ps[n])
    ensures !OrderHides(store, ps)
  {
    var rest := TwoOrders(ps.Keys, k, n);
    LastTwo(store, ps, rest, k, n);
    OrdersDiffer(store, ps, rest + [k] + [n], rest + [n] + [k]);
  }

  lemma OrdersDiffer(store: Contents, ps: map<string, Value>, one: seq<string>, two: seq<string>)
    requires Lists(one, ps.Keys) && Lists(two, ps.Keys) && SetAll(store, ps, one) != SetAll(store, ps, two)
    ensures !OrderHides(store, ps)
  {
  }

  /** The order in which the properties of one map are visited does not show in the store
      exactly when they are coherent. */
  lemma OrderHidesIff(store: Contents, ps: map<string, Value>)
    ensures OrderHides(store, ps) <==> Coherent(ps)
  {
    if Coherent(ps) {
      CoherentHides(store, ps);
    } else {
      var k, n :| k in ps && n in ps && PathOf(k) < PathOf(n) && !Contains(ps[k], Rest(k, n), ps[n]);
      ClashShows(store, ps, k, n);
    }
  }

  /** Of two properties one of which continues the name of the other: both orders find the
      longer one exactly when the value of the shorter one is a map that holds it. */
  lemma OverlapDependsOnOrder(store: Contents, k: string, inner: string, v: Value, w: Value)
    ensures var name := k + "." + inner;
            var properties := map[k := v, name := w];
            && Get(SetAll(store, properties, [k, name]), "properties." + name) == Some(w)
            && (Get(SetAll(store, properties, [name, k]), "properties." + name) == Some(w) <==>
                v.Map? && Get(v.entries, inner) == Some(w))
  {
    var name := k + "." + inner;
    var properties := map[k := v, name := w];
    assert |name| > |k|;
    SplitConcat("properties." + k, inner);
    assert "properties." + k + "." + inner == "properties." + name;
    assert PathOf(name) == PathOf(k) + Split(inner);
    assert [] + [k] + [name] == [k, name] && [] + [name] + [k] == [name, k];
    LastTwo(store, properties, [], k, name);
  }

  // ---------------------------------------------------------------------------
  // Names of their own
  // ---------------------------------------------------------------------------

  /** No other property name overlaps with this one. */
  predicate Isolated(names: set<string>, k: string) {
    forall n :: n in names && n != k ==> Incomparable(PathOf(n), PathOf(k))
  }

  lemma {:induction false} SetAllReads(store: Contents, properties: map<string, Value>, order: seq<string>,
                                       names: set<string>, k: string)
    requires Isolated(names, k) && Elems(order) <= names && Elems(order) <= properties.Keys
    ensures Get(SetAll(store, properties, order), "properties." + k) ==
            if k in order then Some(properties[k]) else Get(store, "properties." + k)
  {
    if order != [] {
      var m := OrderSplits(order, names);
      var n, before := order[m], SetAll(store, properties, order[..m]);
      assert n in Elems(order);
      SetAllReads(store, properties, order[..m], names, k);
      if n == k {
        SetThenGet(before, "properties." + n, properties[n]);
      } else {
        assert Incomparable(PathOf(n), PathOf(k));
        SetKeepsOtherPath(before, PathOf(n), properties[n], PathOf(k));
      }
    }
  }

  /** A name that overlaps with no other reads as the flow's property, or else as the global
      one, even where other names clash. */
  lemma IsolatedNameWins(store: Contents, globals: map<string, Value>, flow: map<string, Value>,
                         first: seq<string>, second: seq<string>, k: string)
    requires Lists(first, globals.Keys) && Lists(second, flow.Keys)
    requires k in globals.Keys + flow.Keys && Isolated(globals.Keys + flow.Keys, k)
    ensures Get(Merge(store, globals, flow, first, second), "properties." + k) ==
            Some(if k in flow then flow[k] else globals[k])
  {
    var names := globals.Keys + flow.Keys;
    SetAllReads(store, globals, first, names, k);
    SetAllReads(SetAll(store, globals, first), flow, second, names, k);
    assert k in first <==> k in Elems(first);
    assert k in second <==> k in Elems(second);
  }
}
