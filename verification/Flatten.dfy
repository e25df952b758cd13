/** Form bodies in bracket notation: a nested map becomes one entry per leaf. */
module Flatten {
  import opened Prelude
  import opened Numerals
  import opened StoreModel

  // ---------------------------------------------------------------------------
  // The entries of a tree
  // ---------------------------------------------------------------------------

  function FullKey(prefix: string, key: string): string {
    if prefix != "" then prefix + "[" + key + "]" else key
  }

  function ItemKey(full: string, i: nat): string {
    full + "[" + Decimal(i) + "]"
  }

  /** All pairs the code puts into a result, without regard to collisions. */
  ghost function Entries(v: Value, prefix: string, render: Value -> string): set<(string, string)>
    requires v.Map?
    decreases v, 0
  {
    set k, e | k in v.entries && e in EntriesAt(v.entries[k], FullKey(prefix, k), render) :: e
  }

  ghost function EntriesAt(v: Value, full: string, render: Value -> string): set<(string, string)>
    decreases v, 1
  {
    match v
    case Map(_) => Entries(v, full, render)
    case List(items) => set i, e | 0 <= i < |items| && e in ItemEntries(items[i], ItemKey(full, i), render) :: e
    case _ => {(full, render(v))}
  }

  /** An item that is no map is a leaf, even when it is a list. */
  ghost function ItemEntries(v: Value, full: string, render: Value -> string): set<(string, string)>
    decreases v, 1
  {
    if v.Map? then Entries(v, full, render) else {(full, render(v))}
  }

  /** A result that holds, for every key, one of the pairs with that key. */
  ghost predicate Picks(r: map<string, string>, pairs: set<(string, string)>) {
    && (forall e :: e in pairs ==> e.0 in r)
    && (forall k :: k in r ==> (k, r[k]) in pairs)
  }

  lemma PicksBoth(r: map<string, string>, pairs: set<(string, string)>,
                  r': map<string, string>, pairs': set<(string, string)>)
    requires Picks(r, pairs) && Picks(r', pairs')
    ensures Picks(r + r', pairs + pairs')
  {
  }

  /** The inner copying loop. */
  method CopyInto(result: map<string, string>, nested: map<string, string>) returns (all: map<string, string>)
    ensures all == result + nested
  {
    all := result;
    var left := nested.Keys;
    while left != {}
      invariant left <= nested.Keys && all.Keys == result.Keys + (nested.Keys - left)
      invariant forall k :: k in all ==>
                  all[k] == if k in nested && k !in left then nested[k] else result[k]
      decreases left
    {
      var k :| k in left;
      all := all[k := nested[k]];
      left := left - {k};
    }
  }

  /** The entries under some of the keys. */
  ghost function Under(v: Value, keys: set<string>, prefix: string, render: Value -> string): set<(string, string)>
    requires v.Map? && keys <= v.entries.Keys
  {
    set k, e | k in keys && e in EntriesAt(v.entries[k], FullKey(prefix, k), render) :: e
  }

  lemma UnderMore(v: Value, keys: set<string>, k: string, prefix: string, render: Value -> string)
    requires v.Map? && keys <= v.entries.Keys && k in v.entries
    ensures Under(v, keys + {k}, prefix, render) ==
            Under(v, keys, prefix, render) + EntriesAt(v.entries[k], FullKey(prefix, k), render)
  {
  }

  ghost function FirstItems(items: seq<Value>, n: nat, full: string, render: Value -> string): set<(string, string)>
    requires n <= |items|
  {
    set i, e | 0 <= i < n && e in ItemEntries(items[i], ItemKey(full, i), render) :: e
  }

  lemma FirstItemsMore(items: seq<Value>, n: nat, full: string, render: Value -> string)
    requires n < |items|
    ensures FirstItems(items, n + 1, full, render) ==
            FirstItems(items, n, full, render) + ItemEntries(items[n], ItemKey(full, n), render)
  {
  }

  /** flattenToFormData, for every order in which the keys are visited. */
  method FlattenToFormData(data: Value, prefix: string, render: Value -> string) returns (result: map<string, string>)
    requires data.Map?
    ensures Picks(result, Entries(data, prefix, render))
    decreases data, 0
  {
    result := map[];
    var left := data.entries.Keys;
    ghost var seen: set<string> := {};
    while left != {}
      invariant seen + left == data.entries.Keys
      invariant Picks(result, Under(data, seen, prefix, render))
      decreases left
    {
      var key :| key in left;
      var added := FlattenValue(data.entries[key], FullKey(prefix, key), render);
      PicksBoth(result, Under(data, seen, prefix, render),
                added, EntriesAt(data.entries[key], FullKey(prefix, key), render));
      UnderMore(data, seen, key, prefix, render);
      result := CopyInto(result, added);
      left, seen := left - {key}, seen + {key};
    }
    assert Under(data, seen, prefix, render) == Entries(data, prefix, render);
  }

  /** The switch over the kind of value. */
  method FlattenValue(value: Value, full: string, render: Value -> string) returns (added: map<string, string>)
    ensures Picks(added, EntriesAt(value, full, render))
    decreases value, 1
  {
    match value
    case Map(_) =>
      added := FlattenToFormData(value, full, render);
    case List(items) =>
      added := map[];
      for i := 0 to |items|
        invariant Picks(added, FirstItems(items, i, full, render))
      {
        var nested := FlattenItem(items[i], ItemKey(full, i), render);
        PicksBoth(added, FirstItems(items, i, full, render), nested, ItemEntries(items[i], ItemKey(full, i), render));
        FirstItemsMore(items, i, full, render);
        added := CopyInto(added, nested);
      }
    case _ =>
      added := map[full := render(value)];
  }

  method FlattenItem(item: Value, full: string, render: Value -> string) returns (added: map<string, string>)
    ensures Picks(added, ItemEntries(item, full, render))
    decreases item, 1
  {
    if item.Map? {
      added := FlattenToFormData(item, full, render);
    } else {
      added := map[full := render(item)];
    }
  }

  // ---------------------------------------------------------------------------
  // Leaves
  // ---------------------------------------------------------------------------

  datatype Segment = Key(name: string) | Index(i: nat)

  /** The text of the leaf at a path, if there is a leaf. */
  function TextAt(v: Value, path: seq<Segment>, render: Value -> string): Option<string>
    decreases path, 0
  {
    match v
    case Map(entries) =>
      if path != [] && path[0].Key? && path[0].name in entries
      then TextAt(entries[path[0].name], path[1..], render) else None
    case List(items) =>
      if path != [] && path[0].Index? && path[0].i < |items|
      then ItemText(items[path[0].i], path[1..], render) else None
    case _ => if path == [] then Some(render(v)) else None
  }

  function ItemText(v: Value, path: seq<Segment>, render: Value -> string): Option<string>
    decreases path, 1
  {
    if v.Map? then TextAt(v, path, render) else if path == [] then Some(render(v)) else None
  }

  function SegmentKey(full: string, s: Segment): string {
    match s
    case Key(k) => FullKey(full, k)
    case Index(i) => ItemKey(full, i)
  }

  function Rendered(full: string, path: seq<Segment>): string
    decreases path
  {
    if path == [] then full else Rendered(SegmentKey(full, path[0]), path[1..])
  }

  /** Every leaf has its pair. */
  lemma {:induction false} LeafIsEntry(v: Value, full: string, path: seq<Segment>, render: Value -> string)
    requires TextAt(v, path, render).Some?
    ensures (Rendered(full, path), TextAt(v, path, render).value) in EntriesAt(v, full, render)
    decreases v
  {
    match v
    case Map(entries) =>
      LeafIsEntry(entries[path[0].name], FullKey(full, path[0].name), path[1..], render);
    case List(items) =>
      var item := items[path[0].i];
      if item.Map? {
        LeafIsEntry(item, ItemKey(full, path[0].i), path[1..], render);
      }
      assert (Rendered(full, path), TextAt(v, path, render).value) in
        ItemEntries(item, ItemKey(full, path[0].i), render);
    case _ =>
  }

  /** Every pair comes from a leaf. */
  lemma {:induction false} EntryIsLeaf(v: Value, full: string, e: (string, string), render: Value -> string)
    returns (path: seq<Segment>)
    requires e in EntriesAt(v, full, render)
    ensures Rendered(full, path) == e.0 && TextAt(v, path, render) == Some(e.1)
    decreases v
  {
    match v
    case Map(entries) =>
      var k :| k in entries && e in EntriesAt(entries[k], FullKey(full, k), render);
      var rest := EntryIsLeaf(entries[k], FullKey(full, k), e, render);
      path := [Key(k)] + rest;
      assert path[1..] == rest;
    case List(items) =>
      var i :| 0 <= i < |items| && e in ItemEntries(items[i], ItemKey(full, i), render);
      var rest := [];
      if items[i].Map? {
        rest := EntryIsLeaf(items[i], ItemKey(full, i), e, render);
      }
      path := [Index(i)] + rest;
      assert path[1..] == rest;
    case _ =>
      path := [];
  }

  // ---------------------------------------------------------------------------
  // Keys that cannot imitate nesting
  // ---------------------------------------------------------------------------

  /** The end of one bracket and the beginning of the next. */
  predicate JointAt(k: string, i: nat) {
    i + 1 < |k| && k[i] == ']' && k[i + 1] == '['
  }

  /** A key below the top that cannot be taken for several. */
  predicate SafeName(k: string) {
    forall i :: 0 <= i < |k| ==> !JointAt(k, i)
  }

  /** A key at the top that cannot be taken for a longer path or for none. */
  predicate SafeTop(k: string) {
    k != "" && forall i :: 0 < i < |k| ==> k[i] != '['
  }

  predicate SafeBelow(v: Value, except: set<string>) {
    match v
    case Map(entries) => forall k :: k in entries ==> (k in except || SafeName(k)) && SafeBelow(entries[k], except)
    case List(items) => forall i :: 0 <= i < |items| && items[i].Map? ==> SafeBelow(items[i], except)
    case _ => true
  }

  /** All keys are safe where they stand, apart from the exceptions. */
  predicate SafeKeys(v: Value, except: set<string>) {
    v.Map? && forall k :: k in v.entries ==> (k in except || SafeTop(k)) && SafeBelow(v.entries[k], except)
  }

  // ---------------------------------------------------------------------------
  // No two leaves share a key
  // ---------------------------------------------------------------------------

  function Name(s: Segment): string {
    match s
    case Key(k) => k
    case Index(i) => Decimal(i)
  }

  function Brackets(path: seq<Segment>): string {
    if path == [] then "" else "[" + (Name(path[0]) + ("]" + Brackets(path[1..])))
  }

  lemma Regroup(full: string, name: string, rest: string)
    ensures full + "[" + name + "]" + rest == full + ("[" + (name + ("]" + rest)))
  {
  }

  lemma {:induction false} RenderedInBrackets(full: string, path: seq<Segment>)
    requires full != ""
    ensures Rendered(full, path) == full + Brackets(path)
    decreases path
  {
    if path != [] {
      var longer, rest := SegmentKey(full, path[0]), Brackets(path[1..]);
      RenderedInBrackets(longer, path[1..]);
      assert longer == full + "[" + Name(path[0]) + "]";
      Regroup(full, Name(path[0]), rest);
    }
  }

  /** Nothing, or the beginning of a bracket. */
  predicate Opens(x: string) {
    x == "" || x[0] == '['
  }

  /** A safe name between brackets reaches at least as far as any other reading of the text. */
  lemma NameReaches(a: string, x: string, b: string, y: string)
    requires a + ("]" + x) == b + ("]" + y) && SafeName(b) && Opens(x)
    ensures |a| >= |b|
  {
    var s, n: nat := a + ("]" + x), |a|;
    assert s[n] == ']' && (x != "" ==> s[n + 1] == '[');
    assert forall i :: 0 <= i < |b| ==> s[i] == b[i];
    var joint := JointAt(b, n);
  }

  lemma SameName(a: string, x: string, b: string, y: string)
    requires a + ("]" + x) == b + ("]" + y) && SafeName(a) && SafeName(b) && Opens(x) && Opens(y)
    ensures a == b && x == y
  {
    NameReaches(a, x, b, y);
    NameReaches(b, y, a, x);
    SplitAt(a, "]" + x, b, "]" + y);
    SplitAt("]", x, "]", y);
  }

  lemma SplitAt(a: string, x: string, b: string, y: string)
    requires a + x == b + y && |a| == |b|
    ensures a == b && x == y
  {
    assert a == (a + x)[..|a|] && b == (b + y)[..|b|];
    assert x == (a + x)[|a|..] && y == (b + y)[|b|..];
  }

  lemma FirstSegment(p: seq<Segment>, q: seq<Segment>)
    requires p != [] && q != [] && Brackets(p) == Brackets(q)
    requires SafeName(Name(p[0])) && SafeName(Name(q[0]))
    ensures Name(p[0]) == Name(q[0]) && Brackets(p[1..]) == Brackets(q[1..])
  {
    var x, y := Brackets(p[1..]), Brackets(q[1..]);
    SplitAt("[", Name(p[0]) + ("]" + x), "[", Name(q[0]) + ("]" + y));
    SameName(Name(p[0]), x, Name(q[0]), y);
  }

  lemma DecimalIsSafe(n: nat)
    ensures SafeName(Decimal(n))
  {
    var s := Decimal(n);
    forall i | 0 <= i < |s| ensures s[i] != '[' {
      assert s[i] in s;
    }
  }

  /** Where a path can go next in a tree: the first segment names one child only. */
  lemma {:induction false} BracketsInjective(v: Value, p: seq<Segment>, q: seq<Segment>, render: Value -> string)
    requires SafeBelow(v, {}) && TextAt(v, p, render).Some? && TextAt(v, q, render).Some?
    requires Brackets(p) == Brackets(q)
    ensures p == q
    decreases v
  {
    match v
    case Map(entries) =>
      FirstSegment(p, q);
      BracketsInjective(entries[p[0].name], p[1..], q[1..], render);
      assert p == [p[0]] + p[1..] && q == [q[0]] + q[1..];
    case List(items) =>
      DecimalIsSafe(p[0].i);
      DecimalIsSafe(q[0].i);
      FirstSegment(p, q);
      DecimalInjective(p[0].i, q[0].i);
      if items[p[0].i].Map? {
        BracketsInjective(items[p[0].i], p[1..], q[1..], render);
      }
      assert p == [p[0]] + p[1..] && q == [q[0]] + q[1..];
    case _ =>
  }

  /** A safe key at the top reaches at most as far as any other that goes on with a bracket. */
  lemma TopReaches(a: string, x: string, b: string, y: string)
    requires a + x == b + y && a != "" && SafeTop(b) && Opens(x)
    ensures |a| >= |b|
  {
    var s, n: nat := a + x, |a|;
    assert x != "" ==> s[n] == '[';
    assert forall i :: 0 <= i < |b| ==> s[i] == b[i];
  }

  lemma TopKey(a: string, x: string, b: string, y: string)
    requires a + x == b + y && SafeTop(a) && SafeTop(b) && Opens(x) && Opens(y)
    ensures a == b && x == y
  {
    TopReaches(a, x, b, y);
    TopReaches(b, y, a, x);
    SplitAt(a, x, b, y);
  }

  /** When all keys are safe, no two leaves have the same rendered path. */
  lemma LeavesApart(data: Value, p: seq<Segment>, q: seq<Segment>, render: Value -> string)
    requires SafeKeys(data, {}) && TextAt(data, p, render).Some? && TextAt(data, q, render).Some?
    requires Rendered("", p) == Rendered("", q)
    ensures p == q
  {
    var a, b := p[0].name, q[0].name;
    RenderedInBrackets(a, p[1..]);
    RenderedInBrackets(b, q[1..]);
    TopKey(a, Brackets(p[1..]), b, Brackets(q[1..]));
    BracketsInjective(data.entries[a], p[1..], q[1..], render);
    assert p == [p[0]] + p[1..] && q == [q[0]] + q[1..];
  }

  // ---------------------------------------------------------------------------
  // Every other key does imitate nesting
  // ---------------------------------------------------------------------------

  /** A text cut at all its joints. */
  function Pieces(x: string): (r: seq<string>)
    ensures r != [] && r[0] <= x
  {
    if x == "" then [""]
    else if JointAt(x, 0) then [""] + Pieces(x[2..])
    else
      var r := Pieces(x[1..]);
      [[x[0]] + r[0]] + r[1..]
  }

  lemma {:induction false} PiecesAreSafe(x: string)
    ensures forall i :: 0 <= i < |Pieces(x)| ==> SafeName(Pieces(x)[i])
  {
    if x != "" {
      if JointAt(x, 0) {
        PiecesAreSafe(x[2..]);
      } else {
        var r := Pieces(x[1..]);
        PiecesAreSafe(x[1..]);
        LongerIsSafe(x, r[0]);
      }
    }
  }

  lemma LongerIsSafe(x: string, name: string)
    requires x != "" && !JointAt(x, 0) && name <= x[1..] && SafeName(name)
    ensures SafeName([x[0]] + name)
  {
    forall i | 0 <= i < |[x[0]] + name| ensures !JointAt([x[0]] + name, i) {
      if i > 0 {
        var m: nat := i - 1;
        assert !JointAt(name, m);
      } else if name != "" {
        assert name[0] == x[1..][0] == x[1];
      }
    }
  }

  function KeyPath(names: seq<string>): (r: seq<Segment>)
    ensures |r| == |names|
  {
    if names == [] then [] else [Key(names[0])] + KeyPath(names[1..])
  }

  lemma KeyPathSplits(name: string, names: seq<string>)
    ensures Brackets(KeyPath([name] + names)) == "[" + (name + ("]" + Brackets(KeyPath(names))))
  {
    assert ([name] + names)[1..] == names;
    assert KeyPath([name] + names)[1..] == KeyPath(names);
  }

  lemma JoinLonger(x: string, name: string, rest: string)
    requires x != "" && "[" + (name + ("]" + rest)) == "[" + (x[1..] + "]")
    ensures "[" + (([x[0]] + name) + ("]" + rest)) == "[" + (x + "]")
  {
    SplitAt("[", name + ("]" + rest), "[", x[1..] + "]");
    assert ([x[0]] + name) + ("]" + rest) == [x[0]] + (name + ("]" + rest));
    assert x + "]" == [x[0]] + (x[1..] + "]");
  }

  lemma JoinAtJoint(x: string, rest: seq<string>)
    requires JointAt(x, 0) && Brackets(KeyPath(rest)) == "[" + (x[2..] + "]")
    ensures Brackets(KeyPath([""] + rest)) == "[" + (x + "]")
  {
    KeyPathSplits("", rest);
    assert x == "][" + x[2..];
  }

  lemma JoinFirst(x: string, r: seq<string>)
    requires x != "" && r != [] && Brackets(KeyPath(r)) == "[" + (x[1..] + "]")
    ensures Brackets(KeyPath([[x[0]] + r[0]] + r[1..])) == "[" + (x + "]")
  {
    var name, rest := r[0], r[1..];
    assert r == [name] + rest;
    KeyPathSplits(name, rest);
    KeyPathSplits([x[0]] + name, rest);
    JoinLonger(x, name, Brackets(KeyPath(rest)));
  }

  /** Between brackets a text reads like the path of its pieces. */
  lemma {:induction false} PiecesJoin(x: string)
    ensures Brackets(KeyPath(Pieces(x))) == "[" + (x + "]")
  {
    if x == "" {
      KeyPathSplits("", []);
    } else if JointAt(x, 0) {
      PiecesJoin(x[2..]);
      JoinAtJoint(x, Pieces(x[2..]));
    } else {
      PiecesJoin(x[1..]);
      JoinFirst(x, Pieces(x[1..]));
    }
  }

  /** A map in a map and so on, with one leaf. */
  function Nest(names: seq<string>, leaf: Value): Value {
    if names == [] then leaf else Map(map[names[0] := Nest(names[1..], leaf)])
  }

  lemma {:induction false} NestHasLeaf(names: seq<string>, n: int, except: set<string>, render: Value -> string)
    requires forall i :: 0 <= i < |names| ==> SafeName(names[i])
    ensures TextAt(Nest(names, Int(n)), KeyPath(names), render) == Some(render(Int(n)))
    ensures SafeBelow(Nest(names, Int(n)), except)
    decreases names
  {
    if names != [] {
      NestHasLeaf(names[1..], n, except, render);
      assert KeyPath(names)[1..] == KeyPath(names[1..]);
    }
  }

  /** Two leaves, with different texts, that are written to the same entry. */
  ghost predicate Collide(data: Value, p: seq<Segment>, q: seq<Segment>, render: Value -> string) {
    && TextAt(data, p, render) == Some(render(Int(1))) && TextAt(data, q, render) == Some(render(Int(2)))
    && p != q && Rendered("", p) == Rendered("", q)
  }

  lemma StepInto(entries: map<string, Value>, k: string, rest: seq<Segment>, render: Value -> string)
    requires k in entries
    ensures TextAt(Map(entries), [Key(k)] + rest, render) == TextAt(entries[k], rest, render)
  {
    assert ([Key(k)] + rest)[1..] == rest;
  }

  lemma RenderedAtTop(k: string, rest: seq<Segment>)
    requires k != ""
    ensures Rendered("", [Key(k)] + rest) == k + Brackets(rest)
  {
    assert ([Key(k)] + rest)[1..] == rest;
    RenderedInBrackets(k, rest);
  }

  /** A map with one unsafe key. */
  function DeepMap(k: string): Value {
    var r := Pieces(k);
    Map(map[k := Int(1), r[0] := Nest(r[1..], Int(2))])
  }

  lemma DeepLeaves(k: string, render: Value -> string)
    requires !SafeName(k)
    ensures SafeBelow(DeepMap(k), {k}) && Pieces(k)[0] != k
    ensures TextAt(DeepMap(k), [Key(k)], render) == Some(render(Int(1)))
    ensures TextAt(DeepMap(k), KeyPath(Pieces(k)), render) == Some(render(Int(2)))
  {
    var r := Pieces(k);
    PiecesAreSafe(k);
    NestHasLeaf(r[1..], 2, {k}, render);
    StepInto(DeepMap(k).entries, k, [], render);
    StepInto(DeepMap(k).entries, r[0], KeyPath(r[1..]), render);
    assert [Key(k)] + [] == [Key(k)];
  }

  /** Every key below the top that is not safe makes leaves collide, at whatever safe key and
      with no other unsafe key in the value. */
  lemma UnsafeNameCollides(a: string, k: string, render: Value -> string)
    requires SafeTop(a) && !SafeName(k)
    ensures SafeKeys(Map(map[a := DeepMap(k)]), {k})
    ensures Collide(Map(map[a := DeepMap(k)]), [Key(a)] + [Key(k)], [Key(a)] + KeyPath(Pieces(k)), render)
  {
    var entries, r := map[a := DeepMap(k)], KeyPath(Pieces(k));
    DeepLeaves(k, render);
    StepInto(entries, a, [Key(k)], render);
    StepInto(entries, a, r, render);
    RenderedAtTop(a, [Key(k)]);
    RenderedAtTop(a, r);
    PiecesJoin(k);
    assert Brackets([Key(k)]) == "[" + (k + ("]" + "")) == "[" + (k + "]");
    assert r[0] == Key(Pieces(k)[0]) && ([Key(a)] + r)[1] == r[0] && ([Key(a)] + [Key(k)])[1] == Key(k);
  }

  /** The first position behind the first character where a bracket opens. */
  function FirstOpening(k: string, i: nat): (r: nat)
    requires i <= |k|
    ensures i <= r <= |k|
    ensures forall m :: i <= m < r ==> k[m] != '['
    ensures r < |k| ==> k[r] == '['
    decreases |k| - i
  {
    if i == |k| || k[i] == '[' then i else FirstOpening(k, i + 1)
  }

  /** A map with one unsafe key at the top, and the path of the leaf it collides with. */
  function TopMap(k: string, twin: string, rest: string): Value {
    Map(map[k := Map(map["a" := Int(1)]), twin := if rest == "" then Int(2) else Nest(Pieces(rest), Int(2))])
  }

  function Twin(twin: string, rest: string): seq<Segment> {
    [Key(twin)] + if rest == "" then [] else KeyPath(Pieces(rest))
  }

  lemma TopLeaves(k: string, twin: string, rest: string, render: Value -> string)
    requires SafeTop(twin) && !SafeTop(k)
    ensures SafeKeys(TopMap(k, twin, rest), {k})
    ensures TextAt(TopMap(k, twin, rest), [Key(k)] + [Key("a")], render) == Some(render(Int(1)))
    ensures TextAt(TopMap(k, twin, rest), Twin(twin, rest), render) == Some(render(Int(2)))
    ensures Twin(twin, rest) != [Key(k)] + [Key("a")]
  {
    var entries, r := TopMap(k, twin, rest).entries, Pieces(rest);
    PiecesAreSafe(rest);
    NestHasLeaf(r, 2, {k}, render);
    StepInto(entries, k, [Key("a")], render);
    StepInto(map["a" := Int(1)], "a", [], render);
    StepInto(entries, twin, if rest == "" then [] else KeyPath(r), render);
    assert [Key("a")] + [] == [Key("a")];
    assert Twin(twin, rest)[0] == Key(twin);
  }

  /** An empty key at the top makes the keys below it look like keys at the top. */
  lemma EmptyKeyCollides(render: Value -> string)
    ensures SafeKeys(TopMap("", "a", ""), {""})
    ensures Collide(TopMap("", "a", ""), [Key("")] + [Key("a")], Twin("a", ""), render)
  {
    TopLeaves("", "a", "", render);
    RenderedAtTop("a", []);
    assert ([Key("")] + [Key("a")])[1..] == [Key("a")];
    assert [Key("a")] + [] == [Key("a")];
  }

  lemma TwinText(k: string, u: string, tail: string)
    requires k == u + ("[" + tail)
    ensures k + "[a]" == u + ("[" + ((tail + "[a") + "]"))
  {
  }

  lemma SameRendering(k: string, u: string, tail: string)
    requires u != "" && k == u + ("[" + tail)
    ensures Rendered("", [Key(k)] + [Key("a")]) == Rendered("", Twin(u, tail + "[a"))
  {
    PiecesJoin(tail + "[a");
    RenderedAtTop(k, [Key("a")]);
    RenderedAtTop(u, KeyPath(Pieces(tail + "[a")));
    assert Brackets([Key("a")]) == "[" + ("a" + ("]" + "")) == "[a]";
    TwinText(k, u, tail);
  }

  /** A bracket that opens behind the first character of a key at the top imitates nesting:
      the map under the key looks like one under the text before the bracket. */
  lemma BracketCollides(k: string, u: string, tail: string, render: Value -> string)
    requires SafeTop(u) && k == u + ("[" + tail)
    ensures SafeKeys(TopMap(k, u, tail + "[a"), {k})
    ensures Collide(TopMap(k, u, tail + "[a"), [Key(k)] + [Key("a")], Twin(u, tail + "[a"), render)
  {
    assert k[|u|] == '[';
    TopLeaves(k, u, tail + "[a", render);
    SameRendering(k, u, tail);
  }

  /** So every key at the top that is not safe makes leaves collide, with no other unsafe key
      in the value. */
  lemma UnsafeTopCollides(k: string, render: Value -> string)
    returns (data: Value, p: seq<Segment>, q: seq<Segment>)
    requires !SafeTop(k)
    ensures SafeKeys(data, {k}) && Collide(data, p, q, render)
  {
    p := [Key(k)] + [Key("a")];
    if k == "" {
      EmptyKeyCollides(render);
      data, q := TopMap("", "a", ""), Twin("a", "");
    } else {
      var n := FirstOpening(k, 1);
      var u, tail := k[..n], k[n + 1..];
      assert k == u + ("[" + tail);
      BracketCollides(k, u, tail, render);
      data, q := TopMap(k, u, tail + "[a"), Twin(u, tail + "[a");
    }
  }

  // ---------------------------------------------------------------------------
  // The promises
  // ---------------------------------------------------------------------------

  /** The flattened form loses and merges nothing: the leaf at a path has the entry with its
      rendered path, and that entry has the leaf's text. */
  lemma LeafHasItsEntry(data: Value, r: map<string, string>, p: seq<Segment>, render: Value -> string)
    requires SafeKeys(data, {}) && Picks(r, Entries(data, "", render)) && TextAt(data, p, render).Some?
    ensures Rendered("", p) in r && r[Rendered("", p)] == TextAt(data, p, render).value
  {
    LeafIsEntry(data, "", p, render);
    var key := Rendered("", p);
    var q := EntryIsLeaf(data, "", (key, r[key]), render);
    LeavesApart(data, p, q, render);
  }

  /** Every entry is the entry of exactly one leaf. */
  lemma EntryHasOneLeaf(data: Value, r: map<string, string>, key: string,
                        render: Value -> string) returns (p: seq<Segment>)
    requires SafeKeys(data, {}) && Picks(r, Entries(data, "", render)) && key in r
    ensures TextAt(data, p, render) == Some(r[key]) && Rendered("", p) == key
    ensures forall q :: TextAt(data, q, render).Some? && Rendered("", q) == key ==> q == p
  {
    p := EntryIsLeaf(data, "", (key, r[key]), render);
    forall q | TextAt(data, q, render).Some? && Rendered("", q) == key ensures q == p {
      LeavesApart(data, p, q, render);
    }
  }

  /** The order in which maps are visited is irrelevant. */
  lemma OrderIsIrrelevant(data: Value, r: map<string, string>, r': map<string, string>, render: Value -> string)
    requires SafeKeys(data, {}) && Picks(r, Entries(data, "", render)) && Picks(r', Entries(data, "", render))
    ensures r == r'
  {
    forall k | k in r ensures k in r' && r[k] == r'[k] {
      var p := EntryHasOneLeaf(data, r, k, render);
      LeafHasItsEntry(data, r', p, render);
    }
    forall k | k in r' ensures k in r {
      var p := EntryHasOneLeaf(data, r', k, render);
      LeafHasItsEntry(data, r, p, render);
    }
  }
}
