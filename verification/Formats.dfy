/** The text fmt gives a value for `%v`: a string as it is, a list in brackets, a map with its
    keys in order. */
module Formats {
  import opened Prelude
  import opened Numerals
  import opened StoreModel

  // ---------------------------------------------------------------------------
  // Keys in order
  // ---------------------------------------------------------------------------

  /** Not behind the other text in the order of the characters. */
  predicate UpTo(a: string, b: string) {
    a == "" || (b != "" && (a[0] < b[0] || (a[0] == b[0] && UpTo(a[1..], b[1..]))))
  }

  lemma {:induction false} UpToSelf(a: string)
    ensures UpTo(a, a)
  {
    if a != "" {
      UpToSelf(a[1..]);
    }
  }

  lemma {:induction false} UpToEither(a: string, b: string)
    ensures UpTo(a, b) || UpTo(b, a)
  {
    if a != "" && b != "" {
      UpToEither(a[1..], b[1..]);
    }
  }

  lemma {:induction false} UpToBoth(a: string, b: string)
    requires UpTo(a, b) && UpTo(b, a)
    ensures a == b
  {
    if a != "" {
      UpToBoth(a[1..], b[1..]);
      assert a == [a[0]] + a[1..] && b == [b[0]] + b[1..];
    }
  }

  lemma {:induction false} UpToThrough(a: string, b: string, c: string)
    requires UpTo(a, b) && UpTo(b, c)
    ensures UpTo(a, c)
  {
    if a != "" && a[0] == b[0] == c[0] {
      UpToThrough(a[1..], b[1..], c[1..]);
    }
  }

  predicate IsFirst(keys: set<string>, k: string) {
    k in keys && forall j :: j in keys ==> UpTo(k, j)
  }

  lemma {:induction false} SomeFirst(keys: set<string>) returns (k: string)
    requires keys != {}
    ensures IsFirst(keys, k)
  {
    var x :| x in keys;
    UpToSelf(x);
    k := x;
    if keys != {x} {
      var rest := keys - {x};
      assert rest != {};
      var y := SomeFirst(rest);
      UpToEither(x, y);
      if UpTo(y, x) {
        k := y;
      } else {
        forall j | j in keys ensures UpTo(x, j) {
          if j != x {
            UpToThrough(x, y, j);
          }
        }
      }
    }
  }

  lemma OneFirst(keys: set<string>)
    requires keys != {}
    ensures exists k :: IsFirst(keys, k)
    ensures forall k, k' :: IsFirst(keys, k) && IsFirst(keys, k') ==> k == k'
  {
    var k := SomeFirst(keys);
    forall k, k' | IsFirst(keys, k) && IsFirst(keys, k') ensures k == k' {
      UpToBoth(k, k');
    }
  }

  function First(keys: set<string>): (k: string)
    requires keys != {}
    ensures IsFirst(keys, k)
  {
    OneFirst(keys);
    var k :| IsFirst(keys, k);
    k
  }

  function Sorted(keys: set<string>): (r: seq<string>)
    ensures Elems(r) == keys
  {
    if keys == {} then []
    else
      var k := First(keys);
      var rest := Sorted(keys - {k});
      ElemsPrepend(k, rest);
      [k] + rest
  }

  lemma ElemsPrepend(k: string, rest: seq<string>)
    ensures Elems([k] + rest) == {k} + Elems(rest)
  {
  }

  /** Every key once, in the order of the characters. */
  lemma {:induction false} SortedInOrder(keys: set<string>)
    ensures Elems(Sorted(keys)) == keys
    ensures var r := Sorted(keys); forall i, j :: 0 <= i < j < |r| ==> r[i] != r[j] && UpTo(r[i], r[j])
    decreases keys
  {
    if keys != {} {
      var k := First(keys);
      var rest := Sorted(keys - {k});
      SortedInOrder(keys - {k});
      forall j | 0 <= j < |rest| ensures rest[j] != k && UpTo(k, rest[j]) {
        assert rest[j] in Elems(rest);
      }
    }
  }

  // ---------------------------------------------------------------------------
  // Values
  // ---------------------------------------------------------------------------

  /** The texts with a space between each two. */
  function Joined(texts: seq<string>): string {
    if texts == [] then ""
    else if |texts| == 1 then texts[0]
    else texts[0] + " " + Joined(texts[1..])
  }

  /** fmt.Sprintf("%v", v). Values known by an identity only are none the parser makes. */
  function Format(v: Value): string
    decreases v, 0
  {
    match v
    case Nil => "<nil>"
    case Bool(b) => if b then "true" else "false"
    case Int(n) => Numeral(n)
    case Text(s) => s
    case Opaque(_) => ""
    case List(items) => "[" + Joined(FormatAll(items)) + "]"
    case Map(entries) => "map[" + Joined(FormatEntries(entries, Sorted(entries.Keys), v)) + "]"
  }

  function FormatAll(items: seq<Value>): (texts: seq<string>)
    ensures |texts| == |items|
    decreases items, |items|
  {
    if items == [] then [] else [Format(items[0])] + FormatAll(items[1..])
  }

  function FormatEntries(entries: map<string, Value>, keys: seq<string>, ghost v: Value): (texts: seq<string>)
    requires v == Map(entries) && Elems(keys) <= entries.Keys
    ensures |texts| == |keys|
    decreases v, 0, |keys|
  {
    if keys == [] then []
    else
      assert keys[0] in Elems(keys) && Elems(keys[1..]) <= Elems(keys);
      [keys[0] + ":" + Format(entries[keys[0]])] + FormatEntries(entries, keys[1..], v)
  }

  lemma SpaceBetween(first: string, rest: string, t: string)
    ensures first + " " + (rest + (" " + t)) == (first + " " + rest) + (" " + t)
  {
  }

  lemma {:induction false} JoinedGrows(texts: seq<string>, t: string)
    requires texts != []
    ensures Joined(texts + [t]) == Joined(texts) + (" " + t)
  {
    assert (texts + [t])[1..] == texts[1..] + [t];
    if |texts| > 1 {
      JoinedGrows(texts[1..], t);
      SpaceBetween(texts[0], Joined(texts[1..]), t);
    } else {
      assert texts[1..] + [t] == [t];
    }
  }

  lemma {:induction false} FormatAllGrows(items: seq<Value>, v: Value)
    ensures FormatAll(items + [v]) == FormatAll(items) + [Format(v)]
  {
    if items == [] {
      assert items + [v] == [v];
    } else {
      FormatAllGrows(items[1..], v);
      assert (items + [v])[1..] == items[1..] + [v];
    }
  }

  /** One more text before the closing bracket. */
  lemma BeforeBracket(inner: string, t: string)
    ensures ("[" + inner + "]")[..|"[" + inner + "]"| - 1] + (" " + t) + "]" == "[" + (inner + (" " + t)) + "]"
  {
    assert ("[" + inner + "]")[..|inner| + 1] == "[" + inner;
  }

  lemma ShortLists(v: Value)
    ensures Format(List([])) == "[]" && Format(List([v])) == "[" + Format(v) + "]"
  {
    assert FormatAll([v]) == [Format(v)];
  }

  /** A list is formatted with its items in order and a space before each but the first. */
  lemma ListGrows(items: seq<Value>, v: Value)
    requires items != []
    ensures var text := Format(List(items));
            Format(List(items + [v])) == text[..|text| - 1] + (" " + Format(v)) + "]"
  {
    var inner := Joined(FormatAll(items));
    FormatAllGrows(items, v);
    JoinedGrows(FormatAll(items), Format(v));
    BeforeBracket(inner, Format(v));
  }
}
