/** The abstract contents of a value store: nested maps addressed by dotted keys.

    The functions say what Set and Get mean on contents; module ValueStore shows that
    the heap implementation computes them. */
module StoreModel {
  import opened Prelude

  /** A stored value: nil, a scalar known by an identity, a nested map or a list. */
  datatype Value =
    | Nil
    | Bool(flag: bool)
    | Int(number: int)
    | Text(text: string)
    | Opaque(id: int)
    | Map(entries: map<string, Value>)
    | List(items: seq<Value>)

  type Contents = map<string, Value>

  /** strings.Split(key, "."): always at least one part. */
  function Split(key: string): (parts: seq<string>)
    ensures |parts| > 0
  {
    if key == "" then [""]
    else
      var rest := Split(key[1..]);
      if key[0] == '.' then [""] + rest else [[key[0]] + rest[0]] + rest[1..]
  }

  /** The nested map at a key, or an empty one when there is none to descend into. */
  function Child(m: Contents, key: string): Contents {
    if key in m && m[key].Map? then m[key].entries else map[]
  }

  function SetPath(m: Contents, path: seq<string>, value: Value): Contents
    requires |path| > 0
    decreases path
  {
    if |path| == 1 then m[path[0] := value]
    else m[path[0] := Map(SetPath(Child(m, path[0]), path[1..], value))]
  }

  function GetPath(m: Contents, path: seq<string>): Option<Value>
    requires |path| > 0
    decreases path
  {
    if path[0] !in m then None
    else if |path| == 1 then Some(m[path[0]])
    else if m[path[0]].Map? then GetPath(m[path[0]].entries, path[1..])
    else None
  }

  function Set(m: Contents, key: string, value: Value): Contents {
    SetPath(m, Split(key), value)
  }

  function Get(m: Contents, key: string): Option<Value> {
    GetPath(m, Split(key))
  }

  /** Neither path is a prefix of the other. */
  predicate Incomparable(p: seq<string>, q: seq<string>) {
    !(p <= q) && !(q <= p)
  }

  // ---------------------------------------------------------------------------
  // Laws on paths
  // ---------------------------------------------------------------------------

  lemma {:induction false} SetThenGetPath(m: Contents, path: seq<string>, value: Value)
    requires |path| > 0
    ensures GetPath(SetPath(m, path, value), path) == Some(value)
    decreases path
  {
    if |path| > 1 {
      SetThenGetPath(Child(m, path[0]), path[1..], value);
    }
  }

  lemma IncomparableTails(p: seq<string>, q: seq<string>)
    requires Incomparable(p, q) && |p| > 0 && |q| > 0 && p[0] == q[0]
    ensures |p| > 1 && |q| > 1 && Incomparable(p[1..], q[1..])
  {
    assert p == [p[0]] + p[1..] && q == [q[0]] + q[1..];
  }

  lemma {:induction false} SetKeepsOtherPath(m: Contents, path: seq<string>, value: Value, other: seq<string>)
    requires |path| > 0 && |other| > 0 && Incomparable(path, other)
    ensures GetPath(SetPath(m, path, value), other) == GetPath(m, other)
    decreases path
  {
    if path[0] == other[0] {
      IncomparableTails(path, other);
      var child := Child(m, path[0]);
      SetKeepsOtherPath(child, path[1..], value, other[1..]);
      if !(path[0] in m && m[path[0]].Map?) {
        assert GetPath(child, other[1..]) == None;
      }
    }
  }

  /** What Set leaves under the first key of the path: it depends on that key only. */
  ghost function NewHead(m: Contents, path: seq<string>, value: Value): Value
    requires |path| > 0
  {
    if |path| == 1 then value else Map(SetPath(Child(m, path[0]), path[1..], value))
  }

  lemma SetPathByHead(m: Contents, path: seq<string>, value: Value)
    requires |path| > 0
    ensures SetPath(m, path, value) == m[path[0] := NewHead(m, path, value)]
  {
  }

  lemma SetPathsApartCommute(m: Contents, p: seq<string>, v: Value, q: seq<string>, w: Value)
    requires |p| > 0 && |q| > 0 && p[0] != q[0]
    ensures SetPath(SetPath(m, p, v), q, w) == SetPath(SetPath(m, q, w), p, v)
  {
    var vp, vq := NewHead(m, p, v), NewHead(m, q, w);
    var mp, mq := m[p[0] := vp], m[q[0] := vq];
    SetPathByHead(m, p, v);
    SetPathByHead(m, q, w);
    SetPathByHead(mp, q, w);
    SetPathByHead(mq, p, v);
    assert Child(mp, q[0]) == Child(m, q[0]) && Child(mq, p[0]) == Child(m, p[0]);
  }

  lemma {:induction false} SetPathsCommute(m: Contents, p: seq<string>, v: Value, q: seq<string>, w: Value)
    requires |p| > 0 && |q| > 0 && Incomparable(p, q)
    ensures SetPath(SetPath(m, p, v), q, w) == SetPath(SetPath(m, q, w), p, v)
    decreases p
  {
    if p[0] == q[0] {
      IncomparableTails(p, q);
      SetPathsCommute(Child(m, p[0]), p[1..], v, q[1..], w);
    } else {
      SetPathsApartCommute(m, p, v, q, w);
    }
  }

  lemma {:induction false} LastSetWinsPath(m: Contents, path: seq<string>, v: Value, w: Value)
    requires |path| > 0
    ensures SetPath(SetPath(m, path, v), path, w) == SetPath(m, path, w)
    decreases path
  {
    if |path| > 1 {
      LastSetWinsPath(Child(m, path[0]), path[1..], v, w);
    }
  }

  /** Looking further than the written path is looking inside the written value. */
  lemma {:induction false} SetThenGetInside(m: Contents, path: seq<string>, value: Value, inner: seq<string>)
    requires |path| > 0 && |inner| > 0
    ensures GetPath(SetPath(m, path, value), path + inner) ==
            (if value.Map? then GetPath(value.entries, inner) else None)
    decreases path
  {
    assert (path + inner)[0] == path[0];
    assert (path + inner)[1..] == path[1..] + inner;
    if |path| > 1 {
      SetThenGetInside(Child(m, path[0]), path[1..], value, inner);
    } else {
      assert path[1..] + inner == inner;
    }
  }

  /** Looking through a path is looking inside what it leads to. */
  lemma {:induction false} GetThrough(m: Contents, p: seq<string>, rest: seq<string>)
    requires |p| > 0 && |rest| > 0
    ensures GetPath(m, p + rest) ==
            match GetPath(m, p) case Some(Map(e)) => GetPath(e, rest) case _ => None
    decreases p
  {
    assert (p + rest)[0] == p[0] && (p + rest)[1..] == p[1..] + rest;
    if |p| == 1 {
      assert p[1..] + rest == rest;
    } else if p[0] in m && m[p[0]].Map? {
      GetThrough(m[p[0]].entries, p[1..], rest);
    }
  }

  /** Setting what is there already changes nothing. */
  lemma {:induction false} SetAgain(m: Contents, path: seq<string>, x: Value)
    requires |path| > 0 && GetPath(m, path) == Some(x)
    ensures SetPath(m, path, x) == m
    decreases path
  {
    if |path| > 1 {
      SetAgain(m[path[0]].entries, path[1..], x);
    }
  }

  // ---------------------------------------------------------------------------
  // Laws on dotted keys
  // ---------------------------------------------------------------------------

  lemma {:induction false} SplitConcat(a: string, b: string)
    ensures Split(a + "." + b) == Split(a) + Split(b)
  {
    var whole := a + "." + b;
    if a == "" {
      assert whole == "." + b && whole[1..] == b;
    } else {
      SplitConcat(a[1..], b);
      assert whole[0] == a[0] && whole[1..] == a[1..] + "." + b;
      PrependPart(a[0], Split(a[1..]), Split(b));
    }
  }

  /** One character in front: it opens a part or joins the first one. */
  lemma PrependPart(c: char, rest: seq<string>, last: seq<string>)
    requires |rest| > 0
    ensures [""] + (rest + last) == ([""] + rest) + last
    ensures [[c] + (rest + last)[0]] + (rest + last)[1..] == ([[c] + rest[0]] + rest[1..]) + last
  {
    assert (rest + last)[1..] == rest[1..] + last;
  }

  lemma {:induction false} SplitPlain(key: string)
    requires '.' !in key
    ensures Split(key) == [key]
  {
    if key != "" {
      SplitPlain(key[1..]);
      assert [key[0]] + key[1..] == key;
    }
  }

  /** Get after Set returns the value, for every dotted key. */
  lemma SetThenGet(m: Contents, key: string, value: Value)
    ensures Get(Set(m, key, value), key) == Some(value)
  {
    SetThenGetPath(m, Split(key), value);
  }

  /** A key whose path is neither a prefix nor an extension of the written one is
      unchanged, even when Set replaces a non-map on the way. */
  lemma SetKeepsOthers(m: Contents, key: string, value: Value, other: string)
    requires Incomparable(Split(key), Split(other))
    ensures Get(Set(m, key, value), other) == Get(m, other)
  {
    SetKeepsOtherPath(m, Split(key), value, Split(other));
  }

  /** Two writes to incomparable keys commute as whole states. */
  lemma SetsCommute(m: Contents, a: string, v: Value, b: string, w: Value)
    requires Incomparable(Split(a), Split(b))
    ensures Set(Set(m, a, v), b, w) == Set(Set(m, b, w), a, v)
  {
    SetPathsCommute(m, Split(a), v, Split(b), w);
  }

  /** After storing a value, a longer key reads inside it. */
  lemma SetThenGetMember(m: Contents, key: string, value: Value, inner: string)
    ensures Get(Set(m, key, value), key + "." + inner) ==
            (if value.Map? then Get(value.entries, inner) else None)
  {
    SplitConcat(key, inner);
    SetThenGetInside(m, Split(key), value, Split(inner));
  }

  /** Storing a member of a map once more under its own key, after storing the map, is idle
      exactly when the map has the member at the path of its name. */
  lemma ExpandIsIdleIff(m: Contents, prefix: string, value: Value, k: string)
    requires value.Map? && k in value.entries
    ensures Set(Set(m, prefix, value), prefix + "." + k, value.entries[k]) == Set(m, prefix, value) <==>
            Get(value.entries, k) == Some(value.entries[k])
  {
    var before, key := Set(m, prefix, value), prefix + "." + k;
    SetThenGetMember(m, prefix, value, k);
    SetThenGet(before, key, value.entries[k]);
    if Get(value.entries, k) == Some(value.entries[k]) {
      SetAgain(before, Split(key), value.entries[k]);
    }
  }

  /** So it is for a name without dots: the reason why SetNested is Set. A name with a dot is
      written a second time, as a path. */
  lemma ExpandIsIdle(m: Contents, prefix: string, value: Value, k: string)
    requires value.Map? && k in value.entries && '.' !in k
    ensures Set(Set(m, prefix, value), prefix + "." + k, value.entries[k]) == Set(m, prefix, value)
  {
    SplitPlain(k);
    ExpandIsIdleIff(m, prefix, value, k);
  }
}
