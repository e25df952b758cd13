/** Text at a position, the ends of a text, and what trimming leaves. */
module DslPlaces {
  import opened DslText

  predicate At(s: string, i: nat, p: string) {
    i + |p| <= |s| && forall k :: 0 <= k < |p| ==> s[i + k] == p[k]
  }

  lemma AtSplit(s: string, i: nat, a: string, b: string)
    requires At(s, i, a + b)
    ensures At(s, i, a) && At(s, i + |a|, b)
  {
    forall k | 0 <= k < |a| ensures s[i + k] == a[k] {
      assert (a + b)[k] == a[k];
    }
    forall k | 0 <= k < |b| ensures s[i + |a| + k] == b[k] {
      assert (a + b)[|a| + k] == b[k];
    }
  }

  lemma AtIndex(s: string, i: nat, p: string, k: nat)
    requires At(s, i, p) && k < |p|
    ensures s[i + k] == p[k]
  {
  }

  lemma AtText(s: string, i: nat, p: string)
    requires At(s, i, p)
    ensures s[i..i + |p|] == p
  {
  }

  lemma AtTail(s: string, i: nat, p: string, n: nat)
    requires At(s, i, p) && n <= |p|
    ensures At(s, i + n, p[n..])
  {
    assert p == p[..n] + p[n..];
    AtSplit(s, i, p[..n], p[n..]);
  }

  lemma WholeText(s: string)
    ensures At(s, 0, s)
  {
  }

  lemma SliceInside(s: string, i: nat, t: string, a: nat, b: nat)
    requires At(s, i, t) && a <= b <= |t|
    ensures s[i + a..i + b] == t[a..b]
  {
    AtText(s, i, t);
    assert s[i..i + |t|][a..b] == s[i + a..i + b];
  }

  lemma ConcatEnds(a: string, b: string)
    ensures a != "" ==> (a + b)[0] == a[0]
    ensures b != "" ==> (a + b)[|a + b| - 1] == b[|b| - 1]
    ensures b == "" ==> a + b == a
  {
  }

  // ---------------------------------------------------------------------------
  // Trimming
  // ---------------------------------------------------------------------------

  /** Text that neither begins nor ends with a space. */
  predicate Tight(p: string) {
    p != "" ==> !IsSpace(p[0]) && !IsSpace(p[|p| - 1])
  }

  predicate AllSpace(p: string) {
    forall k :: 0 <= k < |p| ==> IsSpace(p[k])
  }

  lemma {:induction false} TrimLeftPad(pad: string, x: string)
    requires AllSpace(pad) && (x != "" ==> !IsSpace(x[0]))
    ensures TrimLeft(pad + x) == x
    decreases |pad|
  {
    if pad == "" {
      assert pad + x == x;
    } else {
      TrimLeftPad(pad[1..], x);
      assert (pad + x)[1..] == pad[1..] + x;
    }
  }

  lemma {:induction false} TrimRightPad(x: string, pad: string)
    requires AllSpace(pad) && (x != "" ==> !IsSpace(x[|x| - 1]))
    ensures TrimRight(x + pad) == x
    decreases |pad|
  {
    if pad == "" {
      assert x + pad == x;
    } else {
      var m: nat := |pad| - 1;
      TrimRightPad(x, pad[..m]);
      assert (x + pad)[..|x + pad| - 1] == x + pad[..m];
    }
  }

  /** Spaces around a text that has none at its ends are trimmed away. */
  lemma TrimPadded(before: string, x: string, after: string)
    requires AllSpace(before) && Tight(x) && AllSpace(after)
    ensures Trim(before + x + after) == x
  {
    var whole := before + x + after;
    if x == "" {
      assert whole == (before + after) + "";
      TrimLeftPad(before + after, "");
    } else {
      ConcatEnds(x, after);
      assert whole == before + (x + after);
      TrimLeftPad(before, x + after);
      TrimRightPad(x, after);
    }
  }

  lemma {:induction false} LeftParts(s: string) returns (pad: string)
    ensures AllSpace(pad) && s == pad + TrimLeft(s)
    ensures TrimLeft(s) != "" ==> !IsSpace(TrimLeft(s)[0])
  {
    pad := "";
    if s != "" && IsSpace(s[0]) {
      var rest := LeftParts(s[1..]);
      pad := [s[0]] + rest;
      assert s == [s[0]] + s[1..] == [s[0]] + (rest + TrimLeft(s[1..]));
    }
  }

  lemma {:induction false} RightParts(s: string) returns (pad: string)
    ensures AllSpace(pad) && s == TrimRight(s) + pad
    ensures TrimRight(s) != "" ==> !IsSpace(TrimRight(s)[|TrimRight(s)| - 1])
  {
    pad := "";
    var n := |s|;
    if n > 0 && IsSpace(s[n - 1]) {
      var rest := RightParts(s[..n - 1]);
      pad := rest + [s[n - 1]];
      assert s == s[..n - 1] + [s[n - 1]] == (TrimRight(s[..n - 1]) + rest) + [s[n - 1]];
    }
  }

  /** Trimming takes spaces off both ends and leaves none there. */
  lemma TrimParts(s: string) returns (before: string, after: string)
    ensures AllSpace(before) && AllSpace(after) && s == before + Trim(s) + after && Tight(Trim(s))
  {
    before := LeftParts(s);
    after := RightParts(TrimLeft(s));
    var x := TrimLeft(s);
    assert x == Trim(s) + after && s == before + x;
    assert Trim(s) != "" ==> Trim(s)[0] == x[0];
  }

  lemma TrimTwice(s: string)
    ensures Trim(Trim(s)) == Trim(s)
  {
    var before, after := TrimParts(s);
    TrimIdle(Trim(s));
  }
}
