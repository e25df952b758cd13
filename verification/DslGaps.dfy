/** What stands between things: white space or separators, and line comments. */
module DslGaps {
  import opened DslText
  import opened DslPlaces

  /** Between the items of a file white space, between the fields of a map commas as well. */
  datatype Gaps = White | Separating

  predicate InGap(g: Gaps, c: char) {
    c == ' ' || c == '\t' || c == '\n' || c == '\r' || (g.Separating? && c == ',')
  }

  /** Such characters and line comments; a comment ends with its line unless nothing follows. */
  predicate Skippable(g: Gaps, p: string, more: bool)
    decreases |p|
  {
    || p == ""
    || (InGap(g, p[0]) && Skippable(g, p[1..], more))
    || (CommentAt(p, 0) && var n := Find(p, 0, IsNewline); (n < |p| || !more) && n > 0 && Skippable(g, p[n..], more))
  }

  /** Such characters and comments lead from the first position to the second. */
  predicate Skips(g: Gaps, s: string, i: nat, j: nat)
    requires i <= |s|
    decreases |s| - i
  {
    || i == j
    || (i < |s| && InGap(g, s[i]) && Skips(g, s, i + 1, j))
    || (CommentAt(s, i) && Find(s, i, IsNewline) > i && Skips(g, s, Find(s, i, IsNewline), j))
  }

  lemma {:induction false} SkipsForward(g: Gaps, s: string, i: nat, j: nat)
    requires i <= |s| && Skips(g, s, i, j)
    ensures i <= j <= |s|
    decreases |s| - i
  {
    if i != j {
      if i < |s| && InGap(g, s[i]) && Skips(g, s, i + 1, j) {
        SkipsForward(g, s, i + 1, j);
      } else {
        SkipsForward(g, s, Find(s, i, IsNewline), j);
      }
    }
  }

  /** A comment ends with its line, here as in the text alone. */
  lemma CommentLine(s: string, i: nat, p: string, n: nat)
    requires At(s, i, p) && n == Find(p, 0, IsNewline) && (n == |p| ==> i + |p| == |s|)
    ensures Find(s, i, IsNewline) == i + n
  {
    forall m | i <= m < i + n ensures !IsNewline(s[m]) {
      AtIndex(s, i, p, m - i);
    }
    if n < |p| {
      AtIndex(s, i, p, n);
    }
    FindIs(s, i, IsNewline, i + n);
  }

  lemma {:induction false} SkipStands(g: Gaps, s: string, i: nat, p: string, more: bool)
    requires At(s, i, p) && Skippable(g, p, more) && (!more ==> i + |p| == |s|)
    ensures Skips(g, s, i, i + |p|)
    decreases |p|
  {
    if p != "" {
      AtIndex(s, i, p, 0);
      if InGap(g, p[0]) && Skippable(g, p[1..], more) {
        AtTail(s, i, p, 1);
        SkipStands(g, s, i + 1, p[1..], more);
      } else {
        var n := Find(p, 0, IsNewline);
        AtIndex(s, i, p, 1);
        CommentLine(s, i, p, n);
        AtTail(s, i, p, n);
        SkipStands(g, s, i + n, p[n..], more);
      }
    }
  }
}
