// Line and column numbers of parsed statements (internal/tengo/parser.go,
// positionAfterBuffer).

module Positions {
  import opened LexSpec
  import opened Utf8

  datatype Pos = Pos(line: nat, col: nat)

  const START := Pos(1, 1)

  /** utf8.RuneCountInString. */
  function RuneCount(s: string): nat {
    if |s| == 0 then 0 else 1 + RuneCount(s[RuneSize(s)..])
  }

  /** strings.IndexByte(s, '\n'), or the length of `s`. */
  function LineLength(s: string): (n: nat)
    ensures n <= |s| && (n < |s| ==> s[n] == '\n') && forall i :: 0 <= i < n ==> s[i] != '\n'
  {
    if |s| == 0 || s[0] == '\n' then 0 else 1 + LineLength(s[1..])
  }

  /** The position behind `s`, if `s` starts at `p`. */
  function AfterText(p: Pos, s: string): Pos
    decreases |s|
  {
    var n := LineLength(s);
    if n < |s| then AfterText(Pos(p.line + 1, 1), s[n + 1..]) else Pos(p.line, p.col + RuneCount(s))
  }

  /** positionAfterBuffer. */
  method PositionAfter(p: Pos, text: string) returns (q: Pos)
    ensures q == AfterText(p, text)
  {
    var s := text;
    q := p;
    var pos := LineLength(s);
    while pos < |s|
      invariant pos == LineLength(s) && AfterText(q, s) == AfterText(p, text)
      decreases |s|
    {
      q := Pos(q.line + 1, 1);
      s := s[pos + 1..];
      pos := LineLength(s);
    }
    q := q.(col := q.col + RuneCount(s));
  }

  // ----- counting runes across a boundary -----

  /** Decoding `s` rune by rune comes by position `n`: no rune reaches across it. */
  predicate RuneStart(s: string, n: nat)
    requires n <= |s|
    decreases n
  {
    n == 0 || (RuneSize(s) <= n && RuneStart(s[RuneSize(s)..], n - RuneSize(s)))
  }

  lemma StartUnfold(s: string, n: nat)
    requires 0 < n <= |s|
    ensures RuneStart(s, n) == (RuneSize(s) <= n && RuneStart(s[RuneSize(s)..], n - RuneSize(s)))
  {
  }

  lemma CountUnfold(s: string)
    requires |s| > 0
    ensures RuneCount(s) == 1 + RuneCount(s[RuneSize(s)..])
  {
  }

  /** Each byte that continues no rune counts as one. */
  lemma {:induction false} StrayBytes(s: string, n: nat)
    requires n <= |s| && forall i :: 0 <= i < n ==> Continuation(s[i])
    ensures RuneCount(s) == n + RuneCount(s[n..])
    decreases n
  {
    if n == 0 {
      assert s[0..] == s;
    } else {
      StrayBytes(s[1..], n - 1);
      assert s[1..][n - 1..] == s[n..];
    }
  }

  /** The runes of two texts add up if and only if no rune reaches across the boundary. */
  lemma {:induction false} RunesAddUpIff(a: string, b: string)
    ensures RuneCount(a + b) == RuneCount(a) + RuneCount(b) <==> RuneStart(a + b, |a|)
    decreases |a|
  {
    var s := a + b;
    if |a| == 0 {
      assert s == b;
    } else {
      hide RuneSize, RuneCount, RuneStart;
      var k := RuneSize(s);
      CountUnfold(s);
      CountUnfold(a);
      StartUnfold(s, |a|);
      if k <= |a| {
        assert s[..|a|] == a && s[k..] == a[k..] + b;
        RuneOfPrefix(s, |a|);
        RunesAddUpIff(a[k..], b);
      } else {
        var m := k - |a|;
        RuneBytes(s);
        assert forall i :: 0 <= i < m ==> b[i] == s[|a| + i];
        StrayBytes(b, m);
        assert b[m..] == s[k..];
      }
    }
  }

  /** A rune starts where the byte continues none. */
  lemma {:induction false} StartAtLead(s: string, n: nat)
    requires n <= |s| && RuneAt(s, n)
    ensures RuneStart(s, n)
    decreases n
  {
    if n > 0 {
      hide RuneSize, RuneStart;
      RuneBytes(s);
      StartUnfold(s, n);
      StartAtLead(s[RuneSize(s)..], n - RuneSize(s));
    }
  }

  /** A rune starts behind every byte below 0x80. */
  lemma {:induction false} StartBehindAscii(s: string, n: nat)
    requires 0 < n <= |s| && SingleByte(s[n - 1])
    ensures RuneStart(s, n)
    decreases n
  {
    hide RuneSize, RuneStart;
    RuneBytes(s);
    StartUnfold(s, n);
    var k := RuneSize(s);
    if k < n {
      StartBehindAscii(s[k..], n - k);
    } else {
      assert RuneStart(s[n..], 0) by { ZeroStarts(s[n..]); }
    }
  }

  lemma ZeroStarts(s: string)
    ensures RuneStart(s, 0)
  {
  }

  /** From the start of a rune on, the text in front does not matter. */
  lemma {:induction false} StartFrom(s: string, m: nat, n: nat)
    requires m <= n <= |s| && RuneStart(s, m)
    ensures RuneStart(s, n) <==> RuneStart(s[m..], n - m)
    decreases m
  {
    hide RuneSize, RuneStart;
    if m == 0 {
      assert s[0..] == s;
    } else {
      var k := RuneSize(s);
      StartUnfold(s, m);
      StartUnfold(s, n);
      var rest := s[k..];
      SuffixOfSuffix(s, k, m);
      StartFrom(rest, m - k, n - k);
      assert n - k - (m - k) == n - m;
    }
  }

  lemma SuffixOfSuffix(s: string, k: nat, m: nat)
    requires k <= m <= |s|
    ensures s[k..][m - k..] == s[m..]
  {
  }

  lemma DropFirst(a: string, b: string, n: nat)
    requires n <= |a|
    ensures (a + b)[n..] == a[n..] + b
  {
  }

  lemma {:induction false} LineLengthConcat(a: string, b: string)
    ensures LineLength(a + b) == if LineLength(a) < |a| then LineLength(a) else |a| + LineLength(b)
  {
    if |a| == 0 {
      assert a + b == b;
    } else {
      assert (a + b)[1..] == a[1..] + b;
      if a[0] != '\n' {
        LineLengthConcat(a[1..], b);
      }
    }
  }

  lemma AfterUnfold(p: Pos, s: string)
    ensures AfterText(p, s)
            == var n := LineLength(s); if n < |s| then AfterText(Pos(p.line + 1, 1), s[n + 1..])
                else Pos(p.line, p.col + RuneCount(s))
  {
  }

  /** No rune reaches across the boundary between `a` and `b`, or a line that starts in `b` makes up for it. */
  predicate Joins(a: string, b: string) {
    RuneStart(a + b, |a|) || LineLength(b) < |b|
  }

  /** What joins does not depend on earlier lines. */
  lemma JoinsLastLine(a: string, b: string, n: nat)
    requires 0 < n <= |a| && a[n - 1] == '\n'
    ensures Joins(a, b) == Joins(a[n..], b)
  {
    hide RuneStart, LineLength;
    StartBehindAscii(a + b, n);
    StartFrom(a + b, n, |a|);
    DropFirst(a, b, n);
  }

  /** Positions add up over two texts if and only if these join. */
  lemma {:induction false} AfterConcat(p: Pos, a: string, b: string)
    ensures AfterText(p, a + b) == AfterText(AfterText(p, a), b) <==> Joins(a, b)
    decreases |a|
  {
    hide AfterText, LineLength, RuneCount, Joins;
    var n := LineLength(a);
    LineLengthConcat(a, b);
    AfterUnfold(p, a);
    AfterUnfold(p, a + b);
    if n < |a| {
      DropFirst(a, b, n + 1);
      JoinsLastLine(a, b, n + 1);
      AfterConcat(Pos(p.line + 1, 1), a[n + 1..], b);
    } else {
      LastLine(p, a, b);
    }
  }

  lemma LastLine(p: Pos, a: string, b: string)
    requires LineLength(a) == |a|
    ensures AfterText(p, a + b) == AfterText(Pos(p.line, p.col + RuneCount(a)), b) <==> Joins(a, b)
  {
    hide RuneCount, RuneStart;
    var m := LineLength(b);
    LineLengthConcat(a, b);
    if m < |b| {
      assert (a + b)[|a| + m + 1..] == b[m + 1..];
    } else {
      RunesAddUpIff(a, b);
    }
  }

  /** Texts join where the second one starts with a rune. */
  lemma LeadJoins(a: string, b: string)
    requires RuneAt(b, 0)
    ensures Joins(a, b)
  {
    StartAtLead(a + b, |a|);
  }

  /** Text behind a position leads away from the start. */
  lemma {:induction false} NeverBack(p: Pos, s: string)
    requires p.col > 0 && p.line > 0
    ensures AfterText(p, s).col > 0 && AfterText(p, s).line >= p.line
    ensures |s| > 0 ==> AfterText(p, s) != START
    decreases |s|
  {
    var n := LineLength(s);
    if n < |s| {
      NeverBack(Pos(p.line + 1, 1), s[n + 1..]);
    }
  }
}
