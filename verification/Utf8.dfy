// Valid UTF-8: where runes start, and that cutting at such places keeps a text valid.

module Utf8 {
  import opened Text
  import opened LexSpec

  predicate Continuation(c: char) {
    Between(0x80, c, 0xBF)
  }

  /** utf8.ValidString. */
  predicate ValidUtf8(s: string) {
    |s| == 0 || ((SingleByte(s[0]) || RuneSize(s) > 1) && ValidUtf8(s[RuneSize(s)..]))
  }

  /** The text ends at position `n`, or the byte there does not continue a rune. */
  predicate RuneAt(s: string, n: nat)
    requires n <= |s|
  {
    n == |s| || !Continuation(s[n])
  }

  lemma RuneBytes(s: string)
    requires |s| > 0
    ensures forall i :: 1 <= i < RuneSize(s) ==> Continuation(s[i])
    ensures SingleByte(s[0]) ==> RuneSize(s) == 1
    ensures ValidUtf8(s) ==> !Continuation(s[0])
  {
  }

  /** A rune that ends within a prefix is the first rune of the prefix. */
  lemma RuneOfPrefix(s: string, n: nat)
    requires RuneSize(s) <= n <= |s|
    ensures RuneSize(s[..n]) == RuneSize(s)
  {
  }

  lemma RuneOfLonger(a: string, b: string)
    requires |a| > 0 && (SingleByte(a[0]) || RuneSize(a) > 1)
    ensures RuneSize(a + b) == RuneSize(a)
  {
  }

  lemma ValidUnfold(s: string)
    requires |s| > 0
    ensures ValidUtf8(s) == ((SingleByte(s[0]) || RuneSize(s) > 1) && ValidUtf8(s[RuneSize(s)..]))
  {
  }

  /** A valid text may be cut wherever no rune continues. */
  lemma {:induction false} CutValid(s: string, n: nat)
    requires ValidUtf8(s) && n <= |s| && RuneAt(s, n)
    ensures ValidUtf8(s[..n]) && ValidUtf8(s[n..])
    decreases |s|
  {
    if n > 0 {
      hide RuneSize, ValidUtf8;
      RuneBytes(s);
      ValidUnfold(s);
      var k, a := RuneSize(s), s[..n];
      assert s[k..][n - k..] == s[n..];
      CutValid(s[k..], n - k);
      RuneOfPrefix(s, n);
      assert a[k..] == s[k..][..n - k] && a[0] == s[0];
      ValidUnfold(a);
    } else {
      assert s[0..] == s;
    }
  }

  lemma {:induction false} JoinValid(a: string, b: string)
    requires ValidUtf8(a) && ValidUtf8(b)
    ensures ValidUtf8(a + b)
    decreases |a|
  {
    hide RuneSize, ValidUtf8;
    if |a| == 0 {
      assert a + b == b;
    } else {
      ValidUnfold(a);
      FirstOfJoined(a, b);
      JoinValid(a[RuneSize(a)..], b);
      ValidUnfold(a + b);
    }
  }

  /** The first rune of a text does not change if more text follows. */
  lemma FirstOfJoined(a: string, b: string)
    requires |a| > 0 && (SingleByte(a[0]) || RuneSize(a) > 1)
    ensures RuneSize(a + b) == RuneSize(a) && (a + b)[RuneSize(a)..] == a[RuneSize(a)..] + b && (a + b)[0] == a[0]
  {
    hide RuneSize;
    RuneOfLonger(a, b);
  }

  lemma StartsRune(s: string)
    requires ValidUtf8(s)
    ensures RuneAt(s, 0)
  {
  }

  /** A rune starts behind every byte below 0x80. */
  lemma {:induction false} AfterAscii(s: string, n: nat)
    requires ValidUtf8(s) && 0 < n <= |s| && SingleByte(s[n - 1])
    ensures RuneAt(s, n)
    decreases |s|
  {
    hide RuneSize, ValidUtf8;
    RuneBytes(s);
    ValidUnfold(s);
    var k := RuneSize(s);
    if k < n {
      AfterAscii(s[k..], n - k);
    } else {
      StartsRune(s[k..]);
    }
  }

  /** Behind a rune the next one starts. */
  lemma AfterRune(s: string, n: nat)
    requires ValidUtf8(s) && n < |s| && RuneAt(s, n)
    ensures RuneAt(s, n + RuneSize(s[n..]))
  {
    hide RuneSize, ValidUtf8;
    CutValid(s, n);
    ValidUnfold(s[n..]);
    StartsRune(s[n..][RuneSize(s[n..])..]);
  }

  /** Behind a valid prefix of a valid text a rune starts. */
  lemma {:induction false} AfterPrefix(s: string, d: string)
    requires ValidUtf8(s) && ValidUtf8(d) && HasPrefix(s, d)
    ensures RuneAt(s, |d|)
    decreases |d|
  {
    if |d| == 0 {
      StartsRune(s);
    } else {
      hide RuneSize, ValidUtf8;
      ValidUnfold(s);
      ValidUnfold(d);
      RuneOfLonger(d, s[|d|..]);
      assert d + s[|d|..] == s;
      var k := RuneSize(d);
      assert s[k..][..|d| - k] == d[k..];
      AfterPrefix(s[k..], d[k..]);
    }
  }

  // ----- where tokens end -----

  lemma {:induction false} ClosingQuote(s: string, i: nat, c: char, skip: bool)
    requires i <= |s| && StringEnd(s, i, c, skip).1
    ensures 0 < StringEnd(s, i, c, skip).0 && s[StringEnd(s, i, c, skip).0 - 1] == c
    decreases |s| - i
  {
    if skip || (s[i] == '\\' && c != '`') {
      ClosingQuote(s, i + 1, c, !skip);
    } else if s[i] == c {
      if i + 1 < |s| && s[i + 1] == c {
        ClosingQuote(s, i + 1, c, true);
      }
    } else {
      ClosingQuote(s, i + 1, c, false);
    }
  }

  lemma StringTokenEnds(s: string)
    requires |s| > 0 && IsQuote(s[0]) && ValidUtf8(s)
    ensures RuneAt(s, StringToken(s).size)
  {
    hide StringEnd, ValidUtf8;
    var (n, closed) := StringEnd(s, 1, s[0], false);
    if closed {
      ClosingQuote(s, 1, s[0], false);
      AfterAscii(s, n);
    }
  }

  /** A space that is no comment ends where a rune starts. */
  lemma SpaceEnds(s: string)
    requires |s| > 0 && ValidUtf8(s) && FillerStart(s).IsFiller? && FillerStart(s).needle.NoNeedle?
    ensures RuneAt(s, FillerStart(s).size)
  {
    hide ValidUtf8, RuneSize, WideSpace;
    RuneBytes(s);
    StartsRune(s);
    assert s[0..] == s;
    AfterRune(s, 0);
  }

  lemma FirstRuneEnds(s: string)
    requires |s| > 0 && ValidUtf8(s)
    ensures RuneAt(s, FirstRune(s).size)
  {
    hide ValidUtf8, RuneSize;
    RuneBytes(s);
    StartsRune(s);
    assert s[0..] == s;
    AfterRune(s, 0);
  }

  /** A step over a word or number ends where a rune starts. */
  lemma RuneStepEnds(s: string, w: Progress)
    requires |s| > 0 && ValidUtf8(s) && RuneStep(s, w).Go?
    ensures RuneAt(s, RuneStep(s, w).size)
  {
    hide ValidUtf8, RuneSize, WideSpace;
    RuneBytes(s);
    StartsRune(s);
    assert s[0..] == s;
    AfterRune(s, 0);
    var n := RuneStep(s, w).size;
    if n == 2 && SingleByte(s[0]) {
      AfterAscii(s, 2);
    }
  }
}
