// What words and numbers are, told without the scanning functions
// (internal/tengo/lexer.go, Scan).

module WordMeaning {
  import opened Wrappers
  import opened Text
  import opened LexSpec
  import opened LexMeaning

  // ----- words -----

  /** The byte `b` belongs to no code point. */
  ghost predicate Stray(b: string, rest: string) {
    |b| == 1 && !SingleByte(b[0]) && forall n, q | 0 < n <= |b + rest| :: !Encodes((b + rest)[..n], q)
  }

  predicate AsciiLetter(c: char) {
    '0' <= c <= '9' || 'a' <= c <= 'z' || 'A' <= c <= 'Z' || c in "$_"
  }

  /** The bytes `b`, in front of `rest`, may stand in a word: they are an ASCII letter, a code point of up to 16 bits
      that is no whitespace, or a byte that belongs to no code point. */
  ghost predicate WordRune(b: string, rest: string) {
    || (|b| == 1 && AsciiLetter(b[0]))
    || (|b| > 0 && exists r :: Encodes(b, r) && 0x80 <= r <= 0xFFFF && !WhiteSpace(r))
    || Stray(b, rest)
  }

  lemma WordRuneIsStep(b: string, rest: string)
    requires WordRune(b, rest)
    ensures |b| > 0 && RuneStep(b + rest, Progress(Word, false, false)) == Go(|b|, Progress(Word, false, false))
  {
    hide Encodes, WhiteSpace, Stray;
    var s := b + rest;
    if |b| == 1 && AsciiLetter(b[0]) {
      assert s[0] == b[0];
    } else if Stray(b, rest) {
      StrayIsAlone(b, rest);
    } else {
      var r :| Encodes(b, r) && 0x80 <= r <= 0xFFFF && !WhiteSpace(r);
      assert s[..|b|] == b;
      RuneIs(s, b, r);
      WideRune(s, b, r);
    }
  }

  lemma StrayIsAlone(b: string, rest: string)
    requires Stray(b, rest)
    ensures |b| == 1
    ensures var s := b + rest; s[0] == b[0] && !SingleByte(s[0]) && RuneSize(s) == 1 && !WideSpace(s)
  {
    hide Encodes, RuneSize, WideSpace;
    RuneSizePositive(b + rest);
    var r := RuneAtStart(b + rest);
    assert !StartsWithSpace(b + rest);
  }

  lemma WideRune(s: string, b: string, r: int)
    requires HasPrefix(s, b) && Encodes(b, r)
    ensures (r >= 0x80 <==> !SingleByte(s[0])) && (r <= 0xFFFF <==> |b| <= 3)
  {
    assert s[0] == s[..|b|][0];
  }

  /** Where no word rune stands, a word stops. */
  lemma NoWordRuneStops(s: string)
    requires |s| > 0 && forall n :: 0 < n <= |s| ==> !WordRune(s[..n], s[n..])
    ensures RuneStep(s, Progress(Word, false, false)) == Stop(Word)
  {
    hide Encodes, WhiteSpace, RuneSize, WideSpace, StartsWithSpace;
    var n := RuneSize(s);
    var r := RuneAtStart(s);
    RuneSizePositive(s);
    assert !WordRune(s[..n], s[n..]);
    assert s[..n] + s[n..] == s && s[..1] + s[1..] == s;
    if Encodes(s[..n], r) {
      assert s[..n] == s[..|s[..n]|];
      RuneIs(s, s[..n], r);
      WideRune(s, s[..n], r);
      SpaceByWidth(s);
      assert !WordRune(s[..1], s[1..]);
    }
  }

  lemma RuneSizePositive(s: string)
    requires |s| > 0
    ensures 0 < RuneSize(s) <= |s|
  {
  }

  lemma SpaceByWidth(s: string)
    requires |s| > 0
    ensures StartsWithSpace(s) == if SingleByte(s[0]) then IsSpace(s[0]) else WideSpace(s)
  {
  }

  ghost predicate NoWordRune(s: string) {
    forall n :: 0 < n <= |s| ==> !WordRune(s[..n], s[n..])
  }

  function Joined(runes: seq<string>): string {
    if |runes| == 0 then "" else runes[0] + Joined(runes[1..])
  }

  /** All of `runes` may stand in a word, and the delimiter begins with none of them. */
  ghost predicate WordRunes(runes: seq<string>, rest: string, delimiter: string) {
    |runes| == 0
    || (&& WordRune(runes[0], Joined(runes[1..]) + rest)
        && !HasPrefix(runes[0] + (Joined(runes[1..]) + rest), delimiter)
        && WordRunes(runes[1..], rest, delimiter))
  }

  /** A delimiter that may not start a word or number never begins where one goes on. */
  lemma TrickyWhereWord(s: string, w: Progress, delimiter: string)
    requires |s| > 0 && |delimiter| > 0 && HasPrefix(s, delimiter)
    ensures Tricky(delimiter) || RuneStep(s, w).Stop?
  {
    assert s[0] == s[..|delimiter|][0] == delimiter[0];
  }

  lemma WordStepIs(s: string, delimiter: string)
    requires |s| > 0 && |delimiter| > 0
    ensures NoWordRune(s) || HasPrefix(s, delimiter) ==>
              WordStep(s, Progress(Word, false, false), delimiter) == Stop(Word)
    ensures !HasPrefix(s, delimiter) ==>
              WordStep(s, Progress(Word, false, false), delimiter) == RuneStep(s, Progress(Word, false, false))
  {
    hide WordRune, HasPrefix, RuneStep, Tricky;
    if NoWordRune(s) {
      NoWordRuneStops(s);
    }
    if HasPrefix(s, delimiter) {
      TrickyWhereWord(s, Progress(Word, false, false), delimiter);
      WordKeepsType(s);
    }
  }

  lemma WordKeepsType(s: string)
    requires |s| > 0
    ensures match RuneStep(s, Progress(Word, false, false))
            case Stop(t) => t == Word
            case Go(_, next) => next == Progress(Word, false, false)
  {
  }

  /** A word goes on over all the runes that may stand in one, and ends where there is no other, or at the delimiter. */
  lemma {:induction false} WordRunIs(s: string, i: nat, runes: seq<string>, rest: string, delimiter: string)
    requires i <= |s| && |delimiter| > 0 && s[i..] == Joined(runes) + rest && WordRunes(runes, rest, delimiter)
    requires NoWordRune(rest) || HasPrefix(rest, delimiter)
    ensures WordEnd(s, i, Progress(Word, false, false), delimiter) == (|s| - |rest|, Word)
    decreases |runes|
  {
    hide WordRune, HasPrefix, WordStep, RuneStep, NoWordRune;
    if |runes| == 0 {
      assert s[i..] == rest;
      if i < |s| {
        WordStepIs(rest, delimiter);
      }
    } else {
      var b, more := runes[0], Joined(runes[1..]) + rest;
      assert s[i..] == b + more;
      WordRuneIsStep(b, more);
      WordStepIs(b + more, delimiter);
      Later(s, i, b, more);
      WordRunIs(s, i + |b|, runes[1..], rest, delimiter);
    }
  }

  // ----- numbers -----

  /** A number: digits, a decimal point with digits, and an exponent, which is 'e' or 'E', a minus sign or a digit, and
      digits. */
  datatype Number = Number(whole: string, fraction: Option<string>, exponent: Option<string>) {
    predicate Proper() {
      && Digital(whole) && (whole == "" ==> fraction.Some?)
      && (fraction.Some? ==> fraction.value != "" && Digital(fraction.value))
      && (exponent.Some? ==> StartsExponent(exponent.value) && Digital(exponent.value[2..]))
    }

    function Text(): string {
      whole + FractionText(fraction) + ExponentText(exponent)
    }
  }

  function FractionText(fraction: Option<string>): string {
    if fraction.None? then "" else "." + fraction.value
  }

  function ExponentText(exponent: Option<string>): string {
    if exponent.None? then "" else exponent.value
  }

  predicate Digital(s: string) {
    forall i :: 0 <= i < |s| ==> '0' <= s[i] <= '9'
  }

  predicate StartsExponent(s: string) {
    |s| >= 2 && s[0] in "eE" && (s[1] == '-' || '0' <= s[1] <= '9')
  }

  predicate StartsWithDigit(s: string) {
    |s| > 0 && '0' <= s[0] <= '9'
  }

  /** The number does not go on with `rest` as a number. */
  predicate Complete(num: Number, rest: string) {
    && !StartsWithDigit(rest)
    && (num.exponent.None? ==> !StartsExponent(rest))
    && (num.fraction.None? && num.exponent.None? && |rest| > 0 && rest[0] == '.' ==> !StartsWithDigit(rest[1..]))
  }

  /** The delimiter begins nowhere in the token `text` but perhaps at its start. */
  ghost predicate Whole(text: string, rest: string, delimiter: string) {
    forall k :: 0 < k < |text| ==> !HasPrefix((text + rest)[k..], delimiter)
  }

  ghost predicate FreeOf(s: string, i: nat, k: nat, delimiter: string)
    requires i <= k <= |s|
  {
    forall j :: i <= j < k ==> !HasPrefix(s[j..], delimiter)
  }

  lemma {:induction false} DigitsGoOn(s: string, i: nat, digits: string, rest: string, w: Progress, delimiter: string)
    requires i <= |s| && s[i..] == digits + rest && Digital(digits) && w.typ == Numeric
    requires FreeOf(s, i, i + |digits|, delimiter)
    ensures i + |digits| <= |s| && s[i + |digits|..] == rest
    ensures WordEnd(s, i, w, delimiter) == WordEnd(s, i + |digits|, w, delimiter)
    decreases |digits|
  {
    Later(s, i, digits, rest);
    if |digits| > 0 {
      hide HasPrefix;
      assert s[i..][0] == digits[0];
      assert s[i + 1..] == digits[1..] + rest;
      assert !HasPrefix(s[i..], delimiter);
      DigitsGoOn(s, i + 1, digits[1..], rest, w, delimiter);
    }
  }

  lemma FractionGoesOn(s: string, i: nat, digits: string, rest: string, delimiter: string)
    requires i < |s| && s[i] == '.' && s[i + 1..] == digits + rest && digits != "" && Digital(digits)
    requires !HasPrefix(s[i..], delimiter)
    requires i + 1 + |digits| <= |s| && FreeOf(s, i + 1, i + 1 + |digits|, delimiter)
    ensures s[i + 1 + |digits|..] == rest
    ensures WordEnd(s, i, Progress(Numeric, false, false), delimiter)
            == WordEnd(s, i + 1 + |digits|, Progress(Numeric, true, false), delimiter)
  {
    hide HasPrefix, WordEnd, FreeOf, RuneStep, Digital;
    DigitsGoOn(s, i + 1, digits, rest, Progress(Numeric, true, false), delimiter);
    PointStep(s[i..], digits, rest);
    OneStep(s, i, Progress(Numeric, false, false), delimiter);
  }

  lemma FreePart(s: string, i: nat, k: nat, j: nat, l: nat, delimiter: string)
    requires i <= j <= l <= k <= |s| && FreeOf(s, i, k, delimiter)
    ensures FreeOf(s, j, l, delimiter) && (i < k ==> !HasPrefix(s[i..], delimiter))
  {
    hide HasPrefix;
  }

  lemma OneStep(s: string, i: nat, w: Progress, delimiter: string)
    requires i < |s| && !HasPrefix(s[i..], delimiter)
    ensures match RuneStep(s[i..], w)
            case Stop(typ) => WordEnd(s, i, w, delimiter) == (i, typ)
            case Go(size, next) => WordEnd(s, i, w, delimiter) == WordEnd(s, i + size, next, delimiter)
  {
    hide RuneStep, HasPrefix;
  }

  lemma PointStep(t: string, digits: string, rest: string)
    requires |t| > 0 && t[0] == '.' && t[1..] == digits + rest && digits != "" && Digital(digits)
    ensures RuneStep(t, Progress(Numeric, false, false)) == Go(1, Progress(Numeric, true, false))
  {
    assert t[1] == t[1..][0] == digits[0];
  }

  lemma ExponentGoesOn(s: string, i: nat, digits: string, rest: string, point: bool, delimiter: string)
    requires i + 2 <= |s| && StartsExponent(s[i..]) && s[i + 2..] == digits + rest && Digital(digits)
    requires !HasPrefix(s[i..], delimiter)
    requires i + 2 + |digits| <= |s| && FreeOf(s, i + 2, i + 2 + |digits|, delimiter)
    ensures s[i + 2 + |digits|..] == rest
    ensures WordEnd(s, i, Progress(Numeric, point, false), delimiter)
            == WordEnd(s, i + 2 + |digits|, Progress(Numeric, point, true), delimiter)
  {
    hide HasPrefix, WordEnd, FreeOf, RuneStep, Digital, StartsExponent;
    DigitsGoOn(s, i + 2, digits, rest, Progress(Numeric, point, true), delimiter);
    ExponentStep(s[i..], point);
    OneStep(s, i, Progress(Numeric, point, false), delimiter);
  }

  lemma ExponentLongerIs(e: string, rest: string)
    requires StartsExponent(e)
    ensures StartsExponent(e + rest) && |e| >= 2 && (e + rest)[2..] == e[2..] + rest
  {
  }

  lemma ExponentStep(t: string, point: bool)
    requires StartsExponent(t)
    ensures RuneStep(t, Progress(Numeric, point, false)) == Go(2, Progress(Numeric, point, true))
  {
  }

  /** How far a number was read when all of it was. */
  function AllRead(num: Number): Progress {
    Progress(Numeric, num.fraction.Some?, num.exponent.Some?)
  }

  lemma NumberStarts(num: Number, rest: string)
    requires num.Proper()
    ensures |num.Text()| > 0 && FirstRune(num.Text() + rest) == First(Numeric, 1, num.whole == "")
  {
    var s := num.Text() + rest;
    if num.whole == "" {
      assert s[0] == '.' && s[1] == num.fraction.value[0];
    } else {
      assert s[0] == num.whole[0];
    }
  }

  lemma WholeGoesOn(s: string, num: Number, tail: string, delimiter: string)
    requires num.Proper() && s == num.whole + (FractionText(num.fraction) + tail)
    requires |num.whole| + |FractionText(num.fraction)| > 0
    requires FreeOf(s, 1, |num.whole| + |FractionText(num.fraction)|, delimiter)
    ensures var n := |num.whole| + |FractionText(num.fraction)|;
            && s[n..] == tail
            && WordEnd(s, 1, Progress(Numeric, num.whole == "", false), delimiter)
               == WordEnd(s, n, Progress(Numeric, num.fraction.Some?, false), delimiter)
  {
    hide HasPrefix, WordEnd, FreeOf, Digital, StartsExponent;
    var f, k := FractionText(num.fraction), |num.whole|;
    if k == 0 {
      assert s[1..] == num.fraction.value + tail;
      DigitsGoOn(s, 1, num.fraction.value, tail, Progress(Numeric, true, false), delimiter);
    } else {
      FreePart(s, 1, k + |f|, 1, k, delimiter);
      DigitsFirst(s, num.whole, f + tail, delimiter);
      FreePart(s, 1, k + |f|, k, k + |f|, delimiter);
      FractionPart(s, k, num.fraction, tail, delimiter);
    }
  }

  lemma FractionPart(s: string, k: nat, fraction: Option<string>, tail: string, delimiter: string)
    requires k <= |s| && s[k..] == FractionText(fraction) + tail
    requires fraction.Some? ==> fraction.value != "" && Digital(fraction.value)
    requires k + |FractionText(fraction)| <= |s| && FreeOf(s, k, k + |FractionText(fraction)|, delimiter)
    ensures s[k + |FractionText(fraction)|..] == tail
    ensures WordEnd(s, k, Progress(Numeric, false, false), delimiter)
            == WordEnd(s, k + |FractionText(fraction)|, Progress(Numeric, fraction.Some?, false), delimiter)
  {
    hide HasPrefix, WordEnd, FreeOf, Digital;
    if fraction.Some? {
      var l := k + |FractionText(fraction)|;
      FreePart(s, k, l, k + 1, l, delimiter);
      PointFollows(s[k..], fraction.value, tail);
      assert s[k + 1..] == s[k..][1..];
      FractionGoesOn(s, k, fraction.value, tail, delimiter);
    }
  }

  lemma PointFollows(t: string, digits: string, tail: string)
    requires t == "." + digits + tail
    ensures t[0] == '.' && t[1..] == digits + tail
  {
  }

  lemma DigitsFirst(s: string, digits: string, tail: string, delimiter: string)
    requires s == digits + tail && digits != "" && Digital(digits) && FreeOf(s, 1, |digits|, delimiter)
    ensures s[|digits|..] == tail
    ensures WordEnd(s, 1, Progress(Numeric, false, false), delimiter)
            == WordEnd(s, |digits|, Progress(Numeric, false, false), delimiter)
  {
    hide HasPrefix, WordEnd, FreeOf;
    assert s[1..] == digits[1..] + tail;
    DigitsGoOn(s, 1, digits[1..], tail, Progress(Numeric, false, false), delimiter);
  }

  /** From the digits behind the first byte on, a number is read to its end. */
  lemma NumberGoesOn(s: string, num: Number, rest: string, delimiter: string)
    requires num.Proper() && s == num.Text() + rest && Whole(num.Text(), rest, delimiter)
    ensures |s| > 0 && s[|num.Text()|..] == rest
    ensures FirstRune(s) == First(Numeric, 1, num.whole == "")
    ensures WordEnd(s, 1, Progress(Numeric, num.whole == "", false), delimiter)
            == WordEnd(s, |num.Text()|, AllRead(num), delimiter)
  {
    hide HasPrefix, WordEnd, FirstRune, FreeOf;
    NumberStarts(num, rest);
    var f, e := FractionText(num.fraction), ExponentText(num.exponent);
    assert s == num.whole + (f + (e + rest));
    AllFree(s, num.Text(), rest, delimiter);
    var n := |num.whole| + |f|;
    FreePart(s, 1, |num.Text()|, 1, n, delimiter);
    WholeGoesOn(s, num, e + rest, delimiter);
    if num.exponent.Some? {
      FreePart(s, 1, |num.Text()|, n, n + |e|, delimiter);
      FreePart(s, n, n + |e|, n + 2, n + |e|, delimiter);
      ExponentLongerIs(e, rest);
      assert s[n + 2..] == s[n..][2..] == e[2..] + rest;
      ExponentGoesOn(s, n, e[2..], rest, num.fraction.Some?, delimiter);
    }
  }

  lemma AllFree(s: string, text: string, rest: string, delimiter: string)
    requires s == text + rest && |text| > 0 && Whole(text, rest, delimiter)
    ensures FreeOf(s, 1, |text|, delimiter)
  {
    hide HasPrefix;
  }

  lemma NumberStops(num: Number, rest: string)
    requires |rest| > 0 && Complete(num, rest) && (num.fraction.Some? || NoWordRune(rest))
    ensures RuneStep(rest, AllRead(num)) == Stop(Numeric)
  {
    hide WordRune, RuneSize, WideSpace;
    if num.fraction.None? {
      NoWordRuneStops(rest);
    }
  }

  /** A number is a token of its own, unless a letter follows its digits. */
  lemma NumberIs(s: string, num: Number, rest: string, delimiter: string)
    requires num.Proper() && s == num.Text() + rest && Whole(num.Text(), rest, delimiter)
    requires Complete(num, rest) && (num.fraction.Some? || NoWordRune(rest))
    ensures |s| > 0 && WordToken(s, delimiter) == Token(|num.Text()|, Numeric, false)
  {
    hide HasPrefix, NoWordRune, Complete, RuneStep, FirstRune, Number.Proper, Number.Text;
    NumberGoesOn(s, num, rest, delimiter);
    if |rest| > 0 {
      NumberStops(num, rest);
    }
  }

  // ----- words that start like numbers -----

  lemma WordRuneAfterNumber(num: Number, b: string, rest: string)
    requires num.fraction.None? && Complete(num, b + rest) && WordRune(b, rest)
    ensures |b| > 0 && RuneStep(b + rest, AllRead(num)) == Go(|b|, AllRead(num).(typ := Word))
  {
    hide WordRune, RuneSize, WideSpace;
    WordRuneIsStep(b, rest);
  }

  lemma FlagsDoNotMatter(s: string, w: Progress)
    requires |s| > 0 && w.typ == Word
    ensures match RuneStep(s, Progress(Word, false, false))
            case Stop(typ) => RuneStep(s, w) == Stop(typ)
            case Go(size, _) => RuneStep(s, w) == Go(size, w)
  {
  }

  lemma {:induction false} FlagsNeverMatter(s: string, i: nat, w: Progress, delimiter: string)
    requires i <= |s| && w.typ == Word
    ensures WordEnd(s, i, w, delimiter) == WordEnd(s, i, Progress(Word, false, false), delimiter)
    decreases |s| - i
  {
    hide RuneStep, HasPrefix, Tricky;
    if i < |s| {
      FlagsDoNotMatter(s[i..], w);
      WordKeepsType(s[i..]);
      match RuneStep(s[i..], w)
      case Stop(_) =>
      case Go(size, _) => FlagsNeverMatter(s, i + size, w, delimiter);
    }
  }

  lemma HeadRune(runes: seq<string>, rest: string, delimiter: string)
    requires |runes| > 0 && WordRunes(runes, rest, delimiter)
    ensures var b, more := runes[0], Joined(runes[1..]) + rest;
            && Joined(runes) + rest == b + more && WordRune(b, more) && WordRunes(runes[1..], rest, delimiter)
            && |b| > 0 && (b + more)[0] == b[0] && !HasPrefix(b + more, delimiter)
  {
    hide HasPrefix, WordRune, Joined;
    JoinedHead(runes, rest);
    WordRuneIsSome(runes[0], Joined(runes[1..]) + rest);
  }

  lemma JoinedHead(runes: seq<string>, rest: string)
    requires |runes| > 0
    ensures Joined(runes) + rest == runes[0] + (Joined(runes[1..]) + rest)
  {
  }

  lemma WordRuneIsSome(b: string, rest: string)
    requires WordRune(b, rest)
    ensures |b| > 0 && (b + rest)[0] == b[0]
  {
  }

  /** Digits with a letter behind them, perhaps behind an exponent, make up a word. */
  lemma NumberTurnsWord(s: string, num: Number, runes: seq<string>, rest: string, delimiter: string)
    requires num.Proper() && num.fraction.None? && |delimiter| > 0 && |runes| > 0
    requires s == num.Text() + (Joined(runes) + rest) && Whole(num.Text(), Joined(runes) + rest, delimiter)
    requires Complete(num, Joined(runes) + rest) && WordRunes(runes, rest, delimiter)
    requires NoWordRune(rest) || HasPrefix(rest, delimiter)
    ensures |s| > 0 && WordToken(s, delimiter) == Token(|s| - |rest|, Word, false)
  {
    hide HasPrefix, NoWordRune, Complete, RuneStep, FirstRune, Number.Proper, Number.Text, WordEnd, WordRune, WordRunes,
         Joined, Whole;
    var t := Joined(runes) + rest;
    NumberGoesOn(s, num, t, delimiter);
    LettersGoOn(s, |num.Text()|, num, runes, rest, delimiter);
  }

  lemma LettersGoOn(s: string, n: nat, num: Number, runes: seq<string>, rest: string, delimiter: string)
    requires num.fraction.None? && |delimiter| > 0 && |runes| > 0 && n <= |s| && s[n..] == Joined(runes) + rest
    requires Complete(num, Joined(runes) + rest) && WordRunes(runes, rest, delimiter)
    requires NoWordRune(rest) || HasPrefix(rest, delimiter)
    ensures WordEnd(s, n, AllRead(num), delimiter) == (|s| - |rest|, Word)
  {
    hide HasPrefix, NoWordRune, Complete, RuneStep, WordEnd, WordRune, WordRunes, Joined;
    HeadRune(runes, rest, delimiter);
    Later(s, n, runes[0], Joined(runes[1..]) + rest);
    AllLetters(s, n, num, runes[0], Joined(runes[1..]) + rest, runes[1..], rest, delimiter);
  }

  lemma AllLetters(s: string, n: nat, num: Number, b: string, more: string, runes: seq<string>, rest: string,
      delimiter: string)
    requires num.fraction.None? && |delimiter| > 0 && n < |s| && s[n..] == b + more
    requires Complete(num, b + more) && WordRune(b, more) && !HasPrefix(b + more, delimiter)
    requires n + |b| <= |s| && s[n + |b|..] == Joined(runes) + rest && WordRunes(runes, rest, delimiter)
    requires NoWordRune(rest) || HasPrefix(rest, delimiter)
    ensures WordEnd(s, n, AllRead(num), delimiter) == (|s| - |rest|, Word)
  {
    hide HasPrefix, NoWordRune, Complete, RuneStep, WordEnd, WordRune, WordRunes, Joined;
    FirstLetter(s, n, num, b, more, delimiter);
    MoreLetters(s, n + |b|, AllRead(num).(typ := Word), runes, rest, delimiter);
  }

  lemma MoreLetters(s: string, m: nat, w: Progress, runes: seq<string>, rest: string, delimiter: string)
    requires |delimiter| > 0 && m <= |s| && s[m..] == Joined(runes) + rest && w.typ == Word
    requires WordRunes(runes, rest, delimiter) && (NoWordRune(rest) || HasPrefix(rest, delimiter))
    ensures WordEnd(s, m, w, delimiter) == (|s| - |rest|, Word)
  {
    hide HasPrefix, NoWordRune, WordEnd, WordRunes, Joined;
    FlagsNeverMatter(s, m, w, delimiter);
    WordRunIs(s, m, runes, rest, delimiter);
  }

  lemma FirstLetter(s: string, n: nat, num: Number, b: string, more: string, delimiter: string)
    requires num.fraction.None? && n < |s| && s[n..] == b + more && !HasPrefix(b + more, delimiter)
    requires Complete(num, b + more) && WordRune(b, more) && n + |b| <= |s|
    ensures WordEnd(s, n, AllRead(num), delimiter) == WordEnd(s, n + |b|, AllRead(num).(typ := Word), delimiter)
  {
    hide HasPrefix, Complete, RuneStep, WordEnd, WordRune;
    WordRuneAfterNumber(num, b, more);
    OneStep(s, n, AllRead(num), delimiter);
  }

  // ----- words and symbols -----

  lemma WordStarts(b: string, rest: string)
    requires WordRune(b, rest) && !StartsWithDigit(b)
    ensures |b| > 0 && FirstRune(b + rest) == First(Word, |b|, false)
  {
    hide WordRune, RuneSize, WideSpace;
    WordRuneIsStep(b, rest);
    assert (b + rest)[0] == b[0];
  }

  /** A word that starts with no digit. */
  lemma WordIs(s: string, runes: seq<string>, rest: string, delimiter: string)
    requires |delimiter| > 0 && |runes| > 0 && s == Joined(runes) + rest && WordRunes(runes, rest, delimiter)
    requires !StartsWithDigit(s) && (NoWordRune(rest) || HasPrefix(rest, delimiter))
    ensures |s| > 0 && WordToken(s, delimiter) == Token(|s| - |rest|, Word, false)
  {
    hide HasPrefix, NoWordRune, FirstRune, WordEnd, WordRune, WordRunes, Joined;
    var b, more := runes[0], Joined(runes[1..]) + rest;
    HeadRune(runes, rest, delimiter);
    WordStarts(b, more);
    assert s[0..] == s;
    Later(s, 0, b, more);
    WordRunIs(s, |b|, runes[1..], rest, delimiter);
  }

  /** Everything else is a symbol of one rune. */
  lemma SymbolIs(s: string, delimiter: string)
    requires |s| > 0 && NoWordRune(s) && !BeginsWithSpace(s) && !(s[0] == '.' && StartsWithDigit(s[1..]))
    ensures WordToken(s, delimiter) == Token(RuneSize(s), Symbol, false)
  {
    hide WordRune, BeginsWithSpace, RuneSize, WideSpace;
    NoWordRuneStops(s);
    BeginsWithSpaceIff(s);
    AsciiIsOneByte(s);
  }

  lemma AsciiIsOneByte(s: string)
    requires |s| > 0
    ensures SingleByte(s[0]) ==> RuneSize(s) == 1
  {
  }

  // ----- which token comes next -----

  /** Filler comes before the delimiter, the delimiter before strings, and strings before words and symbols. */
  lemma NextTokenIs(s: string, afterFiller: bool, delimiter: string)
    requires |s| > 0
    ensures var t := NextToken(s, afterFiller, delimiter);
            if !afterFiller && Opens(s) then t == FillerToken(s)
            else if HasPrefix(s, delimiter) then t.typ == Delimiter && !t.malformed
            else if s[0] in "'\"`" then t == StringToken(s)
            else t == WordToken(s, delimiter)
  {
    hide Opens, FillerStart, FillerToken, StringToken, WordToken, HasPrefix, DelimiterSize;
    OpensIff(s);
  }

  /** A delimiter token takes one line end with it. */
  lemma DelimiterTokenIs(s: string, delimiter: string, rest: string)
    requires s == delimiter + rest
    ensures HasPrefix(s, delimiter)
    ensures DelimiterSize(s, delimiter) - |delimiter|
            == if HasPrefix(rest, "\r\n") then 2 else if HasPrefix(rest, "\n") then 1 else 0
  {
    assert s[..|delimiter|] == delimiter;
    assert forall k :: 0 <= k < |rest| ==> s[|delimiter| + k] == rest[k];
    assert |rest| >= 2 ==> rest[..2] == [rest[0], rest[1]];
    assert |rest| >= 1 ==> rest[..1] == [rest[0]];
  }
}
