// The streaming lexer (internal/tengo/lexer.go). The reader may deliver its input
// in refills of any size, provided that each refill has some look-ahead unless it
// reaches the end of the input.

module Lexer {
  import opened Text
  import opened LexSpec
  import opened Utf8

  datatype LexError = NoError | Eof | Malformed

  datatype Scanned = Got(data: string, typ: TokenType) | End(err: LexError)

  /** The input that a refill must at least deliver: enough for "--" and a rune, and for a rune or the delimiter. */
  const MIN_LOOK := 8

  /** U+FEFF in UTF-8. */
  const BOM: string := [0xEF as char, 0xBB as char, 0xBF as char]

  /** The fields of a lexer between two tokens. */
  datatype State = State(rest: string, delimiter: string, commandMode: bool, afterFiller: bool, err: LexError,
      look: nat) {
    /** The look-ahead covers the delimiter. */
    predicate Fits() {
      look >= |delimiter| + MIN_LOOK
    }
  }

  /** What scanning a token does. */
  ghost predicate Scans(before: State, data: string, typ: TokenType, after: State) {
    && |before.rest| > 0 && before.rest == data + after.rest && (|before.delimiter| > 0 ==> |data| > 0)
    && after.delimiter == before.delimiter && after.look == before.look && after.afterFiller == (typ == Filler)
    && (after.commandMode ==> before.commandMode) && (before.err.Malformed? ==> after.err.Malformed?)
    && (!after.err.Malformed? && ValidUtf8(before.delimiter) ==> CutsRunes(before.rest, |data|))
    && (!before.commandMode && typ == Delimiter ==> HasPrefix(data, before.delimiter))
    && (typ != Filler && ' ' !in before.delimiter ==> Separate(data))
    && (!before.commandMode && !before.err.Malformed? && before.Fits() ==>
          Token(|data|, typ, after.err.Malformed?) == NextToken(before.rest, before.afterFiller, before.delimiter))
  }

  class Lexer {
    /** A refill has at least this many bytes, unless it reaches the end of the input. */
    const look: nat
    /** What was not yet returned or moved to `largeData`. */
    var rest: string
    var largeData: string
    var err: LexError
    var delimiter: string
    var commandMode: bool
    var prevTokenFiller: bool

    ghost predicate Valid()
      reads this
    {
      look >= MIN_LOOK
    }

    ghost function Now(): State
      reads this
    {
      State(rest, delimiter, commandMode, prevTokenFiller, err, look)
    }

    constructor (input: string, delimiter: string, look: nat)
      requires look >= MIN_LOOK
      ensures Valid() && rest == input && err.NoError? && this.delimiter == delimiter && !commandMode
              && !prevTokenFiller
      ensures this.look == look
    {
      this.look := look;
      rest, largeData, err, commandMode, prevTokenFiller := input, "", NoError, false, false;
      this.delimiter := delimiter;
    }

    method ChangeDelimiter(newDelimiter: string)
      modifies this`delimiter
      ensures delimiter == newDelimiter
    {
      delimiter := newDelimiter;
    }

    /** `p` is what can be seen of the remaining input: all of it once its end was reached. */
    ghost predicate Sees(p: string)
      reads this
    {
      && |p| <= |rest| && p == rest[..|p|]
      && (err.NoError? ==> |p| >= look)
      && (err.Eof? ==> p == rest)
    }

    /** Some part of the remaining input, at least `look` bytes or up to its end. */
    method Peek() returns (p: string)
      requires Valid() && err.NoError?
      modifies this`err
      ensures Sees(p) && !err.Malformed?
    {
      if |rest| < look {
        err := Eof;
        return rest;
      }
      var k: nat :| look <= k <= |rest|;
      var atEnd: bool := *;
      if k == |rest| && atEnd {
        err := Eof;
      }
      return rest[..k];
    }

    /** bufferAndPeek. */
    method BufferAndPeek(p: string, n: nat) returns (q: string)
      requires Valid() && err.NoError? && Sees(p) && n <= |p|
      modifies this`err, this`rest, this`largeData
      ensures Sees(q) && !err.Malformed?
      ensures largeData == old(largeData) + p[..n] && rest == old(rest)[n..]
    {
      largeData := largeData + p[..n];
      rest := rest[n..];
      q := Peek();
    }

    /** buildReturn: everything collected so far, and the first `n` bytes of `p`. */
    method BuildReturn(p: string, n: nat) returns (data: string)
      requires Sees(p) && n <= |p|
      modifies this`rest, this`largeData
      ensures data == old(largeData) + p[..n] && rest == old(rest)[n..]
    {
      rest := rest[n..];
      if |largeData| > 0 {
        largeData := largeData + p[..n];
        return largeData;
      }
      assert largeData + p[..n] == p[..n];
      return p[..n];
    }

    /** What is left to scan, together with what was set aside, is the input `s`; `n` bytes of `p` are
        part of the token. */
    ghost predicate At(s: string, p: string, n: nat)
      reads this
    {
      s == largeData + rest && Sees(p) && n <= |p|
    }

    lemma Looking(s: string, p: string, n: nat)
      requires At(s, p, n)
      ensures |largeData| + n <= |s| && s[|largeData| + n..] == p[n..] + rest[|p|..]
      ensures forall k :: 0 <= k < |p| ==> s[|largeData| + k] == p[k]
      ensures err.Eof? ==> p == rest && |s| == |largeData| + |p|
    {
      assert rest == p + rest[|p|..];
    }

    // ----- strings -----

    method ScanString(p0: string) returns (data: string, typ: TokenType)
      requires Valid() && Sees(p0) && |p0| > 0 && IsQuote(p0[0]) && largeData == ""
      modifies this`rest, this`largeData, this`err
      ensures old(rest) == data + rest && |data| > 0 && Separate(data)
      ensures !old(err).Malformed? ==> Token(|data|, typ, err.Malformed?) == StringToken(old(rest))
      ensures typ == if p0[0] == '`' then Ident else Str
      ensures old(err).Malformed? ==> err.Malformed?
      ensures !err.Malformed? ==> CutsRunes(old(rest), |data|)
    {
      hide StringEnd, StringMove, CutsRunes;
      ghost var s := rest;
      typ := if p0[0] == '`' then Ident else Str;
      var p, n, done, skipNext := StringBytes(p0);
      if !done && err.Eof? {
        AtEnd(s, p, n, p0[0], skipNext);
        err := Malformed;
      }
      data := Finish(s, p, n);
      if !err.Malformed? {
        StringCuts(s);
      }
    }

    /** Returns the token that ends after `n` bytes of `p`. */
    method Finish(ghost s: string, p: string, n: nat) returns (data: string)
      requires At(s, p, n)
      modifies this`rest, this`largeData
      ensures s == data + rest && |data| == |old(largeData)| + n
    {
      assert rest == p[..n] + rest[n..];
      data := BuildReturn(p, n);
    }

    /** The loop of scanString: up to the closing quote, or as far as there is data. */
    method StringBytes(p0: string) returns (p: string, n: nat, done: bool, skipNext: bool)
      requires Valid() && Sees(p0) && |p0| > 0 && IsQuote(p0[0]) && largeData == ""
      modifies this`rest, this`largeData, this`err
      ensures At(old(rest), p, n) && 0 < |largeData| + n <= |old(rest)|
      ensures old(err).Malformed? == err.Malformed?
      ensures !done ==> n == |p| && !err.NoError?
      ensures !err.Malformed? ==> StringEnd(old(rest), 1, p0[0], false)
                                  == if done then (|largeData| + n, true)
                                      else StringEnd(old(rest), |largeData| + n, p0[0], skipNext)
    {
      hide StringEnd, StringMove;
      var c := p0[0];
      ghost var s := rest;
      p, done, skipNext, n := p0, false, false, 1;
      while !done && n < |p|
        invariant At(s, p, n) && 0 < |largeData| + n <= |s|
        invariant old(err).Malformed? == err.Malformed?
        invariant err.NoError? && !done ==> n < |p|
        invariant !err.Malformed? ==> StringEnd(s, 1, c, false)
                                      == if done then (|largeData| + n, true)
                                          else StringEnd(s, |largeData| + n, c, skipNext)
        decreases !done, |rest| - n, n
      {
        var move := StringMove(p, n, c, skipNext, err.NoError?);
        StringMoveRefines(s, p, n, c, skipNext);
        done := move.Close?;
        skipNext := move.Next? && move.skip;
        n := n + 1;
        if n == |p| && err.NoError? && !done {
          if move.KeepLast? {
            n := n - 1;
          }
          p := MoreData(s, p, n);
          n := 0;
        }
      }
    }

    /** Sets the first `n` bytes aside and refills. */
    method MoreData(ghost s: string, p: string, n: nat) returns (q: string)
      requires Valid() && err.NoError? && At(s, p, n)
      modifies this`err, this`rest, this`largeData
      ensures At(s, q, 0) && !err.Malformed? && |largeData| == old(|largeData|) + n && |rest| == old(|rest|) - n
    {
      q := BufferAndPeek(p, n);
      assert old(rest) == p[..n] + rest;
    }

    lemma StringMoveRefines(s: string, p: string, n: nat, c: char, skip: bool)
      requires At(s, p, n) && n < |p| && 0 < |largeData| + n
      ensures var move, pos := StringMove(p, n, c, skip, err.NoError?), |largeData| + n;
              && pos < |s|
              && (!err.Malformed? ==>
                    StringEnd(s, pos, c, skip)
                    == match move {
                         case Next(k) => StringEnd(s, pos + 1, c, k)
                         case Close => (pos + 1, true)
                         case KeepLast => StringEnd(s, pos, c, false)
                       })
              && (move.KeepLast? ==> n == |p| - 1 && err.NoError?)
    {
      Looking(s, p, n);
    }

    lemma AtEnd(s: string, p: string, n: nat, c: char, skip: bool)
      requires At(s, p, n) && n == |p| && err.Eof?
      ensures |largeData| + n == |s| && StringEnd(s, |s|, c, skip) == (|s|, false)
    {
      Looking(s, p, n);
    }

    // ----- whitespace and comments -----

    /** scanFiller. In command mode a newline ends the token. */
    method ScanFiller(p0: string) returns (data: string, typ: TokenType)
      requires Valid() && Sees(p0) && |p0| > 0 && FillerStart(p0).IsFiller? && largeData == ""
               && (commandMode ==> !AtLineEnd(p0, 0))
      modifies this`rest, this`largeData, this`err, this`prevTokenFiller
      ensures old(rest) == data + rest && |data| > 0 && typ == Filler && prevTokenFiller
      ensures !old(err).Malformed? && !commandMode ==> Token(|data|, typ, err.Malformed?) == FillerToken(old(rest))
      ensures old(err).Malformed? ==> err.Malformed?
      ensures !err.Malformed? ==> CutsRunes(old(rest), |data|)
    {
      hide FillerEnd, FillerStart, CutsRunes;
      ghost var s := rest;
      var p, n, needle := FillerBytes(p0);
      if needle.Closer? {
        err := Malformed;
      }
      prevTokenFiller := true;
      data := Finish(s, p, n);
      typ := Filler;
    }

    /** The loop of scanFiller. */
    method FillerBytes(p0: string) returns (p: string, n: nat, needle: Needle)
      requires Valid() && Sees(p0) && |p0| > 0 && FillerStart(p0).IsFiller? && largeData == ""
               && (commandMode ==> !AtLineEnd(p0, 0))
      modifies this`rest, this`largeData, this`err
      ensures At(old(rest), p, n) && |largeData| + n > 0
      ensures old(err).Malformed? == err.Malformed?
      ensures !commandMode && !err.Malformed? ==> FillerEnd(old(rest), 0, NoNeedle) == (|largeData| + n, needle.Closer?)
      ensures !err.Malformed? ==> CutsRunes(old(rest), |largeData| + n)
    {
      hide FillerEnd, FillerStart, AtLineEnd, FillerTurn, CutsRunes;
      ghost var s := rest;
      p, n, needle := p0, 0, NoNeedle;
      CutsStart(s);
      while n < |p|
        invariant At(s, p, n) && |largeData| + n <= |s|
        invariant old(err).Malformed? == err.Malformed?
        invariant |largeData| + n > 0 || (p == p0 && n == 0 && needle.NoNeedle?)
        invariant err.NoError? ==> |p| - n >= 6
        invariant !err.Malformed? && needle.NoNeedle? ==> CutsRunes(s, |largeData| + n)
        invariant !commandMode && !err.Malformed? ==> FillerEnd(s, 0, NoNeedle) == FillerEnd(s, |largeData| + n, needle)
        decreases |rest| - n, !needle.NoNeedle?
      {
        var move := FillerTurn(p, n, needle, err.NoError?, commandMode);
        FillerMoves(p, n, needle, err.NoError?, commandMode);
        FillerRefines(s, p, n, needle);
        if !err.Malformed? {
          FillerCuts(s, p, n, needle);
        }
        if move.Halt? {
          return;
        }
        n, needle := move.n, move.needle;
        if err.NoError? && |p| - n < 6 {
          p := MoreData(s, p, n);
          n := 0;
        }
      }
      FillerAtEnd(s, p, n, needle);
    }

    /** One turn of the loop of scanFiller leaves the end of the token where it is. */
    lemma FillerRefines(s: string, p: string, n: nat, needle: Needle)
      requires At(s, p, n) && n < |p| && (err.NoError? ==> |p| - n >= 6)
      ensures |largeData| + |p| <= |s|
      ensures !commandMode && !err.Malformed? ==>
                FillerEnd(s, |largeData| + n, needle)
                == match FillerTurn(p, n, needle, err.NoError?, false)
                   case Halt => (|largeData| + n, false)
                   case Advance(m, next) => FillerEnd(s, |largeData| + m, next)
      ensures !commandMode && FillerTurn(p, n, needle, err.NoError?, false).Halt? ==> needle.NoNeedle?
    {
      hide FillerEnd, FillerStart, Find, Needle.Text;
      assert |largeData| + |p| <= |s| by { Looking(s, p, n); }
      if !err.Malformed? {
        if needle.NoNeedle? {
          StartHere(s, p, n);
          FillerUnfold(s, |largeData| + n, needle);
        } else {
          NeedleHere(s, p, n, needle);
        }
      }
    }

    lemma StartHere(s: string, p: string, n: nat)
      requires At(s, p, n) && n < |p| && (err.NoError? ==> |p| - n >= 6) && |largeData| + n < |s|
      ensures !err.Malformed? ==> FillerStart(s[|largeData| + n..]) == FillerStart(p[n..])
    {
      hide FillerStart;
      Looking(s, p, n);
      if err.NoError? {
        FillerStartLocal(p[n..], rest[|p|..]);
      } else if err.Eof? {
        assert p[n..] + rest[|p|..] == p[n..];
      }
    }

    lemma NeedleHere(s: string, p: string, n: nat, needle: Needle)
      requires At(s, p, n) && n < |p| && (err.NoError? ==> |p| - n >= 6) && !needle.NoNeedle? && !err.Malformed?
      ensures var i := Find(p, n, needle.Text());
              && |largeData| + |p| <= |s|
              && FillerEnd(s, |largeData| + n, needle)
                 == if i < |p| then FillerEnd(s, |largeData| + i + |needle.Text()|, NoNeedle)
                    else if err.NoError? then FillerEnd(s, |largeData| + |p| + 1 - |needle.Text()|, needle)
                    else FillerEnd(s, |largeData| + |p|, needle)
    {
      hide FillerEnd, Needle.Text, Sees;
      var i, base := Find(p, n, needle.Text()), |largeData|;
      var last := if i < |p| then i else if err.NoError? then |p| + 1 - |needle.Text()| else |p|;
      assert base + |p| <= |s| by { Looking(s, p, n); }
      NeedleSize(needle);
      NeedleNotBefore(s, p, n, needle, last);
      hide At, HasPrefix;
      SkipToNeedle(s, base + n, base + last, needle);
      if i < |p| {
        PrefixHere(s, p, n, i, needle);
        FillerUnfold(s, base + i, needle);
      }
    }

    lemma NeedleNotBefore(s: string, p: string, n: nat, needle: Needle, last: nat)
      requires At(s, p, n) && !needle.NoNeedle? && !err.Malformed? && n <= last <= Find(p, n, needle.Text())
      requires err.NoError? ==> last + |needle.Text()| <= |p| + 1
      ensures |largeData| + last <= |s|
      ensures forall j :: |largeData| + n <= j < |largeData| + last ==> !HasPrefix(s[j..], needle.Text())
    {
      hide Needle.Text, HasPrefix, Sees;
      assert |largeData| + |p| <= |s| by { Looking(s, p, n); }
      forall j | |largeData| + n <= j < |largeData| + last ensures !HasPrefix(s[j..], needle.Text()) {
        PrefixHere(s, p, n, j - |largeData|, needle);
      }
    }

    static lemma NeedleSize(needle: Needle)
      ensures !needle.NoNeedle? ==> 1 <= |needle.Text()| <= 2
    {
    }

    /** A needle is seen where it is, unless it may be split by the end of what is visible. */
    lemma PrefixHere(s: string, p: string, n: nat, k: nat, needle: Needle)
      requires At(s, p, n) && k < |p| && n <= |p| && !needle.NoNeedle? && !err.Malformed?
      ensures |largeData| + k < |s|
      ensures HasPrefix(p[k..], needle.Text()) ==> HasPrefix(s[|largeData| + k..], needle.Text())
      ensures err.Eof? || k + |needle.Text()| <= |p| ==>
              HasPrefix(p[k..], needle.Text()) == HasPrefix(s[|largeData| + k..], needle.Text())
    {
      hide Needle.Text;
      Looking(s, p, k);
      var a, b := p[k..], rest[|p|..];
      assert err.Eof? ==> a + b == a;
      assert |needle.Text()| <= |a| ==> (a + b)[..|needle.Text()|] == a[..|needle.Text()|];
    }

    lemma FillerAtEnd(s: string, p: string, n: nat, needle: Needle)
      requires At(s, p, n) && n == |p|
      ensures |largeData| + n <= |s|
      ensures err.Eof? ==>
              |largeData| + n == |s| && FillerEnd(s, |s|, needle) == (|s|, needle.Closer?) && CutsRunes(s, |s|)
    {
      Looking(s, p, n);
    }

    /** Outside a comment, and in front of a line end, the loop of scanFiller stands where a rune starts. */
    lemma FillerCuts(s: string, p: string, n: nat, needle: Needle)
      requires At(s, p, n) && n < |p| && (err.NoError? ==> |p| - n >= 6) && !err.Malformed?
      requires needle.NoNeedle? ==> CutsRunes(s, |largeData| + n)
      ensures |largeData| + |p| <= |s|
      ensures match FillerTurn(p, n, needle, err.NoError?, commandMode)
              case Halt => CutsRunes(s, |largeData| + n)
              case Advance(m, next) => next.NoNeedle? ==> m <= |p| && CutsRunes(s, |largeData| + m)
    {
      hide FillerStart, Find, Needle.Text, CutsRunes, Sees;
      assert |largeData| + |p| <= |s| by { Looking(s, p, n); }
      if commandMode && AtLineEnd(p, n) {
        LineEndCuts(s, p, n);
      } else if needle.NoNeedle? {
        SpaceHereCuts(s, p, n);
      } else if Find(p, n, needle.Text()) < |p| {
        NeedleCuts(s, p, n, Find(p, n, needle.Text()), needle);
      }
    }

    lemma LineEndCuts(s: string, p: string, n: nat)
      requires At(s, p, n) && n < |p| && AtLineEnd(p, n)
      ensures |largeData| + n < |s| && CutsRunes(s, |largeData| + n)
    {
      hide CutsRunes;
      Looking(s, p, n);
      CutsBefore(s, |largeData| + n);
    }

    lemma SpaceHereCuts(s: string, p: string, n: nat)
      requires At(s, p, n) && n < |p| && (err.NoError? ==> |p| - n >= 6) && !err.Malformed? && |largeData| + n <= |s|
      requires CutsRunes(s, |largeData| + n)
      ensures var start := FillerStart(p[n..]);
              start.IsFiller? && start.needle.NoNeedle? ==>
                |largeData| + n + start.size <= |s| && CutsRunes(s, |largeData| + n + start.size)
    {
      hide FillerStart, CutsRunes;
      Looking(s, p, n);
      StartHere(s, p, n);
      if FillerStart(p[n..]).IsFiller? && FillerStart(p[n..]).needle.NoNeedle? {
        SpaceCuts(s, |largeData| + n);
      }
    }

    /** A rune starts behind the end of a comment, and in front of a newline. */
    lemma NeedleCuts(s: string, p: string, n: nat, i: nat, needle: Needle)
      requires At(s, p, n) && n <= i < |p| && !needle.NoNeedle? && HasPrefix(p[i..], needle.Text())
      ensures |largeData| + i + |needle.Text()| <= |largeData| + |p| <= |s|
      ensures CutsRunes(s, |largeData| + i + |needle.Text()|)
      ensures p[i] == '\n' ==> CutsRunes(s, |largeData| + i)
    {
      hide CutsRunes;
      Looking(s, p, n);
      var base, m := |largeData|, i + |needle.Text()|;
      assert p[i..][|needle.Text()| - 1] == needle.Text()[|needle.Text()| - 1];
      assert s[base + m - 1] == p[m - 1];
      CutsBehind(s, base + m);
      if p[i] == '\n' {
        CutsBefore(s, base + i);
      }
    }

    // ----- words, numbers and symbols -----

    /** The look-ahead covers the delimiter. */
    predicate Fits()
      reads this
    {
      look >= |delimiter| + MIN_LOOK
    }

    method ScanWord(p0: string) returns (data: string, typ: TokenType)
      requires Valid() && Sees(p0) && |p0| > 0 && largeData == ""
      modifies this`rest, this`largeData, this`err
      ensures old(rest) == data + rest && |data| > 0 && old(err).Malformed? == err.Malformed?
      ensures typ in {Symbol, Word, Numeric} && Separate(data)
      ensures !err.Malformed? && Fits() ==> Token(|data|, typ, false) == WordToken(old(rest), delimiter)
      ensures !err.Malformed? ==> CutsRunes(old(rest), |data|)
    {
      hide WordEnd, FirstRune, CutsRunes;
      ghost var s := rest;
      var first := FirstRune(p0);
      FirstIs(p0);
      FirstHere(p0);
      FirstCuts(s);
      FirstRuneSpaceless(p0);
      typ := first.typ;
      if typ == Symbol {
        data := Finish(s, p0, first.size);
        assert data == s[..first.size] == p0[..first.size];
        return;
      }
      var p, n;
      p, n, typ := WordBytes(p0, first.size, Progress(typ, first.sawPoint, false));
      data := Finish(s, p, n);
    }

    lemma FirstHere(p: string)
      requires Valid() && Sees(p) && |p| > 0
      ensures |rest| > 0 && (!err.Malformed? ==> FirstRune(rest) == FirstRune(p))
    {
      assert rest == p + rest[|p|..];
      if err.NoError? {
        FirstRuneLocal(p, rest[|p|..]);
      }
    }

    /** The loop of Scan over the runes of a word or number. */
    method WordBytes(p0: string, n0: nat, w0: Progress) returns (p: string, n: nat, typ: TokenType)
      requires Valid() && Sees(p0) && 0 < n0 <= |p0| && n0 <= 4 && largeData == "" && WordLike(w0.typ)
      requires (!err.Malformed? ==> CutsRunes(rest, n0)) && ' ' !in p0[..n0]
      modifies this`rest, this`largeData, this`err
      ensures At(old(rest), p, n) && |largeData| + n > 0 && old(err).Malformed? == err.Malformed?
              && WordLike(typ)
      ensures |largeData| + n <= |old(rest)| && ' ' !in old(rest)[..|largeData| + n]
      ensures n0 <= |old(rest)|
      ensures !err.Malformed? && Fits() ==> WordEnd(old(rest), n0, w0, delimiter) == (|largeData| + n, typ)
      ensures !err.Malformed? ==> CutsRunes(old(rest), |largeData| + n)
    {
      hide WordEnd, WordStep, CutsRunes;
      ghost var s := rest;
      var minBytes := if |delimiter| > 4 then |delimiter| else 4;
      var w := w0;
      p, n := p0, n0;
      while n < |p|
        invariant At(s, p, n) && 0 < |largeData| + n <= |s| && old(err).Malformed? == err.Malformed?
        invariant WordLike(w.typ) && ' ' !in s[..|largeData| + n]
        invariant err.NoError? ==> |p| - n >= 4 && (Fits() ==> |p| - n >= minBytes)
        invariant !err.Malformed? ==> CutsRunes(s, |largeData| + n)
        invariant !err.Malformed? && Fits() ==>
                  WordEnd(s, n0, w0, delimiter) == WordEnd(s, |largeData| + n, w, delimiter)
        decreases |rest| - n
      {
        var step := WordStep(p[n..], w, delimiter);
        WordStepType(p[n..], w, delimiter);
        WordRefines(s, p, n, w);
        WordCuts(s, p, n, w);
        WordSpaceless(s, p, n, w);
        if step.Stop? {
          return p, n, step.typ;
        }
        n, w := n + step.size, step.next;
        if err.NoError? && |p| - n < minBytes {
          p := MoreData(s, p, n);
          n := 0;
        }
      }
      typ := w.typ;
      WordAtEnd(s, p, n, w);
    }

    lemma WordRefines(s: string, p: string, n: nat, w: Progress)
      requires At(s, p, n) && n < |p| && (err.NoError? && Fits() ==> |p| - n >= 4 && |p| - n >= |delimiter|)
      ensures |largeData| + |p| <= |s|
      ensures !err.Malformed? && Fits() ==>
                WordEnd(s, |largeData| + n, w, delimiter)
                == match WordStep(p[n..], w, delimiter)
                   case Stop(typ) => (|largeData| + n, typ)
                   case Go(size, next) => WordEnd(s, |largeData| + n + size, next, delimiter)
    {
      hide WordStep;
      Looking(s, p, n);
      if err.NoError? && Fits() {
        WordStepLocal(p[n..], rest[|p|..], w, delimiter);
      } else if err.Eof? {
        assert p[n..] + rest[|p|..] == p[n..];
      }
    }

    /** A rune starts behind each step over a word or number. */
    lemma WordCuts(s: string, p: string, n: nat, w: Progress)
      requires At(s, p, n) && n < |p| && (err.NoError? ==> |p| - n >= 4)
      ensures |largeData| + |p| <= |s|
      ensures !err.Malformed? && CutsRunes(s, |largeData| + n) ==>
                match WordStep(p[n..], w, delimiter)
                case Stop(_) => true
                case Go(size, _) => CutsRunes(s, |largeData| + n + size)
    {
      hide RuneStep, CutsRunes;
      Looking(s, p, n);
      if WordStep(p[n..], w, delimiter).Go? && !err.Malformed? && CutsRunes(s, |largeData| + n) {
        if err.NoError? {
          RuneStepLocal(p[n..], rest[|p|..], w);
        } else {
          assert p[n..] + rest[|p|..] == p[n..];
        }
        StepCuts(s, |largeData| + n, w);
      }
    }

    lemma WordSpaceless(s: string, p: string, n: nat, w: Progress)
      requires At(s, p, n) && n < |p| && |largeData| + |p| <= |s| && ' ' !in s[..|largeData| + n]
      ensures match WordStep(p[n..], w, delimiter)
              case Stop(_) => true
              case Go(size, _) => ' ' !in s[..|largeData| + n + size]
    {
      hide RuneStep;
      if WordStep(p[n..], w, delimiter).Go? {
        Looking(s, p, n);
        RuneStepSpaceless(p[n..], w);
        var size := RuneStep(p[n..], w).size;
        var base := |largeData| + n;
        assert s[..base + size] == s[..base] + s[base..][..size];
        assert s[base..][..size] == p[n..][..size];
      }
    }

    lemma WordAtEnd(s: string, p: string, n: nat, w: Progress)
      requires At(s, p, n) && n == |p|
      ensures |largeData| + n <= |s|
      ensures err.Eof? ==> |largeData| + n == |s| && WordEnd(s, |s|, w, delimiter) == (|s|, w.typ)
    {
      Looking(s, p, n);
    }

    // ----- byte-order mark -----

    /** ScanBOM, for the start of an input. */
    method ScanBOM() returns (found: bool)
      requires Valid()
      modifies this`rest, this`err
      ensures found == HasPrefix(old(rest), BOM)
      ensures rest == if found then old(rest)[|BOM|..] else old(rest)
      ensures err == if old(rest) == "" then Eof else NoError
    {
      err := if rest == "" then Eof else NoError;
      found := HasPrefix(rest, BOM);
      if found {
        rest := rest[|BOM|..];
      }
    }

    // ----- Scan -----

    /** The next token, or the error that ends the input. */
    method Scan() returns (r: Scanned)
      requires Valid()
      modifies this
      ensures Valid() && delimiter == old(delimiter)
      ensures old(rest) == "" ==> r.End?
      ensures old(err).Malformed? ==> err.Malformed?
      ensures r.End? ==>
                && rest == old(rest) && err == r.err && !r.err.NoError? && commandMode == old(commandMode)
                    && prevTokenFiller == old(prevTokenFiller)
                && (!old(err).Malformed? ==> r.err.Eof? && rest == "")
      ensures r.Got? ==>
                && old(rest) == r.data + rest
                && (|delimiter| > 0 ==> |r.data| > 0)
                && prevTokenFiller == (r.typ == Filler)
                && commandMode == (old(commandMode) && r.typ != Delimiter)
      ensures r.Got? && !old(err).Malformed? && !old(commandMode) && Fits() ==>
                Token(|r.data|, r.typ, err.Malformed?) == NextToken(old(rest), old(prevTokenFiller), delimiter)
      ensures r.Got? && !err.Malformed? && ValidUtf8(delimiter) ==> CutsRunes(old(rest), |r.data|)
      ensures r.Got? && r.typ == Delimiter && !old(commandMode) ==> HasPrefix(r.data, delimiter)
      ensures r.Got? && r.typ != Filler && ' ' !in delimiter ==> Separate(r.data)
      ensures r.Got? ==> Scans(old(Now()), r.data, r.typ, Now())
    {
      hide FillerToken, WordToken, StringToken, DelimiterSize, HasPrefix, FillerStart, CutsRunes, ValidUtf8;
      var p := Window();
      if |p| == 0 {
        return End(err);
      }
      largeData := "";
      WindowSeesStart(p);
      if commandMode && AtLineEnd(p, 0) {
        var line := ScanLineEnd(p);
        return Got(line, Delimiter);
      }
      if !prevTokenFiller && FillerStart(p).IsFiller? {
        var filler, typ := ScanFiller(p);
        return Got(filler, typ);
      }
      prevTokenFiller := false;
      r := ScanOther(p);
    }

    /** In command mode, the line end is a delimiter. */
    method ScanLineEnd(p: string) returns (line: string)
      requires Valid() && Sees(p) && |p| > 0 && AtLineEnd(p, 0) && largeData == ""
      modifies this
      ensures Valid() && delimiter == old(delimiter) && err == old(err) && !commandMode && !prevTokenFiller
      ensures old(rest) == line + rest && |line| > 0 && CutsRunes(old(rest), |line|) && ' ' !in line
    {
      hide CutsRunes;
      commandMode, prevTokenFiller := false, false;
      CutsBehind(rest, if p[0] == '\n' then 1 else 2);
      line := Finish(rest, p, if p[0] == '\n' then 1 else 2);
    }

    /** What can be seen at the start of a token; nothing if the input is over. */
    method Window() returns (p: string)
      requires Valid()
      modifies this`err
      ensures |p| > 0 ==> Sees(p) && old(err).Malformed? == err.Malformed?
      ensures |p| == 0 ==>
              !err.NoError? && (old(err).Malformed? ==> err.Malformed?)
              && (!old(err).Malformed? ==> rest == "" && err.Eof?)
      ensures rest == "" ==> p == ""
    {
      if |rest| == 0 {
        if err.NoError? {
          err := Eof;
        }
        return "";
      }
      if err.NoError? {
        p := Peek();
      } else if err.Eof? {
        p := rest;
      } else {
        var k: nat :| k <= |rest|;
        p := rest[..k];
      }
    }

    lemma WindowSeesStart(p: string)
      requires Valid() && Sees(p) && |p| > 0
      ensures |rest| > 0 && p[0] == rest[0]
      ensures !err.Malformed? ==> FillerStart(rest) == FillerStart(p)
      ensures !err.Malformed? && Fits() ==> HasPrefix(rest, delimiter) == HasPrefix(p, delimiter)
      ensures !err.Malformed? && Fits() && HasPrefix(p, delimiter) ==>
              DelimiterSize(rest, delimiter) == DelimiterSize(p, delimiter)
    {
      hide FillerStart, HasPrefix, DelimiterSize;
      assert rest == p + rest[|p|..];
      if err.NoError? {
        FillerStartLocal(p, rest[|p|..]);
        if Fits() {
          DelimiterLocal(p, rest[|p|..], delimiter);
        }
      }
    }

    /** The part of Scan behind whitespace and comments. */
    method ScanOther(p: string) returns (r: Scanned)
      requires Valid() && Sees(p) && |p| > 0 && largeData == "" && !prevTokenFiller
      modifies this
      ensures Valid() && delimiter == old(delimiter) && r.Got?
      ensures old(err).Malformed? ==> err.Malformed?
      ensures old(rest) == r.data + rest && (|delimiter| > 0 ==> |r.data| > 0)
      ensures !prevTokenFiller && r.typ != Filler && commandMode == (old(commandMode) && r.typ != Delimiter)
      ensures !old(err).Malformed? && Fits() ==>
                Token(|r.data|, r.typ, err.Malformed?)
                == if HasPrefix(old(rest), delimiter) then Token(DelimiterSize(old(rest), delimiter), Delimiter, false)
                   else if IsQuote(old(rest)[0]) then StringToken(old(rest))
                   else WordToken(old(rest), delimiter)
      ensures !err.Malformed? && ValidUtf8(delimiter) ==> CutsRunes(old(rest), |r.data|)
      ensures r.typ == Delimiter ==> HasPrefix(r.data, delimiter)
      ensures ' ' !in delimiter ==> Separate(r.data)
    {
      hide HasPrefix, StringToken, WordToken, CutsRunes, ValidUtf8, DelimiterSize;
      WindowSeesStart(p);
      var data, typ;
      if HasPrefix(p, delimiter) {
        commandMode := false;
        DelimiterCuts(rest, p, delimiter);
        ghost var n := DelimiterSize(p, delimiter);
        assert HasPrefix(rest[..n], delimiter) by { DelimiterFirst(rest, p, delimiter, n); }
        assert ' ' !in delimiter ==> Separate(rest[..n]) by { DelimiterSeparate(rest, p, delimiter); }
        data := Finish(rest, p, DelimiterSize(p, delimiter));
        assert data == old(rest)[..n];
        typ := Delimiter;
      } else if IsQuote(p[0]) {
        data, typ := ScanString(p);
      } else {
        data, typ := ScanWord(p);
      }
      r := Got(data, typ);
    }
  }

  // ----- runes -----

  /** A token that ends at `n` splits no rune of a valid text. */
  predicate CutsRunes(s: string, n: nat)
    requires n <= |s|
  {
    ValidUtf8(s) ==> RuneAt(s, n)
  }

  lemma CutsStart(s: string)
    ensures CutsRunes(s, 0)
  {
    if ValidUtf8(s) {
      StartsRune(s);
    }
  }

  lemma CutsBefore(s: string, n: nat)
    requires n < |s| && SingleByte(s[n])
    ensures CutsRunes(s, n)
  {
  }

  lemma CutsBehind(s: string, n: nat)
    requires 0 < n <= |s| && SingleByte(s[n - 1])
    ensures CutsRunes(s, n)
  {
    if ValidUtf8(s) {
      AfterAscii(s, n);
    }
  }

  lemma StringCuts(s: string)
    requires |s| > 0 && IsQuote(s[0])
    ensures CutsRunes(s, StringToken(s).size)
  {
    if ValidUtf8(s) {
      StringTokenEnds(s);
    }
  }

  lemma SpaceCuts(s: string, n: nat)
    requires n < |s| && CutsRunes(s, n) && FillerStart(s[n..]).IsFiller? && FillerStart(s[n..]).needle.NoNeedle?
    ensures CutsRunes(s, n + FillerStart(s[n..]).size)
  {
    hide ValidUtf8, FillerStart;
    if ValidUtf8(s) {
      CutValid(s, n);
      SpaceEnds(s[n..]);
    }
  }

  lemma FirstCuts(s: string)
    requires |s| > 0
    ensures CutsRunes(s, FirstRune(s).size)
  {
    if ValidUtf8(s) {
      FirstRuneEnds(s);
    }
  }

  lemma StepCuts(s: string, n: nat, w: Progress)
    requires n < |s| && CutsRunes(s, n) && RuneStep(s[n..], w).Go?
    ensures CutsRunes(s, n + RuneStep(s[n..], w).size)
  {
    hide ValidUtf8, RuneStep;
    if ValidUtf8(s) {
      CutValid(s, n);
      RuneStepEnds(s[n..], w);
    }
  }

  lemma DelimiterFirst(s: string, p: string, delimiter: string, n: nat)
    requires |p| <= |s| && p == s[..|p|] && HasPrefix(p, delimiter) && |delimiter| <= n <= |s|
    ensures HasPrefix(s[..n], delimiter)
  {
    assert s[..n][..|delimiter|] == p[..|delimiter|];
  }

  lemma DelimiterSeparate(s: string, p: string, delimiter: string)
    requires |p| <= |s| && p == s[..|p|] && HasPrefix(p, delimiter)
    ensures ' ' !in delimiter ==> Separate(s[..DelimiterSize(p, delimiter)])
  {
    hide DelimiterSize;
    if ' ' !in delimiter {
      DelimiterSpaceless(p, delimiter);
      assert s[..DelimiterSize(p, delimiter)] == p[..DelimiterSize(p, delimiter)];
    }
  }

  lemma DelimiterCuts(s: string, p: string, delimiter: string)
    requires |p| <= |s| && p == s[..|p|] && HasPrefix(p, delimiter)
    ensures ValidUtf8(delimiter) ==> CutsRunes(s, DelimiterSize(p, delimiter))
  {
    if ValidUtf8(s) && ValidUtf8(delimiter) {
      hide ValidUtf8;
      assert s[..|delimiter|] == p[..|delimiter|];
      AfterPrefix(s, delimiter);
      var n := DelimiterSize(p, delimiter);
      if n > |delimiter| {
        AfterAscii(s, n);
      }
    }
  }

  /** All tokens of an input, and whether it is malformed at its end. */
  function Tokens(s: string, afterFiller: bool, delimiter: string): (seq<Token>, bool)
    requires |delimiter| > 0
    decreases |s|
  {
    if |s| == 0 then ([], false)
    else
      var t := NextToken(s, afterFiller, delimiter);
      TokensAdvance(s, afterFiller, delimiter);
      if t.malformed then ([t], true)
      else
        var (rest, malformed) := Tokens(s[t.size..], t.typ == Filler, delimiter);
        ([t] + rest, malformed)
  }

  lemma TokensUnfold(s: string, afterFiller: bool, delimiter: string)
    requires |delimiter| > 0
    ensures |s| == 0 ==> Tokens(s, afterFiller, delimiter) == ([], false)
    ensures |s| > 0 ==>
              var t := NextToken(s, afterFiller, delimiter);
              && t.size > 0
              && Tokens(s, afterFiller, delimiter)
                 == if t.malformed then ([t], true)
                    else var (rest, malformed) := Tokens(s[t.size..], t.typ == Filler, delimiter);
                        ([t] + rest, malformed)
  {
    hide NextToken;
    if |s| > 0 {
      TokensAdvance(s, afterFiller, delimiter);
    }
  }

  /** Scans a whole input. However the reader splits it into refills, the tokens are
      those of the input as a whole, and together they are the input. */
  method ScanAll(lexer: Lexer) returns (data: seq<string>, tokens: seq<Token>)
    requires lexer.Valid() && lexer.err.NoError? && !lexer.commandMode && |lexer.delimiter| > 0 && lexer.Fits()
    modifies lexer
    ensures (tokens, lexer.err.Malformed?) == Tokens(old(lexer.rest), old(lexer.prevTokenFiller), old(lexer.delimiter))
    ensures |data| == |tokens| && Joined(data) == old(lexer.rest)
    ensures forall i :: 0 <= i < |data| ==> |data[i]| == tokens[i].size
  {
    hide NextToken, Tokens, ValidUtf8, CutsRunes, HasPrefix;
    ghost var input, d := lexer.rest, lexer.delimiter;
    ghost var all := Tokens(input, lexer.prevTokenFiller, d);
    data, tokens := [], [];
    assert [] + all.0 == all.0;
    assert all == (all.0, all.1);
    var over := false;
    while !over
      invariant lexer.Valid() && lexer.delimiter == d && lexer.Fits()
      invariant |data| == |tokens| && Joined(data) + lexer.rest == input
      invariant forall i :: 0 <= i < |data| ==> |data[i]| == tokens[i].size
      invariant over ==> lexer.rest == "" && (tokens, lexer.err.Malformed?) == all
      invariant !over ==> !lexer.err.Malformed? && !lexer.commandMode
      invariant !over ==> var more := Tokens(lexer.rest, lexer.prevTokenFiller, d); all == (tokens + more.0, more.1)
      decreases !over, |lexer.rest|
    {
      ghost var before, after := lexer.rest, lexer.prevTokenFiller;
      TokensUnfold(before, after, d);
      var r := lexer.Scan();
      if r.End? {
        assert tokens + [] == tokens;
        over := true;
      } else {
        var t := Token(|r.data|, r.typ, lexer.err.Malformed?);
        MalformedIsLast(before, after, d);
        assert before[t.size..] == lexer.rest;
        JoinedMore(data, r.data);
        ghost var more := Tokens(lexer.rest, t.typ == Filler, d);
        assert tokens + ([t] + more.0) == tokens + [t] + more.0;
        data, tokens := data + [r.data], tokens + [t];
        over := t.malformed;
      }
    }
  }

  lemma MalformedIsLast(s: string, afterFiller: bool, delimiter: string)
    requires |s| > 0
    ensures NextToken(s, afterFiller, delimiter).malformed ==> NextToken(s, afterFiller, delimiter).size == |s|
  {
  }

  function Joined(data: seq<string>): string {
    if |data| == 0 then "" else Joined(data[..|data| - 1]) + data[|data| - 1]
  }

  lemma JoinedMore(data: seq<string>, d: string)
    ensures Joined(data + [d]) == Joined(data) + d
  {
    assert (data + [d])[..|data|] == data;
  }

  lemma FirstIs(p: string)
    requires |p| > 0
    ensures FirstRune(p).size <= 4 && FirstRune(p).typ in {Symbol, Word, Numeric}
  {
  }

  datatype FillerMove = Halt | Advance(n: nat, needle: Needle)

  /** What one turn of the loop of scanFiller does at position `n`: end the token, or
      go on behind a space, an opened comment, or as far into a comment as can be seen. */
  function FillerTurn(p: string, n: nat, needle: Needle, more: bool, commandMode: bool): FillerMove
    requires n < |p|
  {
    if commandMode && AtLineEnd(p, n) then Halt
    else if needle.NoNeedle? then
      match FillerStart(p[n..]) case NotFiller => Halt case IsFiller(size, closer) => Advance(n + size, closer)
    else
      var i := Find(p, n, needle.Text());
      if i < |p| then Advance(if commandMode && p[i] == '\n' then i else i + |needle.Text()|, NoNeedle)
      else if more then Advance(|p| + 1 - |needle.Text()|, needle)
      else Advance(|p|, needle)
  }

  lemma FillerMoves(p: string, n: nat, needle: Needle, more: bool, commandMode: bool)
    requires n < |p| && (more ==> |p| - n >= 6)
    ensures var move := FillerTurn(p, n, needle, more, commandMode);
            && (move.Advance? ==> n <= move.n <= |p| && (move.n > n || (!needle.NoNeedle? && move.needle.NoNeedle?)))
            && (n == 0 && needle.NoNeedle? && FillerStart(p).IsFiller? && !(commandMode && AtLineEnd(p, 0)) ==>
                move.Advance? && move.n > 0)
  {
    hide FillerStart;
    assert p[0..] == p;
  }

  /** Whether a line ends at position `n`. */
  predicate AtLineEnd(p: string, n: nat)
    requires n < |p|
  {
    p[n] == '\n' || (p[n] == '\r' && |p| > n + 1 && p[n + 1] == '\n')
  }

  /** What one byte inside a string does: go on, with the next byte escaped or not; close
      the string; or, being the last visible byte, wait for the one behind it. */
  datatype Move = Next(skip: bool) | Close | KeepLast

  function StringMove(p: string, n: nat, c: char, skipNext: bool, more: bool): Move
    requires n < |p|
  {
    if skipNext then Next(false)
    else if p[n] == '\\' && c != '`' then Next(true)
    else if p[n] == c then
      if n >= |p| - 1 then (if more then KeepLast else Close)
      else if p[n + 1] == c then Next(true)
      else Close
    else Next(false)
  }
}
