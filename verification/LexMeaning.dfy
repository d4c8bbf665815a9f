// What filler and quoted strings are, told without the scanning functions
// (internal/tengo/lexer.go, isFiller, scanFiller and scanString).

module LexMeaning {
  import opened Text
  import opened LexSpec

  // ----- runes -----

  /** The payload of byte `i` in a UTF-8 sequence, if its mark is `mark`. */
  function Payload(b: string, i: nat, mark: int): int
    requires i < |b|
  {
    b[i] as int - mark
  }

  /** The bytes are the UTF-8 encoding of code point `r` (RFC 3629, section 3). */
  predicate Encodes(b: string, r: int) {
    match |b|
    case 1 => r == b[0] as int < 0x80
    case 2 =>
      && 0 <= Payload(b, 0, 0xC0) < 32 && 0 <= Payload(b, 1, 0x80) < 64
      && r == Payload(b, 0, 0xC0) * 64 + Payload(b, 1, 0x80) && 0x80 <= r
    case 3 =>
      && 0 <= Payload(b, 0, 0xE0) < 16 && 0 <= Payload(b, 1, 0x80) < 64 && 0 <= Payload(b, 2, 0x80) < 64
      && r == Payload(b, 0, 0xE0) * 4096 + Payload(b, 1, 0x80) * 64 + Payload(b, 2, 0x80)
      && 0x800 <= r && !(0xD800 <= r <= 0xDFFF)
    case 4 =>
      && 0 <= Payload(b, 0, 0xF0) < 8 && 0 <= Payload(b, 1, 0x80) < 64 && 0 <= Payload(b, 2, 0x80) < 64
      && 0 <= Payload(b, 3, 0x80) < 64
      && r == Payload(b, 0, 0xF0) * 262144 + Payload(b, 1, 0x80) * 4096 + Payload(b, 2, 0x80) * 64 + Payload(b, 3, 0x80)
      && 0x10000 <= r <= 0x10FFFF
    case _ => false
  }

  /** The code points with the Unicode property White_Space. */
  predicate WhiteSpace(r: int) {
    || 0x09 <= r <= 0x0D || r == 0x20 || r == 0x85 || r == 0xA0 || r == 0x1680
    || 0x2000 <= r <= 0x200A || r == 0x2028 || r == 0x2029 || r == 0x202F || r == 0x205F || r == 0x3000
  }

  /** A text that begins with the encoding of a code point has that as its first rune. */
  lemma RuneIs(s: string, b: string, r: int)
    requires HasPrefix(s, b) && Encodes(b, r)
    ensures RuneSize(s) == |b|
    ensures StartsWithSpace(s) <==> WhiteSpace(r)
  {
    assert forall i :: 0 <= i < |b| ==> s[i] == s[..|b|][i];
    match |b|
    case 1 =>
    case 2 => assert s[0] == b[0] && s[1] == b[1];
    case 3 => assert s[0] == b[0] && s[1] == b[1] && s[2] == b[2];
    case _ => assert s[0] == b[0] && s[1] == b[1] && s[2] == b[2] && s[3] == b[3];
  }

  /** The first rune, unless its bytes are no encoding: then it is one byte, and no space. */
  lemma RuneAtStart(s: string) returns (r: int)
    requires |s| > 0
    ensures Encodes(s[..RuneSize(s)], r)
            || (RuneSize(s) == 1 && !SingleByte(s[0]) && !StartsWithSpace(s)
                && forall n, q | 0 < n <= |s| :: !Encodes(s[..n], q))
  {
    var b := s[..RuneSize(s)];
    match RuneSize(s)
    case 1 =>
      r := b[0] as int;
      if !SingleByte(s[0]) {
        NoRune(s);
      }
    case 2 => r := Payload(b, 0, 0xC0) * 64 + Payload(b, 1, 0x80);
    case 3 => r := Payload(b, 0, 0xE0) * 4096 + Payload(b, 1, 0x80) * 64 + Payload(b, 2, 0x80);
    case _ =>
      r := Payload(b, 0, 0xF0) * 262144 + Payload(b, 1, 0x80) * 4096 + Payload(b, 2, 0x80) * 64 + Payload(b, 3, 0x80);
  }

  lemma NoRune(s: string)
    requires |s| > 0 && RuneSize(s) == 1 && !SingleByte(s[0])
    ensures !StartsWithSpace(s) && forall n, q | 0 < n <= |s| :: !Encodes(s[..n], q)
  {
    forall n, q | 0 < n <= |s| ensures !Encodes(s[..n], q) {
      RuneMaybe(s, n, q);
    }
  }

  lemma RuneMaybe(s: string, n: nat, q: int)
    requires 0 < n <= |s|
    ensures Encodes(s[..n], q) ==> RuneSize(s) == n && (n == 1 ==> SingleByte(s[0]))
  {
    if Encodes(s[..n], q) {
      RuneIs(s, s[..n], q);
    }
  }

  /** The text begins with whitespace: with the encoding of such a code point. */
  ghost predicate BeginsWithSpace(s: string) {
    exists n, r :: 0 < n <= |s| && Encodes(s[..n], r) && WhiteSpace(r)
  }

  lemma BeginsWithSpaceIff(s: string)
    ensures BeginsWithSpace(s) <==> StartsWithSpace(s)
  {
    hide Encodes, WhiteSpace, StartsWithSpace, RuneSize, WideSpace;
    if BeginsWithSpace(s) {
      var n, r :| 0 < n <= |s| && Encodes(s[..n], r) && WhiteSpace(r);
      RuneIs(s, s[..n], r);
    }
    if |s| == 0 {
      NothingStarts(s);
    } else {
      var r := RuneAtStart(s);
      if Encodes(s[..RuneSize(s)], r) {
        RuneIs(s, s[..RuneSize(s)], r);
      }
    }
  }

  lemma NothingStarts(s: string)
    ensures |s| == 0 ==> !StartsWithSpace(s)
  {
  }

  // ----- filler -----

  /** Whitespace and comments. A line comment includes its newline. */
  datatype Piece = Blank(rune: string) | Hash(line: string) | Dashes(line: string) | Block(body: string) {
    function Text(): string {
      match this
      case Blank(b) => b
      case Hash(x) => "#" + x + "\n"
      case Dashes(x) => "--" + x + "\n"
      case Block(b) => "/*" + b + "*/"
    }

    /** Two dashes start a comment only in front of whitespace, and a block comment ends with the first closer. */
    ghost predicate Proper() {
      match this
      case Blank(b) => exists r :: Encodes(b, r) && WhiteSpace(r)
      case Hash(x) => '\n' !in x
      case Dashes(x) => '\n' !in x && (x == "" || BeginsWithSpace(x))
      case Block(b) => Unbroken(b)
    }
  }

  /** The needle starts nowhere between `i` and `k`. */
  ghost predicate Clear(s: string, i: nat, k: nat, needle: string)
    requires i <= k <= |s|
  {
    forall j :: i <= j < k ==> !HasPrefix(s[j..], needle)
  }

  /** The first closer behind the body is the one that follows it. */
  ghost predicate Unbroken(body: string) {
    Clear(body + "*/", 0, |body|, "*/")
  }

  function Texts(pieces: seq<Piece>): string {
    if |pieces| == 0 then "" else pieces[0].Text() + Texts(pieces[1..])
  }

  /** How the last piece ends: a comment may go on to the end of the input. */
  datatype Tail = Ended | OpenHash(line: string) | OpenDashes(line: string) | OpenBlock(body: string) {
    function Text(): string {
      match this
      case Ended => ""
      case OpenHash(x) => "#" + x
      case OpenDashes(x) => "--" + x
      case OpenBlock(b) => "/*" + b
    }

    ghost predicate Proper() {
      match this
      case Ended => true
      case OpenHash(x) => '\n' !in x
      case OpenDashes(x) => '\n' !in x && (x == "" || BeginsWithSpace(x))
      case OpenBlock(b) => Clear(b, 0, |b|, "*/")
    }
  }

  /** Whitespace or a comment starts here. */
  ghost predicate Opens(s: string) {
    || BeginsWithSpace(s) || HasPrefix(s, "#") || HasPrefix(s, "/*")
    || (HasPrefix(s, "--") && (|s| == 2 || BeginsWithSpace(s[2..])))
  }

  lemma OpensIff(s: string)
    requires |s| > 0
    ensures Opens(s) <==> FillerStart(s).IsFiller?
  {
    hide BeginsWithSpace, RuneSize, WideSpace;
    BeginsWithSpaceIff(s);
    if |s| >= 2 {
      BeginsWithSpaceIff(s[2..]);
      assert HasPrefix(s, "--") <==> s[0] == '-' && s[1] == '-' by { assert s[..2] == [s[0], s[1]]; }
      assert HasPrefix(s, "/*") <==> s[0] == '/' && s[1] == '*' by { assert s[..2] == [s[0], s[1]]; }
    }
    assert HasPrefix(s, "#") <==> s[0] == '#' by { assert s[..1] == [s[0]]; }
  }

  /** The text consists of pieces of filler, and of a rest that starts no other piece. */
  ghost predicate Spelled(s: string, pieces: seq<Piece>, tail: Tail, rest: string) {
    && s == Texts(pieces) + tail.Text() + rest && tail.Proper() && (forall p :: p in pieces ==> p.Proper())
    && (if tail.Ended? then !Opens(rest) else rest == "")
  }

  // ----- the pieces are what the lexer scans -----

  lemma Later(s: string, i: nat, a: string, rest: string)
    requires i <= |s| && s[i..] == a + rest
    ensures i + |a| <= |s| && s[i + |a|..] == rest
  {
    assert s[i..][|a|..] == s[i + |a|..];
  }

  lemma Within(s: string, i: nat, a: string, rest: string)
    requires i <= |s| && s[i..] == a + rest
    ensures i + |a| <= |s| && s[i..i + |a|] == a
  {
    assert s[i..i + |a|] == s[i..][..|a|];
  }

  lemma Leads(a: string, rest: string)
    ensures HasPrefix(a + rest, a)
  {
    assert (a + rest)[..|a|] == a;
  }

  /** Skipping to the end of a comment that ends at `k`. */
  lemma SkipComment(s: string, i: nat, k: nat, needle: Needle)
    requires !needle.NoNeedle? && i <= k <= |s| && Clear(s, i, k, needle.Text())
    ensures k == |s| ==> FillerEnd(s, i, needle) == (k, needle.Closer?)
    ensures k < |s| && HasPrefix(s[k..], needle.Text()) ==>
              FillerEnd(s, i, needle) == FillerEnd(s, k + |needle.Text()|, NoNeedle)
  {
    SkipToNeedle(s, i, k, needle);
    if k < |s| {
      FillerUnfold(s, k, needle);
    }
  }

  lemma LineStays(s: string, i: nat, x: string)
    requires i + |x| <= |s| && s[i..i + |x|] == x && '\n' !in x
    ensures Clear(s, i, i + |x|, "\n")
  {
    forall j | i <= j < i + |x| ensures !HasPrefix(s[j..], "\n") {
      assert s[j] == x[j - i] && s[j..][0] == s[j];
    }
  }

  lemma BlockStays(s: string, i: nat, b: string, rest: string)
    requires i <= |s| && s[i..] == b + (Closer.Text() + rest) && Unbroken(b)
    ensures i + |b| <= |s| && Clear(s, i, i + |b|, Closer.Text())
  {
    var c := b + "*/";
    assert s[i..] == c + rest;
    Within(s, i, c, rest);
    forall j | i <= j < i + |b| ensures !HasPrefix(s[j..], "*/") {
      PrefixTail(s[i..], c, j - i);
      assert s[i..][j - i..] == s[j..];
      TwoBytes(s[j..], c[j - i..]);
    }
  }

  lemma OpenBlockStays(s: string, i: nat, b: string)
    requires i <= |s| && s[i..] == b && Clear(b, 0, |b|, "*/")
    ensures Clear(s, i, |s|, "*/")
  {
    forall j | i <= j < |s| ensures !HasPrefix(s[j..], "*/") {
      assert s[j..] == b[j - i..];
    }
  }

  lemma TwoBytes(a: string, b: string)
    requires |a| >= |b| >= 2 && a[..|b|] == b
    ensures HasPrefix(a, "*/") <==> HasPrefix(b, "*/")
  {
    assert a[..2] == b[..2];
  }

  lemma OpensLonger(x: string, rest: string)
    requires BeginsWithSpace(x)
    ensures BeginsWithSpace(x + rest)
  {
    hide Encodes, WhiteSpace;
    var n, r :| 0 < n <= |x| && Encodes(x[..n], r) && WhiteSpace(r);
    assert (x + rest)[..n] == x[..n];
  }

  lemma NewlineIsSpace(rest: string)
    ensures BeginsWithSpace("\n" + rest)
  {
    var s := "\n" + rest;
    assert s[..1] == "\n" && Encodes(s[..1], 10) && WhiteSpace(10);
  }

  /** A comment whose text ends at `k`, where it is closed. */
  lemma CommentIsScanned(s: string, i: nat, k: nat, needle: Needle)
    requires !needle.NoNeedle? && i <= k <= |s| && Clear(s, i, k, needle.Text())
    requires HasPrefix(s[k..], needle.Text())
    ensures k + |needle.Text()| <= |s| && FillerEnd(s, i, needle) == FillerEnd(s, k + |needle.Text()|, NoNeedle)
  {
    hide FillerEnd, Clear;
    SomeText(needle);
    SkipComment(s, i, k, needle);
  }

  lemma SomeText(needle: Needle)
    ensures !needle.NoNeedle? ==> |needle.Text()| > 0
  {
  }

  /** A line, behind its opener, up to its end. */
  lemma LineIsScanned(s: string, i: nat, x: string, rest: string)
    requires i <= |s| && s[i..] == x + ("\n" + rest) && '\n' !in x
    ensures i + |x| + 1 <= |s| && FillerEnd(s, i, LineEnd) == FillerEnd(s, i + |x| + 1, NoNeedle)
  {
    hide FillerEnd, HasPrefix, Clear;
    Later(s, i, x, "\n" + rest);
    Within(s, i, x, "\n" + rest);
    LineStays(s, i, x);
    Leads("\n", rest);
    CommentIsScanned(s, i, i + |x|, LineEnd);
  }

  lemma OpenLineIsScanned(s: string, i: nat, x: string)
    requires i <= |s| && s[i..] == x && '\n' !in x
    ensures FillerEnd(s, i, LineEnd) == (|s|, false)
  {
    hide FillerEnd, HasPrefix, Clear;
    assert s[i..i + |x|] == x;
    LineStays(s, i, x);
    SkipComment(s, i, |s|, LineEnd);
  }

  lemma CloserFollows(s: string, i: nat, b: string, rest: string)
    requires i <= |s| && s[i..] == b + (Closer.Text() + rest)
    ensures i + |b| <= |s| && HasPrefix(s[i + |b|..], Closer.Text())
  {
    hide Needle.Text, HasPrefix;
    Later(s, i, b, Closer.Text() + rest);
    Leads(Closer.Text(), rest);
  }

  lemma BlockIsScanned(s: string, i: nat, b: string, rest: string)
    requires i <= |s| && s[i..] == b + (Closer.Text() + rest) && Unbroken(b)
    ensures i + |b| + |Closer.Text()| <= |s|
    ensures FillerEnd(s, i, Closer) == FillerEnd(s, i + |b| + |Closer.Text()|, NoNeedle)
  {
    hide FillerEnd, HasPrefix, Clear, Unbroken, Needle.Text;
    CloserFollows(s, i, b, rest);
    BlockStays(s, i, b, rest);
    CommentIsScanned(s, i, i + |b|, Closer);
  }

  lemma OpenBlockIsScanned(s: string, i: nat, b: string)
    requires i <= |s| && s[i..] == b && Clear(b, 0, |b|, "*/")
    ensures FillerEnd(s, i, Closer) == (|s|, true)
  {
    hide FillerEnd, HasPrefix, Clear;
    OpenBlockStays(s, i, b);
    assert Closer.Text() == "*/";
    SkipComment(s, i, |s|, Closer);
  }

  /** What each opener does at position `i`. */
  lemma OpenerIsScanned(s: string, i: nat, opener: string, rest: string)
    requires i <= |s| && s[i..] == opener + rest
    ensures i + |opener| <= |s| && s[i + |opener|..] == rest
    ensures opener == "#" ==> FillerEnd(s, i, NoNeedle) == FillerEnd(s, i + 1, LineEnd)
    ensures opener == "--" && (rest == "" || StartsWithSpace(rest)) ==>
              FillerEnd(s, i, NoNeedle) == FillerEnd(s, i + 2, LineEnd)
    ensures opener == "/*" ==> FillerEnd(s, i, NoNeedle) == FillerEnd(s, i + 2, Closer)
  {
    hide FillerEnd, StartsWithSpace;
    Later(s, i, opener, rest);
    if opener in ["#", "--", "/*"] {
      FillerUnfold(s, i, NoNeedle);
      OpenerStarts(opener, rest);
    }
  }

  lemma OpenerStarts(opener: string, rest: string)
    ensures opener == "#" ==> FillerStart(opener + rest) == IsFiller(1, LineEnd)
    ensures opener == "--" && (rest == "" || StartsWithSpace(rest)) ==>
              FillerStart(opener + rest) == IsFiller(2, LineEnd)
    ensures opener == "/*" ==> FillerStart(opener + rest) == IsFiller(2, Closer)
  {
    hide StartsWithSpace;
    assert |opener| == 2 ==> (opener + rest)[2..] == rest;
  }

  lemma HashIsScanned(s: string, i: nat, x: string, rest: string)
    requires i <= |s| && s[i..] == Hash(x).Text() + rest && Hash(x).Proper()
    ensures i + |x| + 2 <= |s| && FillerEnd(s, i, NoNeedle) == FillerEnd(s, i + |x| + 2, NoNeedle)
  {
    hide FillerEnd;
    assert s[i..] == "#" + (x + ("\n" + rest));
    OpenerIsScanned(s, i, "#", x + ("\n" + rest));
    LineIsScanned(s, i + 1, x, rest);
  }

  lemma DashesAreScanned(s: string, i: nat, x: string, rest: string)
    requires i <= |s| && s[i..] == Dashes(x).Text() + rest && Dashes(x).Proper()
    ensures i + |x| + 3 <= |s| && FillerEnd(s, i, NoNeedle) == FillerEnd(s, i + |x| + 3, NoNeedle)
  {
    hide FillerEnd, BeginsWithSpace, StartsWithSpace;
    assert s[i..] == "--" + (x + ("\n" + rest));
    DashesOpen(x, rest);
    OpenerIsScanned(s, i, "--", x + ("\n" + rest));
    LineIsScanned(s, i + 2, x, rest);
  }

  lemma CommentBlockIsScanned(s: string, i: nat, b: string, rest: string)
    requires i <= |s| && s[i..] == Block(b).Text() + rest && Unbroken(b)
    ensures i + |b| + 4 <= |s| && FillerEnd(s, i, NoNeedle) == FillerEnd(s, i + |b| + 4, NoNeedle)
  {
    hide FillerEnd, Unbroken;
    assert s[i..] == "/*" + (b + (Closer.Text() + rest));
    OpenerIsScanned(s, i, "/*", b + (Closer.Text() + rest));
    BlockIsScanned(s, i + 2, b, rest);
  }

  /** One piece is one turn, whatever follows. */
  lemma PieceIsScanned(s: string, i: nat, p: Piece, rest: string)
    requires i <= |s| && s[i..] == p.Text() + rest && p.Proper()
    ensures i + |p.Text()| <= |s| && FillerEnd(s, i, NoNeedle) == FillerEnd(s, i + |p.Text()|, NoNeedle)
  {
    hide FillerEnd, Encodes, WhiteSpace, Unbroken, BeginsWithSpace;
    match p
    case Blank(b) =>
      var r :| Encodes(b, r) && WhiteSpace(r);
      BlankIsScanned(s, i, b, r, rest);
    case Hash(x) => HashIsScanned(s, i, x, rest);
    case Dashes(x) => DashesAreScanned(s, i, x, rest);
    case Block(b) => CommentBlockIsScanned(s, i, b, rest);
  }

  lemma BlankIsScanned(s: string, i: nat, b: string, r: int, rest: string)
    requires i <= |s| && s[i..] == b + rest && Encodes(b, r) && WhiteSpace(r)
    ensures i + |b| <= |s| && FillerEnd(s, i, NoNeedle) == FillerEnd(s, i + |b|, NoNeedle)
  {
    hide FillerEnd, FillerStart, WhiteSpace;
    assert (b + rest)[..|b|] == b;
    Later(s, i, b, rest);
    FillerUnfold(s, i, NoNeedle);
    BlankStarts(s[i..], b, r);
  }

  lemma BlankStarts(t: string, b: string, r: int)
    requires HasPrefix(t, b) && Encodes(b, r) && WhiteSpace(r)
    ensures FillerStart(t) == IsFiller(|b|, NoNeedle)
  {
    RuneIs(t, b, r);
  }

  lemma DashesOpen(x: string, rest: string)
    requires x == "" || BeginsWithSpace(x)
    ensures StartsWithSpace(x + ("\n" + rest))
  {
    hide BeginsWithSpace, StartsWithSpace;
    if x == "" {
      assert x + ("\n" + rest) == "\n" + rest;
      NewlineIsSpace(rest);
    } else {
      OpensLonger(x, "\n" + rest);
    }
    BeginsWithSpaceIff(x + ("\n" + rest));
  }

  lemma TailIsScanned(s: string, i: nat, tail: Tail, rest: string)
    requires i <= |s| && s[i..] == tail.Text() + rest && tail.Proper()
    requires if tail.Ended? then !Opens(rest) else rest == ""
    ensures FillerEnd(s, i, NoNeedle) == (|s| - |rest|, tail.OpenBlock?)
  {
    hide BeginsWithSpace, FillerEnd, FillerStart, StartsWithSpace, Opens, HasPrefix, Clear;
    match tail
    case Ended =>
      assert s[i..] == rest;
      AtEnd(s, NoNeedle);
      if i < |s| {
        OpensIff(rest);
        FillerUnfold(s, i, NoNeedle);
      }
    case OpenHash(x) =>
      assert s[i..] == "#" + x;
      OpenerIsScanned(s, i, "#", x);
      OpenLineIsScanned(s, i + 1, x);
    case OpenDashes(x) =>
      assert s[i..] == "--" + x;
      BeginsWithSpaceIff(x);
      OpenerIsScanned(s, i, "--", x);
      OpenLineIsScanned(s, i + 2, x);
    case OpenBlock(b) =>
      assert s[i..] == "/*" + b;
      OpenerIsScanned(s, i, "/*", b);
      OpenBlockIsScanned(s, i + 2, b);
  }

  lemma AtEnd(s: string, needle: Needle)
    ensures FillerEnd(s, |s|, needle) == (|s|, needle.Closer?)
  {
  }

  lemma {:induction false} PiecesAreScanned(s: string, i: nat, pieces: seq<Piece>, tail: Tail, rest: string)
    requires i <= |s| && Spelled(s[i..], pieces, tail, rest)
    ensures FillerEnd(s, i, NoNeedle) == (|s| - |rest|, tail.OpenBlock?)
    decreases |pieces|
  {
    hide FillerEnd, Opens, Piece.Proper, Piece.Text, Tail.Proper, Tail.Text;
    if |pieces| == 0 {
      assert s[i..] == tail.Text() + rest;
      TailIsScanned(s, i, tail, rest);
    } else {
      var p, more := pieces[0], Texts(pieces[1..]) + tail.Text() + rest;
      assert s[i..] == p.Text() + more;
      PieceIsScanned(s, i, p, more);
      Later(s, i, p.Text(), more);
      PiecesAreScanned(s, i + |p.Text()|, pieces[1..], tail, rest);
    }
  }

  /** A filler token is made of all the pieces of filler at the start, and malformed exactly if the last of them is a
      block comment that is never closed. */
  lemma FillerTokenIs(s: string, pieces: seq<Piece>, tail: Tail, rest: string)
    requires |s| > 0 && Spelled(s, pieces, tail, rest)
    ensures FillerToken(s) == Token(|s| - |rest|, Filler, tail.OpenBlock?)
  {
    hide FillerEnd, Spelled;
    assert s[0..] == s;
    PiecesAreScanned(s, 0, pieces, tail, rest);
  }

  // ----- every text has such a spelling -----

  lemma FirstNewline(s: string, n: nat) returns (k: nat)
    requires n <= |s|
    ensures n <= k <= |s| && '\n' !in s[n..k] && (k < |s| ==> s[k] == '\n')
  {
    k := Find(s, n, "\n");
    forall j | n <= j < k ensures s[j] != '\n' {
      assert !HasPrefix(s[j..], "\n");
      assert s[j..][..1] == [s[j]];
    }
    if k < |s| {
      assert s[k] == s[k..][..1][0];
    }
  }

  /** Whitespace that is no newline lies in front of the first newline. */
  lemma SpaceBeforeNewline(s: string, k: nat)
    requires k <= |s| && BeginsWithSpace(s) && '\n' !in s[..k] && (k < |s| ==> s[k] == '\n')
    ensures k == 0 || BeginsWithSpace(s[..k])
  {
    hide WhiteSpace;
    var n, r :| 0 < n <= |s| && Encodes(s[..n], r) && WhiteSpace(r);
    if 0 < k < n {
      assert s[..n][k] == s[k];
      NoNewlineInside(s[..n], r, k);
    }
    if n <= k {
      assert s[..k][..n] == s[..n];
    }
  }

  lemma NoNewlineInside(b: string, r: int, k: nat)
    requires Encodes(b, r) && 0 < k < |b|
    ensures b[k] != '\n'
  {
  }

  lemma BlockBody(s: string, k: nat)
    requires 2 <= k < |s| && HasPrefix(s[k..], "*/") && forall j :: 2 <= j < k ==> !HasPrefix(s[j..], "*/")
    ensures Unbroken(s[2..k])
  {
    var c, t := s[2..k] + "*/", s[2..];
    assert t[..|c|] == c by { assert s[k..][..2] == "*/"; }
    forall j | 0 <= j < k - 2 ensures !HasPrefix(c[j..], "*/") {
      hide HasPrefix;
      PrefixTail(t, c, j);
      assert t[j..] == s[j + 2..];
      TwoBytes(t[j..], c[j..]);
    }
  }

  lemma PrefixTail(t: string, c: string, j: nat)
    requires j <= |c| <= |t| && t[..|c|] == c
    ensures |t[j..]| >= |c[j..]| && t[j..][..|c[j..]|] == c[j..]
  {
  }

  lemma OpenBody(s: string)
    requires |s| >= 2 && forall j :: 2 <= j < |s| ==> !HasPrefix(s[j..], "*/")
    ensures Clear(s[2..], 0, |s| - 2, "*/")
  {
    forall j | 0 <= j < |s| - 2 ensures !HasPrefix(s[2..][j..], "*/") {
      assert s[2..][j..] == s[j + 2..];
    }
  }

  /** The first piece, or that the last one goes on to the end. */
  lemma FirstPiece(s: string) returns (p: Piece, tail: Tail, rest: string)
    requires Opens(s)
    ensures p.Proper() && tail.Proper()
    ensures if tail.Ended? then s == p.Text() + rest && |rest| < |s| else s == tail.Text()
  {
    hide WhiteSpace, Encodes, Unbroken, Clear;
    p, tail, rest := Hash(""), Ended, "";
    if BeginsWithSpace(s) {
      var n, r :| 0 < n <= |s| && Encodes(s[..n], r) && WhiteSpace(r);
      p, rest := Blank(s[..n]), s[n..];
    } else if HasPrefix(s, "#") {
      p, tail, rest := HashPiece(s);
    } else if HasPrefix(s, "/*") {
      p, tail, rest := BlockPiece(s);
    } else {
      p, tail, rest := DashesPiece(s);
    }
  }

  lemma HashPiece(s: string) returns (p: Piece, tail: Tail, rest: string)
    requires HasPrefix(s, "#")
    ensures p.Proper() && tail.Proper()
    ensures if tail.Ended? then s == p.Text() + rest && |rest| < |s| else s == tail.Text()
  {
    var k := FirstNewline(s, 1);
    p, tail, rest := Hash(""), Ended, "";
    assert s[0] == s[..1][0] == '#';
    if k == |s| {
      tail := OpenHash(s[1..]);
      assert s[1..k] == s[1..];
    } else {
      p, rest := Hash(s[1..k]), s[k + 1..];
    }
  }

  lemma DashesPiece(s: string) returns (p: Piece, tail: Tail, rest: string)
    requires HasPrefix(s, "--") && (|s| == 2 || BeginsWithSpace(s[2..]))
    ensures p.Proper() && tail.Proper()
    ensures if tail.Ended? then s == p.Text() + rest && |rest| < |s| else s == tail.Text()
  {
    hide BeginsWithSpace;
    var k := FirstNewline(s, 2);
    p, tail, rest := Hash(""), Ended, "";
    assert s[0] == s[..2][0] == '-' && s[1] == s[..2][1] == '-';
    if |s| > 2 {
      assert s[2..][..k - 2] == s[2..k];
      SpaceBeforeNewline(s[2..], k - 2);
    }
    if k == |s| {
      tail := OpenDashes(s[2..]);
      assert s[2..k] == s[2..];
    } else {
      p, rest := Dashes(s[2..k]), s[k + 1..];
    }
  }

  lemma BlockPiece(s: string) returns (p: Piece, tail: Tail, rest: string)
    requires HasPrefix(s, "/*")
    ensures p.Proper() && tail.Proper()
    ensures if tail.Ended? then s == p.Text() + rest && |rest| < |s| else s == tail.Text()
  {
    hide Unbroken, Clear;
    var k := Find(s, 2, "*/");
    p, tail, rest := Hash(""), Ended, "";
    assert s[0] == s[..2][0] == '/' && s[1] == s[..2][1] == '*';
    if k == |s| {
      OpenBody(s);
      tail := OpenBlock(s[2..]);
    } else {
      BlockBody(s, k);
      p, rest := Block(s[2..k]), s[k + 2..];
      assert s[k..][..2] == "*/";
    }
  }

  /** Every text can be read as pieces of filler and a rest. */
  lemma {:induction false} FillerIsSpelled(s: string) returns (pieces: seq<Piece>, tail: Tail, rest: string)
    ensures Spelled(s, pieces, tail, rest)
    decreases |s|
  {
    hide Opens, Piece.Proper, Tail.Proper, Piece.Text, Tail.Text;
    pieces, tail, rest := [], Ended, s;
    EndedTail();
    if Opens(s) {
      var p, last, more := FirstPiece(s);
      if last.Ended? {
        pieces, tail, rest := FillerIsSpelled(more);
        assert ([p] + pieces)[1..] == pieces;
        assert s == p.Text() + (Texts(pieces) + tail.Text() + rest) == Texts([p] + pieces) + tail.Text() + rest;
        pieces := [p] + pieces;
      } else {
        tail, rest := last, "";
      }
    }
  }

  lemma EndedTail()
    ensures Ended.Proper() && Ended.Text() == ""
  {
  }

  /** Outside command mode, and not behind filler, a token is filler exactly if whitespace or a comment starts there. */
  lemma NextIsFillerIff(s: string, afterFiller: bool, delimiter: string)
    requires |s| > 0
    ensures NextToken(s, afterFiller, delimiter).typ == Filler <==> !afterFiller && Opens(s)
  {
    hide Opens, FillerStart, NextToken;
    FillersApart(s, afterFiller, delimiter);
    OpensIff(s);
  }

  // ----- quoted strings -----

  /** A character of a quoted string, as it is written: as itself, behind a backslash, or as a doubled quote. */
  datatype Unit = Plain(c: char) | Escaped(c: char) | Doubled {
    function Text(quote: char): string {
      match this
      case Plain(c) => [c]
      case Escaped(c) => ['\\', c]
      case Doubled => [quote, quote]
    }

    /** There are no backslash escapes between backticks. */
    predicate Proper(quote: char) {
      match this
      case Plain(c) => c != quote && (c == '\\' ==> quote == '`')
      case Escaped(_) => quote != '`'
      case Doubled => true
    }
  }

  function UnitTexts(units: seq<Unit>, quote: char): string {
    if |units| == 0 then "" else units[0].Text(quote) + UnitTexts(units[1..], quote)
  }

  /** What stands behind the units: the closing quote, nothing, or a lone backslash. */
  datatype Close = Closed | Unclosed | Dangling {
    function Text(quote: char): string {
      match this
      case Closed => [quote]
      case Unclosed => ""
      case Dangling => "\\"
    }
  }

  /** `s`, behind the opening quote, consists of units, the closing quote if there is one, and a rest. */
  predicate Written(s: string, quote: char, units: seq<Unit>, close: Close, rest: string) {
    && s == UnitTexts(units, quote) + close.Text(quote) + rest
    && (forall u :: u in units ==> u.Proper(quote))
    && (if close.Closed? then rest == "" || rest[0] != quote else rest == "")
    && (close.Dangling? ==> quote != '`')
  }

  lemma UnitIsScanned(s: string, i: nat, quote: char, u: Unit, rest: string)
    requires i <= |s| && s[i..] == u.Text(quote) + rest && u.Proper(quote) && quote != '\\'
    ensures i + |u.Text(quote)| <= |s|
    ensures StringEnd(s, i, quote, false) == StringEnd(s, i + |u.Text(quote)|, quote, false)
  {
    Later(s, i, u.Text(quote), rest);
    assert s[i] == u.Text(quote)[0];
    assert |u.Text(quote)| == 2 ==> s[i + 1] == u.Text(quote)[1];
  }

  lemma CloseIsScanned(s: string, i: nat, quote: char, close: Close, rest: string)
    requires i <= |s| && Written(s[i..], quote, [], close, rest) && quote != '\\'
    ensures StringEnd(s, i, quote, false) == (|s| - |rest|, close.Closed?)
  {
    assert s[i..] == close.Text(quote) + rest;
    Later(s, i, close.Text(quote), rest);
    if !close.Unclosed? {
      assert s[i] == close.Text(quote)[0];
      assert i + 1 < |s| ==> s[i + 1] == rest[0];
    }
  }

  lemma {:induction false} UnitsAreScanned(s: string, i: nat, quote: char, units: seq<Unit>, close: Close, rest: string)
    requires i <= |s| && Written(s[i..], quote, units, close, rest) && quote != '\\'
    ensures StringEnd(s, i, quote, false) == (|s| - |rest|, close.Closed?)
    decreases |units|
  {
    hide StringEnd, Unit.Proper, Unit.Text, Close.Text;
    if |units| == 0 {
      CloseIsScanned(s, i, quote, close, rest);
    } else {
      var u, more := units[0], UnitTexts(units[1..], quote) + close.Text(quote) + rest;
      assert s[i..] == u.Text(quote) + more;
      UnitIsScanned(s, i, quote, u, more);
      Later(s, i, u.Text(quote), more);
      UnitsAreScanned(s, i + |u.Text(quote)|, quote, units[1..], close, rest);
    }
  }

  /** A quoted token ends with the first quote that is neither doubled nor escaped, and is malformed without one. */
  lemma StringTokenIs(s: string, units: seq<Unit>, close: Close, rest: string)
    requires |s| > 0 && IsQuote(s[0]) && Written(s[1..], s[0], units, close, rest)
    ensures StringToken(s) == Token(|s| - |rest|, if s[0] == '`' then Ident else Str, !close.Closed?)
  {
    hide StringEnd, Written;
    UnitsAreScanned(s, 1, s[0], units, close, rest);
  }

  lemma FirstUnit(s: string, quote: char) returns (u: Unit, close: Close, rest: string)
    requires quote != '\\'
    ensures u.Proper(quote)
    ensures (s == u.Text(quote) + rest && |rest| < |s|) || Written(s, quote, [], close, rest)
  {
    u, close, rest := Doubled, Unclosed, "";
    if |s| == 0 {
    } else if s[0] == quote {
      if |s| > 1 && s[1] == quote {
        rest := s[2..];
      } else {
        close, rest := Closed, s[1..];
      }
    } else if s[0] == '\\' && quote != '`' {
      if |s| > 1 {
        u, rest := Escaped(s[1]), s[2..];
      } else {
        close := Dangling;
      }
    } else {
      u, rest := Plain(s[0]), s[1..];
    }
  }

  /** Every text behind an opening quote can be read in this way. */
  lemma {:induction false} StringIsWritten(s: string, quote: char)
      returns (units: seq<Unit>, close: Close, rest: string)
    requires quote != '\\'
    ensures Written(s, quote, units, close, rest)
    decreases |s|
  {
    hide Unit.Proper, Unit.Text, Close.Text;
    var u;
    u, close, rest := FirstUnit(s, quote);
    units := [];
    if !Written(s, quote, [], close, rest) {
      var more := rest;
      units, close, rest := StringIsWritten(more, quote);
      assert ([u] + units)[1..] == units;
      assert s == u.Text(quote) + (UnitTexts(units, quote) + close.Text(quote) + rest)
          == UnitTexts([u] + units, quote) + close.Text(quote) + rest;
      units := [u] + units;
    }
  }
}
