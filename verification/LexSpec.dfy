// The tokens of a whole input (internal/tengo/lexer.go), without buffering: what
// the streaming lexer is supposed to return. One char stands for one byte.

module LexSpec {
  import opened Text

  datatype TokenType = Word | Ident | Str | Numeric | Symbol | Delimiter | Filler

  // ----- bytes and runes -----

  predicate IsSpace(c: char) {
    c == ' ' || c == '\t' || c == '\n' || c == '\r' || c as int == 11 || c as int == 12
  }

  predicate IsDigit(c: char) {
    '0' <= c <= '9'
  }

  /** 0-9a-zA-Z$_ */
  predicate IsWord(c: char) {
    IsDigit(c) || 'a' <= c <= 'z' || 'A' <= c <= 'Z' || c == '$' || c == '_'
  }

  predicate SingleByte(c: char) {
    c as int < 0x80
  }

  predicate Between(lo: int, c: char, hi: int) {
    lo <= c as int <= hi
  }

  /** The number of bytes that utf8.DecodeRune consumes: 1 for an invalid encoding. */
  function RuneSize(s: string): (n: nat)
    ensures n <= |s| && n <= 4 && (n == 0 <==> |s| == 0)
  {
    if |s| == 0 then 0
    else if Between(0xC2, s[0], 0xDF) && |s| > 1 && Between(0x80, s[1], 0xBF) then 2
    else if Between(0xE0, s[0], 0xEF) && |s| > 2
        && Between(if s[0] as int == 0xE0 then 0xA0 else 0x80, s[1], if s[0] as int == 0xED then 0x9F else 0xBF)
            && Between(0x80, s[2], 0xBF) then 3
    else if Between(0xF0, s[0], 0xF4) && |s| > 3
        && Between(if s[0] as int == 0xF0 then 0x90 else 0x80, s[1], if s[0] as int == 0xF4 then 0x8F else 0xBF)
            && Between(0x80, s[2], 0xBF) && Between(0x80, s[3], 0xBF) then 4
    else 1
  }

  /** unicode.IsSpace of the first rune, for runes of more than one byte: U+0085, U+00A0,
      U+1680, U+2000 to U+200A, U+2028, U+2029, U+202F, U+205F and U+3000. */
  predicate WideSpace(s: string) {
    || (|s| > 1 && s[0] as int == 0xC2 && s[1] as int in {0x85, 0xA0})
    || (|s| > 2 && s[0] as int == 0xE1 && s[1] as int == 0x9A && s[2] as int == 0x80)
    || (|s| > 2 && s[0] as int == 0xE2 && s[1] as int == 0x80
        && (Between(0x80, s[2], 0x8A) || s[2] as int in {0xA8, 0xA9, 0xAF}))
    || (|s| > 2 && s[0] as int == 0xE2 && s[1] as int == 0x81 && s[2] as int == 0x9F)
    || (|s| > 2 && s[0] as int == 0xE3 && s[1] as int == 0x80 && s[2] as int == 0x80)
  }

  predicate StartsWithSpace(s: string) {
    |s| > 0 && if SingleByte(s[0]) then IsSpace(s[0]) else WideSpace(s)
  }

  // ----- whitespace and comments -----

  datatype Needle = NoNeedle | LineEnd | Closer {
    function Text(): string {
      match this case NoNeedle => "" case LineEnd => "\n" case Closer => "*/"
    }
  }

  datatype Start = NotFiller | IsFiller(size: nat, needle: Needle)

  /** isFiller. */
  function FillerStart(s: string): (r: Start)
    requires |s| > 0
    ensures r.IsFiller? ==> 0 < r.size <= |s|
  {
    if !SingleByte(s[0]) then (if WideSpace(s) then IsFiller(RuneSize(s), NoNeedle) else NotFiller)
    else if IsSpace(s[0]) then IsFiller(1, NoNeedle)
    else if s[0] == '#' then IsFiller(1, LineEnd)
    else if |s| == 1 then NotFiller
    else if s[0] == '-' && s[1] == '-'
        then (if StartsWithSpace(s[2..]) || |s| == 2 then IsFiller(2, LineEnd) else NotFiller)
    else if s[0] == '/' && s[1] == '*' then IsFiller(2, Closer)
    else NotFiller
  }

  /** Where a run of spaces and comments ends, and whether a comment in it is never closed. */
  function FillerEnd(s: string, i: nat, needle: Needle): (r: (nat, bool))
    requires i <= |s|
    ensures i <= r.0 <= |s| && (r.1 ==> r.0 == |s|)
    decreases |s| - i
  {
    if i == |s| then (i, needle.Closer?)
    else if needle.NoNeedle? then
      match FillerStart(s[i..])
      case NotFiller => (i, false)
      case IsFiller(size, closer) => FillerEnd(s, i + size, closer)
    else if HasPrefix(s[i..], needle.Text()) then FillerEnd(s, i + |needle.Text()|, NoNeedle)
    else FillerEnd(s, i + 1, needle)
  }

  /** One step of FillerEnd. */
  lemma FillerUnfold(s: string, i: nat, needle: Needle)
    requires i < |s|
    ensures needle.NoNeedle? ==>
              FillerEnd(s, i, needle)
              == match FillerStart(s[i..]) {
                   case NotFiller => (i, false)
                   case IsFiller(size, closer) => FillerEnd(s, i + size, closer)
                 }
    ensures !needle.NoNeedle? && HasPrefix(s[i..], needle.Text()) ==>
            FillerEnd(s, i, needle) == FillerEnd(s, i + |needle.Text()|, NoNeedle)
  {
    hide FillerStart;
  }

  /** bytes.Index(p[n:], needle): where the needle occurs first from `n` on. */
  function Find(p: string, n: nat, needle: string): (r: nat)
    requires n <= |p|
    ensures n <= r <= |p|
    ensures forall k :: n <= k < r ==> !HasPrefix(p[k..], needle)
    ensures r < |p| ==> HasPrefix(p[r..], needle)
    decreases |p| - n
  {
    if n == |p| || HasPrefix(p[n..], needle) then n else Find(p, n + 1, needle)
  }

  lemma {:induction false} SkipToNeedle(s: string, i: nat, k: nat, needle: Needle)
    requires !needle.NoNeedle? && i <= k <= |s| && forall j :: i <= j < k ==> !HasPrefix(s[j..], needle.Text())
    ensures FillerEnd(s, i, needle) == FillerEnd(s, k, needle)
    decreases k - i
  {
    if i < k {
      SkipToNeedle(s, i + 1, k, needle);
    }
  }

  // ----- quoted strings -----

  /** Where a string quoted by `c` ends, and whether its quote is closed; `skip` means
      that the byte at `i` is escaped. */
  function StringEnd(s: string, i: nat, c: char, skip: bool): (r: (nat, bool))
    requires i <= |s|
    ensures i <= r.0 <= |s| && (!r.1 ==> r.0 == |s|)
    decreases |s| - i
  {
    if i == |s| then (i, false)
    else if skip then StringEnd(s, i + 1, c, false)
    else if s[i] == '\\' && c != '`' then StringEnd(s, i + 1, c, true)
    else if s[i] == c then
      if i + 1 < |s| && s[i + 1] == c then StringEnd(s, i + 1, c, true) else (i + 1, true)
    else StringEnd(s, i + 1, c, false)
  }

  predicate IsQuote(c: char) {
    c == '\'' || c == '"' || c == '`'
  }

  // ----- words and numbers -----

  predicate DigitAt(s: string, i: nat) {
    i < |s| && IsDigit(s[i])
  }

  /** The type of a token by its first rune, its size, and whether a decimal point was seen. */
  datatype First = First(typ: TokenType, size: nat, sawPoint: bool)

  function FirstRune(s: string): (r: First)
    requires |s| > 0
    ensures 0 < r.size <= |s|
  {
    if SingleByte(s[0]) then
      if IsDigit(s[0]) then First(Numeric, 1, false)
      else if s[0] == '.' then (if DigitAt(s, 1) then First(Numeric, 1, true) else First(Symbol, 1, false))
      else if !IsWord(s[0]) then First(Symbol, 1, false)
      else First(Word, 1, false)
    else if RuneSize(s) > 3 then First(Symbol, RuneSize(s), false)
    else First(Word, RuneSize(s), false)
  }

  datatype Progress = Progress(typ: TokenType, sawPoint: bool, sawE: bool)

  datatype Step = Stop(typ: TokenType) | Go(size: nat, next: Progress)

  /** Whether the delimiter may start like a word or a number. */
  predicate Tricky(delimiter: string) {
    |delimiter| > 0 && (!SingleByte(delimiter[0]) || IsWord(delimiter[0]) || delimiter[0] == '-' || delimiter[0] == '.')
  }

  /** What the next rune does to a word or number, before the delimiter is considered. */
  function RuneStep(s: string, w: Progress): (r: Step)
    requires |s| > 0
    ensures r.Go? ==> 0 < r.size <= |s|
  {
    if SingleByte(s[0]) then
      if IsSpace(s[0]) then Stop(w.typ)
      else if s[0] == '.' then
        (if w.typ != Numeric || w.sawPoint || w.sawE || !DigitAt(s, 1) then Stop(w.typ)
            else Go(1, w.(sawPoint := true)))
      else if !IsWord(s[0]) then Stop(w.typ)
      else if w.typ == Numeric && !IsDigit(s[0]) then
        if (s[0] == 'e' || s[0] == 'E') && !w.sawE && |s| > 1 && (s[1] == '-' || IsDigit(s[1]))
            then Go(2, w.(sawE := true))
        else if w.sawPoint then Stop(w.typ)
        else Go(1, w.(typ := Word))
      else Go(1, w)
    else if RuneSize(s) > 3 || WideSpace(s) then Stop(w.typ)
    else if w.typ == Numeric then
      if w.sawPoint then Stop(w.typ) else Go(RuneSize(s), w.(typ := Word))
    else Go(RuneSize(s), w)
  }

  function WordStep(s: string, w: Progress, delimiter: string): (r: Step)
    requires |s| > 0
    ensures r.Go? ==> 0 < r.size <= |s|
  {
    var r := RuneStep(s, w);
    if r.Go? && Tricky(delimiter) && HasPrefix(s, delimiter) then Stop(r.next.typ) else r
  }

  function WordEnd(s: string, i: nat, w: Progress, delimiter: string): (r: (nat, TokenType))
    requires i <= |s|
    ensures i <= r.0 <= |s|
    decreases |s| - i
  {
    if i == |s| then (i, w.typ)
    else match WordStep(s[i..], w, delimiter)
      case Stop(typ) => (i, typ)
      case Go(size, next) => WordEnd(s, i + size, next, delimiter)
  }

  // ----- the next token -----

  datatype Token = Token(size: nat, typ: TokenType, malformed: bool)

  /** A delimiter token includes one trailing newline. */
  function DelimiterSize(s: string, delimiter: string): (n: nat)
    requires HasPrefix(s, delimiter)
    ensures |delimiter| <= n <= |s|
  {
    var n := |delimiter|;
    if |s| > n + 1 && s[n] == '\r' && s[n + 1] == '\n' then n + 2
    else if |s| > n && s[n] == '\n' then n + 1
    else n
  }

  function StringToken(s: string): (t: Token)
    requires |s| > 0
    ensures 0 < t.size <= |s|
  {
    var (n, closed) := StringEnd(s, 1, s[0], false);
    Token(n, if s[0] == '`' then Ident else Str, !closed)
  }

  function FillerToken(s: string): (t: Token)
    requires |s| > 0
    ensures t.size <= |s|
  {
    var (n, unclosed) := FillerEnd(s, 0, NoNeedle);
    Token(n, Filler, unclosed)
  }

  function WordToken(s: string, delimiter: string): (t: Token)
    requires |s| > 0
    ensures 0 < t.size <= |s|
  {
    var f := FirstRune(s);
    if f.typ == Symbol then Token(f.size, Symbol, false)
    else
      var (n, typ) := WordEnd(s, f.size, Progress(f.typ, f.sawPoint, false), delimiter);
      Token(n, typ, false)
  }

  /** The token at the start of `s`, outside command mode; `afterFiller` means that the previous token was filler. */
  function NextToken(s: string, afterFiller: bool, delimiter: string): (t: Token)
    requires |s| > 0
    ensures t.size <= |s|
  {
    if !afterFiller && FillerStart(s).IsFiller? then FillerToken(s)
    else if HasPrefix(s, delimiter) then Token(DelimiterSize(s, delimiter), Delimiter, false)
    else if IsQuote(s[0]) then StringToken(s)
    else WordToken(s, delimiter)
  }

  /** Unless the delimiter is empty, every token has at least one byte. */
  lemma TokensAdvance(s: string, afterFiller: bool, delimiter: string)
    requires |s| > 0 && |delimiter| > 0
    ensures NextToken(s, afterFiller, delimiter).size > 0
  {
    if !afterFiller && FillerStart(s).IsFiller? {
      assert s[0..] == s;
    }
  }

  /** Whitespace of extended ASCII, as a byte of its own, is no filler but starts a word. */
  lemma LoneSpaceIsAWord(s: string)
    requires |s| > 0 && s[0] as int in {0x85, 0xA0}
    ensures FillerStart(s).NotFiller? && FirstRune(s) == First(Word, 1, false)
  {
  }

  // ----- spaces inside tokens -----

  /** If there is a space in a token, it is quoted, or the token starts with it. */
  predicate Separate(data: string) {
    ' ' in data ==> data[0] == ' ' || IsQuote(data[0])
  }

  lemma RuneStepSpaceless(s: string, w: Progress)
    requires |s| > 0 && RuneStep(s, w).Go?
    ensures ' ' !in s[..RuneStep(s, w).size]
  {
  }

  lemma FirstRuneSpaceless(s: string)
    requires |s| > 0
    ensures s[0] != ' ' ==> ' ' !in s[..FirstRune(s).size]
    ensures s[0] == ' ' ==> FirstRune(s) == First(Symbol, 1, false)
  {
  }

  lemma DelimiterSpaceless(s: string, delimiter: string)
    requires HasPrefix(s, delimiter) && ' ' !in delimiter
    ensures ' ' !in s[..DelimiterSize(s, delimiter)]
  {
    var n := DelimiterSize(s, delimiter);
    assert forall i :: 0 <= i < |delimiter| ==> s[i] == s[..|delimiter|][i];
  }

  predicate WordLike(typ: TokenType) {
    typ.Word? || typ.Numeric?
  }

  lemma {:induction false} WordEndType(s: string, i: nat, w: Progress, delimiter: string)
    requires i <= |s| && WordLike(w.typ)
    ensures WordLike(WordEnd(s, i, w, delimiter).1)
    decreases |s| - i
  {
    if i < |s| {
      hide WordStep, WordLike;
      WordStepType(s[i..], w, delimiter);
      match WordStep(s[i..], w, delimiter)
      case Stop(_) =>
      case Go(size, next) => WordEndType(s, i + size, next, delimiter);
    }
  }

  lemma WordStepType(s: string, w: Progress, delimiter: string)
    requires |s| > 0 && WordLike(w.typ)
    ensures match WordStep(s, w, delimiter) case Stop(typ) => WordLike(typ) case Go(_, next) => WordLike(next.typ)
  {
  }

  /** Behind filler there is no filler, and filler is no delimiter. */
  lemma FillersApart(s: string, afterFiller: bool, delimiter: string)
    requires |s| > 0
    ensures NextToken(s, afterFiller, delimiter).typ == Filler <==> !afterFiller && FillerStart(s).IsFiller?
  {
    hide StringEnd, WordEnd, FillerEnd, FillerStart, DelimiterSize;
    var f := FirstRune(s);
    if f.typ != Symbol {
      WordEndType(s, f.size, Progress(f.typ, f.sawPoint, false), delimiter);
    }
  }

  // ----- how far ahead a decision looks -----

  lemma RuneSizeLocal(a: string, b: string)
    requires |a| >= 4
    ensures RuneSize(a + b) == RuneSize(a) && WideSpace(a + b) == WideSpace(a)
  {
  }

  /** Whether filler starts is decided by six bytes. */
  lemma FillerStartLocal(a: string, b: string)
    requires |a| >= 6
    ensures FillerStart(a + b) == FillerStart(a)
  {
    RuneSizeLocal(a, b);
    assert (a + b)[2..] == a[2..] + b;
    RuneSizeLocal(a[2..], b);
  }

  lemma RuneStepLocal(a: string, b: string, w: Progress)
    requires |a| >= 4
    ensures RuneStep(a + b, w) == RuneStep(a, w)
  {
    RuneSizeLocal(a, b);
  }

  /** A step over a word or number is decided by four bytes, or as many as the delimiter has. */
  lemma WordStepLocal(a: string, b: string, w: Progress, delimiter: string)
    requires |a| >= 4 && |a| >= |delimiter|
    ensures WordStep(a + b, w, delimiter) == WordStep(a, w, delimiter)
  {
    RuneStepLocal(a, b, w);
    assert (a + b)[..|delimiter|] == a[..|delimiter|];
  }

  lemma FirstRuneLocal(a: string, b: string)
    requires |a| >= 4
    ensures FirstRune(a + b) == FirstRune(a)
  {
    RuneSizeLocal(a, b);
  }

  lemma DelimiterLocal(a: string, b: string, delimiter: string)
    requires |a| >= |delimiter| + 2
    ensures HasPrefix(a + b, delimiter) == HasPrefix(a, delimiter)
    ensures HasPrefix(a, delimiter) ==> DelimiterSize(a + b, delimiter) == DelimiterSize(a, delimiter)
  {
    assert (a + b)[..|delimiter|] == a[..|delimiter|];
  }
}
