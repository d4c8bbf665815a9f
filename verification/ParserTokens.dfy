// Tokens as the parser sees them (internal/tengo/parser.go): names, client-command
// arguments, and lists of tokens.

module ParserTokens {
  import opened Text
  import opened LexSpec
  import opened Utf8
  import opened Statements
  import opened ParsedStatements
  import L = Lexer
  import Q = Quoting

  /** The value of a token and its type. */
  datatype Token = Token(val: string, typ: TokenType, offset: nat)

  /** Panicked stands for a slice of tokens that is out of range. */
  datatype ParseError = NoError | Eof | Malformed | SelectUnsupported | Panicked

  function FromLexer(e: L.LexError): ParseError {
    match e case NoError => NoError case Eof => ParseError.Eof case Malformed => ParseError.Malformed
  }

  // ----- names -----

  predicate AnyQuote(c: char) {
    c == '"' || c == '\''
  }

  /** strings.Replace(s, two, one, -1) for a two-character `two`. */
  function Collapse(s: string, a: char, b: char, one: char): string {
    if |s| >= 2 && s[0] == a && s[1] == b then [one] + Collapse(s[2..], a, b, one)
    else if |s| > 0 then [s[0]] + Collapse(s[1..], a, b, one)
    else ""
  }

  function StripAnyQuote(input: string): string {
    if |input| < 2 || input[0] != input[|input| - 1] then input
    else if input[0] == '`' then Q.StripBackticks(input)
    else if !AnyQuote(input[0]) then input
    else Collapse(Collapse(input[1..|input| - 1], input[0], input[0], input[0]), '\\', input[0], input[0])
  }

  /** getNameFromToken: an empty name means that the token is no name. */
  function NameOf(t: Token): string {
    match t.typ
    case Ident => Q.StripBackticks(t.val)
    case Word => t.val
    case Str => if |t.val| > 0 && t.val[0] == '"' then StripAnyQuote(t.val) else ""
    case _ => ""
  }

  // ----- unquoting keeps a text valid -----

  lemma AsciiUnfold(c: char, s: string)
    requires SingleByte(c)
    ensures ValidUtf8([c] + s) == ValidUtf8(s)
  {
    assert ([c] + s)[1..] == s;
  }

  lemma {:induction false} CollapseRune(r: string, s: string, a: char, b: char, one: char)
    requires forall i :: 0 <= i < |r| ==> !SingleByte(r[i])
    requires SingleByte(a)
    ensures Collapse(r + s, a, b, one) == r + Collapse(s, a, b, one)
  {
    if |r| == 0 {
      assert r + s == s;
    } else {
      assert (r + s)[1..] == r[1..] + s;
      CollapseRune(r[1..], s, a, b, one);
    }
  }

  lemma {:induction false} CollapseValid(s: string, a: char, b: char, one: char)
    requires ValidUtf8(s) && SingleByte(a) && SingleByte(b) && SingleByte(one)
    ensures ValidUtf8(Collapse(s, a, b, one))
    decreases |s|
  {
    if |s| > 0 {
      hide RuneSize, ValidUtf8;
      RuneBytes(s);
      ValidUnfold(s);
      if |s| >= 2 && s[0] == a && s[1] == b {
        assert s == [a] + ([b] + s[2..]);
        AsciiUnfold(a, [b] + s[2..]);
        AsciiUnfold(b, s[2..]);
        CollapseValid(s[2..], a, b, one);
        AsciiUnfold(one, Collapse(s[2..], a, b, one));
      } else if SingleByte(s[0]) {
        CollapseValid(s[1..], a, b, one);
        AsciiUnfold(s[0], Collapse(s[1..], a, b, one));
      } else {
        CollapseValid(s[RuneSize(s)..], a, b, one);
        CollapseWide(s, a, b, one);
      }
    }
  }

  /** A rune of several bytes is kept as it is. */
  lemma CollapseWide(s: string, a: char, b: char, one: char)
    requires |s| > 0 && !SingleByte(s[0]) && RuneSize(s) > 1 && SingleByte(a)
    requires ValidUtf8(Collapse(s[RuneSize(s)..], a, b, one))
    ensures ValidUtf8(Collapse(s, a, b, one))
  {
    hide RuneSize, ValidUtf8, Collapse;
    var k := RuneSize(s);
    var r := s[..k];
    assert s == r + s[k..];
    RuneBytes(s);
    CollapseRune(r, s[k..], a, b, one);
    RuneOfPrefix(s, k);
    ValidUnfold(r);
    NothingValid();
    assert r[k..] == "";
    JoinValid(r, Collapse(s[k..], a, b, one));
  }

  lemma NothingValid()
    ensures ValidUtf8("")
  {
  }

  lemma {:induction false} UndoubleIsCollapse(s: string)
    ensures Q.Undouble(s) == Collapse(s, '`', '`', '`')
    decreases |s|
  {
    if |s| >= 2 && s[0] == '`' && s[1] == '`' {
      UndoubleIsCollapse(s[2..]);
    } else if |s| > 0 {
      UndoubleIsCollapse(s[1..]);
    }
  }

  /** What stands between two bytes below 0x80. */
  lemma InnerValid(s: string)
    requires ValidUtf8(s) && |s| >= 2 && SingleByte(s[0]) && SingleByte(s[|s| - 1])
    ensures ValidUtf8(s[1..|s| - 1])
  {
    AfterAscii(s, 1);
    CutValid(s, 1);
    CutValid(s[1..], |s| - 2);
    assert s[1..][..|s| - 2] == s[1..|s| - 1];
  }

  lemma StripBackticksValid(s: string)
    requires ValidUtf8(s)
    ensures ValidUtf8(Q.StripBackticks(s))
  {
    hide ValidUtf8, Collapse, Q.Undouble;
    if |s| >= 2 && s[0] == '`' && s[|s| - 1] == '`' {
      InnerValid(s);
      UndoubleIsCollapse(s[1..|s| - 1]);
      CollapseValid(s[1..|s| - 1], '`', '`', '`');
    }
  }

  lemma StripAnyQuoteValid(s: string)
    requires ValidUtf8(s)
    ensures ValidUtf8(StripAnyQuote(s))
  {
    hide ValidUtf8, Collapse, Q.Undouble;
    StripBackticksValid(s);
    if |s| >= 2 && s[0] == s[|s| - 1] && AnyQuote(s[0]) {
      var c, inner := s[0], s[1..|s| - 1];
      InnerValid(s);
      CollapseValid(inner, c, c, c);
      CollapseValid(Collapse(inner, c, c, c), '\\', c, c);
    }
  }

  lemma UnquoteValid(t: Token, c: ClientCommand)
    requires ValidUtf8(t.val)
    ensures ValidUtf8(c.Unquote(t))
  {
    hide ValidUtf8, StripAnyQuote;
    StripBackticksValid(t.val);
    StripAnyQuoteValid(t.val);
  }

  lemma ArgumentValid(arg: string, t: Token, c: ClientCommand)
    ensures ValidUtf8(arg) && ValidUtf8(t.val) ==> ValidUtf8(arg + c.Unquote(t))
  {
    if ValidUtf8(arg) && ValidUtf8(t.val) {
      hide ValidUtf8, ClientCommand.Unquote;
      UnquoteValid(t, c);
      JoinValid(arg, c.Unquote(t));
    }
  }

  lemma NulIsValid()
    ensures ValidUtf8(NO_DELIMITER)
  {
    assert NO_DELIMITER[1..] == "";
  }

  // ----- what a list of scanned tokens amounts to -----

  /** The text of the tokens. */
  function Vals(tokens: seq<Token>): string {
    if |tokens| == 0 then "" else Vals(tokens[..|tokens| - 1]) + tokens[|tokens| - 1].val
  }

  lemma NoVals()
    ensures Vals([]) == ""
  {
  }

  lemma ValsMore(tokens: seq<Token>, t: Token)
    ensures Vals(tokens + [t]) == Vals(tokens) + t.val
  {
    assert (tokens + [t])[..|tokens|] == tokens;
  }

  /** Only the last token may be a delimiter. */
  predicate UpToDelimiter(tokens: seq<Token>) {
    forall i :: 0 <= i < |tokens| - 1 ==> tokens[i].typ != Delimiter
  }

  predicate EndsInDelimiter(tokens: seq<Token>) {
    |tokens| > 0 && tokens[|tokens| - 1].typ == Delimiter
  }

  /** The argument of a client command so far, and whether the rest of the line is ignored. */
  datatype Argument = Argument(text: string, over: bool)

  /** The two client commands: a database name may be wrapped in backticks, a delimiter in any quotes. */
  datatype ClientCommand = UseArg | DelimiterArg {
    predicate Quoted(t: Token) {
      t.typ == Ident || (DelimiterArg? && t.typ == Str)
    }

    function Unquote(t: Token): string {
      if !Quoted(t) then t.val else if UseArg? then Q.StripBackticks(t.val) else StripAnyQuote(t.val)
    }
  }

  /** One more token: an argument ends at whitespace behind it, or at its closing quote. */
  function Extend(a: Argument, t: Token, c: ClientCommand): Argument {
    if t.typ == Delimiter then a
    else if t.typ == Filler then Argument(a.text, |a.text| > 0)
    else if a.over then a
    else Argument(a.text + c.Unquote(t), c.Quoted(t))
  }

  function ArgumentOf(tokens: seq<Token>, c: ClientCommand): Argument {
    if |tokens| == 0 then Argument("", false)
        else Extend(ArgumentOf(tokens[..|tokens| - 1], c), tokens[|tokens| - 1], c)
  }

  lemma NoArgument(c: ClientCommand)
    ensures ArgumentOf([], c) == Argument("", false)
  {
  }

  lemma ArgumentMore(tokens: seq<Token>, t: Token, c: ClientCommand)
    ensures ArgumentOf(tokens + [t], c) == Extend(ArgumentOf(tokens, c), t, c)
  {
    assert (tokens + [t])[..|tokens|] == tokens;
  }

  predicate IsBegin(t: Token) {
    t.typ == Word && ToLower(t.val) == "begin"
  }

  predicate HasBegin(tokens: seq<Token>) {
    exists i :: 0 <= i < |tokens| && IsBegin(tokens[i])
  }

  lemma BeginMore(tokens: seq<Token>, t: Token)
    ensures HasBegin(tokens + [t]) == (HasBegin(tokens) || IsBegin(t))
    ensures forall i :: 0 <= i <= |tokens| ==> (tokens + [t])[..i] == tokens[..i]
    ensures IsBegin(t) ==> t.typ != Delimiter
  {
    if HasBegin(tokens) {
      var i :| 0 <= i < |tokens| && IsBegin(tokens[i]);
      assert IsBegin((tokens + [t])[i]);
    } else if IsBegin(t) {
      assert IsBegin((tokens + [t])[|tokens|]);
    }
  }

  /** The statement with the object name that the tokens start with, qualified by a schema name or not. */
  function WithName(s: Stmt, tokens: seq<Token>, b: string): Stmt {
    if |tokens| >= 3 && tokens[1].typ == Symbol && HasPrefix(tokens[1].val, ".") then
      if NameOf(tokens[0]) != "" && NameOf(tokens[2]) != ""
      then s.(qualifier := NameOf(tokens[0]), objectName := NameOf(tokens[2]),
          nameClause := Between(b, tokens[0], tokens[2])) else s
    else if |tokens| >= 1 && NameOf(tokens[0]) != ""
        then s.(objectName := NameOf(tokens[0]), nameClause := Between(b, tokens[0], tokens[0]))
    else s
  }

  /** Qualifier and name of the object; an empty name if the tokens give none. */
  function NameIn(tokens: seq<Token>): (string, string) {
    if |tokens| >= 3 && tokens[1].typ == Symbol && HasPrefix(tokens[1].val, ".") then
      if NameOf(tokens[0]) != "" && NameOf(tokens[2]) != "" then (NameOf(tokens[0]), NameOf(tokens[2])) else ("", "")
    else if |tokens| >= 1 then ("", NameOf(tokens[0]))
    else ("", "")
  }

  /** The number of tokens that the name of the object takes. */
  function NameSize(tokens: seq<Token>): (n: nat)
    ensures n <= |tokens|
  {
    if |tokens| >= 3 && tokens[1].typ == Symbol && HasPrefix(tokens[1].val, ".") then
      if NameOf(tokens[0]) != "" && NameOf(tokens[2]) != "" then 3 else 0
    else if |tokens| >= 1 && NameOf(tokens[0]) != "" then 1
    else 0
  }

  /** The text from the start of one token to the end of another. */
  function Between(b: string, first: Token, last: Token): string {
    if first.offset <= last.offset + |last.val| <= |b| then b[first.offset..last.offset + |last.val|] else ""
  }

  // ----- matching token sequences -----

  predicate Matches(tokens: seq<Token>, want: seq<string>) {
    |want| <= |tokens| && forall i :: 0 <= i < |want| ==> ToLower(tokens[i].val) == want[i]
  }

  /** The words with a space behind each of them. */
  function Spaced(words: seq<string>): string {
    if |words| == 0 then "" else words[0] + " " + Spaced(words[1..])
  }

  function Lowered(tokens: seq<Token>): (r: seq<string>)
    ensures |r| == |tokens| && forall i :: 0 <= i < |r| ==> r[i] == ToLower(tokens[i].val)
  {
    seq(|tokens|, i requires 0 <= i < |tokens| => ToLower(tokens[i].val))
  }

  /** How matchNextSequence compares: not token by token, but the text of the tokens. */
  predicate JoinsTo(tokens: seq<Token>, want: seq<string>) {
    HasPrefix(Spaced(Lowered(tokens)), Spaced(want))
  }

  /** The length of the longest of the wanted sequences whose text the tokens start with, or 0. It may exceed
      the number of tokens. */
  function LongestJoin(tokens: seq<Token>, wants: seq<seq<string>>): nat {
    if |wants| == 0 then 0
    else
      var rest := LongestJoin(tokens, wants[1..]);
      if JoinsTo(tokens, wants[0]) && |wants[0]| > rest then |wants[0]| else rest
  }

  /** `matched` is one of the wanted sequences. */
  predicate IsOneOf(matched: seq<Token>, wants: seq<seq<string>>) {
    exists i :: 0 <= i < |wants| && |wants[i]| == |matched| && JoinsTo(matched, wants[i])
  }

  /** What the first `n` of the tokens look like that matchNextSequence looks at. */
  function Window(tokens: seq<Token>, n: nat): seq<Token> {
    if |tokens| > n then tokens[..n] else tokens
  }

  function MaxLength(wants: seq<seq<string>>): nat {
    if |wants| == 0 then 0
    else
      var rest := MaxLength(wants[1..]);
      if |wants[0]| > rest then |wants[0]| else rest
  }

  /** A wanted word: no space, quote or standard delimiter in it. */
  predicate IsWanted(word: string) {
    word != "" && ' ' !in word && !IsQuote(word[0]) && word[0] != ';'
  }

  predicate Wordy(wants: seq<seq<string>>) {
    forall i, j :: 0 <= i < |wants| && 0 <= j < |wants[i]| ==> IsWanted(wants[i][j])
  }

  // ----- joined words and single words -----

  lemma LowerKeeps(s: string)
    ensures ' ' in ToLower(s) <==> ' ' in s
    ensures |s| > 0 ==> (ToLower(s)[0] == ' ' <==> s[0] == ' ')
    ensures |s| > 0 ==> (IsQuote(ToLower(s)[0]) <==> IsQuote(s[0]))
    ensures |s| > 0 ==> (ToLower(s)[0] == ';' <==> s[0] == ';')
  {
    var r := ToLower(s);
    assert forall i :: 0 <= i < |s| ==> (r[i] == ' ' <==> s[i] == ' ');
    if ' ' in s {
      var i :| 0 <= i < |s| && s[i] == ' ';
      assert r[i] == ' ';
    }
  }

  /** Words with a space behind them are a prefix code. */
  lemma FirstWord(a: string, x: string, word: string, y: string)
    requires Separate(a) && IsWanted(word)
    ensures HasPrefix(a + " " + x, word + " " + y) <==> a == word && HasPrefix(x, y)
  {
    var s, p := a + " " + x, word + " " + y;
    if a == word {
      assert s[..|word| + 1] == p[..|word| + 1] == word + " ";
      assert s[|word| + 1..] == x && p[|word| + 1..] == y;
      assert |p| <= |s| ==> s[..|p|] == word + " " + x[..|y|];
    } else if HasPrefix(s, p) {
      LongerWord(a, x, word, y);
    }
  }

  lemma LongerWord(a: string, x: string, word: string, y: string)
    requires ' ' !in word && word != "" && HasPrefix(a + " " + x, word + " " + y)
    ensures a != word ==> |a| > |word| && a[0] == word[0] && a[|word|] == ' '
  {
    var s, p := a + " " + x, word + " " + y;
    assert forall i :: 0 <= i < |p| ==> s[i] == s[..|p|][i];
    assert s[|a|] == ' ' && p[|word|] == ' ';
    assert forall i :: 0 <= i < |word| ==> s[i] == word[i];
    assert forall i :: 0 <= i < |a| ==> s[i] == a[i];
    assert |a| == |word| ==> a == word;
  }

  /** The comparison of texts is one of tokens, if no token has an unquoted space in it. */
  lemma {:induction false} JoinsIsMatches(tokens: seq<Token>, want: seq<string>)
    requires forall i :: 0 <= i < |tokens| ==> Separate(tokens[i].val)
    requires forall i :: 0 <= i < |want| ==> IsWanted(want[i])
    ensures JoinsTo(tokens, want) <==> Matches(tokens, want)
    decreases |want|
  {
    hide ToLower, Separate, IsWanted;
    if |want| > 0 {
      if |tokens| == 0 {
        assert |Spaced(want)| > 0;
      } else {
        var a, rest := ToLower(tokens[0].val), tokens[1..];
        assert Lowered(tokens)[1..] == Lowered(rest);
        LowerSeparate(tokens[0].val);
        FirstWord(a, Spaced(Lowered(rest)), want[0], Spaced(want[1..]));
        JoinsIsMatches(rest, want[1..]);
        MatchesUnfold(tokens, want);
      }
    }
  }

  lemma LowerSeparate(s: string)
    ensures Separate(ToLower(s)) == Separate(s)
  {
    hide ToLower;
    LowerKeeps(s);
  }

  lemma MatchesUnfold(tokens: seq<Token>, want: seq<string>)
    requires |tokens| > 0 && |want| > 0
    ensures Matches(tokens, want) <==> ToLower(tokens[0].val) == want[0] && Matches(tokens[1..], want[1..])
  {
    hide ToLower;
    if Matches(tokens[1..], want[1..]) && ToLower(tokens[0].val) == want[0] {
      forall i | 0 <= i < |want| ensures ToLower(tokens[i].val) == want[i] {
        if i > 0 {
          assert tokens[i] == tokens[1..][i - 1] && want[i] == want[1..][i - 1];
        }
      }
    }
  }

  function Spaces(s: string): nat {
    if |s| == 0 then 0 else Spaces(s[..|s| - 1]) + if s[|s| - 1] == ' ' then 1 else 0
  }

  lemma {:induction false} SpacesConcat(a: string, b: string)
    ensures Spaces(a + b) == Spaces(a) + Spaces(b)
  {
    if |b| == 0 {
      assert a + b == a;
    } else {
      assert (a + b)[..|a + b| - 1] == a + b[..|b| - 1];
      SpacesConcat(a, b[..|b| - 1]);
    }
  }

  lemma {:induction false} NoSpaces(s: string)
    requires ' ' !in s
    ensures Spaces(s) == 0
  {
    if |s| > 0 {
      NoSpaces(s[..|s| - 1]);
    }
  }

  lemma {:induction false} SpacedConcat(a: seq<string>, b: seq<string>)
    ensures Spaced(a + b) == Spaced(a) + Spaced(b)
  {
    if |a| == 0 {
      assert a + b == b;
    } else {
      assert (a + b)[1..] == a[1..] + b;
      SpacedConcat(a[1..], b);
    }
  }

  lemma {:induction false} SpacesOf(words: seq<string>)
    ensures Spaces(Spaced(words)) >= |words|
    ensures (forall i :: 0 <= i < |words| ==> ' ' !in words[i]) ==> Spaces(Spaced(words)) == |words|
    ensures |words| > 0 ==> Spaced(words) != "" && Spaced(words)[|Spaced(words)| - 1] == ' '
  {
    if |words| > 0 {
      SpacesOf(words[1..]);
      SpacesConcat(words[0] + " ", Spaced(words[1..]));
      SpacesConcat(words[0], " ");
      assert Spaces(" ") == 1 by { assert " "[..0] == ""; }
      if ' ' !in words[0] {
        NoSpaces(words[0]);
      }
      if |words| == 1 {
        assert words[1..] == [] && Spaced(words) == words[0] + " ";
      }
    }
  }

  /** As many tokens as there are wanted words cover their text. */
  lemma JoinsCovered(tokens: seq<Token>, want: seq<string>)
    requires JoinsTo(tokens, want) && |want| <= |tokens| && forall i :: 0 <= i < |want| ==> ' ' !in want[i]
    ensures JoinsTo(tokens[..|want|], want)
  {
    hide ToLower, Spaced, Spaces;
    var n := |want|;
    var a, b := Lowered(tokens)[..n], Lowered(tokens)[n..];
    assert Lowered(tokens) == a + b && Lowered(tokens[..n]) == a;
    SpacedConcat(a, b);
    SpacesOf(a);
    SpacesOf(want);
    var p, q := Spaced(want), Spaced(a);
    if |q| < |p| {
      var x := p[|q|..];
      assert p == q + x;
      SpacesConcat(q, x);
      LastIsSpace(x);
      assert false;
    }
    assert q[..|p|] == p;
  }

  lemma LastIsSpace(x: string)
    requires x != "" && x[|x| - 1] == ' '
    ensures Spaces(x) > 0
  {
  }

  /** What is matched is one of the wanted sequences. */
  lemma {:induction false} LongestIsOneOf(tokens: seq<Token>, wants: seq<seq<string>>)
    requires Wordy(wants)
    ensures var n := LongestJoin(tokens, wants); 0 < n <= |tokens| ==> IsOneOf(tokens[..n], wants)
  {
    hide JoinsTo;
    if |wants| > 0 {
      var n := LongestJoin(tokens, wants);
      var rest := LongestJoin(tokens, wants[1..]);
      assert Wordy(wants[1..]) by { WordyTail(wants); }
      LongestIsOneOf(tokens, wants[1..]);
      if 0 < n <= |tokens| {
        if JoinsTo(tokens, wants[0]) && |wants[0]| > rest {
          WantedWords(wants, 0);
          JoinsCovered(tokens, wants[0]);
        } else {
          OneOfTail(tokens[..n], wants);
        }
      }
    }
  }

  lemma {:induction false} LongestBound(tokens: seq<Token>, wants: seq<seq<string>>)
    ensures LongestJoin(tokens, wants) <= MaxLength(wants)
  {
    hide JoinsTo;
    if |wants| > 0 {
      LongestBound(tokens, wants[1..]);
    }
  }

  lemma WordyTail(wants: seq<seq<string>>)
    requires Wordy(wants) && |wants| > 0
    ensures Wordy(wants[1..])
  {
    hide IsWanted;
    assert forall i :: 0 <= i < |wants| - 1 ==> wants[1..][i] == wants[i + 1];
  }

  lemma WantedWords(wants: seq<seq<string>>, i: nat)
    requires Wordy(wants) && i < |wants|
    ensures forall j :: 0 <= j < |wants[i]| ==> IsWanted(wants[i][j]) && ' ' !in wants[i][j]
  {
  }

  lemma OneOfTail(matched: seq<Token>, wants: seq<seq<string>>)
    requires |wants| > 0 && IsOneOf(matched, wants[1..])
    ensures IsOneOf(matched, wants)
  {
    hide JoinsTo;
    var i :| 0 <= i < |wants| - 1 && |wants[1..][i]| == |matched| && JoinsTo(matched, wants[1..][i]);
    assert wants[1..][i] == wants[i + 1];
  }

  /** Without unquoted spaces in tokens, nothing is matched that is longer than the list of tokens, and no
      standard delimiter. */
  lemma {:induction false} MatchedWords(tokens: seq<Token>, wants: seq<seq<string>>)
    requires Wordy(wants) && forall i :: 0 <= i < |tokens| ==> Separate(tokens[i].val)
    ensures LongestJoin(tokens, wants) <= |tokens|
    ensures forall i :: 0 <= i < LongestJoin(tokens, wants) ==> |tokens[i].val| > 0 && tokens[i].val[0] != ';'
  {
    if |wants| > 0 {
      hide JoinsTo, ToLower, Separate, IsWanted;
      assert Wordy(wants[1..]) by { WordyTail(wants); }
      MatchedWords(tokens, wants[1..]);
      WantedWords(wants, 0);
      if JoinsTo(tokens, wants[0]) {
        JoinsIsMatches(tokens, wants[0]);
        forall i | 0 <= i < |wants[0]| ensures |tokens[i].val| > 0 && tokens[i].val[0] != ';' {
          WantedValue(tokens[i].val, wants[0][i]);
        }
      }
    }
  }

  lemma WantedValue(val: string, word: string)
    requires ToLower(val) == word && IsWanted(word)
    ensures |val| > 0 && val[0] != ';'
  {
    LowerKeeps(val);
  }

  /** A delimiter with a space in it can complete a wanted sequence with too few tokens: matchNextSequence then
      slices the list of tokens behind its end. The lexer does return that delimiter as one token. */
  lemma JoinedDelimiterPanics(tokens: seq<Token>)
    requires |tokens| == 2 && tokens[0].val == "if" && tokens[1].val == "not exists"
    ensures LongestJoin(tokens, IF_NOT_EXISTS) == 3 > |tokens| && !Separate(tokens[1].val)
    ensures NextToken("not exists", true, "not exists") == LexSpec.Token(|tokens[1].val|, Delimiter, false)
  {
    hide ToLower, HasPrefix, Spaced;
    NoUpper("if");
    NoUpper("not exists");
    TwoSpaced(Lowered(tokens));
    assert Lowered(tokens) == ["if", "not exists"];
    ThreeSpaced(IF_NOT_EXISTS[0]);
    assert "if" + " " + "not exists" + " " == "if" + " " + "not" + " " + "exists" + " ";
    SamePrefix(Spaced(IF_NOT_EXISTS[0]));
    assert IF_NOT_EXISTS[1..] == [];
    assert "not exists"[3] == ' ';
    SamePrefix("not exists");
  }

  lemma TwoSpaced(words: seq<string>)
    requires |words| == 2
    ensures Spaced(words) == words[0] + " " + words[1] + " "
  {
    assert words[1..][1..] == [];
    assert Spaced(words[1..]) == words[1] + " " + "";
  }

  lemma ThreeSpaced(words: seq<string>)
    requires |words| == 3
    ensures Spaced(words) == words[0] + " " + words[1] + " " + words[2] + " "
  {
    TwoSpaced(words[1..]);
  }

  lemma SamePrefix(s: string)
    ensures HasPrefix(s, s)
  {
  }

  lemma NoUpper(s: string)
    requires forall i :: 0 <= i < |s| ==> !('A' <= s[i] <= 'Z')
    ensures ToLower(s) == s
  {
  }

  lemma {:induction false} SliceIn(s: string, i: nat, j: nat)
    requires i <= j <= |s|
    ensures Contains(s, s[i..j])
  {
    if i > 0 {
      assert s[1..][i - 1..j - 1] == s[i..j];
      SliceIn(s[1..], i - 1, j - 1);
    } else {
      assert s[..|s[i..j]|] == s[i..j];
    }
  }

  predicate InText(t: Token, b: string) {
    t.offset + |t.val| <= |b| && b[t.offset..t.offset + |t.val|] == t.val
  }

  /** The tokens stand in the text `b` one behind the other. */
  predicate Listed(tokens: seq<Token>, b: string) {
    && (forall i :: 0 <= i < |tokens| ==> InText(tokens[i], b))
    && (forall i, j :: 0 <= i < j < |tokens| ==> tokens[i].offset + |tokens[i].val| <= tokens[j].offset)
  }

  lemma Bounds(tokens: seq<Token>, b: string, i: nat, j: nat)
    requires Listed(tokens, b) && i <= j < |tokens|
    ensures tokens[i].offset <= tokens[j].offset + |tokens[j].val| <= |b|
  {
    assert InText(tokens[j], b);
    hide InText;
  }

  lemma Suffixes(tokens: seq<Token>, b: string)
    requires Listed(tokens, b)
    ensures Listed([], b) && forall k :: 0 <= k <= |tokens| ==> Listed(tokens[k..], b)
  {
  }

  lemma ListedLonger(tokens: seq<Token>, b: string, more: string)
    requires Listed(tokens, b)
    ensures Listed(tokens, b + more)
  {
    forall i | 0 <= i < |tokens| ensures InText(tokens[i], b + more) {
      var t := tokens[i];
      assert (b + more)[t.offset..t.offset + |t.val|] == b[t.offset..t.offset + |t.val|];
    }
  }

  lemma ListedMore(tokens: seq<Token>, b: string, t: Token)
    requires Listed(tokens, b) && t.offset == |b|
    ensures Listed(tokens + [t], b + t.val)
  {
    ListedLonger(tokens, b, t.val);
    assert (b + t.val)[|b|..] == t.val;
    forall i | 0 <= i < |tokens| ensures tokens[i].offset + |tokens[i].val| <= t.offset {
      assert InText(tokens[i], b);
    }
  }

  /** What the first token of a statement says about it. */
  datatype Opening = FillerOrDelimiter | CreateWord | UseWord | DelimiterWord | Other

  function Keyword(t: Token): Opening {
    if t.typ == Filler || t.typ == Delimiter then FillerOrDelimiter
    else if t.typ != Word then Other
    else
      var word := ToLower(t.val);
      if word == "create" then CreateWord else if word == "use" then UseWord else if word == "delimiter"
          then DelimiterWord else Other
  }

  // ----- the words of CREATE statements -----

  const IF_NOT_EXISTS := [["if", "not", "exists"]]
  const ROUTINE := [["procedure"], ["function"]]
  const DEFINER := [["definer", "="]]
  const CURRENT_USER := [["current_user"], ["current_user", "(", ")"]]

  lemma KnownWords()
    ensures Wordy(IF_NOT_EXISTS) && Wordy(ROUTINE) && Wordy(DEFINER) && Wordy(CURRENT_USER)
  {
  }

  /** An optional IF NOT EXISTS. */
  predicate IsOption(matched: seq<Token>) {
    matched == [] || (|matched| == 3 && JoinsTo(matched, IF_NOT_EXISTS[0]))
  }

  lemma OptionOrNothing(matched: seq<Token>)
    requires matched != [] ==> IsOneOf(matched, IF_NOT_EXISTS)
    ensures IsOption(matched)
  {
    hide JoinsTo;
  }

  predicate IsRoutine(t: Token) {
    ToLower(t.val) in {"procedure", "function"}
  }

  lemma RoutineMatches(tokens: seq<Token>)
    requires |tokens| > 0 && IsRoutine(tokens[0])
    ensures LongestJoin(Window(tokens, MaxLength(ROUTINE)), ROUTINE) == 1
  {
    hide ToLower, JoinsTo;
    var words := ROUTINE[1..];
    assert words == [["function"]] && words[1..] == [];
    var window := Window(tokens, MaxLength(ROUTINE));
    assert MaxLength(words[1..]) == 0 && MaxLength(words) == 1 && MaxLength(ROUTINE) == 1;
    assert LongestJoin(window, words[1..]) == 0 && |words[0]| == 1 && |ROUTINE[0]| == 1;
    OneWordJoins(window, ToLower(tokens[0].val));
  }

  lemma OneWordJoins(tokens: seq<Token>, word: string)
    requires |tokens| > 0 && ToLower(tokens[0].val) == word
    ensures JoinsTo(tokens, [word])
  {
    hide ToLower;
    assert [word][1..] == [] && Spaced([word]) == word + " " + "" == word + " ";
    var s := Spaced(Lowered(tokens));
    assert s == word + " " + Spaced(Lowered(tokens)[1..]);
    assert s[..|word| + 1] == word + " ";
  }

  lemma NameOnly(s: Stmt, tokens: seq<Token>, b: string)
    requires s.objectName == s.qualifier == ""
    ensures (WithName(s, tokens, b).qualifier, WithName(s, tokens, b).objectName) == NameIn(tokens)
  {
    hide NameOf, HasPrefix;
  }

  /** DEFINER = CURRENT_USER, with or without parentheses, or DEFINER = user@host. */
  predicate DefinesUser(clause: seq<Token>) {
    && |clause| >= 3 && JoinsTo(clause[..2], DEFINER[0])
    && (IsOneOf(clause[2..], CURRENT_USER) || (|clause| == 5 && clause[3].typ == Symbol && clause[3].val == "@"))
  }

  lemma UserMatched(keyword: seq<Token>, user: seq<Token>)
    requires |keyword| == 2 && IsOneOf(keyword, DEFINER) && (user != [] ==> IsOneOf(user, CURRENT_USER))
    ensures JoinsTo(keyword, DEFINER[0]) && (|user| > 0 ==> DefinesUser(keyword + user))
  {
    hide JoinsTo;
    assert (keyword + user)[..2] == keyword && (keyword + user)[2..] == user;
  }

  lemma UserAtHost(keyword: seq<Token>, rest: seq<Token>)
    requires |keyword| == 2 && JoinsTo(keyword, DEFINER[0])
    requires |rest| >= 4 && rest[1].typ == Symbol && rest[1].val == "@"
    ensures DefinesUser(keyword + rest[..3])
  {
    hide JoinsTo;
    assert (keyword + rest[..3])[..2] == keyword;
  }

}
