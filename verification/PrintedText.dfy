// The bytes that the SQL printer writes (internal/applier/printer.go), and a client that
// reads them again, as one text.

module PrintedText {
  import opened Wrappers
  import opened Text
  import opened LexSpec
  import Q = Quoting
  import F = SqlFile
  import E = SqlFileEdits
  import opened Printer

  // ----- what is written -----

  const COMMENT := "-- instance: "
  const SHELL := "\\!"

  /** fmt.Print and fmt.Printf. */
  function Render(line: Line): string {
    match line
    case SetDelimiter(d) => "DELIMITER " + d + "\n"
    case InstanceComment(i) => COMMENT + i + "\n"
    case Use(s) => "USE " + Q.EscapeIdentifier(s) + ";\n"
    case Body(text, terminator) => text + terminator + "\n"
  }

  function RenderAll(lines: seq<Line>): string {
    if |lines| == 0 then "" else Render(lines[0]) + RenderAll(lines[1..])
  }

  // ----- what is read -----

  /** Where the first line of `s` ends. */
  function LineEnd(s: string): (n: nat)
    ensures n <= |s| && '\n' !in s[..n] && (n < |s| ==> s[n] == '\n')
  {
    if |s| == 0 || s[0] == '\n' then 0 else 1 + LineEnd(s[1..])
  }

  /** Where the delimiter stands for the first time, outside quotes and comments; the end of `s` if it does not. */
  function StatementEnd(s: string, afterFiller: bool, d: string): (n: nat)
    requires |d| > 0
    ensures n <= |s| && (n < |s| ==> HasPrefix(s[n..], d))
    decreases |s|
  {
    if |s| == 0 then 0
    else
      TokensAdvance(s, afterFiller, d);
      var t := NextToken(s, afterFiller, d);
      if t.typ == Delimiter then DelimiterTyped(s, afterFiller, d); 0
      else if t.malformed then |s|
      else t.size + StatementEnd(s[t.size..], t.typ == Filler, d)
  }

  lemma DelimiterTyped(s: string, afterFiller: bool, d: string)
    requires |s| > 0 && NextToken(s, afterFiller, d).typ == Delimiter
    ensures HasPrefix(s, d)
  {
    hide WordEnd, FirstRune, FillerStart;
    var f := FirstRune(s);
    FirstTyped(s);
    if f.typ != Symbol {
      WordEndType(s, f.size, Progress(f.typ, f.sawPoint, false), d);
    }
  }

  lemma FirstTyped(s: string)
    requires |s| > 0
    ensures FirstRune(s).typ == Symbol || WordLike(FirstRune(s).typ)
  {
  }

  /** The word that `s` starts with, in lower case. */
  function Keyword(s: string, d: string): string
    requires |s| > 0
  {
    var t := NextToken(s, false, d);
    if t.typ == Word then ToLower(s[..t.size]) else ""
  }

  /** A line, and the number of bytes it takes. */
  datatype Chunk = Chunk(line: Line, size: nat)

  function UpToLineEnd(line: Line, s: string, n: nat): Chunk {
    Chunk(line, if n < |s| then n + 1 else |s|)
  }

  function ReadUse(s: string, d: string): (c: Chunk)
    requires |s| >= 3 && |d| > 0
    ensures 0 < c.size <= |s|
  {
    var rest := F.SkipBlanks(s[3..]);
    if |rest| > 0 && rest[0] == '`' && |rest| <= |s| then
      var size := StringToken(rest).size;
      var behind := rest[size..];
      Chunk(Use(Q.StripBackticks(rest[..size])),
            |s| - |behind| + if HasPrefix(behind, d) then DelimiterSize(behind, d) else 0)
    else UpToLineEnd(Use(F.Argument(s[..LineEnd(s)])), s, LineEnd(s))
  }

  /** The next thing that an interactive client makes of its input: a comment that names an instance, a shell or
      client command, or a statement up to its delimiter. */
  function ReadLine(s: string, d: string): (c: Chunk)
    requires |s| > 0 && |d| > 0
    ensures 0 < c.size <= |s|
  {
    if HasPrefix(s, COMMENT) then
      var n := LineEnd(s[|COMMENT|..]);
      UpToLineEnd(InstanceComment(s[|COMMENT|..][..n]), s, |COMMENT| + n)
    else if HasPrefix(s, SHELL) then UpToLineEnd(Body(s[..LineEnd(s)], ""), s, LineEnd(s))
    else
      var word := Keyword(s, d);
      if word == "delimiter" then UpToLineEnd(SetDelimiter(F.Argument(s[..LineEnd(s)])), s, LineEnd(s))
      else if word == "use" && |s| >= 3 then ReadUse(s, d)
      else
        var n := StatementEnd(s, false, d);
        if n < |s| then Chunk(Body(s[..n], d), n + DelimiterSize(s[n..], d)) else Chunk(Body(s, ""), |s|)
  }

  function DelimiterBehind(line: Line, d: string): string {
    if line.SetDelimiter? && line.delimiter != "" then line.delimiter else d
  }

  /** The whole input; `d` is the delimiter in force at its start. */
  function ReadText(s: string, d: string): seq<Line>
    requires |d| > 0
    decreases |s|
  {
    if |s| == 0 then []
    else
      var c := ReadLine(s, d);
      [c.line] + ReadText(s[c.size..], DelimiterBehind(c.line, d))
  }

  // ----- a token ends where it ends, whatever follows the delimiter -----

  /** The delimiters that the printer writes. */
  predicate Printed(d: string) {
    d == ";" || d == "//"
  }

  lemma RuneHere(x: string, d: string, y: string)
    requires Printed(d) && |x| > 0 && !SingleByte(x[0])
    ensures RuneSize(x + d + y) == RuneSize(x + d) <= |x|
    ensures WideSpace(x + d + y) == WideSpace(x + d)
    ensures ' ' !in (x + d)[..RuneSize(x + d)]
  {
    var a := x + d;
    var s := a + y;
    assert forall i :: 0 <= i < |a| ==> s[i] == a[i];
    assert a[|x|] == d[0];
  }

  lemma SpaceHere(x: string, d: string, y: string)
    requires Printed(d)
    ensures StartsWithSpace(x + d + y) == StartsWithSpace(x + d)
  {
    if |x| > 0 && !SingleByte(x[0]) {
      RuneHere(x, d, y);
    }
  }

  lemma StartHere(x: string, d: string, y: string)
    requires Printed(d)
    ensures FillerStart(x + d + y) == FillerStart(x + d)
    ensures FillerStart(x + d).IsFiller? ==> FillerStart(x + d).size <= |x|
  {
    hide WideSpace, RuneSize;
    var a := x + d;
    var s := a + y;
    assert forall i :: 0 <= i < |a| ==> s[i] == a[i];
    if |x| > 0 && !SingleByte(x[0]) {
      RuneHere(x, d, y);
    } else if |x| > 1 {
      assert a[2..] == x[2..] + d && s[2..] == x[2..] + d + y;
      SpaceHere(x[2..], d, y);
    }
  }

  lemma {:induction false} StringHere(a: string, y: string, i: nat, c: char, skip: bool)
    requires i <= |a|
    ensures var r := StringEnd(a, i, c, skip);
            if r.1 && r.0 < |a| then StringEnd(a + y, i, c, skip) == r else StringEnd(a + y, i, c, skip).0 >= |a|
    decreases |a| - i
  {
    var s := a + y;
    if i < |a| {
      assert s[i] == a[i];
      StringHere(a, y, i + 1, c, false);
      StringHere(a, y, i + 1, c, true);
      assert i + 1 < |a| ==> s[i + 1] == a[i + 1];
    }
  }

  lemma Beyond(s: string, i: nat, needle: Needle)
    requires i < |s| && !needle.NoNeedle?
    ensures FillerEnd(s, i, needle).0 > i
  {
  }

  lemma {:induction false} FillerHere(x: string, d: string, y: string, i: nat, needle: Needle)
    requires Printed(d) && i <= |x|
    ensures var r := FillerEnd(x + d, i, needle);
            if r.0 <= |x| then FillerEnd(x + d + y, i, needle) == r else FillerEnd(x + d + y, i, needle).0 > |x|
    decreases |x| - i
  {
    hide FillerStart, FillerEnd;
    var a := x + d;
    var s := a + y;
    assert a[i..] == x[i..] + d && s[i..] == x[i..] + d + y;
    if needle.NoNeedle? {
      StartHere(x[i..], d, y);
      FillerUnfold(a, i, needle);
      FillerUnfold(s, i, needle);
      match FillerStart(a[i..])
      case NotFiller =>
      case IsFiller(size, closer) =>
        StartAdvances(a[i..]);
        FillerHere(x, d, y, i + size, closer);
    } else if i == |x| {
      Beyond(a, i, needle);
      Beyond(s, i, needle);
    } else {
      NeedleHere(x, d, y, i, needle);
    }
  }

  lemma StartAdvances(s: string)
    requires |s| > 0 && FillerStart(s).IsFiller?
    ensures FillerStart(s).size > 0
  {
  }

  lemma {:induction false} NeedleHere(x: string, d: string, y: string, i: nat, needle: Needle)
    requires Printed(d) && i < |x| && !needle.NoNeedle?
    ensures var r := FillerEnd(x + d, i, needle);
            if r.0 <= |x| then FillerEnd(x + d + y, i, needle) == r else FillerEnd(x + d + y, i, needle).0 > |x|
    decreases |x| - i, 0
  {
    hide FillerStart;
    var a := x + d;
    var s := a + y;
    assert s[i..][..2] == a[i..][..2];
    assert |needle.Text()| <= 2 ==> HasPrefix(s[i..], needle.Text()) == HasPrefix(a[i..], needle.Text());
    var next := i + |needle.Text()|;
    if HasPrefix(a[i..], needle.Text()) {
      if next <= |x| {
        FillerHere(x, d, y, next, NoNeedle);
      }
    } else {
      FillerHere(x, d, y, i + 1, needle);
    }
  }

  lemma FirstHere(x: string, d: string, y: string)
    requires Printed(d) && |x| > 0
    ensures FirstRune(x + d + y) == FirstRune(x + d) && FirstRune(x + d).size <= |x|
  {
    hide RuneSize, WideSpace;
    var a := x + d;
    var s := a + y;
    assert forall i :: 0 <= i < |a| ==> s[i] == a[i];
    assert |x| == 1 ==> a[1] == d[0];
    if !SingleByte(x[0]) {
      RuneHere(x, d, y);
    }
  }

  lemma StepHere(x: string, d: string, y: string, w: Progress)
    requires Printed(d)
    ensures WordStep(x + d + y, w, d) == WordStep(x + d, w, d)
    ensures match WordStep(x + d, w, d) case Stop(_) => true case Go(size, _) => size <= |x|
  {
    hide RuneSize, WideSpace;
    var a := x + d;
    var s := a + y;
    assert forall i :: 0 <= i < |a| ==> s[i] == a[i];
    assert a[|x|] == d[0];
    if |x| > 0 && !SingleByte(x[0]) {
      RuneHere(x, d, y);
    }
  }

  lemma {:induction false} WordHere(x: string, d: string, y: string, i: nat, w: Progress)
    requires Printed(d) && i <= |x|
    ensures WordEnd(x + d + y, i, w, d) == WordEnd(x + d, i, w, d) && WordEnd(x + d, i, w, d).0 <= |x|
    decreases |x| - i
  {
    hide WordStep;
    var a := x + d;
    var s := a + y;
    assert a[i..] == x[i..] + d && s[i..] == x[i..] + d + y;
    StepHere(x[i..], d, y, w);
    match WordStep(a[i..], w, d)
    case Stop(_) =>
    case Go(size, next) => WordHere(x, d, y, i + size, next);
  }

  lemma PrefixHere(x: string, d: string, y: string)
    ensures HasPrefix(x + d + y, d) == HasPrefix(x + d, d)
  {
    assert (x + d + y)[..|d|] == (x + d)[..|d|];
  }

  /** A token that ends in front of the delimiter is the same whatever follows; one that does not goes on there. */
  lemma TokenHere(x: string, d: string, y: string, afterFiller: bool)
    requires Printed(d) && |x| > 0
    ensures var t, u := NextToken(x + d, afterFiller, d), NextToken(x + d + y, afterFiller, d);
            && t.typ == u.typ
            && (t.typ != Delimiter && t.size <= |x| && !t.malformed ==> u == t)
            && (t.typ != Delimiter && (t.size > |x| || t.malformed) ==> u.size > |x|)
            && (t.typ == Word ==> u == t && t.size <= |x|)
  {
    hide FillerStart, FillerEnd, StringEnd, WordEnd, FirstRune, HasPrefix, DelimiterSize;
    var a := x + d;
    var s := a + y;
    assert s[0] == a[0];
    StartHere(x, d, y);
    PrefixHere(x, d, y);
    if !afterFiller && FillerStart(a).IsFiller? {
      FillerHere(x, d, y, 0, NoNeedle);
    } else if HasPrefix(a, d) {
    } else if IsQuote(a[0]) {
      StringHere(a, y, 1, a[0], false);
    } else {
      WordTokenHere(x, d, y);
    }
  }

  lemma WordTokenHere(x: string, d: string, y: string)
    requires Printed(d) && |x| > 0
    ensures WordToken(x + d + y, d) == WordToken(x + d, d) && WordToken(x + d, d).size <= |x|
    ensures WordToken(x + d, d).typ in {Symbol, Word, Numeric}
  {
    hide FirstRune, WordEnd;
    var f := FirstRune(x + d);
    FirstHere(x, d, y);
    FirstTyped(x + d);
    WordHere(x, d, y, f.size, Progress(f.typ, f.sawPoint, false));
    if f.typ != Symbol {
      WordEndType(x + d, f.size, Progress(f.typ, f.sawPoint, false), d);
    }
  }

  lemma AtDelimiter(d: string, y: string, afterFiller: bool)
    requires Printed(d)
    ensures NextToken(d + y, afterFiller, d).typ == Delimiter
  {
    assert (d + y)[..|d|] == d;
    assert "" + d + y == d + y && "" + d == d;
    StartHere("", d, y);
  }

  /** Whether the delimiter is found where it was written does not depend on what follows it. */
  lemma {:induction false} EndHere(x: string, d: string, y: string, afterFiller: bool)
    requires Printed(d)
    ensures StatementEnd(x + d + y, afterFiller, d) == |x| <==> StatementEnd(x + d, afterFiller, d) == |x|
    decreases |x|
  {
    hide NextToken, HasPrefix;
    var a := x + d;
    var s := a + y;
    if |x| == 0 {
      assert a == d && s == d + y && d + "" == d;
      AtDelimiter(d, y, afterFiller);
      AtDelimiter(d, "", afterFiller);
    } else {
      TokenHere(x, d, y, afterFiller);
      TokensAdvance(a, afterFiller, d);
      var t := NextToken(a, afterFiller, d);
      if t.typ != Delimiter && t.size <= |x| && !t.malformed {
        var more := x[t.size..];
        assert a[t.size..] == more + d && s[t.size..] == more + d + y;
        EndHere(more, d, y, t.typ == Filler);
      }
    }
  }

  /** The same for the first word. */
  lemma KeywordHere(x: string, d: string, y: string)
    requires Printed(d) && |x| > 0
    ensures Keyword(x + d + y, d) == Keyword(x + d, d)
  {
    hide NextToken, ToLower;
    TokenHere(x, d, y, false);
    var t := NextToken(x + d, false, d);
    if t.typ == Word {
      assert (x + d + y)[..t.size] == (x + d)[..t.size];
    }
  }

  // ----- reading one line back -----

  lemma {:induction false} LineEndIs(line: string, rest: string)
    ensures '\n' !in line ==> LineEnd(line + "\n" + rest) == |line|
    ensures '\n' in line ==> LineEnd(line + "\n" + rest) < |line|
  {
    var s := line + "\n" + rest;
    if |line| > 0 && line[0] != '\n' {
      assert s[1..] == line[1..] + "\n" + rest;
      LineEndIs(line[1..], rest);
    }
  }

  predicate Letters(s: string) {
    forall i :: 0 <= i < |s| ==> 'a' <= s[i] <= 'z' || 'A' <= s[i] <= 'Z'
  }

  lemma LetterStep(s: string, w: Progress, d: string)
    requires Printed(d) && |s| > 0 && w.typ == Word
    ensures Letters(s[..1]) ==> WordStep(s, w, d) == Go(1, w)
    ensures s[0] == ' ' ==> WordStep(s, w, d) == Stop(Word)
  {
    assert s[..1][0] == s[0];
  }

  lemma {:induction false} WordOfLetters(word: string, rest: string, i: nat, w: Progress, d: string)
    requires Printed(d) && Letters(word) && |rest| > 0 && rest[0] == ' ' && i <= |word| && w.typ == Word
    ensures WordEnd(word + rest, i, w, d) == (|word|, Word)
    decreases |word| - i
  {
    hide WordStep;
    var s := word + rest;
    LetterStep(s[i..], w, d);
    if i < |word| {
      assert s[i..][0] == word[i];
      WordOfLetters(word, rest, i + 1, w, d);
    } else {
      assert s[i..][0] == rest[0];
    }
  }

  lemma KeywordIs(word: string, rest: string, d: string)
    requires Printed(d) && word != "" && Letters(word) && |rest| > 0 && rest[0] == ' '
    ensures Keyword(word + rest, d) == ToLower(word)
  {
    hide WordEnd, ToLower, StringEnd, FillerEnd;
    var s := word + rest;
    assert s[0] == word[0];
    WordOfLetters(word, rest, 1, Progress(Word, false, false), d);
    assert FirstRune(s) == First(Word, 1, false);
    assert s[..|word|] == word;
  }

  lemma LowerWords()
    ensures ToLower("DELIMITER") == "delimiter" && ToLower("USE") == "use"
  {
  }

  lemma NoOpening(s: string)
    requires |s| > 0 && s[0] != '-' && s[0] != '\\'
    ensures !HasPrefix(s, COMMENT) && !HasPrefix(s, SHELL)
  {
    PrefixStarts(s, COMMENT);
    PrefixStarts(s, SHELL);
  }

  lemma PrefixStarts(s: string, prefix: string)
    requires prefix != ""
    ensures HasPrefix(s, prefix) ==> |s| > 0 && s[0] == prefix[0]
  {
  }

  lemma DelimiterReads(x: string, rest: string, d: string)
    requires Printed(d) && Printed(x)
    ensures ReadLine(Render(SetDelimiter(x)) + rest, d) == Chunk(SetDelimiter(x), |Render(SetDelimiter(x))|)
  {
    hide ToLower, Keyword, F.Argument, LineEnd, HasPrefix;
    var line := "DELIMITER " + x;
    var s := line + "\n" + rest;
    assert Render(SetDelimiter(x)) + rest == s;
    NoOpening(s);
    assert s == "DELIMITER" + (" " + x + "\n" + rest);
    KeywordIs("DELIMITER", " " + x + "\n" + rest, d);
    LowerWords();
    LineEndIs(line, rest);
    assert s[..|line|] == line;
    DelimiterArgument(x);
  }

  lemma DelimiterArgument(x: string)
    requires Printed(x)
    ensures F.Argument("DELIMITER " + x) == x
  {
    hide F.SkipWord, F.Word;
    assert "DELIMITER " + x == "DELIMITER" + (" " + x);
    E.WordEnds("DELIMITER", " " + x);
    assert (" " + x)[1..] == x;
    assert F.SkipBlanks(" " + x) == x;
    E.WordEnds(x, "");
    assert x + "" == x;
  }

  lemma CommentReads(i: string, rest: string, d: string)
    requires Printed(d)
    ensures var c := ReadLine(Render(InstanceComment(i)) + rest, d);
            if '\n' !in i then c == Chunk(InstanceComment(i), |Render(InstanceComment(i))|)
            else c.line != InstanceComment(i)
  {
    hide Keyword, LineEnd, F.Argument;
    var s := COMMENT + i + "\n" + rest;
    assert Render(InstanceComment(i)) + rest == s;
    assert s[..|COMMENT|] == COMMENT;
    assert s[|COMMENT|..] == i + "\n" + rest;
    LineEndIs(i, rest);
    assert '\n' !in i ==> (i + "\n" + rest)[..|i|] == i;
  }

  lemma UseReads(name: string, rest: string)
    ensures ReadLine(Render(Use(name)) + rest, ";") == Chunk(Use(name), |Render(Use(name))|)
  {
    hide ToLower, Keyword, LineEnd, StatementEnd, Q.EscapeIdentifier, ReadUse, HasPrefix;
    var id := Q.EscapeIdentifier(name);
    var s := "USE" + ([' '] + (id + (";\n" + rest)));
    assert Render(Use(name)) + rest == s;
    NoOpening(s);
    KeywordIs("USE", [' '] + (id + (";\n" + rest)), ";");
    LowerWords();
    IdentifierReads(name, s, ";\n" + rest);
    assert |s| - |rest| == |Render(Use(name))|;
  }

  lemma IdentifierReads(name: string, s: string, behind: string)
    requires |s| >= 3 && s[3..] == [' '] + (Q.EscapeIdentifier(name) + behind) && |behind| > 1 && behind[..2] == ";\n"
    ensures ReadUse(s, ";") == Chunk(Use(name), |s| - |behind| + 2)
  {
    hide Q.EscapeIdentifier, Q.StripBackticks, StringToken, F.Argument, LineEnd;
    var id := Q.EscapeIdentifier(name);
    assert behind[..2][0] == ';' && behind[..2][1] == '\n';
    EscapedToken(name, behind);
    assert F.SkipBlanks(s[3..]) == id + behind by {
      assert (id + behind)[0] == '`';
      assert s[3..][1..] == id + behind;
    }
    Q.StripEscaped(name);
    assert (id + behind)[..|id|] == id && (id + behind)[|id|..] == behind;
    assert behind[..1] == ";" && DelimiterSize(behind, ";") == 2;
  }

  lemma EscapedToken(name: string, behind: string)
    requires |behind| > 0 && behind[0] == ';'
    ensures var id := Q.EscapeIdentifier(name);
            && |id| > 0 && id[0] == '`' && StringToken(id + behind).size == |id|
  {
    hide Q.ReplaceChar, StringEnd;
    var s := Q.EscapeIdentifier(name) + behind;
    assert s[0] == '`';
    assert !HasPrefix(behind, "`");
    Q.IdentifierIsOneToken(name, behind, true, ";");
  }

  lemma ShellReads(text: string, rest: string, d: string)
    requires Printed(d) && HasPrefix(text, SHELL)
    ensures var c := ReadLine(Render(Body(text, "")) + rest, d);
            if '\n' !in text then c == Chunk(Body(text, ""), |Render(Body(text, ""))|) else c.line != Body(text, "")
  {
    hide Keyword, LineEnd, F.Argument;
    var s := text + "\n" + rest;
    assert Render(Body(text, "")) + rest == s;
    assert s[..|SHELL|] == text[..|SHELL|];
    assert s[0] == '\\';
    LineEndIs(text, rest);
    assert s[..|text|] == text;
  }

  /** A client takes the text for something else than a statement. */
  predicate Opens(text: string, d: string)
    requires |d| > 0
  {
    HasPrefix(text, COMMENT) || HasPrefix(text, SHELL)
    || (text != "" && Keyword(text + d, d) in {"delimiter", "use"})
  }

  /** The text followed by its delimiter is one statement: it starts like one, the delimiter does not occur in it,
      and no quote or comment in it stays open. */
  predicate WellEnded(text: string, d: string)
    requires |d| > 0
  {
    !Opens(text, d) && StatementEnd(text + d, false, d) == |text|
  }

  lemma OpeningHere(text: string, d: string, y: string, opening: string)
    requires Printed(d) && d[0] !in opening
    ensures HasPrefix(text + d + y, opening) <==> HasPrefix(text, opening)
  {
    var s := text + d + y;
    assert s[|text|] == d[0];
    if HasPrefix(s, opening) {
      assert forall i :: 0 <= i < |opening| ==> s[..|opening|][i] == s[i];
      assert |opening| <= |text| ==> s[..|opening|] == text[..|opening|];
    } else if |opening| <= |text| {
      assert s[..|opening|] == text[..|opening|];
    }
  }

  lemma OpensHere(text: string, d: string, y: string)
    requires Printed(d)
    ensures var s := text + d + y;
            Opens(text, d) <==> HasPrefix(s, COMMENT) || HasPrefix(s, SHELL) || Keyword(s, d) in {"delimiter", "use"}
  {
    hide NextToken, ToLower, HasPrefix;
    OpeningHere(text, d, y, COMMENT);
    OpeningHere(text, d, y, SHELL);
    if text != "" {
      KeywordHere(text, d, y);
    } else {
      assert text + d + y == d + y;
      AtDelimiter(d, y, false);
    }
  }

  lemma UseIsLong(s: string, d: string)
    requires |s| > 0 && Keyword(s, d) == "use"
    ensures |s| >= 3
  {
    hide NextToken;
  }

  lemma StatementReads(text: string, rest: string, d: string)
    requires Printed(d)
    ensures var c := ReadLine(Render(Body(text, d)) + rest, d);
            if WellEnded(text, d) then c == Chunk(Body(text, d), |Render(Body(text, d))|) else c.line != Body(text, d)
  {
    hide Keyword, LineEnd, F.Argument, HasPrefix, StatementEnd, ReadUse;
    var y := "\n" + rest;
    var s := text + d + y;
    assert Render(Body(text, d)) + rest == s;
    OpensHere(text, d, y);
    if Keyword(s, d) == "use" {
      UseIsLong(s, d);
      UseIsUse(s, d);
    }
    EndHere(text, d, y, false);
    if WellEnded(text, d) {
      assert s[..|text|] == text && s[|text|..] == d + y;
      LineBehind(d, rest);
    }
  }

  lemma UseIsUse(s: string, d: string)
    requires |s| >= 3 && |d| > 0
    ensures ReadUse(s, d).line.Use?
  {
  }

  lemma LineBehind(d: string, rest: string)
    ensures HasPrefix(d + ("\n" + rest), d) && DelimiterSize(d + ("\n" + rest), d) == |d| + 1
  {
    var s := d + ("\n" + rest);
    assert s[..|d|] == d && s[|d|] == '\n';
  }

  // ----- reading everything back -----

  /** What the printer may write while `d` is the delimiter. */
  predicate Shaped(line: Line, d: string) {
    match line
    case SetDelimiter(x) => Printed(x)
    case InstanceComment(_) => true
    case Use(_) => d == ";"
    case Body(text, terminator) => if terminator == "" then HasPrefix(text, SHELL) else terminator == d
  }

  /** The lines that a client reads as they were meant. */
  predicate Legible(line: Line) {
    match line
    case InstanceComment(i) => '\n' !in i
    case Body(text, terminator) => if terminator == "" then '\n' !in text else WellEnded(text, terminator)
    case _ => true
  }

  lemma LineReads(line: Line, rest: string, d: string)
    requires Printed(d) && Shaped(line, d)
    ensures var c := ReadLine(Render(line) + rest, d);
            if Legible(line) then c == Chunk(line, |Render(line)|) else c.line != line
    ensures |Render(line)| > 0 && Printed(DelimiterBehind(line, d))
  {
    hide ReadLine, WellEnded;
    match line
    case SetDelimiter(x) => DelimiterReads(x, rest, d);
    case InstanceComment(i) => CommentReads(i, rest, d);
    case Use(name) => UseReads(name, rest);
    case Body(text, terminator) =>
      if terminator == "" {
        ShellReads(text, rest, d);
      } else {
        StatementReads(text, rest, d);
      }
  }

  predicate AllShaped(lines: seq<Line>, d: string) {
    |lines| == 0 || (Shaped(lines[0], d) && AllShaped(lines[1..], DelimiterBehind(lines[0], d)))
  }

  ghost predicate AllLegible(lines: seq<Line>) {
    forall i :: 0 <= i < |lines| ==> Legible(lines[i])
  }

  /** A client reads exactly the lines that were printed, if and only if each of them is legible on its own. */
  lemma {:induction false} TextReadsBack(lines: seq<Line>, d: string)
    requires Printed(d) && AllShaped(lines, d)
    ensures ReadText(RenderAll(lines), d) == lines <==> AllLegible(lines)
    decreases |lines|
  {
    hide ReadLine, Render, Legible, Shaped;
    if |lines| > 0 {
      var first, rest := lines[0], lines[1..];
      var s := RenderAll(lines);
      LineReads(first, RenderAll(rest), d);
      var c := ReadLine(s, d);
      assert lines == [first] + rest;
      assert AllLegible(lines) <==> Legible(first) && AllLegible(rest);
      if Legible(first) {
        assert s[|Render(first)|..] == RenderAll(rest);
        TextReadsBack(rest, DelimiterBehind(first, d));
        assert ReadText(s, d)[1..] == ReadText(RenderAll(rest), DelimiterBehind(first, d));
      } else {
        assert ReadText(s, d)[0] == c.line;
      }
    }
  }

  // ----- what the printer writes -----

  function DelimiterAfter(lines: seq<Line>, d: string): string {
    if |lines| == 0 then d else DelimiterAfter(lines[1..], DelimiterBehind(lines[0], d))
  }

  lemma {:induction false} ShapedConcat(a: seq<Line>, b: seq<Line>, d: string)
    ensures AllShaped(a + b, d) <==> AllShaped(a, d) && AllShaped(b, DelimiterAfter(a, d))
    ensures DelimiterAfter(a + b, d) == DelimiterAfter(b, DelimiterAfter(a, d))
    decreases |a|
  {
    hide Shaped;
    if |a| == 0 {
      assert a + b == b;
    } else {
      assert (a + b)[1..] == a[1..] + b;
      ShapedConcat(a[1..], b, DelimiterBehind(a[0], d));
    }
  }

  lemma ShapedIf(condition: bool, line: Line, d: string)
    ensures AllShaped(If(condition, line), d) <==> (condition ==> Shaped(line, d))
    ensures DelimiterAfter(If(condition, line), d) == if condition then DelimiterBehind(line, d) else d
  {
    assert [line][1..] == [];
  }

  /** One call of Print writes what a client can read, and leaves the delimiter that the printer remembers. */
  lemma ShapedLines(s: State, stmt: Planned)
    requires Printed(s.delimiter)
    ensures AllShaped(Lines(s, stmt), s.delimiter)
    ensures DelimiterAfter(Lines(s, stmt), s.delimiter) == After(s, stmt).delimiter && Printed(After(s, stmt).delimiter)
  {
    hide AllShaped, DelimiterAfter;
    var d := s.delimiter;
    var l1, l2, l3, l4 := Restore(s, stmt), Comment(s, stmt), Choose(s, stmt), Delimit(s, stmt);
    var l5 := Body(stmt.Text(), stmt.Delimiter());
    ShapedConcat(l1 + l2 + l3 + l4, [l5], d);
    ShapedConcat(l1 + l2 + l3, l4, d);
    ShapedConcat(l1 + l2, l3, d);
    ShapedConcat(l1, l2, d);
    ShapedIf(s.delimiter != ";" && Moves(s, stmt), SetDelimiter(";"), d);
    var d1 := DelimiterBefore(s, stmt);
    ShapedIf(stmt.instance != s.instance, InstanceComment(stmt.instance), d1);
    ShapedIf(NeedsUse(s, stmt), Use(stmt.schemaName), d1);
    ShapedIf(NeedsDelimiter(s, stmt), SetDelimiter(stmt.Delimiter()), d1);
    ShapedIf(true, l5, After(s, stmt).delimiter);
    ShellText(stmt);
  }

  lemma ShellText(stmt: Planned)
    ensures stmt.shellOut.Some? ==>
              HasPrefix(stmt.Text(), SHELL) && ('\n' in stmt.Text() <==> '\n' in stmt.shellOut.value)
  {
    if stmt.shellOut.Some? {
      assert stmt.Text() == "\\! " + stmt.shellOut.value;
      assert stmt.Text()[..2] == SHELL;
    }
  }

  /** A client reads a statement as it was meant: a shell command of one line, or SQL that is one statement. */
  predicate EndsWell(stmt: Planned) {
    if stmt.shellOut.Some? then '\n' !in stmt.shellOut.value else WellEnded(stmt.sql, stmt.Delimiter())
  }

  ghost predicate AllReadable(stmts: seq<Planned>) {
    forall i :: 0 <= i < |stmts| ==> '\n' !in stmts[i].instance && EndsWell(stmts[i])
  }

  lemma LegibleConcat(a: seq<Line>, b: seq<Line>)
    ensures AllLegible(a + b) <==> AllLegible(a) && AllLegible(b)
  {
    hide Legible;
    assert forall i :: 0 <= i < |a| ==> (a + b)[i] == a[i];
    assert forall i :: 0 <= i < |b| ==> (a + b)[|a| + i] == b[i];
    assert forall i :: |a| <= i < |a + b| ==> (a + b)[i] == b[i - |a|];
  }

  lemma LegibleIf(condition: bool, line: Line)
    ensures AllLegible(If(condition, line)) <==> (condition ==> Legible(line))
  {
    hide Legible;
    assert condition ==> If(condition, line)[0] == line;
  }

  lemma LegibleLines(s: State, stmt: Planned)
    ensures AllLegible(Lines(s, stmt)) <==>
            (stmt.instance != s.instance ==> '\n' !in stmt.instance) && EndsWell(stmt)
  {
    hide AllLegible, WellEnded;
    var l1, l2, l3, l4 := Restore(s, stmt), Comment(s, stmt), Choose(s, stmt), Delimit(s, stmt);
    var l5 := Body(stmt.Text(), stmt.Delimiter());
    LegibleConcat(l1 + l2 + l3 + l4, [l5]);
    LegibleConcat(l1 + l2 + l3, l4);
    LegibleConcat(l1 + l2, l3);
    LegibleConcat(l1, l2);
    LegibleIf(s.delimiter != ";" && Moves(s, stmt), SetDelimiter(";"));
    LegibleIf(stmt.instance != s.instance, InstanceComment(stmt.instance));
    LegibleIf(NeedsUse(s, stmt), Use(stmt.schemaName));
    LegibleIf(NeedsDelimiter(s, stmt), SetDelimiter(stmt.Delimiter()));
    LegibleIf(true, l5);
    ShellText(stmt);
  }

  lemma {:induction false} AllWritten(stmts: seq<Planned>)
    ensures AllShaped(AllLines(Printer.START, stmts), ";")
    ensures DelimiterAfter(AllLines(Printer.START, stmts), ";") == AfterAll(Printer.START, stmts).delimiter
    ensures Printed(AfterAll(Printer.START, stmts).delimiter)
    ensures AllLegible(AllLines(Printer.START, stmts)) <==> AllReadable(stmts)
    ensures |stmts| > 0 ==> AfterAll(Printer.START, stmts).instance == stmts[|stmts| - 1].instance
  {
    hide Lines, AllLines, AfterAll, AllShaped, DelimiterAfter, AllLegible, EndsWell;
    if |stmts| == 0 {
      NothingWritten();
    } else {
      var init, last := stmts[..|stmts| - 1], stmts[|stmts| - 1];
      var s := AfterAll(Printer.START, init);
      assert stmts[..|stmts|] == stmts;
      AllWritten(init);
      OneMore(Printer.START, stmts, |init|);
      ShapedConcat(AllLines(Printer.START, init), Lines(s, last), ";");
      ShapedLines(s, last);
      LegibleConcat(AllLines(Printer.START, init), Lines(s, last));
      LegibleLines(s, last);
      assert AllReadable(stmts) <==> AllReadable(init) && '\n' !in last.instance && EndsWell(last);
      assert |init| > 0 ==> s.instance == init[|init| - 1].instance;
      if |init| == 0 {
        NothingWritten();
      }
    }
  }

  lemma NothingWritten()
    ensures AllLines(Printer.START, []) == [] && AfterAll(Printer.START, []) == Printer.START
    ensures AllShaped([], ";") && DelimiterAfter([], ";") == ";" && AllLegible([])
  {
  }

  /** A client reads from the bytes that were printed exactly the lines that were meant, and so runs each statement
      exactly once, in order, on its instance and under its schema, if and only if each statement is one for a
      client on its own: SQL that does not start like a client command and does not contain the delimiter printed
      behind it outside quotes and comments, or a shell command of one line. */
  lemma PrinterDrivesClient(stmts: seq<Planned>)
    ensures var lines := ReadText(RenderAll(AllLines(Printer.START, stmts)), ";");
            && (lines == AllLines(Printer.START, stmts) <==> AllReadable(stmts))
            && (AllReadable(stmts) ==>
                  var c := ReadAll(Client(Printer.START, [], false), lines);
                  && c.state == AfterAll(Printer.START, stmts) && !c.confused && |c.runs| == |stmts|
                  && forall i :: 0 <= i < |stmts| ==> RunAsIntended(stmts[i], c.runs[i]))
  {
    hide ReadText, RenderAll, AllLines, AfterAll, ReadAll, RunAsIntended, AllReadable, AllLegible, AllShaped;
    AllWritten(stmts);
    TextReadsBack(AllLines(Printer.START, stmts), ";");
    LinesDriveClient(stmts);
  }

  lemma EndsAtSlash(rest: string, d: string)
    requires d == "//" && HasPrefix(rest, d)
    ensures StatementEnd("a" + rest, false, d) == 1
  {
    hide FillerEnd, StringEnd;
    var s := "a" + rest;
    OneLetter(rest);
    assert s[1..] == rest && rest[..2] == "//";
    assert NextToken(rest, false, d).typ == Delimiter by {
      assert rest[0] == rest[..2][0] && rest[1] == rest[..2][1];
    }
  }

  lemma OneLetter(rest: string)
    requires |rest| > 0 && rest[0] == '/'
    ensures NextToken("a" + rest, false, "//") == Token(1, Word, false)
  {
    hide FillerEnd, StringEnd;
    var s := "a" + rest;
    assert s[1..] == rest && s[0] == 'a';
    assert WordStep(rest, Progress(Word, false, false), "//") == Stop(Word);
    assert WordEnd(s, 1, Progress(Word, false, false), "//") == (1, Word);
  }

  /** A compound statement with two slashes in it ends there for the client. */
  lemma SlashesEndEarly()
    ensures !EndsWell(Planned("", "", "a//b", true, None))
  {
    hide StatementEnd;
    EndsAtSlash("//b//", "//");
    assert "a//b" + "//" == "a" + "//b//";
    assert "//b//"[..2] == "//";
  }
}
