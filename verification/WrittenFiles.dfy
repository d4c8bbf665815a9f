// The text of a SQL file that Skeema wrote (internal/fs/sqlfile.go), and what a client
// reads from it after any sequence of edits.

module WrittenFiles {
  import opened Text
  import opened Statements
  import opened SqlFile
  import opened SqlFileEdits
  import opened Printer
  import opened PrintedText

  // ----- the form of a file that was written -----

  /** What a statement of the file is for a client. */
  function LineOf(x: Snap): Line {
    if x.IsCommand() then SetDelimiter(SqlFile.Argument(x.text)) else Body(BodyOf(x.text, x.delimiter), x.delimiter)
  }

  /** A DELIMITER command, or a statement with its delimiter and the end of the line right behind it. */
  predicate Written(x: Snap) {
    && x.text == Render(LineOf(x))
    && if x.IsCommand() then IsDelimiterText(x.text) && Printed(SqlFile.Argument(x.text))
       else Statements.NeedsDelimiter(x.kind, x.delimiter) && Printed(x.delimiter)
  }

  ghost predicate AllWritten(s: seq<Snap>) {
    forall i :: 0 <= i < |s| ==> Written(s[i])
  }

  function LinesOf(s: seq<Snap>): (r: seq<Line>)
    ensures |r| == |s| && forall i :: 0 <= i < |r| ==> r[i] == LineOf(s[i])
  {
    seq(|s|, i requires 0 <= i < |s| => LineOf(s[i]))
  }

  /** SQLFile.Write: the texts one behind the other. */
  function FileText(s: seq<Snap>): string {
    if |s| == 0 then "" else s[0].text + FileText(s[1..])
  }

  // ----- the pieces that the editor makes -----

  /** The text of a statement as a server reports it: nothing behind it, and no delimiter. */
  predicate Bare(text: string) {
    text != "" && !EndsInBlank(text) && !HasSuffix(text, ";") && !HasSuffix(text, "//")
  }

  lemma PrintedIsUsual(d: string)
    requires Printed(d)
    ensures RealDelimiter(d) && !EndsInBlank(d) && '\n' !in d && NoBlanks(d) && Unquoted(d) == d
  {
  }

  lemma BodyBehind(text: string, d: string)
    requires Printed(d) && !EndsInBlank(text)
    ensures BodyOf(text + d + "\n", d) == text && TrailerOf(text + d + "\n", d) == d + "\n"
  {
    hide BodyOf;
    PrintedIsUsual(d);
    DissectedFound(text, "", d, "\n");
    assert text + "" + d + "\n" == text + d + "\n";
  }

  lemma BareBody(text: string, d: string)
    requires Printed(d) && Bare(text)
    ensures BodyOf(text, d) == text && TrailerOf(text, d) == ""
  {
    hide TrimRight, HasSuffix;
    TrimmedIs(text, "");
    assert text + "" == text;
  }

  /** A new statement gets its delimiter and the end of its line. */
  lemma BareNormalized(text: string, kind: Kind, d: string)
    requires Printed(d) && Bare(text) && Statements.NeedsDelimiter(kind, d)
    ensures Normalized(text, kind, d) == text + d + "\n"
  {
    hide BodyOf, TrailerOf, HasSuffix;
    BareBody(text, d);
    assert text + d + "" == text + d;
    assert !Contains("", d) && !Contains("", "\n") by { NothingIn(d); NothingIn("\n"); }
  }

  lemma NothingIn(needle: string)
    requires needle != ""
    ensures !Contains("", needle)
  {
  }

  /** Normalizing what was written changes nothing. */
  lemma WrittenStays(x: Snap)
    requires Written(x) && !x.IsCommand()
    ensures Normalize(x) == x
  {
    hide BodyOf, Contains;
    var body, d := BodyOf(x.text, x.delimiter), x.delimiter;
    assert x.text == body + d + "\n";
    assert TrailerOf(x.text, d) == d + "\n";
    ContainsItself("", d, "\n");
    ContainsItself(d, "\n", "");
    assert "" + d + "\n" == d + "\n" && d + "\n" + "" == d + "\n";
  }

  lemma CommandWritten(d: string, database: string)
    requires Printed(d)
    ensures Written(DelimiterCommand(d, database)) && LineOf(DelimiterCommand(d, database)) == SetDelimiter(d)
  {
    hide SqlFile.SkipWord, SqlFile.Word, ToLower;
    var rest := " " + d + "\n";
    assert "DELIMITER " + d + "\n" == "DELIMITER" + rest;
    PrintedIsUsual(d);
    WordEnds("DELIMITER", rest);
    LowerDelimiter();
    assert rest[1..] == d + "\n";
    assert SkipBlanks(rest) == d + "\n";
    WordEnds(d, "\n");
  }

  /** A statement with a text of its own, delimiter and line end. */
  lemma StatementWritten(x: Snap, text: string)
    requires !x.IsCommand() && Statements.NeedsDelimiter(x.kind, x.delimiter) && Printed(x.delimiter)
    requires !EndsInBlank(text) && x.text == text + x.delimiter + "\n"
    ensures Written(x)
  {
    hide BodyOf;
    BodyBehind(text, x.delimiter);
  }

  // ----- edits -----

  predicate BareEdit(e: Edit) {
    match e
    case Add(x) => Bare(x.text) && (x.kind == Create || x.kind == Alter)
    case Change(_, newText, _) => newText != "" && !EndsInBlank(newText)
    case Remove(_) => true
  }

  lemma AddedWritten(s: seq<Snap>, x: Snap)
    requires AllWritten(s) && Bare(x.text) && (x.kind == Create || x.kind == Alter)
    ensures AllWritten(Added(s, x))
  {
    hide Written, Normalized, DelimiterCommand, Bare;
    var p := Prune(s);
    var end := Ending(p);
    assert Printed(end.delimiter) by {
      if |p| > 0 { WrittenDelimiter(p[|p| - 1]); }
    }
    var d := DelimiterFor(x.compound, end.delimiter);
    var y := x.(delimiter := d, defaultDatabase := end.database);
    BareNormalized(x.text, x.kind, d);
    assert !EndsInBlank(x.text) by { BareEnds(x.text); }
    StatementWritten(Normalize(y), x.text);
    CommandWritten(d, end.database);
    CommandWritten(";", end.database);
    if |p| > 0 {
      WrittenStays(p[|p| - 1]);
    }
    AllWrittenConcat(NormalizeLast(p), Appended(x, end));
  }

  lemma BareEnds(text: string)
    requires Bare(text)
    ensures !EndsInBlank(text)
  {
  }

  lemma WrittenDelimiter(x: Snap)
    requires Written(x) && !x.IsCommand()
    ensures Printed(x.delimiter) && Statements.NeedsDelimiter(x.kind, x.delimiter)
  {
  }

  lemma AllWrittenConcat(a: seq<Snap>, b: seq<Snap>)
    ensures AllWritten(a + b) <==> AllWritten(a) && AllWritten(b)
  {
    hide Written;
    assert forall i :: 0 <= i < |a| ==> (a + b)[i] == a[i];
    assert forall i :: 0 <= i < |b| ==> (a + b)[|a| + i] == b[i];
    assert forall i :: |a| <= i < |a + b| ==> (a + b)[i] == b[i - |a|];
  }

  lemma EditedWritten(s: seq<Snap>, i: nat, newText: string, compound: bool)
    requires AllWritten(s) && i < |s| && !s[i].IsCommand() && newText != "" && !EndsInBlank(newText)
    ensures AllWritten(Edited(s, i, newText, compound))
  {
    hide Written, DelimiterCommand, BodyOf, TrailerOf, EndsInBlank;
    var x := s[i];
    WrittenDelimiter(x);
    if x.delimiter != ";" || !compound {
      WrittenTrailer(x);
      var y := x.(text := newText + TrailerOf(x.text, x.delimiter), compound := compound);
      assert y.text == newText + x.delimiter + "\n";
      StatementWritten(y, newText);
    } else {
      EditedWraps(s, i, newText, compound);
      var y := x.(delimiter := "//", text := newText + "//\n", compound := compound);
      assert y.text == newText + "//" + "\n";
      StatementWritten(y, newText);
      CommandWritten("//", x.defaultDatabase);
      CommandWritten(";", x.defaultDatabase);
      var r := Edited(s, i, newText, compound);
      forall k | 0 <= k < |r| ensures Written(r[k]) {
        assert k < i ==> r[k] == s[k];
        assert k > i + 2 ==> r[k] == s[k - 2];
      }
    }
  }

  lemma WrittenTrailer(x: Snap)
    requires Written(x) && !x.IsCommand()
    ensures TrailerOf(x.text, x.delimiter) == x.delimiter + "\n"
  {
    hide BodyOf;
  }

  lemma RemovedWritten(s: seq<Snap>, i: nat)
    requires AllWritten(s) && i < |s|
    ensures AllWritten(Removed(s, i))
  {
    hide Written;
    AllWrittenConcat(s[..i], s[i + 1..]);
  }

  lemma EditKeepsWritten(s: seq<Snap>, e: Edit)
    requires AllWritten(s) && Permitted(s, e) && BareEdit(e)
    ensures AllWritten(Apply(s, e))
  {
    hide Added, Edited, Removed, AllWritten, Bare, EndsInBlank;
    match e {
      case Add(x) => AddedWritten(s, x);
      case Change(i, newText, compound) => EditedWritten(s, i, newText, compound);
      case Remove(i) => RemovedWritten(s, i);
    }
  }

  lemma {:induction false} EditsKeepWritten(s: seq<Snap>, edits: seq<Edit>)
    requires AllWritten(s) && AllPermitted(s, edits) && forall i :: 0 <= i < |edits| ==> BareEdit(edits[i])
    ensures AllWritten(ApplyAll(s, edits))
    decreases |edits|
  {
    if |edits| > 0 {
      hide Apply, AllWritten, BareEdit, Permitted;
      assert BareEdit(edits[0]);
      EditKeepsWritten(s, edits[0]);
      EditsKeepWritten(Apply(s, edits[0]), edits[1..]);
    }
  }

  // ----- reading the file -----

  lemma {:induction false} RenderedFile(s: seq<Snap>)
    requires AllWritten(s)
    ensures RenderAll(LinesOf(s)) == FileText(s)
  {
    hide Render, LineOf;
    if |s| > 0 {
      assert LinesOf(s)[1..] == LinesOf(s[1..]);
      assert Written(s[0]);
      RenderedFile(s[1..]);
    }
  }

  lemma {:induction false} ShapedFile(s: seq<Snap>, session: Session)
    requires AllWritten(s) && ConsistentFrom(session, s)
    ensures AllShaped(LinesOf(s), session.delimiter)
    decreases |s|
  {
    hide Render, BodyOf, SqlFile.Argument, IsDelimiterText;
    if |s| > 0 {
      assert LinesOf(s)[1..] == LinesOf(s[1..]);
      assert Written(s[0]);
      ShapedFile(s[1..], Advance(session, s[0]));
    }
  }

  /** Each statement of the file is one statement for a client. */
  ghost predicate AllWellEnded(s: seq<Snap>) {
    forall i :: 0 <= i < |s| && !s[i].IsCommand() && s[i].delimiter != "" ==>
      PrintedText.WellEnded(BodyOf(s[i].text, s[i].delimiter), s[i].delimiter)
  }

  /** A client reads from a file that was written exactly its statements, if and only if each of them is one. */
  lemma FileReadsBack(s: seq<Snap>)
    requires AllWritten(s) && Consistent(s)
    ensures ReadText(FileText(s), ";") == LinesOf(s) <==> AllWellEnded(s)
  {
    hide Render, BodyOf, SqlFile.Argument, IsDelimiterText, PrintedText.WellEnded, ReadText, RenderAll, AllShaped,
         FileText;
    RenderedFile(s);
    ShapedFile(s, SqlFile.START);
    TextReadsBack(LinesOf(s), ";");
    assert forall i :: 0 <= i < |s| ==> Written(s[i]) && LinesOf(s)[i] == LineOf(s[i]);
  }

  /** Whatever is added to a file that was written, an empty one for instance, and changed and removed in it, the
      client that reads the text of the result finds exactly its statements, each under its own delimiter, if and
      only if each statement is one for a client. */
  lemma EditedFileReadsBack(s: seq<Snap>, edits: seq<Edit>)
    requires AllWritten(s) && Consistent(s) && AllPermitted(s, edits)
    requires forall i :: 0 <= i < |edits| ==> BareEdit(edits[i])
    ensures var r := ApplyAll(s, edits); ReadText(FileText(r), ";") == LinesOf(r) <==> AllWellEnded(r)
  {
    hide ReadText, FileText, AllWellEnded, AllWritten, Consistent;
    EditsKeepWritten(s, edits);
    EditsKeepConsistency(s, edits);
    FileReadsBack(ApplyAll(s, edits));
  }
}
