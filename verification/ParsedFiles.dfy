// A file that was just parsed is consistent in the sense of the editor
// (internal/fs/sqlfile.go, internal/tengo/parser.go): what the parser records about each
// statement agrees with the client commands in front of it.

module ParsedFiles {
  import opened Text
  import opened LexSpec
  import opened Statements
  import opened ParsedStatements
  import opened ParserTokens
  import opened TokenGroups
  import opened SqlFile
  import SqlFileEdits
  import T = ParserTokens

  function SnapOfStmt(s: Stmt): Snap {
    Snap(s.text, s.kind, s.delimiter, s.compound, s.defaultDatabase)
  }

  function SnapsOf(stmts: seq<Stmt>): (r: seq<Snap>)
    ensures |r| == |stmts| && forall i :: 0 <= i < |r| ==> r[i] == SnapOfStmt(stmts[i])
  {
    seq(|stmts|, i requires 0 <= i < |stmts| => SnapOfStmt(stmts[i]))
  }

  /** A client that reads the text of a command again finds the argument that the parser found. */
  predicate ReadsBack(s: Stmt, g: seq<T.Token>)
    requires |g| > 0
  {
    if Keyword(g[0]).DelimiterWord? then
      IsDelimiterText(s.text) && SqlFile.Argument(s.text) == ArgumentOf(g[1..], DelimiterArg).text
    else
      !IsDelimiterText(s.text) && SqlFile.Argument(BodyOf(s.text, s.delimiter)) == ArgumentOf(g[1..], UseArg).text
  }

  lemma OneAdvance(s: Stmt, g: seq<T.Token>, d0: string, d1: string, db0: string, db1: string)
    requires Obeys(s, g, d0, d1, db0, db1) && (s.kind == Command ==> ReadsBack(s, g))
    ensures Advance(Session(d0, db0), SnapOfStmt(s)) == Session(d1, db1)
    ensures s.kind != Command ==> s.delimiter == d0 && s.defaultDatabase == db0
  {
    hide SqlFile.Argument, ArgumentOf, BodyOf, IsDelimiterText, IsCreate;
  }

  lemma {:induction false} SessionAt(stmts: seq<Stmt>, groups: seq<seq<T.Token>>, force: seq<string>, dbs: seq<string>,
      n: nat)
    requires AllObey(stmts, groups, force, dbs) && n <= |stmts|
    requires forall i :: 0 <= i < n && stmts[i].kind == Command ==> |groups[i]| > 0 && ReadsBack(stmts[i], groups[i])
    ensures After(START, SnapsOf(stmts)[..n]) == Session(force[n], dbs[n]) && ConsistentFrom(START, SnapsOf(stmts)[..n])
  {
    hide Obeys, ReadsBack, Advance;
    var snaps := SnapsOf(stmts);
    if n == 0 {
      SqlFileEdits.Empty(START);
    } else {
      SessionAt(stmts, groups, force, dbs, n - 1);
      assert snaps[..n] == snaps[..n - 1] + [snaps[n - 1]];
      SqlFileEdits.Concat(START, snaps[..n - 1], [snaps[n - 1]]);
      SqlFileEdits.Single(Session(force[n - 1], dbs[n - 1]), snaps[n - 1]);
      OneAdvance(stmts[n - 1], groups[n - 1], force[n - 1], force[n], dbs[n - 1], dbs[n]);
    }
  }

  /** A parsed file is consistent: each statement stands under the delimiter and the database it records. */
  lemma ParsedIsConsistent(stmts: seq<Stmt>, groups: seq<seq<T.Token>>, force: seq<string>, dbs: seq<string>)
    requires AllObey(stmts, groups, force, dbs)
    requires forall i :: 0 <= i < |stmts| && stmts[i].kind == Command ==>
             |groups[i]| > 0 && ReadsBack(stmts[i], groups[i])
    ensures Consistent(SnapsOf(stmts))
  {
    SessionAt(stmts, groups, force, dbs, |stmts|);
    assert SnapsOf(stmts)[..|stmts|] == SnapsOf(stmts);
  }

  // ----- arguments that are plain words -----

  /** Words and symbols without blanks or quotes in them. */
  predicate Wordlike(ws: seq<T.Token>) {
    forall i :: 0 <= i < |ws| ==> ws[i].typ in {Word, Symbol, Numeric} && SqlFileEdits.NoBlanks(ws[i].val)
  }

  lemma {:induction false} WordArgument(gap: T.Token, ws: seq<T.Token>, c: T.ClientCommand)
    requires gap.typ == Filler && Wordlike(ws)
    ensures ArgumentOf([gap] + ws, c) == T.Argument(Vals(ws), false) && SqlFileEdits.NoBlanks(Vals(ws))
  {
    hide ArgumentOf, Vals, SqlFileEdits.NoBlanks, Wordlike;
    if |ws| == 0 {
      NoWords(gap, c);
      assert [gap] + ws == [gap];
    } else {
      var init, last := ws[..|ws| - 1], ws[|ws| - 1];
      WordlikeLast(ws);
      WordArgument(gap, init, c);
      OneWord([gap] + init, Vals(init), last, c);
      assert [gap] + init + [last] == [gap] + ws;
      assert init + [last] == ws;
      ValsMore(init, last);
    }
  }

  lemma NoWords(gap: T.Token, c: T.ClientCommand)
    requires gap.typ == Filler
    ensures ArgumentOf([gap], c) == T.Argument("", false) && Vals([]) == "" && SqlFileEdits.NoBlanks("")
  {
    NoArgument(c);
    ArgumentMore([], gap, c);
    assert [] + [gap] == [gap];
  }

  lemma WordlikeLast(ws: seq<T.Token>)
    requires Wordlike(ws) && |ws| > 0
    ensures Wordlike(ws[..|ws| - 1]) && ws[|ws| - 1].typ in {Word, Symbol, Numeric}
    ensures SqlFileEdits.NoBlanks(ws[|ws| - 1].val)
  {
  }

  lemma OneWord(before: seq<T.Token>, text: string, t: T.Token, c: T.ClientCommand)
    requires ArgumentOf(before, c) == T.Argument(text, false) && SqlFileEdits.NoBlanks(text)
    requires t.typ in {Word, Symbol, Numeric} && SqlFileEdits.NoBlanks(t.val)
    ensures ArgumentOf(before + [t], c) == T.Argument(text + t.val, false) && SqlFileEdits.NoBlanks(text + t.val)
  {
    hide ArgumentOf;
    ArgumentMore(before, t, c);
  }

  /** What follows an argument does not change it, if that is whitespace or the end of the command. */
  lemma {:induction false} ArgumentEnds(before: seq<T.Token>, tail: seq<T.Token>, c: T.ClientCommand)
    requires ArgumentOf(before, c).text != "" && !ArgumentOf(before, c).over && UpToDelimiter(tail)
    requires |tail| > 0 ==> tail[0].typ in {Filler, Delimiter}
    ensures ArgumentOf(before + tail, c).text == ArgumentOf(before, c).text
    ensures |tail| > 0 && tail[0].typ == Filler ==> ArgumentOf(before + tail, c).over
  {
    if |tail| == 0 {
      assert before + tail == before;
    } else {
      var init, last := tail[..|tail| - 1], tail[|tail| - 1];
      assert before + tail == (before + init) + [last];
      ArgumentEnds(before, init, c);
      ArgumentMore(before + init, last, c);
      assert |init| > 0 ==> init[0] == tail[0];
      if |init| == 0 {
        assert before + init == before;
      }
    }
  }

  lemma {:induction false} ValsConcat(a: seq<T.Token>, b: seq<T.Token>)
    ensures Vals(a + b) == Vals(a) + Vals(b)
  {
    if |b| == 0 {
      assert a + b == a;
    } else {
      assert (a + b)[..|a + b| - 1] == a + b[..|b| - 1];
      ValsConcat(a, b[..|b| - 1]);
    }
  }

  lemma {:induction false} BlanksSkipped(blanks: string, rest: string)
    requires AllBlank(blanks)
    requires rest == "" || !IsBlank(rest[0])
    ensures SkipBlanks(blanks + rest) == rest
  {
    if |blanks| == 0 {
      assert blanks + rest == rest;
    } else {
      assert (blanks + rest)[1..] == blanks[1..] + rest;
      BlanksSkipped(blanks[1..], rest);
    }
  }

  /** The argument in the text of a command: a keyword, blanks, a plain word, and blanks or nothing. */
  lemma ArgumentOfText(keyword: string, blanks: string, word: string, rest: string)
    requires SqlFileEdits.NoBlanks(keyword) && blanks != "" && AllBlank(blanks)
    requires word != "" && SqlFileEdits.NoBlanks(word) && Unquoted(word) == word && SqlFileEdits.StartsBlank(rest)
    ensures SqlFile.Argument(keyword + blanks + word + rest) == word
    ensures SqlFile.Word(keyword + blanks + word + rest) == keyword
  {
    hide SkipWord, SqlFile.Word, SkipBlanks;
    assert keyword + blanks + word + rest == keyword + (blanks + (word + rest));
    SqlFileEdits.WordEnds(keyword, blanks + (word + rest));
    assert (word + rest)[0] == word[0];
    BlanksSkipped(blanks, word + rest);
    SqlFileEdits.WordEnds(word, rest);
  }

  lemma NoBlankKeyword(keyword: string, word: string)
    requires ToLower(keyword) == word && word in {"delimiter", "use"}
    ensures SqlFileEdits.NoBlanks(keyword)
  {
    forall i | 0 <= i < |keyword| ensures !IsBlank(keyword[i]) {
      assert ToLower(keyword)[i] == word[i];
    }
  }

  /** A DELIMITER command whose argument is a plain word reads back. */
  lemma PlainDelimiterReadsBack(s: Stmt, keyword: T.Token, gap: T.Token, ws: seq<T.Token>, tail: seq<T.Token>)
    requires Keyword(keyword).DelimiterWord? && s.text == Vals([keyword, gap] + ws + tail)
    requires gap.typ == Filler && gap.val != "" && AllBlank(gap.val)
    requires Wordlike(ws) && Vals(ws) != "" && Unquoted(Vals(ws)) == Vals(ws) && UpToDelimiter(tail)
    requires |tail| > 0 ==> tail[0].typ in {Filler, Delimiter} && SqlFileEdits.StartsBlank(Vals(tail))
    ensures ReadsBack(s, [keyword, gap] + ws + tail)
  {
    hide ArgumentOf, SqlFile.Argument, Vals, ToLower, SqlFile.Word;
    var g := [keyword, gap] + ws + tail;
    NoBlankKeyword(keyword.val, "delimiter");
    PlainText(keyword, gap, ws, tail);
    assert tail == [] ==> Vals(tail) == "" by { NoVals(); }
    WordArgument(gap, ws, DelimiterArg);
    ArgumentOfText(keyword.val, gap.val, Vals(ws), Vals(tail));
    assert g[1..] == [gap] + ws + tail;
    ArgumentEnds([gap] + ws, tail, DelimiterArg);
  }

  lemma PlainText(keyword: T.Token, gap: T.Token, ws: seq<T.Token>, tail: seq<T.Token>)
    ensures Vals([keyword, gap] + ws + tail) == keyword.val + gap.val + Vals(ws) + Vals(tail)
  {
    hide Vals;
    ValsConcat([keyword, gap] + ws, tail);
    ValsConcat([keyword, gap], ws);
    NoVals();
    ValsMore([], keyword);
    ValsMore([keyword], gap);
    assert [] + [keyword] == [keyword] && [keyword] + [gap] == [keyword, gap];
  }

  lemma UseText(keyword: T.Token, gap: T.Token, ws: seq<T.Token>, end: T.Token)
    requires SqlFileEdits.NoBlanks(keyword.val) && gap.val != "" && AllBlank(gap.val)
    ensures SqlFile.Word(Vals([keyword, gap] + ws + [end])) == keyword.val
  {
    hide Vals, SqlFile.Word, SkipWord;
    PlainText(keyword, gap, ws, [end]);
    var rest := gap.val + (Vals(ws) + Vals([end]));
    assert keyword.val + gap.val + Vals(ws) + Vals([end]) == keyword.val + rest;
    SqlFileEdits.WordEnds(keyword.val, rest);
  }

  /** A USE command reads back if its database is a plain word that ends its line. */
  lemma PlainUseReadsBack(s: Stmt, keyword: T.Token, gap: T.Token, ws: seq<T.Token>, end: T.Token)
    requires Keyword(keyword).UseWord? && s.text == Vals([keyword, gap] + ws + [end])
    requires gap.typ == Filler && gap.val != "" && AllBlank(gap.val)
    requires Wordlike(ws) && Vals(ws) != "" && Unquoted(Vals(ws)) == Vals(ws)
    requires end.typ == Delimiter && BodyOf(s.text, s.delimiter) == keyword.val + gap.val + Vals(ws)
    ensures ReadsBack(s, [keyword, gap] + ws + [end])
  {
    hide ArgumentOf, SqlFile.Argument, Vals, BodyOf, ToLower, SqlFile.Word;
    var g := [keyword, gap] + ws + [end];
    NoBlankKeyword(keyword.val, "use");
    assert keyword.val + gap.val + Vals(ws) + "" == keyword.val + gap.val + Vals(ws);
    UseText(keyword, gap, ws, end);
    WordArgument(gap, ws, UseArg);
    ArgumentOfText(keyword.val, gap.val, Vals(ws), "");
    assert g[1..] == [gap] + ws + [end];
    ArgumentEnds([gap] + ws, [end], UseArg);
  }

  /** A quoted argument is what stands between its quotes, whatever follows it on the line. */
  lemma QuotedArgument(gap: T.Token, quoted: T.Token, more: seq<T.Token>, c: T.ClientCommand)
    requires gap.typ == Filler && c.Quoted(quoted) && c.Unquote(quoted) != ""
    requires quoted.typ != Filler && quoted.typ != Delimiter
    ensures ArgumentOf([gap, quoted] + more, c) == T.Argument(c.Unquote(quoted), true)
  {
    hide ArgumentOf, T.ClientCommand.Unquote, T.ClientCommand.Quoted;
    NoWords(gap, c);
    ArgumentMore([gap], quoted, c);
    assert [gap] + [quoted] == [gap, quoted];
    NothingMore([gap, quoted], more, c);
  }

  lemma {:induction false} NothingMore(before: seq<T.Token>, more: seq<T.Token>, c: T.ClientCommand)
    requires ArgumentOf(before, c).over && ArgumentOf(before, c).text != ""
    ensures ArgumentOf(before + more, c) == ArgumentOf(before, c)
  {
    hide ArgumentOf, T.ClientCommand.Unquote, T.ClientCommand.Quoted;
    if |more| == 0 {
      assert before + more == before;
    } else {
      var init, last := more[..|more| - 1], more[|more| - 1];
      NothingMore(before, init, c);
      ArgumentMore(before + init, last, c);
      assert before + init + [last] == before + more;
    }
  }
}
