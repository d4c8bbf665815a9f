// The in-memory SQL file editor (internal/fs/sqlfile.go): every edit keeps the
// recorded delimiters in agreement with the file's DELIMITER commands.

module SqlFile {
  import opened Text
  import opened Statements

  /** The fields of a statement that the editor reads and writes. */
  datatype Snap = Snap(text: string, kind: Kind, delimiter: string, compound: bool, defaultDatabase: string) {
    predicate IsCommand() {
      kind == Command
    }
  }

  function DelimiterCommand(delimiter: string, database: string): Snap {
    Snap("DELIMITER " + delimiter + "\n", Command, NO_DELIMITER, false, database)
  }

  /** The statements without trailing commands. */
  function Prune(s: seq<Snap>): (r: seq<Snap>)
    ensures |r| <= |s| && r == s[..|r|] && (|r| > 0 ==> !r[|r| - 1].IsCommand())
  {
    if |s| > 0 && s[|s| - 1].IsCommand() then Prune(s[..|s| - 1]) else s
  }

  function Normalize(x: Snap): Snap {
    x.(text := Normalized(x.text, x.kind, x.delimiter))
  }

  function NormalizeLast(s: seq<Snap>): seq<Snap> {
    if |s| == 0 then [] else s[..|s| - 1] + [Normalize(s[|s| - 1])]
  }

  /** The delimiter and the default database at the end of a pruned file. */
  function Ending(s: seq<Snap>): Session {
    if |s| == 0 then START else Session(s[|s| - 1].delimiter, s[|s| - 1].defaultDatabase)
  }

  /** The delimiter a new statement goes under. */
  function DelimiterFor(compound: bool, current: string): string {
    if compound && current == ";" then "//" else if !compound && current != ";" then ";" else current
  }

  /** What is appended for `x` at the end of a file where `end` is in force. */
  function Appended(x: Snap, end: Session): seq<Snap> {
    var delimiter := DelimiterFor(x.compound, end.delimiter);
    (if delimiter != end.delimiter then [DelimiterCommand(delimiter, end.database)] else [])
    + [Normalize(x.(delimiter := delimiter, defaultDatabase := end.database))]
    + (if delimiter != ";" then [DelimiterCommand(";", end.database)] else [])
  }

  function Added(s: seq<Snap>, x: Snap): seq<Snap> {
    NormalizeLast(Prune(s)) + Appended(x, Ending(Prune(s)))
  }

  function Edited(s: seq<Snap>, i: nat, newText: string, compound: bool): seq<Snap>
    requires i < |s|
  {
    var x := s[i];
    if x.delimiter != ";" || !compound
        then s[i := x.(text := newText + TrailerOf(x.text, x.delimiter), compound := compound)]
    else s[..i] + [DelimiterCommand("//", x.defaultDatabase),
        x.(delimiter := "//", text := newText + "//\n", compound := compound),
                   DelimiterCommand(";", x.defaultDatabase)] + s[i + 1..]
  }

  lemma EditedWraps(s: seq<Snap>, i: nat, newText: string, compound: bool)
    requires i < |s| && s[i].delimiter == ";" && compound
    ensures var x := s[i];
            Edited(s, i, newText, compound)
            == s[..i] + [DelimiterCommand("//", x.defaultDatabase),
                x.(delimiter := "//", text := newText + "//\n", compound := compound),
                         DelimiterCommand(";", x.defaultDatabase)] + s[i + 1..]
  {
  }

  function Removed(s: seq<Snap>, i: nat): seq<Snap>
    requires i < |s|
  {
    s[..i] + s[i + 1..]
  }

  // ----- what the commands of a file do to a client -----

  datatype Session = Session(delimiter: string, database: string)

  const START := Session(";", "")

  function SkipWord(s: string): string {
    if |s| == 0 || IsBlank(s[0]) then s else SkipWord(s[1..])
  }

  function SkipBlanks(s: string): string {
    if |s| > 0 && IsBlank(s[0]) then SkipBlanks(s[1..]) else s
  }

  function Word(s: string): string {
    if |s| == 0 || IsBlank(s[0]) then [] else [s[0]] + Word(s[1..])
  }

  function Unquoted(s: string): string {
    if |s| >= 2 && s[0] == s[|s| - 1] && s[0] in {'\'', '"', '`'} then s[1..|s| - 1] else s
  }

  /** The first argument of a client command. */
  function Argument(text: string): string {
    Unquoted(Word(SkipBlanks(SkipWord(text))))
  }

  /** The text of a DELIMITER command, and not of a USE command. */
  predicate IsDelimiterText(text: string) {
    ToLower(Word(text)) == "delimiter"
  }

  /** DELIMITER and USE change the session; without an argument they do nothing. */
  function Advance(s: Session, x: Snap): Session {
    if !x.IsCommand() then s
    else if IsDelimiterText(x.text) then
      var d := Argument(x.text); if d == "" then s else s.(delimiter := d)
    else
      var db := Argument(BodyOf(x.text, x.delimiter)); if db == "" then s else s.(database := db)
  }

  function After(s: Session, xs: seq<Snap>): Session
    decreases |xs|
  {
    if |xs| == 0 then s else After(Advance(s, xs[0]), xs[1..])
  }

  /** Each statement other than a command records the delimiter and the database in force. */
  predicate ConsistentFrom(s: Session, xs: seq<Snap>)
    decreases |xs|
  {
    |xs| == 0 ||
    ((xs[0].IsCommand() || (xs[0].delimiter == s.delimiter && xs[0].defaultDatabase == s.database))
     && ConsistentFrom(Advance(s, xs[0]), xs[1..]))
  }

  predicate Consistent(xs: seq<Snap>) {
    ConsistentFrom(START, xs)
  }

  /** No compound statement stands under ";". */
  predicate CompoundsDelimited(xs: seq<Snap>) {
    forall i :: 0 <= i < |xs| && xs[i].compound ==> xs[i].delimiter != ";"
  }

  // ----- the editor -----

  ghost predicate Distinct<T>(s: seq<T>) {
    forall i, j :: 0 <= i < j < |s| ==> s[i] != s[j]
  }

  lemma DistinctAround<T>(s: seq<T>, i: nat, front: T, back: T)
    requires Distinct(s) && i < |s| && front !in s && back !in s && front != back
    ensures Distinct(s[..i] + [front, s[i], back] + s[i + 1..])
  {
    var r := s[..i] + [front, s[i], back] + s[i + 1..];
    forall j, k | 0 <= j < k < |r| ensures r[j] != r[k] {
      assert j < i ==> r[j] == s[j];
      assert j > i + 2 ==> r[j] == s[j - 2];
      assert k < i ==> r[k] == s[k];
      assert k > i + 2 ==> r[k] == s[k - 2];
    }
  }

  class SQLFile {
    var statements: seq<Statement>
    var dirty: bool

    /** A file holds each statement once. */
    ghost predicate Valid()
      reads this
    {
      Distinct(statements)
    }

    ghost function Contents(): seq<Snap>
      reads this, statements
    {
      Snaps(statements)
    }

    constructor (statements: seq<Statement>)
      requires Distinct(statements)
      ensures Valid() && this.statements == statements && !dirty
    {
      this.statements, dirty := statements, false;
    }

    method StatementIndex(stmt: Statement) returns (i: nat)
      requires stmt in statements
      ensures i < |statements| && statements[i] == stmt
    {
      i := 0;
      while statements[i] != stmt
        invariant i < |statements| && stmt in statements[i..]
        decreases |statements| - i
      {
        assert statements[i..] == [statements[i]] + statements[i + 1..];
        i := i + 1;
      }
    }

    method RemoveStatement(stmt: Statement)
      requires Valid() && stmt in statements
      modifies this
      ensures Valid() && dirty
      ensures exists i ::
              0 <= i < |old(statements)| && old(statements)[i] == stmt && Contents() == Removed(old(Contents()), i)
    {
      var i := StatementIndex(stmt);
      dirty := true;
      statements := statements[..i] + statements[i + 1..];
      assert Contents() == Removed(old(Contents()), i);
    }

    method EditStatementText(stmt: Statement, newText: string, compound: bool)
      requires Valid() && stmt in statements
      modifies this, stmt
      ensures Valid() && dirty
      ensures exists i ::
              0 <= i < |old(statements)| && old(statements)[i] == stmt
              && Contents() == Edited(old(Contents()), i, newText, compound)
    {
      hide Edited, DelimiterCommand, Normalized, TrailerOf;
      dirty := true;
      var i := StatementIndex(stmt);
      if stmt.delimiter != ";" || !compound {
        Retext(i, newText, compound);
      } else {
        Wrap(i, newText, compound);
      }
    }

    method Retext(i: nat, newText: string, compound: bool)
      requires Valid() && i < |statements| && (statements[i].delimiter != ";" || !compound)
      modifies statements[i]
      ensures Valid() && Contents() == Edited(old(Contents()), i, newText, compound)
    {
      hide BodyOf, Snaps;
      var stmt := statements[i];
      ghost var before := Contents();
      var _, oldFooter := stmt.SplitTextBody();
      assert oldFooter == TrailerOf(stmt.text, stmt.delimiter);
      stmt.text := newText + oldFooter;
      stmt.compound := compound;
      forall j | 0 <= j < |statements| && j != i ensures Contents()[j] == before[j] {
      }
    }

    method Wrap(i: nat, newText: string, compound: bool)
      requires Valid() && i < |statements| && statements[i].delimiter == ";" && compound
      modifies this`statements, statements[i]
      ensures Valid() && Contents() == Edited(old(Contents()), i, newText, compound)
    {
      hide DelimiterCommand, Edited, Snaps;
      var stmt := statements[i];
      ghost var before, x, had := Contents(), SnapOf(stmt), statements;
      EditedWraps(before, i, newText, compound);
      var front := MakeDelimiterCommand("//", stmt.defaultDatabase);
      var back := MakeDelimiterCommand(";", stmt.defaultDatabase);
      DistinctAround(statements, i, front, back);
      stmt.delimiter := "//";
      stmt.text := newText + "//\n";
      stmt.compound := compound;
      statements := statements[..i] + [front, stmt, back] + statements[i + 1..];
      hide Distinct;
      assert Snaps(had[..i]) == before[..i] && Snaps(had[i + 1..]) == before[i + 1..];
      SnapsThree(had[..i], front, stmt, back, had[i + 1..]);
    }

    method AddStatement(stmt: Statement)
      requires Valid() && stmt !in statements
      modifies this, stmt, statements
      ensures Valid() && dirty
      ensures Contents() == Added(old(Contents()), old(SnapOf(stmt)))
    {
      hide Appended, NormalizeLast, Prune, Snaps, Distinct;
      var currentDelimiter, defaultDatabase := Prepare();
      AppendUnder(stmt, currentDelimiter, defaultDatabase);
      dirty := true;
    }

    /** Prunes the end of the file and gives the last statement a proper end. */
    method Prepare() returns (currentDelimiter: string, defaultDatabase: string)
      requires Valid()
      modifies this`statements, statements
      ensures Valid() && Contents() == NormalizeLast(Prune(old(Contents())))
      ensures Session(currentDelimiter, defaultDatabase) == Ending(Prune(old(Contents())))
      ensures forall s :: s in statements ==> s in old(statements)
    {
      hide NormalizeLast, Prune, Snaps, Distinct, Ending;
      PruneCommands();
      assert |statements| > 0 ==> statements[|statements| - 1] in statements;
      currentDelimiter, defaultDatabase := NormalizeLastStatement();
    }

    /** Appends `stmt` under a suitable delimiter. */
    method AppendUnder(stmt: Statement, currentDelimiter: string, defaultDatabase: string)
      requires Valid() && stmt !in statements
      modifies this`statements, stmt
      ensures Valid()
      ensures Contents() == old(Contents()) + Appended(old(SnapOf(stmt)), Session(currentDelimiter, defaultDatabase))
    {
      hide DelimiterCommand, Normalize, Snaps, Distinct;
      ghost var before, x := Contents(), SnapOf(stmt);
      var delimiter := currentDelimiter;
      if stmt.compound && currentDelimiter == ";" {
        AppendCommand("//", defaultDatabase);
        delimiter := "//";
      } else if !stmt.compound && currentDelimiter != ";" {
        AppendCommand(";", defaultDatabase);
        delimiter := ";";
      }
      ghost var pre := if delimiter != currentDelimiter then [DelimiterCommand(delimiter, defaultDatabase)] else [];
      assert Contents() == before + pre && SnapOf(stmt) == x;
      Append(stmt, delimiter, defaultDatabase);
      ghost var y := Normalize(x.(delimiter := delimiter, defaultDatabase := defaultDatabase));
      assert Contents() == before + pre + [y];
      if delimiter != ";" {
        AppendCommand(";", defaultDatabase);
      }
      assert before + pre + [y] + (if delimiter != ";" then [DelimiterCommand(";", defaultDatabase)] else [])
          == Contents();
      Regroup(before, pre, [y], if delimiter != ";" then [DelimiterCommand(";", defaultDatabase)] else []);
    }

    method Append(stmt: Statement, delimiter: string, database: string)
      requires Valid() && stmt !in statements
      modifies this`statements, stmt
      ensures Valid() && statements == old(statements) + [stmt]
      ensures Contents() == old(Contents())
              + [Normalize(old(SnapOf(stmt)).(delimiter := delimiter, defaultDatabase := database))]
    {
      hide Normalized, Snaps;
      ghost var before := Contents();
      stmt.defaultDatabase := database;
      stmt.delimiter := delimiter;
      stmt.NormalizeTrailer();
      assert Contents() == before;
      SnapsConcat(statements, [stmt]);
      statements := statements + [stmt];
    }

    /** Gives the last statement a proper end; the delimiter and the database in force there. */
    method NormalizeLastStatement() returns (currentDelimiter: string, defaultDatabase: string)
      requires Valid()
      modifies if |statements| > 0 then {statements[|statements| - 1]} else {}
      ensures Contents() == NormalizeLast(old(Contents()))
      ensures Session(currentDelimiter, defaultDatabase) == Ending(old(Contents()))
    {
      hide Normalized, Snaps;
      currentDelimiter, defaultDatabase := ";", "";
      if |statements| > 0 {
        ghost var before := Contents();
        var lastStmt := statements[|statements| - 1];
        currentDelimiter := lastStmt.delimiter;
        defaultDatabase := lastStmt.defaultDatabase;
        lastStmt.NormalizeTrailer();
        forall j | 0 <= j < |statements| - 1 ensures Contents()[j] == before[j] {
        }
      }
    }

    method PruneCommands()
      requires Valid()
      modifies this`statements
      ensures Valid() && Contents() == Prune(old(Contents()))
      ensures forall s :: s in statements ==> s in old(statements)
    {
      hide Snaps, Prune;
      var pruned := WithoutCommands();
      ghost var snaps := Snaps(pruned);
      statements := pruned;
      assert forall i :: 0 <= i < |statements| ==> Contents()[i] == snaps[i];
    }

    /** The statements in front of the trailing commands. */
    method WithoutCommands() returns (pruned: seq<Statement>)
      ensures |pruned| <= |statements| && pruned == statements[..|pruned|] && Snaps(pruned) == Prune(Contents())
    {
      hide Snaps, Prune;
      pruned := statements;
      while |pruned| > 0 && pruned[|pruned| - 1].kind == Command
        invariant |pruned| <= |statements| && pruned == statements[..|pruned|]
        invariant Prune(Snaps(pruned)) == Prune(Snaps(statements))
      {
        PruneOne(pruned);
        pruned := pruned[..|pruned| - 1];
      }
      PruneOne(pruned);
    }

    method AppendCommand(delimiter: string, database: string)
      requires Valid()
      modifies this`statements
      ensures Valid() && Contents() == old(Contents()) + [DelimiterCommand(delimiter, database)]
      ensures |statements| == |old(statements)| + 1 && statements[..|old(statements)|] == old(statements)
      ensures fresh(statements[|old(statements)|])
    {
      hide DelimiterCommand;
      var c := MakeDelimiterCommand(delimiter, database);
      SnapsConcat(statements, [c]);
      statements := statements + [c];
    }
  }

  function SnapOf(stmt: Statement): Snap
    reads stmt
  {
    Snap(stmt.text, stmt.kind, stmt.delimiter, stmt.compound, stmt.defaultDatabase)
  }

  function Snaps(statements: seq<Statement>): (r: seq<Snap>)
    reads statements
    ensures |r| == |statements| && forall i :: 0 <= i < |r| ==> r[i] == SnapOf(statements[i])
  {
    seq(|statements|, i requires 0 <= i < |statements| reads statements => SnapOf(statements[i]))
  }

  /** One turn of the loop that prunes. */
  lemma PruneOne(statements: seq<Statement>)
    ensures |statements| > 0 && statements[|statements| - 1].kind == Command ==>
              Prune(Snaps(statements)) == Prune(Snaps(statements[..|statements| - 1]))
    ensures |statements| == 0 || statements[|statements| - 1].kind != Command ==>
            Prune(Snaps(statements)) == Snaps(statements)
  {
    if |statements| > 0 {
      assert Snaps(statements)[..|statements| - 1] == Snaps(statements[..|statements| - 1]);
    }
  }

  lemma Regroup<T>(a: seq<T>, b: seq<T>, c: seq<T>, d: seq<T>)
    ensures a + b + c + d == a + (b + c + d)
  {
  }

  lemma SnapsConcat(a: seq<Statement>, b: seq<Statement>)
    ensures Snaps(a + b) == Snaps(a) + Snaps(b)
  {
  }

  lemma SnapsThree(head: seq<Statement>, a: Statement, b: Statement, c: Statement, tail: seq<Statement>)
    ensures Snaps(head + [a, b, c] + tail) == Snaps(head) + [SnapOf(a), SnapOf(b), SnapOf(c)] + Snaps(tail)
  {
  }

  method MakeDelimiterCommand(newDelimiter: string, defaultDatabase: string) returns (s: Statement)
    ensures fresh(s) && SnapOf(s) == DelimiterCommand(newDelimiter, defaultDatabase)
  {
    s := new Statement("DELIMITER " + newDelimiter + "\n", Command, NO_DELIMITER, false, defaultDatabase);
  }
}
