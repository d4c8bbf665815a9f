// The SQL printer (internal/applier/printer.go) and a client that reads its output.

module Printer {
  import opened Wrappers

  /** A planned statement: shelled out, compound, or plain SQL. */
  datatype Planned = Planned(instance: string, schemaName: string, sql: string, compound: bool,
      shellOut: Option<string>) {
    /** ClientState().Delimiter. */
    function Delimiter(): string {
      if shellOut.Some? then "" else if compound then "//" else ";"
    }

    /** Statement(). */
    function Text(): string {
      if shellOut.Some? then "\\! " + shellOut.value else sql
    }
  }

  datatype Line =
    | SetDelimiter(delimiter: string)
    | InstanceComment(instance: string)
    | Use(schema: string)
    | Body(text: string, terminator: string)

  datatype State = State(instance: string, schema: string, delimiter: string)

  const START := State("", "", ";")

  class StandardPrinter {
    var lastStdoutInstance: string
    var lastStdoutSchema: string
    var lastStdoutDelimiter: string
    /** Everything written to standard output. */
    var out: seq<Line>

    function Current(): State
      reads this
    {
      State(lastStdoutInstance, lastStdoutSchema, lastStdoutDelimiter)
    }

    constructor ()
      ensures Current() == START && out == []
    {
      lastStdoutInstance, lastStdoutSchema, lastStdoutDelimiter := "", "", ";";
      out := [];
    }

    method Print(stmt: Planned)
      modifies this
      ensures out == old(out) + Lines(old(Current()), stmt)
      ensures Current() == After(old(Current()), stmt)
    {
      hide Planned.Delimiter, Planned.Text, If;
      ghost var s, before := Current(), out;
      IfStep(before, s.delimiter != ";" && Moves(s, stmt), SetDelimiter(";"));
      if lastStdoutDelimiter != ";" && (stmt.instance != lastStdoutInstance || stmt.schemaName != lastStdoutSchema) {
        out := out + [SetDelimiter(";")];
        lastStdoutDelimiter := ";";
      }
      IfStep(out, stmt.instance != s.instance, InstanceComment(stmt.instance));
      if stmt.instance != lastStdoutInstance {
        out := out + [InstanceComment(stmt.instance)];
        lastStdoutInstance := stmt.instance;
        lastStdoutSchema := "";
      }
      IfStep(out, NeedsUse(s, stmt), Use(stmt.schemaName));
      if stmt.schemaName != lastStdoutSchema && stmt.schemaName != "" {
        out := out + [Use(stmt.schemaName)];
        lastStdoutSchema := stmt.schemaName;
      }
      IfStep(out, NeedsDelimiter(s, stmt), SetDelimiter(stmt.Delimiter()));
      if stmt.Delimiter() != lastStdoutDelimiter && stmt.Delimiter() != "" {
        out := out + [SetDelimiter(stmt.Delimiter())];
        lastStdoutDelimiter := stmt.Delimiter();
      }
      out := out + [Body(stmt.Text(), stmt.Delimiter())];
      Regroup(before, s, stmt);
    }

    method PrintAll(stmts: seq<Planned>)
      modifies this
      ensures out == old(out) + AllLines(old(Current()), stmts)
      ensures Current() == AfterAll(old(Current()), stmts)
    {
      hide Lines, After;
      ghost var before, start := out, Current();
      NoLines(start);
      for n := 0 to |stmts|
        invariant out == before + AllLines(start, stmts[..n]) && Current() == AfterAll(start, stmts[..n])
      {
        hide AllLines, AfterAll;
        OneMore(start, stmts, n);
        Print(stmts[n]);
      }
      assert stmts[..|stmts|] == stmts;
    }
  }

  // ----- what one call prints -----

  predicate Moves(s: State, stmt: Planned) {
    stmt.instance != s.instance || stmt.schemaName != s.schema
  }

  /** The schema selected before USE is considered. */
  function Kept(s: State, stmt: Planned): string {
    if stmt.instance != s.instance then "" else s.schema
  }

  function DelimiterBefore(s: State, stmt: Planned): string {
    if Moves(s, stmt) then ";" else s.delimiter
  }

  predicate NeedsUse(s: State, stmt: Planned) {
    stmt.schemaName != Kept(s, stmt) && stmt.schemaName != ""
  }

  predicate NeedsDelimiter(s: State, stmt: Planned) {
    stmt.Delimiter() != DelimiterBefore(s, stmt) && stmt.Delimiter() != ""
  }

  function If<T>(condition: bool, x: T): seq<T> {
    if condition then [x] else []
  }

  lemma IfStep<T>(before: seq<T>, condition: bool, x: T)
    ensures before + If(condition, x) == if condition then before + [x] else before
  {
  }

  lemma Regroup(before: seq<Line>, s: State, stmt: Planned)
    ensures before + Lines(s, stmt)
            == before + Restore(s, stmt) + Comment(s, stmt) + Choose(s, stmt) + Delimit(s, stmt)
                + [Body(stmt.Text(), stmt.Delimiter())]
  {
    hide Restore, Comment, Choose, Delimit, Planned.Text, Planned.Delimiter;
  }

  function Restore(s: State, stmt: Planned): seq<Line> {
    If(s.delimiter != ";" && Moves(s, stmt), SetDelimiter(";"))
  }

  function Comment(s: State, stmt: Planned): seq<Line> {
    If(stmt.instance != s.instance, InstanceComment(stmt.instance))
  }

  function Choose(s: State, stmt: Planned): seq<Line> {
    If(NeedsUse(s, stmt), Use(stmt.schemaName))
  }

  function Delimit(s: State, stmt: Planned): seq<Line> {
    If(NeedsDelimiter(s, stmt), SetDelimiter(stmt.Delimiter()))
  }

  function Lines(s: State, stmt: Planned): seq<Line> {
    Restore(s, stmt) + Comment(s, stmt) + Choose(s, stmt) + Delimit(s, stmt) + [Body(stmt.Text(), stmt.Delimiter())]
  }

  function After(s: State, stmt: Planned): State {
    State(stmt.instance,
          if NeedsUse(s, stmt) then stmt.schemaName else Kept(s, stmt),
          if NeedsDelimiter(s, stmt) then stmt.Delimiter() else DelimiterBefore(s, stmt))
  }

  function AfterAll(s: State, stmts: seq<Planned>): State {
    if |stmts| == 0 then s else After(AfterAll(s, stmts[..|stmts| - 1]), stmts[|stmts| - 1])
  }

  function AllLines(s: State, stmts: seq<Planned>): seq<Line> {
    if |stmts| == 0 then []
    else AllLines(s, stmts[..|stmts| - 1]) + Lines(AfterAll(s, stmts[..|stmts| - 1]), stmts[|stmts| - 1])
  }

  lemma NoLines(s: State)
    ensures AllLines(s, []) == [] && AfterAll(s, []) == s
  {
  }

  lemma OneMore(s: State, stmts: seq<Planned>, n: nat)
    requires n < |stmts|
    ensures AllLines(s, stmts[..n + 1]) == AllLines(s, stmts[..n]) + Lines(AfterAll(s, stmts[..n]), stmts[n])
    ensures AfterAll(s, stmts[..n + 1]) == After(AfterAll(s, stmts[..n]), stmts[n])
  {
    hide Lines, After;
    assert stmts[..n + 1][..n] == stmts[..n];
  }

  // ----- a client that reads the output -----

  datatype Run = Sql(instance: string, schema: string, text: string) | Shell(command: string)

  /** An interactive client. On a new instance it reconnects, without a default schema. It is
      confused by a statement under another delimiter than its own, and by USE under another delimiter than ";". */
  datatype Client = Client(state: State, runs: seq<Run>, confused: bool) {
    function Read(line: Line): Client {
      match line
      case SetDelimiter(d) => this.(state := state.(delimiter := d), confused := confused || d == "")
      case InstanceComment(i) => this.(state := state.(instance := i, schema := ""))
      case Use(s) => this.(state := state.(schema := s), confused := confused || state.delimiter != ";" || s == "")
      case Body(text, terminator) =>
        if terminator == "" then this.(runs := runs + [Shell(text)])
        else if terminator == state.delimiter then
          this.(runs := runs + [Sql(state.instance, state.schema, text)])
        else this.(confused := true)
    }
  }

  function ReadAll(c: Client, lines: seq<Line>): Client {
    if |lines| == 0 then c else ReadAll(c, lines[..|lines| - 1]).Read(lines[|lines| - 1])
  }

  lemma {:induction false} ReadAllConcat(c: Client, a: seq<Line>, b: seq<Line>)
    ensures ReadAll(c, a + b) == ReadAll(ReadAll(c, a), b)
  {
    if |b| == 0 {
      assert a + b == a;
    } else {
      assert (a + b)[..|a + b| - 1] == a + b[..|b| - 1];
      ReadAllConcat(c, a, b[..|b| - 1]);
    }
  }

  lemma ReadIf(c: Client, condition: bool, line: Line)
    ensures ReadAll(c, If(condition, line)) == if condition then c.Read(line) else c
  {
    assert [line][..0] == [];
  }

  /** What the client makes of a statement printed in state `s`. */
  function RunOf(s: State, stmt: Planned): Run {
    if stmt.shellOut.Some? then Shell(stmt.Text()) else Sql(stmt.instance, After(s, stmt).schema, stmt.sql)
  }

  /** One call of Print keeps printer and client in step and runs exactly that statement. */
  lemma PrintKeepsStep(c: Client, stmt: Planned)
    requires c.state.delimiter != ""
    ensures ReadAll(c, Lines(c.state, stmt))
            == Client(After(c.state, stmt), c.runs + [RunOf(c.state, stmt)], c.confused)
    ensures After(c.state, stmt).delimiter != ""
  {
    hide ReadAll;
    var s := c.state;
    var l1, l2, l3, l4 := Restore(s, stmt), Comment(s, stmt), Choose(s, stmt), Delimit(s, stmt);
    var l5 := Body(stmt.Text(), stmt.Delimiter());
    ReadAllConcat(c, l1 + l2 + l3 + l4, [l5]);
    ReadAllConcat(c, l1 + l2 + l3, l4);
    ReadAllConcat(c, l1 + l2, l3);
    ReadAllConcat(c, l1, l2);
    ReadIf(c, s.delimiter != ";" && Moves(s, stmt), SetDelimiter(";"));
    var c1 := ReadAll(c, l1);
    ReadIf(c1, stmt.instance != s.instance, InstanceComment(stmt.instance));
    var c2 := ReadAll(c1, l2);
    ReadIf(c2, NeedsUse(s, stmt), Use(stmt.schemaName));
    var c3 := ReadAll(c2, l3);
    ReadIf(c3, NeedsDelimiter(s, stmt), SetDelimiter(stmt.Delimiter()));
    ReadIf(ReadAll(c3, l4), true, l5);
  }

  /** What the client runs over a sequence of calls. */
  function RunsOf(s: State, stmts: seq<Planned>): seq<Run> {
    if |stmts| == 0 then []
    else RunsOf(s, stmts[..|stmts| - 1]) + [RunOf(AfterAll(s, stmts[..|stmts| - 1]), stmts[|stmts| - 1])]
  }

  lemma {:induction false} ReadingAll(stmts: seq<Planned>)
    ensures ReadAll(Client(START, [], false), AllLines(START, stmts))
            == Client(AfterAll(START, stmts), RunsOf(START, stmts), false)
    ensures AfterAll(START, stmts).delimiter != ""
  {
    if |stmts| > 0 {
      hide ReadAll, Lines, After, AllLines, AfterAll, RunOf;
      var init, last, start := stmts[..|stmts| - 1], stmts[|stmts| - 1], Client(START, [], false);
      assert stmts[..|stmts|] == stmts;
      ReadingAll(init);
      OneMore(START, stmts, |init|);
      ReadAllConcat(start, AllLines(START, init), Lines(AfterAll(START, init), last));
      PrintKeepsStep(ReadAll(start, AllLines(START, init)), last);
    } else {
      NoLines(START);
    }
  }

  /** A statement is run as intended: a shell command as such, SQL on its own
      instance and, if it names a schema, under that schema. */
  predicate RunAsIntended(stmt: Planned, run: Run) {
    if stmt.shellOut.Some? then run == Shell(stmt.Text())
    else
      && run.Sql? && run.instance == stmt.instance && run.text == stmt.sql
      && (stmt.schemaName != "" ==> run.schema == stmt.schemaName)
  }

  lemma {:induction false} RunsAreIntended(s: State, stmts: seq<Planned>)
    ensures |RunsOf(s, stmts)| == |stmts| && forall i :: 0 <= i < |stmts| ==>
            RunAsIntended(stmts[i], RunsOf(s, stmts)[i])
  {
    hide RunAsIntended, RunOf, AfterAll;
    if |stmts| > 0 {
      var init, last := stmts[..|stmts| - 1], stmts[|stmts| - 1];
      RunsAreIntended(s, init);
      RunIsIntended(AfterAll(s, init), last);
    }
  }

  lemma RunIsIntended(s: State, stmt: Planned)
    ensures RunAsIntended(stmt, RunOf(s, stmt))
  {
  }

  /** Over any sequence of calls, a client that obeys the lines one by one stays in step with the printer. It runs
      each statement exactly once, in order and as intended, always under its own delimiter, and sees USE only
      while the delimiter is ";". */
  lemma LinesDriveClient(stmts: seq<Planned>)
    ensures var c := ReadAll(Client(START, [], false), AllLines(START, stmts));
            && c.state == AfterAll(START, stmts) && !c.confused && |c.runs| == |stmts|
            && forall i :: 0 <= i < |stmts| ==> RunAsIntended(stmts[i], c.runs[i])
  {
    hide ReadAll, AllLines, AfterAll, RunsOf, RunAsIntended;
    ReadingAll(stmts);
    RunsAreIntended(START, stmts);
  }

  /** A schema is selected again only when it changes: two statements in a row for the
      same schema of the same instance are separated by no USE. */
  lemma NoRepeatedUse(s: State, a: Planned, b: Planned)
    requires a.schemaName != "" && b.instance == a.instance && b.schemaName == a.schemaName
    ensures forall line :: line in Lines(After(s, a), b) ==> !line.Use? && !line.InstanceComment?
  {
  }

  // ----- --brief -----

  /** instanceDiffPrinter. */
  class InstancePrinter {
    var seenInstance: set<string>
    var out: seq<string>

    constructor ()
      ensures seenInstance == {} && out == FirstSeen([])
    {
      seenInstance, out := {}, [];
    }

    method Print(stmt: Planned)
      modifies this
      ensures seenInstance == old(seenInstance) + {stmt.instance}
      ensures out == if stmt.instance in old(seenInstance) then old(out) else old(out) + [stmt.instance]
    {
      if stmt.instance !in seenInstance {
        out := out + [stmt.instance];
        seenInstance := seenInstance + {stmt.instance};
      }
    }

    method PrintAll(stmts: seq<Planned>)
      requires seenInstance == {} && out == []
      modifies this
      ensures out == FirstSeen(stmts)
    {
      for n := 0 to |stmts|
        invariant out == FirstSeen(stmts[..n]) && seenInstance == set x | x in out
      {
        assert stmts[..n + 1][..n] == stmts[..n];
        Print(stmts[n]);
      }
      assert stmts[..|stmts|] == stmts;
    }
  }

  /** The instances in the order of their first statement. */
  function FirstSeen(stmts: seq<Planned>): seq<string> {
    if |stmts| == 0 then []
    else
      var before := FirstSeen(stmts[..|stmts| - 1]);
      if stmts[|stmts| - 1].instance in before then before else before + [stmts[|stmts| - 1].instance]
  }

  /** Each instance with a statement is printed exactly once. */
  lemma {:induction false} EachInstanceOnce(stmts: seq<Planned>)
    ensures forall i, j :: 0 <= i < j < |FirstSeen(stmts)| ==> FirstSeen(stmts)[i] != FirstSeen(stmts)[j]
    ensures forall x :: x in FirstSeen(stmts) <==> exists i :: 0 <= i < |stmts| && stmts[i].instance == x
  {
    if |stmts| > 0 {
      var init, last := stmts[..|stmts| - 1], stmts[|stmts| - 1];
      EachInstanceOnce(init);
      forall x ensures x in FirstSeen(stmts) <==> exists i :: 0 <= i < |stmts| && stmts[i].instance == x {
        if x in FirstSeen(init) {
          var i :| 0 <= i < |init| && init[i].instance == x;
          assert stmts[i].instance == x;
        }
        if x == last.instance {
          assert stmts[|stmts| - 1].instance == x;
        }
      }
    }
  }
}
