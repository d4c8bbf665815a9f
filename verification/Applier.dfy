// Planning and executing the diffs of one target (internal/applier/applier.go,
// internal/applier/target.go, internal/applier/ddlstatement.go).

module Applier {
  import opened Modifiers
  import opened Tables
  import opened Alter
  import opened Splitting
  import R = Routines
  import U = UnsafeTypes

  datatype DatabaseChange = CreateDatabase | AlterDatabase | DropDatabase

  datatype ObjectDiff =
    | OfDatabase(change: DatabaseChange)
    | OfTable(table: TableChange)
    | OfRoutine(routine: R.RoutineDiff)

  /** What a planned statement does, as far as the gate is concerned. */
  datatype Effect =
    | ChangesDatabase(change: DatabaseChange)
    | CreatesTable(to: Table)
    | DropsTable(from: Table)
    | AltersTable(from: Table, to: Table, clauses: seq<TableClause>)
    | DropsRoutine(dropped: R.RoutineKey)
    | CreatesRoutine(created: R.Routine, orReplace: bool)

  datatype Outcome = Noop | Unsupported | Refused | Planned(effect: Effect)

  /** What the environment answers while one diff is being planned: the table's size, or that it or
      the limit it is compared with could not be read, and whether the wrapper command can be built. */
  datatype Probe = Probe(sizeError: bool, size: nat, wrapperError: bool)

  /** `minSizeError` means that alter-wrapper-min-size is no valid size. */
  datatype Config = Config(safeBelowSize: nat, sizeUsed: bool, dryRun: bool, alterWrapper: bool, minSizeError: bool)

  /** needTableSize. */
  predicate NeedTableSize(config: Config, diff: ObjectDiff) {
    diff.OfTable? && !diff.table.CreateTable? && config.sizeUsed
  }

  /** The modifiers for one diff: unsafe DDL is also allowed on a table that is small enough. */
  function ModsFor(config: Config, mods: StatementModifiers, diff: ObjectDiff, probe: Probe): StatementModifiers {
    if NeedTableSize(config, diff) && probe.size < config.safeBelowSize then mods.(allowUnsafe := true) else mods
  }

  /** getWrapper fails, before the statement is generated at all. */
  predicate WrapperFails(config: Config, diff: ObjectDiff) {
    diff.OfTable? && diff.table.AlterTable? && config.alterWrapper && config.minSizeError
  }

  /** Diff.Statement(mods). */
  function StatementOf(judge: U.Judge, mods: StatementModifiers, diff: ObjectDiff): Outcome {
    match diff
    case OfDatabase(c) => if c.DropDatabase? then Refused else Planned(ChangesDatabase(c))
    case OfTable(CreateTable(to)) => Planned(CreatesTable(to))
    case OfTable(DropTable(from)) => if mods.allowUnsafe then Planned(DropsTable(from)) else Refused
    case OfTable(AlterTable(from, to, clauses, supported)) =>
      (match AlterOutcome(judge, clauses, supported, to, mods)
       case Blank => Noop
       case Unsupported => Outcome.Unsupported
       case Forbidden(_) => Refused
       case Run(emitted) => Planned(AltersTable(from, to, emitted)))
    case OfRoutine(rd) =>
      (match R.Statement(mods, rd)
       case Blank => Noop
       case UnsupportedType => Refused
       case ForbiddenDrop(_) => Refused
       case Drop(k) => Planned(DropsRoutine(k))
       case Create(to, orReplace) => Planned(CreatesRoutine(to, orReplace)))
  }

  /** NewDDLStatement. */
  function NewDDLStatement(judge: U.Judge, config: Config, mods: StatementModifiers, diff: ObjectDiff,
      probe: Probe): Outcome {
    if (NeedTableSize(config, diff) && probe.sizeError) || WrapperFails(config, diff) then Refused
    else
      var outcome := StatementOf(judge, ModsFor(config, mods, diff, probe), diff);
      if outcome.Planned? && probe.wrapperError then Refused else outcome
  }

  datatype Totals = Totals(differences: bool, skipCount: nat, unsupportedCount: nat)

  /** The diffs of one target together with what the environment answers. */
  datatype Target = Target(judge: U.Judge, config: Config, mods: StatementModifiers, diffs: seq<ObjectDiff>,
      probes: seq<Probe>) {
    ghost predicate Valid() {
      |probes| == |diffs|
    }

    function OutcomeOf(i: nat): Outcome
      requires i < |diffs| && i < |probes|
    {
      NewDDLStatement(judge, config, mods, diffs[i], probes[i])
    }

    /** The statements planned for the first `n` diffs. */
    function Plan(n: nat): seq<Effect>
      requires n <= |diffs| && n <= |probes|
    {
      if n == 0 then []
      else Plan(n - 1) + (if OutcomeOf(n - 1).Planned? then [OutcomeOf(n - 1).effect] else [])
    }

    function CountUnsupported(n: nat): nat
      requires n <= |diffs| && n <= |probes|
    {
      if n == 0 then 0 else CountUnsupported(n - 1) + (if OutcomeOf(n - 1) == Outcome.Unsupported then 1 else 0)
    }

    ghost predicate RefusedAt(i: nat)
      requires i < |diffs| && i < |probes|
    {
      OutcomeOf(i).Refused?
    }

    ghost predicate SomeRefused()
      requires Valid()
    {
      exists i :: 0 <= i < |diffs| && RefusedAt(i)
    }
  }

  /** The planning loop of ApplyTarget: either every diff has an outcome other than
      a refusal, or the whole target is skipped. */
  method PlanTarget(t: Target) returns (ok: bool, stmts: seq<Effect>, result: Totals)
    requires t.Valid()
    ensures ok <==> !t.SomeRefused()
    ensures ok ==>
              && stmts == t.Plan(|t.diffs|)
              && result.skipCount == 0 && result.unsupportedCount == t.CountUnsupported(|t.diffs|)
              && (result.differences <==> exists i :: 0 <= i < |t.diffs| && !t.OutcomeOf(i).Noop?)
    ensures !ok ==>
              && stmts == []
              && result.skipCount == |t.diffs| && result.differences
              && result.unsupportedCount <= t.CountUnsupported(|t.diffs|)
  {
    hide NewDDLStatement;
    stmts, result := [], Totals(false, 0, 0);
    for n := 0 to |t.diffs|
      invariant stmts == t.Plan(n)
      invariant result.skipCount == 0 && result.unsupportedCount == t.CountUnsupported(n)
      invariant result.differences <==> exists i :: 0 <= i < n && !t.OutcomeOf(i).Noop?
      invariant forall i :: 0 <= i < n ==> !t.RefusedAt(i)
    {
      var outcome := NewDDLStatement(t.judge, t.config, t.mods, t.diffs[n], t.probes[n]);
      assert outcome == t.OutcomeOf(n);
      if outcome.Noop? {
        continue;
      }
      result := result.(differences := true);
      if outcome.Planned? {
        stmts := stmts + [outcome.effect];
      } else if outcome == Outcome.Unsupported {
        result := result.(unsupportedCount := result.unsupportedCount + 1);
      } else {
        assert t.RefusedAt(n);
        CountGrows(t, n, |t.diffs|);
        result := result.(skipCount := result.skipCount + |t.diffs|);
        return false, [], result;
      }
    }
    ok := true;
  }

  lemma {:induction false} CountGrows(t: Target, m: nat, n: nat)
    requires t.Valid() && m <= n <= |t.diffs|
    ensures t.CountUnsupported(m) <= t.CountUnsupported(n)
    decreases n - m
  {
    if m < n {
      CountGrows(t, m, n - 1);
    }
  }

  /** processSQL: the statements printed, the statements given to the server, and
      the number of statements skipped. `succeeds` answers for each statement. */
  method ProcessSQL(stmts: seq<Effect>, dryRun: bool, succeeds: seq<bool>)
      returns (printed: seq<Effect>, attempted: seq<Effect>, ran: nat, skipCount: nat)
    requires |succeeds| == |stmts|
    ensures dryRun ==> printed == stmts && attempted == [] && ran == 0 && skipCount == 0
    ensures !dryRun ==>
              && ran + skipCount == |stmts|
              && (forall i :: 0 <= i < ran ==> succeeds[i])
              && (skipCount == 0 ==> printed == attempted == stmts)
              && (skipCount > 0 ==> !succeeds[ran] && printed == attempted == stmts[..ran + 1])
  {
    printed, attempted, ran, skipCount := [], [], 0, 0;
    for i := 0 to |stmts|
      invariant printed == stmts[..i]
      invariant if dryRun then attempted == [] && ran == 0 else attempted == stmts[..i] && ran == i
      invariant skipCount == 0 && forall k :: 0 <= k < ran ==> succeeds[k]
    {
      printed := printed + [stmts[i]];
      if !dryRun {
        attempted := attempted + [stmts[i]];
        if !succeeds[i] {
          skipCount := |stmts| - i;
          return;
        }
        ran := ran + 1;
      }
    }
  }

  /** What stops a target before its statements run: the diff could not be verified,
      or a changed object has a linter error. */
  datatype Checks = Checks(verified: bool, linterErrors: bool)

  /** ApplyTarget, from the diff on. */
  method ApplyTarget(t: Target, checks: Checks, succeeds: seq<bool>)
      returns (result: Totals, printed: seq<Effect>, attempted: seq<Effect>, ran: nat)
    requires t.Valid() && |succeeds| == |t.Plan(|t.diffs|)|
    ensures !checks.verified ==> printed == attempted == [] && result == Totals(false, 0, 0)
    ensures checks.verified && (t.SomeRefused() || checks.linterErrors) ==>
            printed == attempted == [] && result.skipCount == |t.diffs|
    ensures checks.verified && !t.SomeRefused() && !checks.linterErrors ==>
              && printed <= t.Plan(|t.diffs|) && attempted <= printed
              && (t.config.dryRun ==> attempted == [] && printed == t.Plan(|t.diffs|) && result.skipCount == 0)
              && (!t.config.dryRun ==>
                    && ran + result.skipCount == |t.Plan(|t.diffs|)|
                    && (forall i :: 0 <= i < ran ==> succeeds[i])
                    && (result.skipCount == 0 ==> attempted == t.Plan(|t.diffs|))
                    && (result.skipCount > 0 ==> !succeeds[ran] && attempted == t.Plan(|t.diffs|)[..ran + 1]))
              && result.unsupportedCount == t.CountUnsupported(|t.diffs|)
    ensures attempted <= t.Plan(|t.diffs|)
    ensures ran <= |attempted|
  {
    hide NewDDLStatement, Target.SomeRefused, Target.Plan;
    printed, attempted, ran, result := [], [], 0, Totals(false, 0, 0);
    if !checks.verified {
      return;
    }
    var ok, stmts;
    ok, stmts, result := PlanTarget(t);
    if !ok {
      return;
    }
    if checks.linterErrors {
      result := result.(skipCount := result.skipCount + |t.diffs|);
      return;
    }
    var skipCount;
    printed, attempted, ran, skipCount := ProcessSQL(stmts, t.config.dryRun, succeeds);
    result := result.(skipCount := result.skipCount + skipCount);
  }

  // ----- the gate -----

  predicate IsUnsafe(judge: U.Judge, e: Effect) {
    match e
    case DropsTable(_) => true
    case DropsRoutine(_) => true
    case ChangesDatabase(c) => c.DropDatabase?
    case AltersTable(_, _, clauses) => AnyUnsafe(judge, clauses)
    case CreatesTable(_) => false
    case CreatesRoutine(_, _) => false
  }

  lemma {:induction false} EmittedAreClauses(mods: StatementModifiers, clauses: seq<TableClause>, n: nat)
    requires n <= |clauses|
    ensures forall c :: c in Emitted(mods, clauses, n) ==> c in clauses[..n]
  {
    if n > 0 {
      hide Suppressed;
      EmittedAreClauses(mods, clauses, n - 1);
      assert clauses[..n] == clauses[..n - 1] + [clauses[n - 1]];
    }
  }

  lemma EmittedSafe(judge: U.Judge, mods: StatementModifiers, clauses: seq<TableClause>)
    requires !AnyUnsafe(judge, clauses)
    ensures !AnyUnsafe(judge, Emitted(mods, clauses, |clauses|))
  {
    hide UnsafeClause;
    var emitted := Emitted(mods, clauses, |clauses|);
    EmittedAreClauses(mods, clauses, |clauses|);
    assert clauses[..|clauses|] == clauses;
    forall i | 0 <= i < |emitted| ensures !UnsafeClause(judge, emitted[i]) {
      assert emitted[i] in clauses;
    }
  }

  lemma OneIsGated(t: Target, i: nat)
    requires t.Valid() && i < |t.diffs|
    requires t.OutcomeOf(i).Planned? && IsUnsafe(t.judge, t.OutcomeOf(i).effect)
    ensures ModsFor(t.config, t.mods, t.diffs[i], t.probes[i]).allowUnsafe
  {
    hide AnyUnsafe, Emitted, EffectiveMods;
    var diff := t.diffs[i];
    if diff.OfTable? && diff.table.AlterTable? && !AnyUnsafe(t.judge, diff.table.clauses) {
      EmittedSafe(t.judge, EffectiveMods(ModsFor(t.config, t.mods, diff, t.probes[i]), diff.table.to),
          diff.table.clauses);
    }
  }

  lemma {:induction false} PlannedBy(t: Target, n: nat, e: Effect) returns (i: nat)
    requires t.Valid() && n <= |t.diffs| && e in t.Plan(n)
    ensures i < n && t.OutcomeOf(i) == Planned(e)
  {
    hide NewDDLStatement;
    if e in t.Plan(n - 1) {
      i := PlannedBy(t, n - 1, e);
    } else {
      i := n - 1;
    }
  }

  /** Unsafe statements are planned only with AllowUnsafe or on a table smaller than safe-below-size. */
  lemma UnsafeIsGated(t: Target, e: Effect) returns (i: nat)
    requires t.Valid() && e in t.Plan(|t.diffs|) && IsUnsafe(t.judge, e)
    ensures i < |t.diffs| && t.OutcomeOf(i) == Planned(e)
    ensures t.mods.allowUnsafe
            || (t.diffs[i].OfTable? && t.config.sizeUsed && !t.probes[i].sizeError
            && t.probes[i].size < t.config.safeBelowSize)
  {
    i := PlannedBy(t, |t.diffs|, e);
    OneIsGated(t, i);
  }

  /** Nothing is planned for a table whose size is asked for and cannot be read, whose wrapper command cannot be built,
      or which is altered through a wrapper by a size limit that is no size. */
  lemma PlannedWithoutErrors(t: Target, e: Effect) returns (i: nat)
    requires t.Valid() && e in t.Plan(|t.diffs|)
    ensures i < |t.diffs| && t.OutcomeOf(i) == Planned(e) && !t.probes[i].wrapperError
    ensures t.diffs[i].OfTable? && !t.diffs[i].table.CreateTable? && t.config.sizeUsed ==> !t.probes[i].sizeError
    ensures e.AltersTable? && t.config.alterWrapper ==> !t.config.minSizeError
  {
    hide AlterOutcome, R.Statement;
    i := PlannedBy(t, |t.diffs|, e);
  }

  /** Over a whole run without AllowUnsafe and safe-below-size, nothing unsafe reaches the server. */
  lemma NothingUnsafeRuns(t: Target, attempted: seq<Effect>, e: Effect)
    requires t.Valid() && !t.mods.allowUnsafe && t.config.safeBelowSize == 0
    requires attempted <= t.Plan(|t.diffs|) && e in attempted
    ensures !IsUnsafe(t.judge, e)
    ensures !e.DropsTable? && !e.DropsRoutine? && e != ChangesDatabase(DropDatabase)
    ensures e.AltersTable? ==> !AnyUnsafe(t.judge, e.clauses)
  {
    if IsUnsafe(t.judge, e) {
      assert e in t.Plan(|t.diffs|);
      var i := UnsafeIsGated(t, e);
    }
  }

  /** Any change between integer types that reaches the server keeps every old value of a stored column. */
  lemma IntegerChangesKeepValues(t: Target, attempted: seq<Effect>, e: Effect, i: nat, a: U.IntType, b: U.IntType)
    requires t.Valid() && !t.mods.allowUnsafe && t.config.safeBelowSize == 0
    requires attempted <= t.Plan(|t.diffs|) && e in attempted && e.AltersTable?
    requires i < |e.clauses| && e.clauses[i].OnColumns? && e.clauses[i].column.ModifyColumn?
    requires var m := e.clauses[i].column;
             && !m.oldColumn.def.virtual && m.oldColumn.def.charSet == m.newColumn.def.charSet
             && m.oldColumn.def.typeInDB == U.Render(a) && m.newColumn.def.typeInDB == U.Render(b)
    ensures U.FitsIn(a, b)
  {
    hide Target.Plan, U.Unsafe, U.Render, U.FitsIn;
    NothingUnsafeRuns(t, attempted, e);
    assert !UnsafeClause(t.judge, e.clauses[i]);
    U.IntegerGateIsExact(t.judge, e.clauses[i].column.oldColumn, e.clauses[i].column.newColumn, a, b);
  }

  /** DROP DATABASE is never executed, whatever the modifiers and sizes. */
  lemma NeverDropsDatabase(t: Target)
    requires t.Valid()
    ensures ChangesDatabase(DropDatabase) !in t.Plan(|t.diffs|)
  {
    if ChangesDatabase(DropDatabase) in t.Plan(|t.diffs|) {
      var i := PlannedBy(t, |t.diffs|, ChangesDatabase(DropDatabase));
    }
  }
}
