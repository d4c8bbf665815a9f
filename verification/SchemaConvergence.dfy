// Executing the table diffs of a schema diff (internal/tengo/diff.go): for every
// iteration order they turn one schema's tables into the other's.

module SchemaConvergence {
  import opened Wrappers
  import opened Modifiers
  import opened Tables
  import opened TableDiff
  import opened Alter
  import opened Splitting
  import opened SplitMeaning
  import opened KeyedRuns
  import opened SchemaDiff
  import U = UnsafeTypes
  import V = Verifier
  import S = SplitSafety

  /** The table a CREATE TABLE makes: the modifiers may strip partitioning and the AUTO_INCREMENT value. */
  function Created(mods: StatementModifiers, to: Table): Table {
    to.(attrs := to.attrs.(
          partitioning := if mods.partitioning == PartitioningMode.Remove then None else to.attrs.partitioning,
          nextAutoIncrement := if to.HasAutoIncrement() && (mods.nextAutoInc == Ignore || mods.nextAutoInc == IfAlready)
                               then 1 else to.attrs.nextAutoIncrement))
  }

  function TableKey(c: TableChange): string {
    if c.CreateTable? then c.to.name else c.from.name
  }

  /** Executes the statement of one diff on the table of that name, if there is one.
      None means that the server rejects it or that there is no statement to run. */
  ghost function Execute(judge: U.Judge, mods: StatementModifiers, t: Option<Table>,
      c: TableChange): Option<Option<Table>> {
    match c
    case CreateTable(to) => if t.None? then Some(Some(Created(mods, to))) else None
    case DropTable(_) => if t.Some? && mods.allowUnsafe then Some(None) else None
    case AlterTable(_, to, clauses, supported) =>
      match AlterOutcome(judge, clauses, supported, to, mods)
      case Blank => Some(t)
      case Unsupported => None
      case Forbidden(_) => None
      case Run(emitted) =>
        if t.None? then None
        else match ApplyClauses(EffectiveMods(mods, to), t.value, emitted)
          case None => None
          case Some(r) => Some(Some(r))
  }

  ghost function Executor(judge: U.Judge, mods: StatementModifiers)
    : (Option<Table>, TableChange) -> Option<Option<Table>>
  {
    (t, c) => Execute(judge, mods, t, c)
  }

  // ----- what concerns one table -----

  /** All diffs of table `n`. */
  function ChangesFor(from: TableMap, to: TableMap, n: string, plan: Plan): seq<TableChange>
    requires n in from ==> Droppable(from[n])
  {
    if n in from then VisitAlters(from, to, Visit(n, plan)) + VisitFks(from, to, Visit(n, plan))
    else if n in to then [CreateTable(to[n])]
    else []
  }

  ghost predicate NamedRight(from: TableMap, to: TableMap) {
    && (forall n :: n in from ==> from[n].name == n)
    && (forall n :: n in to ==> to[n].name == n)
  }

  lemma VisitKeys(from: TableMap, to: TableMap, v: Visit)
    requires NamedRight(from, to) && v.name in from && Droppable(from[v.name])
    ensures forall i :: 0 <= i < |VisitAlters(from, to, v)| ==> TableKey(VisitAlters(from, to, v)[i]) == v.name
    ensures forall i :: 0 <= i < |VisitFks(from, to, v)| ==> TableKey(VisitFks(from, to, v)[i]) == v.name
  {
    hide Diff, Select;
  }

  lemma ChunksOwned(from: TableMap, to: TableMap, visits: seq<Visit>, order: seq<string>)
    requires NamedRight(from, to) && Visitable(from, visits) && forall i :: 0 <= i < |order| ==> order[i] in to
    ensures Owned(AlterChunks(from, to, visits), VisitNames(visits), TableKey)
    ensures Owned(FkChunks(from, to, visits), VisitNames(visits), TableKey)
    ensures Owned(CreateChunks(from, to, order), order, TableKey)
  {
    hide VisitAlters, VisitFks, Droppable;
    forall i | 0 <= i < |visits|
      ensures forall j :: 0 <= j < |AlterChunks(from, to, visits)[i]| ==>
              TableKey(AlterChunks(from, to, visits)[i][j]) == VisitNames(visits)[i]
      ensures forall j :: 0 <= j < |FkChunks(from, to, visits)[i]| ==>
              TableKey(FkChunks(from, to, visits)[i][j]) == VisitNames(visits)[i]
    {
      VisitKeys(from, to, visits[i]);
    }
  }

  lemma VisitedChanges(from: TableMap, to: TableMap, visits: seq<Visit>, n: string) returns (plan: Plan)
    requires ValidVisits(from, to, visits) && Visitable(from, visits)
    requires Owned(AlterChunks(from, to, visits), VisitNames(visits), TableKey)
             && Owned(FkChunks(from, to, visits), VisitNames(visits), TableKey)
    ensures n in from && n in to ==> ValidPlan(from[n], to[n], plan)
    ensures n in from ==> Droppable(from[n])
    ensures Of(Join(AlterChunks(from, to, visits)), TableKey, n) == if n in from
            then VisitAlters(from, to, Visit(n, plan)) else []
    ensures Of(Join(FkChunks(from, to, visits)), TableKey, n) == if n in from then VisitFks(from, to, Visit(n, plan))
            else []
  {
    hide Of, VisitAlters, VisitFks, ValidPlan, Droppable, Join, TableKey, Owned, Table.WellFormed;
    plan := Plan({}, [], []);
    ListsAll(VisitNames(visits), from.Keys);
    if n in from {
      var k :| 0 <= k < |visits| && VisitNames(visits)[k] == n;
      plan := visits[k].plan;
      assert visits[k] == Visit(n, plan);
      ListsDistinct(VisitNames(visits), from.Keys);
      JoinOfOne(AlterChunks(from, to, visits), VisitNames(visits), TableKey, k);
      JoinOfOne(FkChunks(from, to, visits), VisitNames(visits), TableKey, k);
    } else {
      JoinOfNone(AlterChunks(from, to, visits), VisitNames(visits), TableKey, n);
      JoinOfNone(FkChunks(from, to, visits), VisitNames(visits), TableKey, n);
    }
  }

  /** The diffs of one table, in order, whatever the iteration orders. */
  lemma ChangesOf(from: TableMap, to: TableMap, visits: seq<Visit>, order: seq<string>, n: string) returns (plan: Plan)
    requires ValidOrders(from, to, visits, order)
    ensures n in from && n in to ==> ValidPlan(from[n], to[n], plan)
    ensures n in from ==> Droppable(from[n])
    ensures Of(TableChanges(from, to, visits, order), TableKey, n) == ChangesFor(from, to, n, plan)
  {
    hide Of, VisitAlters, VisitFks, ValidPlan, Droppable, Join, TableKey, Owned, Table.WellFormed, AlterChunks,
         FkChunks, CreateChunks, ValidVisits, Visitable;
    OrdersAreInRange(from, to, visits, order);
    ChunksOwned(from, to, visits, order);
    var alters, creates, fks := Join(AlterChunks(from, to, visits)), Join(CreateChunks(from, to, order)),
        Join(FkChunks(from, to, visits));
    OfConcat(alters + creates, fks, TableKey, n);
    OfConcat(alters, creates, TableKey, n);
    CreatesOf(from, to, order, n);
    plan := VisitedChanges(from, to, visits, n);
    if n in from {
      var a, f := VisitAlters(from, to, Visit(n, plan)), VisitFks(from, to, Visit(n, plan));
      assert a + [] + f == a + f;
    } else {
      assert [] + Of(creates, TableKey, n) + [] == Of(creates, TableKey, n);
    }
  }

  lemma CreatesOf(from: TableMap, to: TableMap, order: seq<string>, n: string)
    requires NamedRight(from, to) && Lists(order, to.Keys) && forall i :: 0 <= i < |order| ==> order[i] in to
    requires Owned(CreateChunks(from, to, order), order, TableKey)
    ensures Of(Join(CreateChunks(from, to, order)), TableKey, n) == if n in to && n !in from then [CreateTable(to[n])]
            else []
  {
    hide Of, Join, TableKey, Owned;
    ListsAll(order, to.Keys);
    if n in to {
      var k :| 0 <= k < |order| && order[k] == n;
      ListsDistinct(order, to.Keys);
      JoinOfOne(CreateChunks(from, to, order), order, TableKey, k);
    } else {
      JoinOfNone(CreateChunks(from, to, order), order, TableKey, n);
    }
  }

  // ----- running the diffs of one table -----

  lemma AlterExecutes(judge: U.Judge, mods: StatementModifiers, t: Table, c: TableChange)
    requires c.AlterTable? && c.supported && mods.allowUnsafe
    ensures Execute(judge, mods, Some(t), c)
            == match ApplyClauses(EffectiveMods(mods, c.to), t, c.clauses) {
                 case None => None
                 case Some(r) => Some(Some(r))
               }
  {
    hide EffectiveMods, Emitted, ApplyClauses, AnyUnsafe;
    EmittedSuffices(EffectiveMods(mods, c.to), t, c.clauses, |c.clauses|);
    assert c.clauses[..|c.clauses|] == c.clauses;
    assert ApplyClauses(EffectiveMods(mods, c.to), t, []) == Some(t) by { NoClauses(EffectiveMods(mods, c.to), t); }
  }

  lemma NoClauses(mods: StatementModifiers, t: Table)
    ensures ApplyClauses(mods, t, []) == Some(t)
  {
  }

  /** ALTERs of one table run like their clause lists. */
  lemma {:induction false} PiecesExecute(judge: U.Judge, mods: StatementModifiers, t: Table, td: TableChange,
      pieces: seq<seq<TableClause>>)
    requires td.AlterTable? && td.supported && mods.allowUnsafe
    requires RunPieces(EffectiveMods(mods, td.to), t, pieces).Some?
    ensures RunOne(Some(t), Pieces(td, pieces), Executor(judge, mods))
            == Some(RunPieces(EffectiveMods(mods, td.to), t, pieces))
  {
    var actual := EffectiveMods(mods, td.to);
    if |pieces| > 0 {
      hide EffectiveMods, ApplyClauses, Execute, RunPieces, Flatten;
      var init, last := pieces[..|pieces| - 1], pieces[|pieces| - 1];
      assert pieces == init + [last];
      RunPiecesFlat(actual, t, pieces);
      RunPiecesFlat(actual, t, init);
      FlattenLast(init, last);
      ApplyClausesSplit(actual, t, Flatten(init), last);
      PiecesExecute(judge, mods, t, td, init);
      var mid := RunPieces(actual, t, init).value;
      assert Pieces(td, pieces)[..|pieces| - 1] == Pieces(td, init);
      AlterExecutes(judge, mods, mid, td.(clauses := last));
    }
  }

  lemma FlattenLast(init: seq<seq<TableClause>>, last: seq<TableClause>)
    ensures Flatten(init + [last]) == Flatten(init) + last
  {
    FlattenConcat(init, [last]);
    assert [last][1..] == [] && Flatten([last]) == last + Flatten([]) == last;
  }

  lemma {:induction false} PreDropExecutes(judge: U.Judge, mods: StatementModifiers, t: Table, n: nat)
    requires Droppable(t) && mods.allowUnsafe && n <= |PreDrop(t)|
    ensures var r := RunOne(Some(t), PreDrop(t)[..n], Executor(judge, mods)); r.Some? && r.value.Some?
  {
    if n > 0 {
      hide EffectiveMods, ApplyClauses, Droppable, PreDrop;
      PreDropExecutes(judge, mods, t, n - 1);
      assert PreDrop(t)[..n][..n - 1] == PreDrop(t)[..n - 1];
      var mid := RunOne(Some(t), PreDrop(t)[..n - 1], Executor(judge, mods)).value.value;
      var c := PreDrop(t)[n - 1];
      DropPartitionApplies(mods, t, mid, n - 1);
      AlterExecutes(judge, mods, mid, c);
    }
  }

  lemma DropPartitionApplies(mods: StatementModifiers, t: Table, mid: Table, i: nat)
    requires Droppable(t) && i < |PreDrop(t)|
    ensures var c := PreDrop(t)[i];
            c.AlterTable? && c.supported && ApplyClauses(EffectiveMods(mods, c.to), mid, c.clauses).Some?
  {
    hide EffectiveMods;
    var c := PreDrop(t)[i];
    NoClauses(EffectiveMods(mods, c.to), ApplyClause(EffectiveMods(mods, c.to), mid, c.clauses[0]).value);
  }

  // ----- the result -----

  /** The diff is supported and expressible, and the text of SHOW CREATE TABLE tells tables apart. */
  ghost predicate Alterable(mods: StatementModifiers, from: Table, to: Table) {
    && Expressible(EffectiveMods(mods, to), from, to)
    && (forall plan :: ValidPlan(from, to, plan) ==> Diff(from, to, plan).1)
    && (from.createStatement != "" && from.createStatement == to.createStatement ==> from == to)
  }

  /** What the ALTERs of one table leave. */
  ghost predicate TableReached(mods: StatementModifiers, from: Table, to: Table, r: Table) {
    exists plan: Plan, whole: Table ::
        ValidPlan(from, to, plan) && Reached(EffectiveMods(mods, to), from, to, plan, whole) && SameTable(r, whole)
  }

  lemma SameAsItself(t: Table)
    requires t.WellFormed()
    ensures SameTable(t, t)
  {
  }

  lemma AltersReach(judge: U.Judge, mods: StatementModifiers, from: Table, to: Table, plan: Plan)
    requires from.WellFormed() && to.WellFormed() && from.name == to.name && mods.allowUnsafe
    requires Alterable(mods, from, to) && ValidPlan(from, to, plan)
    ensures var r := RunOne(Some(from), AltersFor(from, to, plan).0 + AltersFor(from, to, plan).1,
            Executor(judge, mods));
            r.Some? && r.value.Some? && TableReached(mods, from, to, r.value.value)
  {
    hide Reached, SameTable, EffectiveMods, Select, ConflictPieces, RunPieces, AllPieces, DiffClauses, ValidPlan,
         Expressible, ApplyClauses,
         Table.WellFormed, AltersFor, Diff, Executor, RunOne;
    var actual := EffectiveMods(mods, to);
    var clauses := DiffClauses(from, to, plan);
    var whole := S.SplitDiffConverges(actual, from, to, plan);
    DiffIsWhole(mods, from, to, plan);
    AltersArePieces(from, to, plan);
    if |clauses| == 0 {
      NoClauses(actual, from);
      SameAsItself(from);
      NothingRuns(judge, mods, from);
    } else {
      PiecesExecute(judge, mods, from, AlterTable(from, to, clauses, true), AllPieces(clauses));
    }
  }

  lemma NothingRuns(judge: U.Judge, mods: StatementModifiers, t: Table)
    ensures RunOne(Some(t), [], Executor(judge, mods)) == Some(Some(t))
  {
  }

  lemma DiffIsWhole(mods: StatementModifiers, from: Table, to: Table, plan: Plan)
    requires from.WellFormed() && Alterable(mods, from, to) && ValidPlan(from, to, plan)
    ensures Diff(from, to, plan) == (DiffClauses(from, to, plan), true)
  {
    hide DiffClauses, ValidPlan, Expressible;
    if from.createStatement != "" && from.createStatement == to.createStatement {
      V.SelfDiffIsEmpty(from, plan);
    }
  }

  lemma AltersArePieces(from: Table, to: Table, plan: Plan)
    requires Diff(from, to, plan) == (DiffClauses(from, to, plan), true)
    ensures var clauses := DiffClauses(from, to, plan);
            AltersFor(from, to, plan).0 + AltersFor(from, to, plan).1
            == if |clauses| == 0 then [] else Pieces(AlterTable(from, to, clauses, true), AllPieces(clauses))
  {
    hide Select, Diff, DiffClauses;
  }

  lemma ChangesExecute(judge: U.Judge, mods: StatementModifiers, from: TableMap, to: TableMap, n: string, plan: Plan)
    requires WellFormed(from) && WellFormed(to) && mods.allowUnsafe
    requires n in from && n in to ==> Alterable(mods, from[n], to[n]) && ValidPlan(from[n], to[n], plan)
    ensures n in from ==> Droppable(from[n])
    ensures var r := RunOne(At(from, n), ChangesFor(from, to, n, plan), Executor(judge, mods));
            && r.Some? && (r.value.Some? <==> n in to)
            && (n in to && n in from ==> TableReached(mods, from[n], to[n], r.value.value))
            && (n in to && n !in from ==> r.value.value == Created(mods, to[n]))
  {
    hide AltersFor, TableReached, Alterable, ValidPlan, RunOne, Executor, Created, PreDrop;
    assert n in from ==> Droppable(from[n]) by { WellFormedDroppable(from, n); }
    if n in from && n in to {
      AltersReach(judge, mods, from[n], to[n], plan);
    } else if n in from {
      DropExecutes(judge, mods, from[n]);
      assert ChangesFor(from, to, n, plan) == PreDrop(from[n]) + [DropTable(from[n])];
    } else if n in to {
      CreateExecutes(judge, mods, to[n]);
    } else {
      NothingExecutes(judge, mods);
    }
  }

  lemma WellFormedDroppable(from: TableMap, n: string)
    requires WellFormed(from)
    ensures n in from ==> Droppable(from[n])
  {
  }

  lemma {:induction false} DropExecutes(judge: U.Judge, mods: StatementModifiers, t: Table)
    requires Droppable(t) && mods.allowUnsafe
    ensures RunOne(Some(t), PreDrop(t) + [DropTable(t)], Executor(judge, mods)) == Some(None)
  {
    hide ApplyClauses, PreDrop;
    PreDropExecutes(judge, mods, t, |PreDrop(t)|);
    var pre, drop := PreDrop(t), [DropTable(t)];
    assert pre[..|pre|] == pre && drop[..0] == [];
    RunOneConcat(Some(t), pre, drop, Executor(judge, mods));
  }

  lemma CreateExecutes(judge: U.Judge, mods: StatementModifiers, t: Table)
    ensures RunOne(None, [CreateTable(t)], Executor(judge, mods)) == Some(Some(Created(mods, t)))
  {
    hide ApplyClauses;
    assert [CreateTable(t)][..0] == [];
  }

  lemma NothingExecutes(judge: U.Judge, mods: StatementModifiers)
    ensures RunOne(None, [], Executor(judge, mods)) == Some(None)
  {
  }

  /** Schema-level convergence. With unsafe DDL allowed and all diffs supported,
      running the table diffs in the order in which they were emitted succeeds, and
      leaves exactly the target's tables, each of them created or altered into the
      target's version, for every order of map iteration. */
  lemma TablesConverge(judge: U.Judge, mods: StatementModifiers, from: TableMap, to: TableMap, visits: seq<Visit>,
      order: seq<string>)
    requires ValidOrders(from, to, visits, order) && mods.allowUnsafe
    requires forall n :: n in from && n in to ==> Alterable(mods, from[n], to[n])
    ensures var r := RunAll(from, TableChanges(from, to, visits, order), TableKey, Executor(judge, mods));
            && r.Some? && r.value.Keys == to.Keys
            && (forall n :: n in to && n in from ==> TableReached(mods, from[n], to[n], r.value[n]))
            && (forall n :: n in to && n !in from ==> r.value[n] == Created(mods, to[n]))
  {
    hide TableChanges, RunAll, RunOne, Of, ChangesFor, TableReached, Alterable, ValidPlan, ValidVisits, Executor,
         Created;
    var changes, act := TableChanges(from, to, visits, order), Executor(judge, mods);
    forall n ensures RunOne(At(from, n), Of(changes, TableKey, n), act).Some?
    {
      var plan := ChangesOf(from, to, visits, order, n);
      ChangesExecute(judge, mods, from, to, n, plan);
    }
    ObjectsAreIndependent(from, changes, TableKey, act);
    var r := RunAll(from, changes, TableKey, act).value;
    forall n ensures n in r <==> n in to
      ensures n in to && n in from ==> n in r && TableReached(mods, from[n], to[n], r[n])
      ensures n in to && n !in from ==> n in r && r[n] == Created(mods, to[n])
    {
      var plan := ChangesOf(from, to, visits, order, n);
      ChangesExecute(judge, mods, from, to, n, plan);
    }
  }

  /** A supported ALTER with an ADD FOREIGN KEY among its clauses. */
  predicate AddsForeignKeys(c: TableChange) {
    c.AlterTable? && c.supported && !NoFks(c.clauses)
  }

  lemma OneAltersNone(from: Table, to: Table, plan: Plan)
    ensures forall i :: 0 <= i < |AltersFor(from, to, plan).0| ==> !AddsForeignKeys(AltersFor(from, to, plan).0[i])
    ensures forall i :: 0 <= i < |AltersFor(from, to, plan).1| ==> AddsForeignKeys(AltersFor(from, to, plan).1[i])
  {
    hide Select, Diff;
    var (clauses, supported) := Diff(from, to, plan);
    var td := AlterTable(from, to, clauses, supported);
    if Splittable(td) {
      var others := Others(clauses);
      forall i | 0 <= i < |ConflictPieces(others)| && |others| > 0 ensures NoFks(ConflictPieces(others)[i]) {
        assert ConflictPieces(others)[i] == AllPieces(clauses)[i];
        PieceHasNoFks(clauses, i);
      }
      SelectElements(clauses, FkMarks(clauses), true);
      if |AddFks(clauses)| > 0 {
        assert AddFks(clauses)[0] in AddFks(clauses);
      }
    }
  }

  lemma PieceHasNoFks(clauses: seq<TableClause>, i: nat)
    requires |Others(clauses)| > 0 && i < |ConflictPieces(Others(clauses))|
    ensures NoFks(ConflictPieces(Others(clauses))[i])
  {
    hide Select;
    var others := Others(clauses);
    var p := ConflictPieces(others)[i];
    SelectElements(clauses, FkMarks(clauses), false);
    SelectElements(others, ConflictMarks(others), i > 0);
    forall k | 0 <= k < |p| ensures !IsAddFk(p[k]) {
      assert p[k] in Select(others, ConflictMarks(others), i > 0);
      assert p[k] in others;
    }
  }

  lemma AltersAddNone(from: TableMap, to: TableMap, visits: seq<Visit>, i: nat)
    requires Visitable(from, visits) && i < |Join(AlterChunks(from, to, visits))|
    ensures !AddsForeignKeys(Join(AlterChunks(from, to, visits))[i])
  {
    hide AltersFor, Join, AddsForeignKeys;
    var k := JoinElement(AlterChunks(from, to, visits), i);
    var v := visits[k];
    if v.name in to {
      OneAltersNone(from[v.name], to[v.name], v.plan);
    } else {
      DropsAddNone(from[v.name]);
    }
  }

  lemma DropsAddNone(t: Table)
    requires Droppable(t)
    ensures forall c :: c in PreDrop(t) + [DropTable(t)] ==> !AddsForeignKeys(c)
  {
  }

  lemma FksAddAll(from: TableMap, to: TableMap, visits: seq<Visit>, i: nat)
    requires Visitable(from, visits) && i < |Join(FkChunks(from, to, visits))|
    ensures AddsForeignKeys(Join(FkChunks(from, to, visits))[i])
  {
    hide AltersFor, Join, AddsForeignKeys;
    var k := JoinElement(FkChunks(from, to, visits), i);
    var v := visits[k];
    if v.name in to {
      OneAltersNone(from[v.name], to[v.name], v.plan);
    }
  }

  lemma CreatesAddNone(from: TableMap, to: TableMap, order: seq<string>, i: nat)
    requires (forall k :: 0 <= k < |order| ==> order[k] in to) && i < |Join(CreateChunks(from, to, order))|
    ensures !AddsForeignKeys(Join(CreateChunks(from, to, order))[i])
  {
    hide Join;
    var k := JoinElement(CreateChunks(from, to, order), i);
  }

  /** Once an ALTER that adds foreign keys was emitted, only such ALTERs follow. */
  lemma ForeignKeysComeLast(from: TableMap, to: TableMap, visits: seq<Visit>, order: seq<string>, i: nat, j: nat)
    requires ValidOrders(from, to, visits, order) && i < j < |TableChanges(from, to, visits, order)|
    requires AddsForeignKeys(TableChanges(from, to, visits, order)[i])
    ensures AddsForeignKeys(TableChanges(from, to, visits, order)[j])
  {
    hide Join, AddsForeignKeys, ValidVisits, WellFormed;
    OrdersAreInRange(from, to, visits, order);
    var alters, creates, fks := Join(AlterChunks(from, to, visits)), Join(CreateChunks(from, to, order)),
        Join(FkChunks(from, to, visits));
    assert TableChanges(from, to, visits, order) == alters + creates + fks;
    if i < |alters| {
      AltersAddNone(from, to, visits, i);
    } else if i < |alters| + |creates| {
      CreatesAddNone(from, to, order, i - |alters|);
    } else {
      FksAddAll(from, to, visits, j - |alters| - |creates|);
    }
  }
}
