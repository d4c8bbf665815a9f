// Table.Diff and ALTER TABLE statements (internal/tengo/table.go,
// internal/tengo/diff.go), and what applying them does.

module TableDiff {
  import opened Wrappers
  import opened NamedLists
  import opened Modifiers
  import opened Tables
  import C = Columns
  import CD = ColumnDiff
  import ID = IndexDiff
  import F = ForeignKeys
  import K = Checks
  import A = Attributes

  function FromColumn(c: C.ColumnClause): TableClause { OnColumns(c) }
  function FromIndex(c: ID.IndexClause): TableClause { OnIndexes(c) }
  function FromFk(c: F.FkClause): TableClause { OnForeignKeys(c) }
  function FromCheck(c: K.CheckClause): TableClause { OnChecks(c) }
  function FromAttr(c: A.AttrClause): TableClause { OnAttrs(c) }

  /** What the inputs leave open: which longest set of columns stays put, and the
      order in which the foreign-key maps are iterated. */
  datatype Plan = Plan(stay: set<string>, fromFkOrder: seq<F.ForeignKey>, toFkOrder: seq<F.ForeignKey>)

  ghost predicate ValidPlan(from: Table, to: Table, plan: Plan) {
    && CD.Optimal(from.columns, to.columns, plan.stay)
    && SameElements(plan.fromFkOrder, from.foreignKeys) && SameElements(plan.toFkOrder, to.foreignKeys)
  }

  /** The clauses of Table.Diff for two supported tables, in emission order. */
  function DiffClauses(from: Table, to: Table, plan: Plan): seq<TableClause> {
    Lift(A.CharSetClauses(from.attrs, to.attrs), FromAttr)
    + Lift(C.ColumnClauses(from.columns, to.columns, plan.stay), FromColumn)
    + Lift(ID.IndexClauses(from.keys, to.keys), FromIndex)
    + Lift(F.FkClauses(from.foreignKeys, to.foreignKeys, plan.fromFkOrder, plan.toFkOrder), FromFk)
    + Lift(K.CheckClauses(from.checks, to.checks), FromCheck)
    + Lift(A.RestClauses(from.attrs, to.attrs, to.HasAutoIncrement()), FromAttr)
  }

  /** The result of Table.Diff: clauses, and whether the diff is supported. */
  function Diff(from: Table, to: Table, plan: Plan): (seq<TableClause>, bool) {
    if from.createStatement != "" && from.createStatement == to.createStatement then ([], true)
    else if from.unsupportedDDL || to.unsupportedDDL then ([], false)
    else
      var clauses := DiffClauses(from, to, plan);
      if !A.PartitioningDiff(from.attrs.partitioning, to.attrs.partitioning).1 then (clauses, false)
      else if |clauses| == 0 && from.createStatement != "" && to.createStatement != "" then (clauses, false)
      else (clauses, true)
  }

  method DiffTables(from: Table, to: Table) returns (clauses: seq<TableClause>, supported: bool, ghost plan: Plan)
    requires from.WellFormed() && to.WellFormed() && from.name == to.name
    ensures ValidPlan(from, to, plan)
    ensures (clauses, supported) == Diff(from, to, plan)
  {
    hide C.ColumnClauses, ID.IndexClauses, F.FkClauses, K.CheckClauses, A.RestClauses, A.CharSetClauses,
         A.PartitioningDiff, CD.Optimal, Unique;
    var columnClauses, fkClauses;
    ghost var stay, fromOrder, toOrder;
    columnClauses, stay := CD.DiffColumns(from.columns, to.columns);
    var indexClauses := ID.DiffIndexes(from.keys, to.keys);
    fkClauses, fromOrder, toOrder := F.DiffForeignKeys(from.foreignKeys, to.foreignKeys);
    var checkClauses := K.DiffChecks(from.checks, to.checks);
    plan := Plan(stay, fromOrder, toOrder);
    if from.createStatement != "" && from.createStatement == to.createStatement {
      return [], true, plan;
    }
    if from.unsupportedDDL || to.unsupportedDDL {
      return [], false, plan;
    }
    clauses := Lift(A.CharSetClauses(from.attrs, to.attrs), FromAttr) + Lift(columnClauses, FromColumn);
    clauses := clauses + Lift(indexClauses, FromIndex);
    clauses := clauses + Lift(fkClauses, FromFk);
    clauses := clauses + Lift(checkClauses, FromCheck);
    clauses := clauses + Lift(A.RestClauses(from.attrs, to.attrs, to.HasAutoIncrement()), FromAttr);
    var partSupported := A.PartitioningDiff(from.attrs.partitioning, to.attrs.partitioning).1;
    supported := partSupported && !(|clauses| == 0 && from.createStatement != "" && to.createStatement != "");
  }

  // ----- convergence of a whole table -----

  /** What the target asks for can be expressed on this flavor: index visibility
      can be changed or need not be, and MariaDB has no unenforced checks. */
  ghost predicate Expressible(mods: StatementModifiers, from: Table, to: Table) {
    && ID.VisibilityReachable(mods.flavor.CanHideIndexes(), from.keys.secondary, to.keys.secondary)
    && (StrictChecks(mods) ==> K.SameEnforcement(from.checks, to.checks))
  }

  /** `r` is what the ALTER TABLE leaves: the target, up to what the modifiers suppress. */
  ghost predicate Reached(mods: StatementModifiers, from: Table, to: Table, plan: Plan, r: Table) {
    && r.name == to.name
    && r.columns == C.LandedAll(mods.strictColumnDefinition, from.columns, to.columns, plan.stay)
    && (mods.strictColumnDefinition ==> r.columns == to.columns)
    && r.keys.primary == to.keys.primary && SameElements(r.keys.secondary, to.keys.secondary)
    && (mods.strictIndexOrder ==> r.keys == to.keys)
    && Unique(r.foreignKeys)
    && (forall n ::
        F.Find(r.foreignKeys, n) == F.Final(mods.strictForeignKeyNaming, from.foreignKeys, to.foreignKeys, n))
    && (mods.strictForeignKeyNaming ==> SameElements(r.foreignKeys, to.foreignKeys))
    && SameElements(r.checks, to.checks)
    && (StrictChecks(mods) ==> r.checks == to.checks)
    && r.attrs == A.LandedAttrs(mods, from.attrs, to.attrs, to.HasAutoIncrement())
  }

  lemma LiftedParts(x: seq<A.AttrClause>, c: seq<C.ColumnClause>, i: seq<ID.IndexClause>, f: seq<F.FkClause>,
      k: seq<K.CheckClause>)
    ensures ColumnPart(Lift(x, FromAttr)) == [] && ColumnPart(Lift(c, FromColumn)) == c
            && ColumnPart(Lift(i, FromIndex)) == []
            && ColumnPart(Lift(f, FromFk)) == [] && ColumnPart(Lift(k, FromCheck)) == []
    ensures IndexPart(Lift(x, FromAttr)) == [] && IndexPart(Lift(c, FromColumn)) == []
            && IndexPart(Lift(i, FromIndex)) == i
            && IndexPart(Lift(f, FromFk)) == [] && IndexPart(Lift(k, FromCheck)) == []
    ensures FkPart(Lift(x, FromAttr)) == [] && FkPart(Lift(c, FromColumn)) == [] && FkPart(Lift(i, FromIndex)) == []
            && FkPart(Lift(f, FromFk)) == f && FkPart(Lift(k, FromCheck)) == []
    ensures CheckPart(Lift(x, FromAttr)) == [] && CheckPart(Lift(c, FromColumn)) == []
            && CheckPart(Lift(i, FromIndex)) == []
            && CheckPart(Lift(f, FromFk)) == [] && CheckPart(Lift(k, FromCheck)) == k
    ensures AttrPart(Lift(x, FromAttr)) == x && AttrPart(Lift(c, FromColumn)) == []
            && AttrPart(Lift(i, FromIndex)) == []
            && AttrPart(Lift(f, FromFk)) == [] && AttrPart(Lift(k, FromCheck)) == []
  {
    hide Pick, Lift;
    PickLifted(x, FromAttr, AsAttr);
    PickLifted(c, FromColumn, AsColumn);
    PickLifted(i, FromIndex, AsIndex);
    PickLifted(f, FromFk, AsFk);
    PickLifted(k, FromCheck, AsCheck);
    PickOthers(x, FromAttr, AsColumn);
    PickOthers(x, FromAttr, AsIndex);
    PickOthers(x, FromAttr, AsFk);
    PickOthers(x, FromAttr, AsCheck);
    PickOthers(c, FromColumn, AsAttr);
    PickOthers(c, FromColumn, AsIndex);
    PickOthers(c, FromColumn, AsFk);
    PickOthers(c, FromColumn, AsCheck);
    PickOthers(i, FromIndex, AsAttr);
    PickOthers(i, FromIndex, AsColumn);
    PickOthers(i, FromIndex, AsFk);
    PickOthers(i, FromIndex, AsCheck);
    PickOthers(f, FromFk, AsAttr);
    PickOthers(f, FromFk, AsColumn);
    PickOthers(f, FromFk, AsIndex);
    PickOthers(f, FromFk, AsCheck);
    PickOthers(k, FromCheck, AsAttr);
    PickOthers(k, FromCheck, AsColumn);
    PickOthers(k, FromCheck, AsIndex);
    PickOthers(k, FromCheck, AsFk);
  }

  lemma PickSix<T>(a: seq<TableClause>, b: seq<TableClause>, c: seq<TableClause>, d: seq<TableClause>,
      e: seq<TableClause>, f: seq<TableClause>,
                   pick: TableClause -> Option<T>)
    ensures Pick(a + b + c + d + e + f, pick)
            == Pick(a, pick) + Pick(b, pick) + Pick(c, pick) + Pick(d, pick) + Pick(e, pick) + Pick(f, pick)
  {
    hide Pick;
    PickConcat(a, b, pick);
    PickConcat(a + b, c, pick);
    PickConcat(a + b + c, d, pick);
    PickConcat(a + b + c + d, e, pick);
    PickConcat(a + b + c + d + e, f, pick);
  }

  /** The clauses of a diff, sorted by the component they act on. */
  lemma DiffParts(from: Table, to: Table, plan: Plan)
    ensures ColumnPart(DiffClauses(from, to, plan)) == C.ColumnClauses(from.columns, to.columns, plan.stay)
    ensures IndexPart(DiffClauses(from, to, plan)) == ID.IndexClauses(from.keys, to.keys)
    ensures FkPart(DiffClauses(from, to, plan))
            == F.FkClauses(from.foreignKeys, to.foreignKeys, plan.fromFkOrder, plan.toFkOrder)
    ensures CheckPart(DiffClauses(from, to, plan)) == K.CheckClauses(from.checks, to.checks)
    ensures AttrPart(DiffClauses(from, to, plan))
            == A.CharSetClauses(from.attrs, to.attrs) + A.RestClauses(from.attrs, to.attrs, to.HasAutoIncrement())
  {
    hide Pick, Lift, C.ColumnClauses, ID.IndexClauses, F.FkClauses, K.CheckClauses, A.CharSetClauses, A.RestClauses;
    var x, c := A.CharSetClauses(from.attrs, to.attrs), C.ColumnClauses(from.columns, to.columns, plan.stay);
    var i := ID.IndexClauses(from.keys, to.keys);
    var f := F.FkClauses(from.foreignKeys, to.foreignKeys, plan.fromFkOrder, plan.toFkOrder);
    var k, y := K.CheckClauses(from.checks, to.checks), A.RestClauses(from.attrs, to.attrs, to.HasAutoIncrement());
    var lx, lc, li := Lift(x, FromAttr), Lift(c, FromColumn), Lift(i, FromIndex);
    var lf, lk, ly := Lift(f, FromFk), Lift(k, FromCheck), Lift(y, FromAttr);
    LiftedParts(x, c, i, f, k);
    LiftedParts(y, c, i, f, k);
    PickSix(lx, lc, li, lf, lk, ly, AsColumn);
    PickSix(lx, lc, li, lf, lk, ly, AsIndex);
    PickSix(lx, lc, li, lf, lk, ly, AsFk);
    PickSix(lx, lc, li, lf, lk, ly, AsCheck);
    PickSix(lx, lc, li, lf, lk, ly, AsAttr);
  }

  /** Applying the clauses of Table.Diff in order never fails and reaches the target. */
  lemma TableConverges(mods: StatementModifiers, from: Table, to: Table, plan: Plan)
    requires from.WellFormed() && to.WellFormed() && from.name == to.name
    requires ValidPlan(from, to, plan) && Expressible(mods, from, to)
    ensures var r := ApplyClauses(mods, from, DiffClauses(from, to, plan));
            r.Some? && Reached(mods, from, to, plan, r.value)
  {
    hide DiffClauses, C.ApplyColumns, ID.ApplyIndexes, F.ApplyFks, K.ApplyChecks, A.ApplyAttrs, Unique, SameElements,
         C.LandedAll, F.Final, A.LandedAttrs, ID.VisibilityReachable, K.SameEnforcement, C.ColumnClauses,
         ID.IndexClauses, F.FkClauses, K.CheckClauses, A.CharSetClauses, A.RestClauses, CD.Optimal, C.InOrder,
         ColumnPart, IndexPart, FkPart, CheckPart, AttrPart, ApplyClauses, Flavor.CanHideIndexes, StrictChecks,
         Table.HasAutoIncrement, Names, ID.WellFormed, F.Find;
    PartsAreIndependent(mods, from, DiffClauses(from, to, plan));
    DiffParts(from, to, plan);
    StayIsCommon(from.columns, to.columns, plan.stay);
    C.ColumnsConverge(mods.strictColumnDefinition, from.columns, to.columns, plan.stay);
    ID.IndexesConverge(mods.strictIndexOrder, mods.flavor.CanHideIndexes(), from.keys, to.keys);
    F.ForeignKeysConverge(mods.strictForeignKeyNaming, from.foreignKeys, to.foreignKeys, plan.fromFkOrder,
        plan.toFkOrder);
    K.ChecksConverge(StrictChecks(mods), from.checks, to.checks);
    A.AttrsConverge(mods, from.attrs, to.attrs, to.HasAutoIncrement());
  }

  lemma StayIsCommon(from: seq<C.Column>, to: seq<C.Column>, stay: set<string>)
    requires Unique(from) && Unique(to) && CD.Optimal(from, to, stay)
    ensures stay <= Names(from) * Names(to) && C.InOrder(from, to, stay)
  {
    CD.CommonSame(from, to);
  }
}
