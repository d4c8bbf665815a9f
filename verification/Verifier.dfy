// Diff verification (internal/applier/verifier.go): applying the strictest form
// of a diff and diffing again finds nothing left to do.

module Verifier {
  import opened Wrappers
  import opened NamedLists
  import opened Modifiers
  import opened Tables
  import opened TableDiff
  import opened Alter
  import U = UnsafeTypes
  import C = Columns
  import CD = ColumnDiff
  import CO = ColumnOrder
  import Seqs = Subsequences
  import I = Indexes
  import ID = IndexDiff
  import F = ForeignKeys
  import K = Checks
  import A = Attributes
  import Splitting
  import SplitMeaning
  import SplitSafety

  /** The modifiers of the ALTERs run in the workspace. */
  function StrictModifiers(flavor: Flavor): StatementModifiers {
    StatementModifiers(Always, Permissive, true, true, true, true, true, false, true, flavor)
  }

  /** The modifiers of the second diff: cosmetic column differences are tolerated. */
  function SecondModifiers(flavor: Flavor): StatementModifiers {
    StrictModifiers(flavor).(strictColumnDefinition := false)
  }

  // ----- diffing equal components -----

  lemma ColumnsSelf(t: seq<C.Column>, stay: set<string>)
    requires Unique(t) && CD.Optimal(t, t, stay)
    ensures C.ColumnClauses(t, t, stay) == []
  {
    OnlyAll(t, Names(t));
    assert Only(t, Names(t)) == t;
    CO.PositionsOfSelf(t);
    NameCount(t);
    assert Seqs.Increasing(CO.UpTo(|t|));
    SubSelf(CO.UpTo(|t|));
    if stay != Names(t) {
      SubsetSmaller(stay, Names(t));
    }
    NoDrops(t, |t|);
    NoAdds(t, |t|);
    NoModifies(t, |t|);
  }

  lemma SubsetSmaller(a: set<string>, b: set<string>)
    requires a < b
    ensures |a| < |b|
  {
    var x :| x in b && x !in a;
    SubsetSize(a, b - {x});
  }

  lemma {:induction false} SubSelf(s: seq<int>)
    ensures Seqs.Sub(s, s)
  {
    if |s| > 0 {
      SubSelf(s[..|s| - 1]);
    }
  }

  lemma {:induction false} NoDrops(t: seq<C.Column>, n: nat)
    requires n <= |t|
    ensures C.DropClauses(t, Names(t), n) == []
  {
    hide Names, Unique, IndexOf;
    if n > 0 {
      NoDrops(t, n - 1);
      NameAt(t, n - 1);
    }
  }

  lemma {:induction false} NoAdds(t: seq<C.Column>, n: nat)
    requires n <= |t|
    ensures C.AddClauses(t, n, Names(t)) == []
  {
    hide Names, Unique, IndexOf;
    if n > 0 {
      NoAdds(t, n - 1);
      NameAt(t, n - 1);
    }
  }

  lemma {:induction false} NoModifies(t: seq<C.Column>, n: nat)
    requires Unique(t) && n <= |t| && C.AllIn(t, t)
    ensures C.ModifyClauses(t, t, n, Names(t)) == []
  {
    hide Names, Unique, IndexOf, Only;
    if n > 0 {
      NoModifies(t, n - 1);
      NameAt(t, n - 1);
      Lookup(t, n - 1);
    }
  }

  lemma IndexesSelf(keys: ID.Keys)
    requires ID.WellFormed(keys)
    ensures ID.IndexClauses(keys, keys) == []
  {
    NoIndexDrops(keys.secondary, |keys.secondary|);
    NoIndexMoves(keys.secondary, |keys.secondary|);
  }

  lemma {:induction false} NoIndexDrops(s: seq<I.Index>, n: nat)
    requires n <= |s|
    ensures ID.DropClauses(s, s, n) == []
  {
    hide Names, Unique, IndexOf;
    if n > 0 {
      NoIndexDrops(s, n - 1);
      NameAt(s, n - 1);
    }
  }

  lemma {:induction false} NoIndexMoves(s: seq<I.Index>, n: nat)
    requires Unique(s) && n <= |s|
    ensures !ID.Reordering(s, s, n) && ID.PositionsClauses(s, s, n) == []
  {
    hide Names, Unique, IndexOf, Only;
    OnlyAll(s, Names(s));
    if n > 0 {
      NoIndexMoves(s, n - 1);
      Lookup(s, n - 1);
      assert ID.PositionClauses(s, s, n - 1) == [];
    }
  }

  lemma FksSame(a: seq<F.ForeignKey>, b: seq<F.ForeignKey>, aOrder: seq<F.ForeignKey>, bOrder: seq<F.ForeignKey>)
    requires Unique(b) && SameElements(a, b) && SameElements(aOrder, a) && SameElements(bOrder, b)
    ensures F.FkClauses(a, b, aOrder, bOrder) == []
  {
    NoFkAdds(a, bOrder, |bOrder|);
    NoFkChanges(b, aOrder, |aOrder|);
  }

  lemma {:induction false} NoFkAdds(from: seq<F.ForeignKey>, toOrder: seq<F.ForeignKey>, n: nat)
    requires n <= |toOrder| && Names(toOrder) <= Names(from)
    ensures F.AddClauses(from, toOrder, n) == []
  {
    hide Names, Unique, IndexOf, F.AddClause;
    if n > 0 {
      NoFkAdds(from, toOrder, n - 1);
      NameAt(toOrder, n - 1);
      NoFkAdd(from, toOrder[n - 1]);
    }
  }

  lemma NoFkAdd(from: seq<F.ForeignKey>, f: F.ForeignKey)
    requires f.name in Names(from)
    ensures F.AddClause(from, f) == []
  {
  }

  lemma {:induction false} NoFkChanges(to: seq<F.ForeignKey>, fromOrder: seq<F.ForeignKey>, n: nat)
    requires n <= |fromOrder| && Unique(fromOrder) && Names(fromOrder) == Names(to)
    requires forall m :: m in Names(to) ==> Get(fromOrder, m) == Get(to, m)
    ensures F.ChangeClauses(to, fromOrder, n) == []
  {
    hide Names, Unique, Get, F.ChangeClause, IndexOf;
    if n > 0 {
      NoFkChanges(to, fromOrder, n - 1);
      Lookup(fromOrder, n - 1);
      NoFkChange(to, fromOrder[n - 1]);
    }
  }

  lemma NoFkChange(to: seq<F.ForeignKey>, f: F.ForeignKey)
    requires Has(to, f.name) && Get(to, f.name) == f
    ensures F.ChangeClause(to, f) == []
  {
  }

  /** Diffing the same checks in another order only re-orders. */
  lemma {:induction false} ChecksOnlyMove(a: seq<K.Check>, b: seq<K.Check>, n: nat)
    requires Unique(b) && SameElements(a, b) && n <= |b|
    ensures forall c :: c in K.PositionsClauses(a, b, n) ==> !c.AlterCheck? && c.reorderOnly
  {
    hide Names, Unique, K.Reordering;
    if n > 0 {
      ChecksOnlyMove(a, b, n - 1);
      Lookup(b, n - 1);
      assert Get(a, b[n - 1].name) == b[n - 1];
    }
  }

  lemma {:induction false} NoCheckDrops(a: seq<K.Check>, b: seq<K.Check>, n: nat)
    requires Names(a) == Names(b) && n <= |a|
    ensures K.DropClauses(a, b, n) == []
  {
    hide Names, Unique, IndexOf;
    if n > 0 {
      NoCheckDrops(a, b, n - 1);
      NameAt(a, n - 1);
    }
  }

  lemma {:induction false} NoCheckMoves(s: seq<K.Check>, n: nat)
    requires Unique(s) && n <= |s|
    ensures !K.Reordering(s, s, n) && K.PositionsClauses(s, s, n) == []
  {
    hide Names, Unique, IndexOf, Only;
    OnlyAll(s, Names(s));
    if n > 0 {
      NoCheckMoves(s, n - 1);
      Lookup(s, n - 1);
      assert K.PositionClauses(s, s, n - 1) == [];
    }
  }

  // ----- the whole table -----

  /** Diffing a table with itself gives no clauses. */
  lemma SelfDiffIsEmpty(t: Table, plan: Plan)
    requires t.WellFormed() && ValidPlan(t, t, plan)
    ensures DiffClauses(t, t, plan) == []
  {
    hide Unique, Names, C.ColumnClauses, ID.IndexClauses, F.FkClauses, CD.Optimal;
    ColumnsSelf(t.columns, plan.stay);
    IndexesSelf(t.keys);
    FksSame(t.foreignKeys, t.foreignKeys, plan.fromFkOrder, plan.toFkOrder);
    NoCheckDrops(t.checks, t.checks, |t.checks|);
    NoCheckMoves(t.checks, |t.checks|);
    NoPartitionDiff(t.attrs.partitioning);
  }

  lemma NoPartitionDiff(p: Option<A.TablePartitioning>)
    ensures A.PartitioningDiff(p, p) == ([], true)
  {
  }

  /** The table that the workspace holds after the strict ALTER ran there. */
  ghost function Altered(flavor: Flavor, from: Table, to: Table, plan: Plan): Option<Table> {
    ApplyClauses(StrictModifiers(flavor), from, DiffClauses(from, to, plan))
  }

  /** `r` is what the strict ALTERs lead to. */
  ghost predicate StrictlyReached(flavor: Flavor, from: Table, to: Table, plan: Plan, r: Table) {
    && from.WellFormed() && to.WellFormed()
    && A.PartitioningDiff(from.attrs.partitioning, to.attrs.partitioning).1
    && Reached(StrictModifiers(flavor), from, to, plan, r)
  }

  /** Every clause of the second diff is without text. */
  lemma SecondDiffHasNoText(flavor: Flavor, from: Table, to: Table, plan: Plan, r: Table, plan2: Plan, c: TableClause)
    requires StrictlyReached(flavor, from, to, plan, r) && ValidPlan(r, to, plan2) && c in DiffClauses(r, to, plan2)
    ensures Suppressed(SecondModifiers(flavor), c)
  {
    hide Unique, Names, C.ColumnClauses, ID.IndexClauses, F.FkClauses, CD.Optimal, ApplyClauses, SameElements,
         Flavor.CanHideIndexes,
         A.CharSetClauses, A.RestClauses, A.Suppressed, A.PartitioningDiff, C.LandedAll, A.LandedAttrs, F.Final,
             K.PositionsClauses, K.DropClauses;
    var mods := StrictModifiers(flavor);
    ColumnsSelf(to.columns, plan2.stay);
    IndexesSelf(to.keys);
    FksSame(r.foreignKeys, to.foreignKeys, plan2.fromFkOrder, plan2.toFkOrder);
    SameNames(r.checks, to.checks);
    NoCheckDrops(r.checks, to.checks, |r.checks|);
    if StrictChecks(mods) {
      NoCheckMoves(to.checks, |to.checks|);
    } else {
      ChecksOnlyMove(r.checks, to.checks, |to.checks|);
    }
    if c.OnAttrs? {
      A.AttrsSettle(mods, from.attrs, to.attrs, to.HasAutoIncrement(), c.attr);
      AttrSuppression(flavor, c.attr);
    }
  }

  lemma SameNames(a: seq<K.Check>, b: seq<K.Check>)
    requires SameElements(a, b)
    ensures Names(a) == Names(b)
  {
  }

  lemma AttrSuppression(flavor: Flavor, c: A.AttrClause)
    ensures A.Suppressed(StrictModifiers(flavor), c) <==> A.Suppressed(SecondModifiers(flavor), c)
  {
  }

  datatype Verdict = Passed | UnsupportedDifference | NotReached(leftover: seq<TableClause>)

  /** verifyTable: the second diff, of the actual table against the desired one. */
  method VerifyTable(judge: U.Judge, actual: Table, desired: Table, mods: StatementModifiers)
      returns (v: Verdict, ghost plan: Plan)
    requires actual.WellFormed() && desired.WellFormed() && actual.name == desired.name
    ensures ValidPlan(actual, desired, plan)
    ensures var (clauses, supported) := Diff(actual, desired, plan);
            v == match AlterOutcome(judge, clauses, supported, desired, mods)
                 case Blank => Passed
                 case Unsupported => UnsupportedDifference
                 case Forbidden(left) => NotReached(left)
                 case Run(left) => NotReached(left)
  {
    var clauses, supported;
    clauses, supported, plan := DiffTables(actual, desired);
    if supported && |clauses| == 0 {
      return Passed, plan;
    }
    var stmt := AlterStatement(judge, clauses, supported, desired, mods);
    match stmt
    case Blank => return Passed, plan;
    case Unsupported => return UnsupportedDifference, plan;
    case Forbidden(left) => return NotReached(left), plan;
    case Run(left) => return NotReached(left), plan;
  }

  /** The second diff finds nothing left to run, and is reported as unsupported only when
      no clause at all explains that the two SHOW CREATE TABLE texts differ. */
  ghost predicate Settled(judge: U.Judge, flavor: Flavor, r: Table, to: Table, plan2: Plan) {
    ValidPlan(r, to, plan2) ==>
      var (clauses, supported) := Diff(r, to, plan2);
      var outcome := AlterOutcome(judge, clauses, supported, to, SecondModifiers(flavor));
      && (outcome.Blank? || outcome.Unsupported?)
      && (outcome.Unsupported? <==>
          DiffClauses(r, to, plan2) == [] && r.createStatement != "" && to.createStatement != ""
                                    && r.createStatement != to.createStatement)
  }

  lemma ReachedSettles(judge: U.Judge, flavor: Flavor, from: Table, to: Table, plan: Plan, r: Table, plan2: Plan)
    requires StrictlyReached(flavor, from, to, plan, r) && !r.unsupportedDDL && !to.unsupportedDDL
    ensures Settled(judge, flavor, r, to, plan2)
  {
    hide ApplyClauses, Suppressed, DiffClauses, ValidPlan, ClusteredIndexKey, A.PartitioningDiff, Reached;
    if ValidPlan(r, to, plan2) {
      var clauses := DiffClauses(r, to, plan2);
      assert A.PartitioningDiff(r.attrs.partitioning,
          to.attrs.partitioning).1 by { SettledPartitioning(flavor, from, to, plan, r); }
      forall i | 0 <= i < |clauses| ensures Suppressed(SecondModifiers(flavor), clauses[i]) {
        SecondDiffHasNoText(flavor, from, to, plan, r, plan2, clauses[i]);
      }
      NothingEmitted(SecondModifiers(flavor), clauses, |clauses|);
      NothingEmitted(SecondModifiers(flavor), [], 0);
    }
  }

  lemma SettledPartitioning(flavor: Flavor, from: Table, to: Table, plan: Plan, r: Table)
    requires StrictlyReached(flavor, from, to, plan, r)
    ensures A.PartitioningDiff(r.attrs.partitioning, to.attrs.partitioning).1
  {
    hide ApplyClauses, DiffClauses, Expressible, ValidPlan, A.PartitioningDiff, A.LandedAttrs, A.Suppressed,
         A.RestClauses, A.CharSetClauses;
    A.AttrsSettle(StrictModifiers(flavor), from.attrs, to.attrs, to.HasAutoIncrement(), A.RemovePartitioning);
  }

  /** Verification is a fixed point: whatever SHOW CREATE TABLE says in the workspace,
      the second diff finds nothing left to run. */
  lemma VerificationSettles(judge: U.Judge, flavor: Flavor, from: Table, to: Table, plan: Plan, created: string,
      plan2: Plan)
    requires from.WellFormed() && to.WellFormed() && from.name == to.name
    requires !from.unsupportedDDL && !to.unsupportedDDL
    requires ValidPlan(from, to, plan) && Expressible(StrictModifiers(flavor), from, to)
    requires A.PartitioningDiff(from.attrs.partitioning, to.attrs.partitioning).1
    ensures Altered(flavor, from, to, plan).Some?
    ensures Settled(judge, flavor, Altered(flavor, from, to, plan).value.(createStatement := created), to, plan2)
  {
    hide ApplyClauses, DiffClauses, Expressible, ValidPlan, A.PartitioningDiff, Settled, Reached;
    TableConverges(StrictModifiers(flavor), from, to, plan);
    var r := Altered(flavor, from, to, plan).value;
    KeepsFlags(StrictModifiers(flavor), from, DiffClauses(from, to, plan));
    ReachedText(StrictModifiers(flavor), from, to, plan, r, created);
    ReachedSettles(judge, flavor, from, to, plan, r.(createStatement := created), plan2);
  }

  /** What is reached does not depend on the text of SHOW CREATE TABLE. */
  lemma ReachedText(mods: StatementModifiers, from: Table, to: Table, plan: Plan, r: Table, created: string)
    requires Reached(mods, from, to, plan, r)
    ensures Reached(mods, from, to, plan, r.(createStatement := created))
  {
  }

  /** The same holds when the ALTER was split to add foreign keys or several FULLTEXT indexes
      separately, provided that FULLTEXT indexes are listed last or did not have to be split. */
  lemma SplitVerificationSettles(judge: U.Judge, flavor: Flavor, from: Table, to: Table, plan: Plan, created: string,
      plan2: Plan)
    requires from.WellFormed() && to.WellFormed() && from.name == to.name
    requires !from.unsupportedDDL && !to.unsupportedDDL
    requires ValidPlan(from, to, plan) && Expressible(StrictModifiers(flavor), from, to)
    requires A.PartitioningDiff(from.attrs.partitioning, to.attrs.partitioning).1
    requires Splitting.Conflicting(Splitting.Others(DiffClauses(from, to, plan))) == []
             || SplitSafety.FullTextLast(to.keys.secondary)
    ensures var r := SplitMeaning.RunPieces(StrictModifiers(flavor), from,
                                            Splitting.AllPieces(DiffClauses(from, to, plan)));
            r.Some? && Settled(judge, flavor, r.value.(createStatement := created), to, plan2)
  {
    hide ApplyClauses, DiffClauses, Expressible, ValidPlan, A.PartitioningDiff, Settled, Reached,
         Splitting.AllPieces, Splitting.Conflicting, Splitting.Others, SplitMeaning.RunPieces, SplitSafety.FullTextLast;
    var mods := StrictModifiers(flavor);
    var whole := SplitSafety.SplitDiffConverges(mods, from, to, plan);
    var r := SplitMeaning.RunPieces(mods, from, Splitting.AllPieces(DiffClauses(from, to, plan))).value;
    KeepsFlags(mods, from, DiffClauses(from, to, plan));
    if SplitSafety.FullTextLast(to.keys.secondary) {
      SplitSafety.SplitReachesOrder(mods, from, to, plan);
      assert whole.keys == to.keys by { ReachedKeys(mods, from, to, plan, whole); }
    }
    ReachedBySplit(mods, from, to, plan, whole, r);
    ReachedText(mods, from, to, plan, r, created);
    ReachedSettles(judge, flavor, from, to, plan, r.(createStatement := created), plan2);
  }

  lemma ReachedKeys(mods: StatementModifiers, from: Table, to: Table, plan: Plan, r: Table)
    requires Reached(mods, from, to, plan, r) && mods.strictIndexOrder
    ensures r.keys == to.keys
  {
  }

  /** The order of the foreign keys does not matter. */
  lemma ReachedBySplit(mods: StatementModifiers, from: Table, to: Table, plan: Plan, whole: Table, r: Table)
    requires Reached(mods, from, to, plan, whole) && SplitMeaning.SameTable(r, whole) && r.keys == whole.keys
             && mods.strictForeignKeyNaming
    ensures Reached(mods, from, to, plan, r)
  {
    hide Unique, Names, C.LandedAll, A.LandedAttrs, F.Final;
    forall n ensures F.Find(r.foreignKeys, n) == F.Find(whole.foreignKeys, n) {
    }
  }

  lemma {:induction false} NothingEmitted(mods: StatementModifiers, clauses: seq<TableClause>, n: nat)
    requires n <= |clauses| && forall i :: 0 <= i < n ==> Suppressed(mods, clauses[i])
    ensures Emitted(mods, clauses, n) == []
  {
    hide Suppressed;
    if n > 0 {
      NothingEmitted(mods, clauses, n - 1);
    }
  }

  lemma {:induction false} KeepsFlags(mods: StatementModifiers, t: Table, clauses: seq<TableClause>)
    ensures ApplyClauses(mods, t, clauses).Some? ==>
              var r := ApplyClauses(mods, t, clauses).value;
              r.unsupportedDDL == t.unsupportedDDL && r.createStatement == t.createStatement
    decreases |clauses|
  {
    if |clauses| > 0 {
      match ApplyClause(mods, t, clauses[0])
      case None =>
      case Some(next) => KeepsFlags(mods, next, clauses[1..]);
    }
  }
}
