// ALTER TABLE statements (internal/tengo/diff.go): which clauses are emitted,
// which statements are forbidden, and two guarantees on the outcome.

module Alter {
  import opened NamedLists
  import opened Modifiers
  import opened Tables
  import opened TableDiff
  import U = UnsafeTypes
  import C = Columns
  import CD = ColumnDiff
  import I = Indexes

  predicate UnsafeClause(judge: U.Judge, clause: TableClause) {
    match clause
    case OnColumns(DropColumn(c)) => !c.def.virtual
    case OnColumns(ModifyColumn(o, n, _)) => U.Unsafe(judge, o, n)
    case OnAttrs(ChangeStorageEngine(_)) => true
    case OnAttrs(ModifyPartitions(dropped, _)) => |dropped| > 0
    case _ => false
  }

  /** What a diff's Statement method yields; the text of a statement is the list of its clauses. */
  datatype Statement =
    | Blank
    | Unsupported
    | Forbidden(clauses: seq<TableClause>)
    | Run(clauses: seq<TableClause>)

  /** StrictIndexOrder is forced for InnoDB tables without a primary key whose clustered index is a unique index. */
  function EffectiveMods(mods: StatementModifiers, to: Table): StatementModifiers {
    if !mods.strictIndexOrder && to.attrs.engine == "InnoDB" && ClusteredIndexKey(to) != to.keys.primary
    then mods.(strictIndexOrder := true) else mods
  }

  /** The clauses with a non-empty text among the first `n`. */
  function Emitted(mods: StatementModifiers, clauses: seq<TableClause>, n: nat): seq<TableClause>
    requires n <= |clauses|
  {
    if n == 0 then []
    else Emitted(mods, clauses, n - 1) + (if Suppressed(mods, clauses[n - 1]) then [] else [clauses[n - 1]])
  }

  predicate AnyUnsafe(judge: U.Judge, clauses: seq<TableClause>) {
    exists i :: 0 <= i < |clauses| && UnsafeClause(judge, clauses[i])
  }

  /** TableDiff.alterStatement. An unsafe clause counts even when its own text is
      empty, but a statement without any text is blank, never forbidden. */
  method AlterStatement(judge: U.Judge, clauses: seq<TableClause>, supported: bool, to: Table, mods: StatementModifiers)
    returns (stmt: Statement)
    ensures stmt == AlterOutcome(judge, clauses, supported, to, mods)
  {
    hide Suppressed, UnsafeClause, EffectiveMods;
    if !supported {
      return Unsupported;
    }
    var actual := EffectiveMods(mods, to);
    var clauseStrings := [];
    var forbidden := false;
    for n := 0 to |clauses|
      invariant clauseStrings == Emitted(actual, clauses, n)
      invariant forbidden <==> !actual.allowUnsafe && exists i :: 0 <= i < n && UnsafeClause(judge, clauses[i])
    {
      if !forbidden && !actual.allowUnsafe && UnsafeClause(judge, clauses[n]) {
        forbidden := true;
      }
      if !Suppressed(actual, clauses[n]) {
        clauseStrings := clauseStrings + [clauses[n]];
      }
    }
    assert actual.allowUnsafe == mods.allowUnsafe by { EffectiveKeeps(mods, to); }
    return if |clauseStrings| == 0 then Blank else if forbidden then Forbidden(clauseStrings) else Run(clauseStrings);
  }

  lemma EffectiveKeeps(mods: StatementModifiers, to: Table)
    ensures EffectiveMods(mods, to).allowUnsafe == mods.allowUnsafe
  {
  }

  function AlterOutcome(judge: U.Judge, clauses: seq<TableClause>, supported: bool, to: Table,
      mods: StatementModifiers): Statement {
    if !supported then Unsupported
    else
      var emitted := Emitted(EffectiveMods(mods, to), clauses, |clauses|);
      if |emitted| == 0 then Blank
      else if !mods.allowUnsafe && AnyUnsafe(judge, clauses) then Forbidden(emitted)
      else Run(emitted)
  }

  lemma OneClause(mods: StatementModifiers, t: Table, c: TableClause)
    ensures ApplyClauses(mods, t, [c]) == ApplyClause(mods, t, c)
  {
    hide ApplyClause;
    assert [c][1..] == [];
  }

  /** One more clause, which is left out of the text if it has none. */
  lemma EmittedStep(mods: StatementModifiers, t: Table, emitted: seq<TableClause>, before: seq<TableClause>,
      c: TableClause)
    requires ApplyClauses(mods, t, emitted) == ApplyClauses(mods, t, before)
    ensures ApplyClauses(mods, t, emitted + (if Suppressed(mods, c) then [] else [c]))
            == ApplyClauses(mods, t, before + [c])
  {
    hide ApplyClause, Suppressed, ApplyClauses;
    assert emitted + [] == emitted;
    ApplyClausesSplit(mods, t, before, [c]);
    ApplyClausesSplit(mods, t, emitted, [c]);
    match ApplyClauses(mods, t, before)
    case None =>
    case Some(mid) =>
      OneClause(mods, mid, c);
      if Suppressed(mods, c) {
        SuppressedIsNoop(mods, mid, c);
      }
  }

  /** Executing the emitted text has the effect of the whole clause list. */
  lemma {:induction false} EmittedSuffices(mods: StatementModifiers, t: Table, clauses: seq<TableClause>, n: nat)
    requires n <= |clauses|
    ensures ApplyClauses(mods, t, Emitted(mods, clauses, n)) == ApplyClauses(mods, t, clauses[..n])
  {
    hide ApplyClauses, Suppressed;
    if n == 0 {
      assert clauses[..0] == [];
    } else {
      EmittedSuffices(mods, t, clauses, n - 1);
      EmittedStep(mods, t, Emitted(mods, clauses, n - 1), clauses[..n - 1], clauses[n - 1]);
      assert clauses[..n] == clauses[..n - 1] + [clauses[n - 1]];
    }
  }

  // ----- the clustered index -----

  lemma {:induction false} LandedNullable(strict: bool, from: seq<C.Column>, to: seq<C.Column>, stay: set<string>)
    ensures var r := C.LandedAll(strict, from, to, stay);
            Names(r) == Names(to) && forall n :: n in Names(r) ==> Get(r, n).def.nullable == Get(to, n).def.nullable
  {
    hide C.LandedAll, C.Landed, Names;
    var r := C.LandedAll(strict, from, to, stay);
    forall n | n in Names(r) ensures Get(r, n).def.nullable == Get(to, n).def.nullable {
      SameIndex(r, to, n);
      EquivalentNullable(strict, from, Get(to, n), stay);
    }
  }

  lemma {:induction false} SameIndex(a: seq<C.Column>, b: seq<C.Column>, n: string)
    requires |a| == |b| && (forall i :: 0 <= i < |a| ==> a[i].name == b[i].name) && Has(a, n) && Has(b, n)
    ensures IndexOf(a, n) == IndexOf(b, n)
  {
    if a[0].name != n {
      SameIndex(a[1..], b[1..], n);
    }
  }

  lemma EquivalentNullable(strict: bool, from: seq<C.Column>, c: C.Column, stay: set<string>)
    ensures C.Landed(strict, from, c, stay).def.nullable == c.def.nullable
  {
  }

  /** Index order is forced exactly for InnoDB tables without a primary key that have a unique index which is never
      NULL. */
  lemma ForcedIff(mods: StatementModifiers, to: Table)
    requires Unique(to.columns)
    ensures EffectiveMods(mods, to) == mods.(strictIndexOrder := mods.strictIndexOrder
              || (to.attrs.engine == "InnoDB" && to.keys.primary.None?
                  && exists i :: 0 <= i < |to.keys.secondary| && NeverNullUnique(to.columns, to.keys.secondary[i])))
  {
    hide Unique, NeverNullUnique, ClusteredIndexKey;
    ClusteredIndexKeyIs(to);
  }

  /** Whatever modifiers suppress reordering, an InnoDB table ends up with the
      target's clustered index key. */
  lemma ClusteredKeyReached(mods: StatementModifiers, from: Table, to: Table, plan: Plan)
    requires from.WellFormed() && to.WellFormed() && from.name == to.name
    requires ValidPlan(from, to, plan) && Expressible(mods, from, to)
    ensures var r := ApplyClauses(EffectiveMods(mods, to), from, DiffClauses(from, to, plan));
            r.Some? && ClusteredIndexKey(r.value) == ClusteredIndexKey(to)
  {
    hide DiffClauses, ApplyClauses, Clusterable, Unique, Names, SameElements, C.LandedAll, Flavor.CanHideIndexes,
         CD.Optimal;
    var actual := EffectiveMods(mods, to);
    TableConverges(actual, from, to, plan);
    var r := ApplyClauses(actual, from, DiffClauses(from, to, plan)).value;
    LandedNullable(actual.strictColumnDefinition, from.columns, to.columns, plan.stay);
    SameClusterable(r.columns, to.columns, to.keys.secondary);
    if to.attrs.engine == "InnoDB" && to.keys.primary.None? && !actual.strictIndexOrder {
      assert FirstClusterable(to.columns, to.keys.secondary).None?;
      NoneClusterable(to.columns, to.keys.secondary);
      NoneClusterable(r.columns, r.keys.secondary);
      forall i | 0 <= i < |r.keys.secondary| ensures !Clusterable(r.columns, r.keys.secondary[i]) {
        SameElementsIn(r.keys.secondary, to.keys.secondary, i);
      }
    }
  }

  lemma SameElementsIn(a: seq<I.Index>, b: seq<I.Index>, i: nat)
    requires SameElements(a, b) && i < |a|
    ensures exists j :: 0 <= j < |b| && b[j] == a[i]
  {
    NameAt(a, i);
    Lookup(a, i);
    var j := IndexOf(b, a[i].name);
    assert b[j] == a[i];
  }
}
