// What an ALTER TABLE may destroy, and that the unsafe gate stands exactly in front of it
// (internal/tengo/diff.go, internal/tengo/alterclause.go).

module AlterEffects {
  import opened Wrappers
  import opened NamedLists
  import opened Modifiers
  import opened Tables
  import opened TableDiff
  import opened Alter
  import opened AttributeMeaning
  import C = Columns
  import ID = IndexDiff
  import A = Attributes
  import U = UnsafeTypes

  /** Nothing stored in `from` is gone in `t`: each column with data of its own is there, the engine is the same, and
      the partitions are too, unless the rows were distributed in another way. */
  ghost predicate Keeps(from: Table, t: Table) {
    && (forall k :: 0 <= k < |from.columns| && !from.columns[k].def.virtual ==> Has(t.columns, from.columns[k].name))
    && t.attrs.engine == from.attrs.engine
    && (SameLayout(from.attrs.partitioning, t.attrs.partitioning) ==> t.attrs.partitioning == from.attrs.partitioning)
  }

  /** The clause was made for `from`: it drops a column as `from` has it, and it partitions in another way only. */
  predicate Describes(from: Table, clause: TableClause) {
    match clause
    case OnColumns(DropColumn(c)) => c in from.columns
    case OnAttrs(PartitionBy(p, _)) => !SameLayout(from.attrs.partitioning, Some(p))
    case _ => true
  }

  // ----- one clause -----

  lemma WithoutHas(cols: seq<C.Column>, n: string, m: string)
    requires Has(cols, n) && Has(cols, m) && m != n
    ensures Has(Without(cols, n), m)
  {
    hide Names;
    var i := IndexOf(cols, n);
    var a, b := cols[..i], cols[i + 1..];
    Found(cols, n);
    Concat(a + [Get(cols, n)], b);
    Concat(a, [Get(cols, n)]);
    Concat(a, b);
    One(Get(cols, n), {});
  }

  lemma ReplaceHas(cols: seq<C.Column>, c: C.Column)
    requires Has(cols, c.name)
    ensures Names(Replace(cols, c)) == Names(cols)
  {
    hide Names;
    var i, was := IndexOf(cols, c.name), Get(cols, c.name);
    var a, b := cols[..i], cols[i + 1..];
    Found(cols, c.name);
    assert Replace(cols, c) == a + [c] + b;
    Concat(a + [was], b);
    Concat(a, [was]);
    Concat(a + [c], b);
    Concat(a, [c]);
    One(was, {});
    One(c, {});
  }

  lemma PlaceHas(cols: seq<C.Column>, c: C.Column, p: C.Position)
    requires C.Place(cols, c, p).Some?
    ensures Names(C.Place(cols, c, p).value) == Names(cols) + {c.name}
  {
    hide Names;
    One(c, {});
    match p
    case Anywhere => Concat(cols, [c]);
    case First => Concat([c], cols);
    case After(n) =>
      var i := IndexOf(cols, n);
      var a, b := cols[..i + 1], cols[i + 1..];
      assert cols == a + b && InsertAfter(cols, n, c) == a + [c] + b;
      Concat(a, b);
      Concat(a + [c], b);
      Concat(a, [c]);
  }

  /** A column is lost only by a clause that drops it. */
  lemma ColumnStays(strict: bool, cols: seq<C.Column>, clause: C.ColumnClause, m: string)
    requires C.ApplyColumn(strict, cols, clause).Some? && Has(cols, m)
    requires clause.DropColumn? ==> clause.column.name != m
    ensures Has(C.ApplyColumn(strict, cols, clause).value, m)
  {
    hide Names, C.Suppressed, Without, Replace, C.Place;
    if !C.Suppressed(strict, clause) {
      match clause
      case DropColumn(c) => WithoutHas(cols, c.name, m);
      case ModifyColumn(o, c, p) =>
        if p == C.Anywhere {
          ReplaceHas(cols, c);
        } else {
          PlaceHas(Without(cols, c.name), c, p);
          if m != c.name {
            WithoutHas(cols, c.name, m);
          }
        }
      case AddColumn(c, p) => PlaceHas(cols, c, p);
    }
  }

  /** A safe clause destroys nothing. */
  lemma SafeClauseKeeps(judge: U.Judge, mods: StatementModifiers, from: Table, t: Table, clause: TableClause)
    requires Unique(from.columns) && Describes(from, clause) && Keeps(from, t) && !UnsafeClause(judge, clause)
    requires ApplyClause(mods, t, clause).Some?
    ensures Keeps(from, ApplyClause(mods, t, clause).value)
  {
    hide Names, Unique, C.ApplyColumn, ID.ApplyIndex, U.Unsafe, SameLayout, A.SameCollation;
    var strict := mods.strictColumnDefinition;
    if clause.OnColumns? {
      var c := clause.column;
      forall k | 0 <= k < |from.columns| && !from.columns[k].def.virtual
        ensures Has(C.ApplyColumn(strict, t.columns, c).value, from.columns[k].name)
      {
        if c.DropColumn? {
          OtherName(from.columns, k, c.column);
        }
        ColumnStays(strict, t.columns, c, from.columns[k].name);
      }
    }
    NoLayout(from.attrs.partitioning);
  }

  lemma NoLayout(p: Option<A.TablePartitioning>)
    ensures !SameLayout(p, None)
  {
  }

  lemma OtherName(columns: seq<C.Column>, k: nat, c: C.Column)
    requires Unique(columns) && k < |columns| && c in columns && c != columns[k]
    ensures c.name != columns[k].name
  {
    var i :| 0 <= i < |columns| && columns[i] == c;
    Lookup(columns, i);
    Lookup(columns, k);
  }

  // ----- whole statements -----

  lemma {:induction false} SafeClausesKeep(judge: U.Judge, mods: StatementModifiers, from: Table, t: Table,
      clauses: seq<TableClause>)
    requires Unique(from.columns) && Keeps(from, t) && !AnyUnsafe(judge, clauses)
    requires forall c :: c in clauses ==> Describes(from, c)
    requires ApplyClauses(mods, t, clauses).Some?
    ensures Keeps(from, ApplyClauses(mods, t, clauses).value)
    decreases |clauses|
  {
    hide Unique, Keeps, Describes, ApplyClause, UnsafeClause;
    if |clauses| > 0 {
      var c, rest := clauses[0], clauses[1..];
      assert !UnsafeClause(judge, c);
      assert forall i :: 0 <= i < |rest| ==> rest[i] == clauses[i + 1] && rest[i] in clauses;
      SafeClauseKeeps(judge, mods, from, t, c);
      SafeClausesKeep(judge, mods, from, ApplyClause(mods, t, c).value, rest);
    }
  }

  /** Without AllowUnsafe, an ALTER TABLE that is not refused destroys nothing of the table it was made for, whatever
      safe statements ran on the table before. */
  lemma SafeAlterKeeps(judge: U.Judge, clauses: seq<TableClause>, supported: bool, to: Table, mods: StatementModifiers,
      from: Table, t: Table)
    requires Unique(from.columns) && Keeps(from, t) && forall c :: c in clauses ==> Describes(from, c)
    requires !mods.allowUnsafe && AlterOutcome(judge, clauses, supported, to, mods).Run?
    ensures var emitted := AlterOutcome(judge, clauses, supported, to, mods).clauses;
            var r := ApplyClauses(EffectiveMods(mods, to), t, emitted);
            r.Some? ==> Keeps(from, r.value)
  {
    hide Unique, Keeps, Describes, ApplyClauses, AnyUnsafe, EffectiveMods, Emitted;
    var actual := EffectiveMods(mods, to);
    EmittedSuffices(actual, t, clauses, |clauses|);
    assert clauses[..|clauses|] == clauses;
    if ApplyClauses(actual, t, clauses).Some? {
      SafeClausesKeep(judge, actual, from, t, clauses);
    }
  }

  /** The clauses of a diff are made for the table that they alter. */
  lemma DiffDescribes(from: Table, to: Table, plan: Plan, clause: TableClause)
    requires clause in DiffClauses(from, to, plan)
    ensures Describes(from, clause)
  {
    hide C.ModifyClauses, C.AddClauses, ID.IndexClauses, A.CharSetClauses, C.Equivalent;
    match clause
    case OnColumns(DropColumn(c)) =>
      DiffParts(from, to, plan);
      Picked(DiffClauses(from, to, plan), AsColumn, clause);
      DropsAreOld(from.columns, to.columns, plan.stay, c);
    case OnAttrs(PartitionBy(p, r)) =>
      DiffParts(from, to, plan);
      Picked(DiffClauses(from, to, plan), AsAttr, clause);
      PartitionsAnew(from.attrs, to.attrs, to.HasAutoIncrement(), p, r);
    case _ =>
  }

  lemma {:induction false} Picked<T>(clauses: seq<TableClause>, pick: TableClause -> Option<T>, clause: TableClause)
    requires clause in clauses && pick(clause).Some?
    ensures pick(clause).value in Pick(clauses, pick)
  {
    if clause != clauses[0] {
      Picked(clauses[1..], pick, clause);
    }
  }

  lemma DropsAreOld(from: seq<C.Column>, to: seq<C.Column>, stay: set<string>, c: C.Column)
    requires C.DropColumn(c) in C.ColumnClauses(from, to, stay)
    ensures c in from
  {
    hide C.DropClauses, C.ModifyClauses, C.AddClauses;
    C.CommonHas(from, to);
    var common := Only(to, Names(from));
    NoDropModified(from, common, |common|, stay, c);
    NoDropAdded(to, |to|, Names(from), c);
    DropIsOld(from, Names(to), |from|, c);
  }

  lemma {:induction false} DropIsOld(cols: seq<C.Column>, keep: set<string>, n: nat, c: C.Column)
    requires n <= |cols|
    ensures C.DropColumn(c) in C.DropClauses(cols, keep, n) ==> c in cols
  {
    if n > 0 {
      DropIsOld(cols, keep, n - 1, c);
    }
  }

  lemma {:induction false} NoDropModified(from: seq<C.Column>, common: seq<C.Column>, n: nat, stay: set<string>,
      c: C.Column)
    requires n <= |common| && C.AllIn(common, from)
    ensures C.DropColumn(c) !in C.ModifyClauses(from, common, n, stay)
  {
    if n > 0 {
      NoDropModified(from, common, n - 1, stay, c);
    }
  }

  lemma {:induction false} NoDropAdded(to: seq<C.Column>, n: nat, existing: set<string>, c: C.Column)
    requires n <= |to|
    ensures C.DropColumn(c) !in C.AddClauses(to, n, existing)
  {
    if n > 0 {
      NoDropAdded(to, n - 1, existing, c);
    }
  }

  lemma PartitionsAnew(from: A.Attrs, to: A.Attrs, toHasAutoIncrement: bool, p: A.TablePartitioning, r: bool)
    requires A.PartitionBy(p, r) in A.CharSetClauses(from, to) + A.RestClauses(from, to, toHasAutoIncrement)
    ensures !SameLayout(from.partitioning, Some(p))
  {
    assert A.PartitionBy(p, r) in A.PartitioningDiff(from.partitioning, to.partitioning).0;
  }

  // ----- the gate refuses nothing else -----

  /** Running the clause on `t` would destroy something. */
  ghost predicate Destroys(mods: StatementModifiers, t: Table, clause: TableClause) {
    ApplyClause(mods, t, clause).Some? && !Keeps(t, ApplyClause(mods, t, clause).value)
  }

  lemma DestroyerIsUnsafe(judge: U.Judge, mods: StatementModifiers, t: Table, clause: TableClause)
    requires Unique(t.columns) && Describes(t, clause) && Destroys(mods, t, clause)
    ensures UnsafeClause(judge, clause) && !Suppressed(mods, clause)
  {
    hide Unique, Describes, UnsafeClause, Suppressed, ApplyClause;
    assert Keeps(t, t) by { KeepsItself(t); }
    if !UnsafeClause(judge, clause) {
      SafeClauseKeeps(judge, mods, t, t, clause);
    }
    if Suppressed(mods, clause) {
      SuppressedIsNoop(mods, t, clause);
    }
  }

  lemma KeepsItself(t: Table)
    ensures Keeps(t, t)
  {
    forall k | 0 <= k < |t.columns| ensures Has(t.columns, t.columns[k].name) {
      NameAt(t.columns, k);
    }
  }

  /** An ALTER TABLE with a clause that would destroy something is refused. */
  lemma DestroyerIsRefused(judge: U.Judge, clauses: seq<TableClause>, to: Table, mods: StatementModifiers, t: Table,
      clause: TableClause)
    requires Unique(t.columns) && clause in clauses && Describes(t, clause)
    requires Destroys(EffectiveMods(mods, to), t, clause) && !mods.allowUnsafe
    ensures AlterOutcome(judge, clauses, true, to, mods).Forbidden?
  {
    hide Unique, Describes, Destroys, EffectiveMods, Suppressed, UnsafeClause;
    var i :| 0 <= i < |clauses| && clauses[i] == clause;
    DestroyerIsUnsafe(judge, EffectiveMods(mods, to), t, clause);
    HasText(EffectiveMods(mods, to), clauses, |clauses|, i);
  }

  lemma {:induction false} HasText(mods: StatementModifiers, clauses: seq<TableClause>, n: nat, i: nat)
    requires i < n <= |clauses| && !Suppressed(mods, clauses[i])
    ensures |Emitted(mods, clauses, n)| > 0
  {
    if i < n - 1 {
      HasText(mods, clauses, n - 1, i);
    }
  }

  function Bare(columns: seq<C.Column>, engine: string, partitioning: Option<A.TablePartitioning>): Table {
    Table("t", columns, ID.Keys(None, []), [], [], A.Attrs(engine, "", "", [], "", "", 0, partitioning), false, "")
  }

  /** A table of which the clause would destroy something, if it is one of those that do. */
  function Victim(clause: TableClause): Table {
    match clause
    case OnColumns(DropColumn(c)) => Bare([c], "", None)
    case OnAttrs(ChangeStorageEngine(e)) => Bare([], e + "x", None)
    case OnAttrs(ModifyPartitions(dropped, _)) =>
      Bare([], "", Some(A.TablePartitioning("RANGE", "", "", "", "",
          if |dropped| == 0 then [] else [A.Partition(dropped[0], "", "", "", "", "")])))
    case _ => Bare([], "", None)
  }

  /** Apart from modified columns, the clauses with a text that the gate refuses are those that would destroy something
      of some table, and no others. */
  lemma UnsafeIffDestroys(judge: U.Judge, mods: StatementModifiers, clause: TableClause)
    requires !(clause.OnColumns? && clause.column.ModifyColumn?)
    ensures UnsafeClause(judge, clause) && !Suppressed(mods, clause) <==>
            exists t: Table :: Unique(t.columns) && Describes(t, clause) && Destroys(mods, t, clause)
  {
    if UnsafeClause(judge, clause) && !Suppressed(mods, clause) {
      VictimSuffers(judge, mods, clause);
    }
    forall t: Table | Unique(t.columns) && Describes(t, clause) && Destroys(mods, t, clause)
      ensures UnsafeClause(judge, clause) && !Suppressed(mods, clause)
    {
      DestroyerIsUnsafe(judge, mods, t, clause);
    }
  }

  lemma VictimSuffers(judge: U.Judge, mods: StatementModifiers, clause: TableClause)
    requires !(clause.OnColumns? && clause.column.ModifyColumn?)
    requires UnsafeClause(judge, clause) && !Suppressed(mods, clause)
    ensures var t := Victim(clause); Unique(t.columns) && Describes(t, clause) && Destroys(mods, t, clause)
  {
    var t := Victim(clause);
    match clause
    case OnColumns(DropColumn(c)) =>
      One(c, {});
      assert t.columns[0] == c && Without([c], c.name) == [];
    case OnAttrs(ChangeStorageEngine(e)) =>
    case OnAttrs(ModifyPartitions(dropped, _)) =>
      assert A.WithoutPartitions(t.attrs.partitioning.value.partitions, dropped) == [];
    case _ =>
  }
}
