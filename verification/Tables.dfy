// A table and the effect of ALTER TABLE clauses on it (internal/tengo/table.go).
// A clause acts on one component of the table: columns, indexes, foreign keys,
// checks or attributes.

module Tables {
  import opened Wrappers
  import opened NamedLists
  import opened Modifiers
  import C = Columns
  import I = Indexes
  import ID = IndexDiff
  import F = ForeignKeys
  import K = Checks
  import A = Attributes
  import O = CreateOptions

  datatype Table = Table(
    name: string, columns: seq<C.Column>, keys: ID.Keys, foreignKeys: seq<F.ForeignKey>, checks: seq<K.Check>,
    attrs: A.Attrs, unsupportedDDL: bool, createStatement: string)
  {
    /** Names are unique per kind, the primary key is marked as such, and the create options are as a server reports
        them. */
    ghost predicate WellFormed() {
      Unique(columns) && ID.WellFormed(keys) && Unique(foreignKeys) && Unique(checks) && O.Reported(attrs.createOptions)
    }

    predicate HasAutoIncrement() {
      exists i :: 0 <= i < |columns| && columns[i].def.autoIncrement
    }
  }

  datatype TableClause =
    | OnColumns(column: C.ColumnClause)
    | OnIndexes(index: ID.IndexClause)
    | OnForeignKeys(fk: F.FkClause)
    | OnChecks(check: K.CheckClause)
    | OnAttrs(attr: A.AttrClause)

  predicate StrictChecks(mods: StatementModifiers) {
    mods.strictCheckOrder && mods.flavor.IsMariaDB()
  }

  /** True iff Clause(mods) is the empty string. */
  predicate Suppressed(mods: StatementModifiers, clause: TableClause) {
    match clause
    case OnColumns(c) => C.Suppressed(mods.strictColumnDefinition, c)
    case OnIndexes(c) => ID.Suppressed(mods.strictIndexOrder, mods.flavor.CanHideIndexes(), c)
    case OnForeignKeys(c) => F.Suppressed(mods.strictForeignKeyNaming, c)
    case OnChecks(c) => K.Suppressed(StrictChecks(mods), c)
    case OnAttrs(c) => A.Suppressed(mods, c)
  }

  /** The effect of one clause; None when the server would reject it. A clause without text has no effect. */
  ghost function ApplyClause(mods: StatementModifiers, t: Table, clause: TableClause): Option<Table> {
    match clause
    case OnColumns(c) =>
      (match C.ApplyColumn(mods.strictColumnDefinition, t.columns, c)
       case None => None
       case Some(x) => Some(t.(columns := x)))
    case OnIndexes(c) =>
      (match ID.ApplyIndex(mods.strictIndexOrder, mods.flavor.CanHideIndexes(), t.keys, c)
       case None => None
       case Some(x) => Some(t.(keys := x)))
    case OnForeignKeys(c) =>
      (match F.ApplyFk(mods.strictForeignKeyNaming, t.foreignKeys, c)
       case None => None
       case Some(x) => Some(t.(foreignKeys := x)))
    case OnChecks(c) =>
      (match K.ApplyCheck(StrictChecks(mods), t.checks, c) case None => None case Some(x) => Some(t.(checks := x)))
    case OnAttrs(c) => Some(t.(attrs := A.ApplyAttr(mods, t.attrs, c)))
  }

  ghost function ApplyClauses(mods: StatementModifiers, t: Table, clauses: seq<TableClause>): Option<Table>
    decreases |clauses|
  {
    if |clauses| == 0 then Some(t)
    else match ApplyClause(mods, t, clauses[0])
      case None => None
      case Some(next) => ApplyClauses(mods, next, clauses[1..])
  }

  lemma {:induction false} ApplyClausesSplit(mods: StatementModifiers, t: Table, a: seq<TableClause>,
      b: seq<TableClause>)
    ensures ApplyClauses(mods, t, a + b) ==
            match ApplyClauses(mods, t, a) { case None => None case Some(mid) => ApplyClauses(mods, mid, b) }
    decreases |a|
  {
    if |a| == 0 {
      assert a + b == b;
    } else {
      assert (a + b)[1..] == a[1..] + b;
      match ApplyClause(mods, t, a[0])
      case None =>
      case Some(next) => ApplyClausesSplit(mods, next, a[1..], b);
    }
  }

  /** A clause whose text is empty changes nothing. */
  lemma SuppressedIsNoop(mods: StatementModifiers, t: Table, clause: TableClause)
    requires Suppressed(mods, clause)
    ensures ApplyClause(mods, t, clause) == Some(t)
  {
  }

  // ----- the components act independently -----

  /** The clauses that `pick` selects, in order. */
  function Pick<T>(clauses: seq<TableClause>, pick: TableClause -> Option<T>): seq<T> {
    if |clauses| == 0 then []
    else match pick(clauses[0])
      case Some(c) => [c] + Pick(clauses[1..], pick)
      case None => Pick(clauses[1..], pick)
  }

  function AsColumn(c: TableClause): Option<C.ColumnClause> { if c.OnColumns? then Some(c.column) else None }
  function AsIndex(c: TableClause): Option<ID.IndexClause> { if c.OnIndexes? then Some(c.index) else None }
  function AsFk(c: TableClause): Option<F.FkClause> { if c.OnForeignKeys? then Some(c.fk) else None }
  function AsCheck(c: TableClause): Option<K.CheckClause> { if c.OnChecks? then Some(c.check) else None }
  function AsAttr(c: TableClause): Option<A.AttrClause> { if c.OnAttrs? then Some(c.attr) else None }

  function ColumnPart(clauses: seq<TableClause>): seq<C.ColumnClause> { Pick(clauses, AsColumn) }
  function IndexPart(clauses: seq<TableClause>): seq<ID.IndexClause> { Pick(clauses, AsIndex) }
  function FkPart(clauses: seq<TableClause>): seq<F.FkClause> { Pick(clauses, AsFk) }
  function CheckPart(clauses: seq<TableClause>): seq<K.CheckClause> { Pick(clauses, AsCheck) }
  function AttrPart(clauses: seq<TableClause>): seq<A.AttrClause> { Pick(clauses, AsAttr) }

  lemma {:induction false} PickConcat<T>(a: seq<TableClause>, b: seq<TableClause>, pick: TableClause -> Option<T>)
    ensures Pick(a + b, pick) == Pick(a, pick) + Pick(b, pick)
  {
    if |a| == 0 {
      assert a + b == b;
    } else {
      assert (a + b)[1..] == a[1..] + b;
      PickConcat(a[1..], b, pick);
    }
  }

  function Lift<S>(clauses: seq<S>, wrap: S -> TableClause): (r: seq<TableClause>)
    ensures |r| == |clauses| && forall i :: 0 <= i < |clauses| ==> r[i] == wrap(clauses[i])
  {
    seq(|clauses|, i requires 0 <= i < |clauses| => wrap(clauses[i]))
  }

  lemma {:induction false} PickLifted<T(!new)>(clauses: seq<T>, wrap: T -> TableClause, pick: TableClause -> Option<T>)
    requires forall c :: pick(wrap(c)) == Some(c)
    ensures Pick(Lift(clauses, wrap), pick) == clauses
  {
    if |clauses| > 0 {
      assert Lift(clauses, wrap)[1..] == Lift(clauses[1..], wrap);
      PickLifted(clauses[1..], wrap, pick);
    }
  }

  lemma {:induction false} PickOthers<S(!new), T>(
      clauses: seq<S>, wrap: S -> TableClause, pick: TableClause -> Option<T>)
    requires forall c :: pick(wrap(c)) == None
    ensures Pick(Lift(clauses, wrap), pick) == []
  {
    if |clauses| > 0 {
      assert Lift(clauses, wrap)[1..] == Lift(clauses[1..], wrap);
      PickOthers(clauses[1..], wrap, pick);
    }
  }

  /** The table after each component was changed by its own clauses. */
  ghost function ApplyParts(mods: StatementModifiers, t: Table, clauses: seq<TableClause>): Option<Table> {
    var columns := C.ApplyColumns(mods.strictColumnDefinition, t.columns, ColumnPart(clauses));
    var keys := ID.ApplyIndexes(mods.strictIndexOrder, mods.flavor.CanHideIndexes(), t.keys, IndexPart(clauses));
    var foreignKeys := F.ApplyFks(mods.strictForeignKeyNaming, t.foreignKeys, FkPart(clauses));
    var checks := K.ApplyChecks(StrictChecks(mods), t.checks, CheckPart(clauses));
    if columns.None? || keys.None? || foreignKeys.None? || checks.None? then None
    else Some(t.(columns := columns.value, keys := keys.value, foreignKeys := foreignKeys.value, checks := checks.value,
                 attrs := A.ApplyAttrs(mods, t.attrs, AttrPart(clauses))))
  }

  /** A leading clause may be run before splitting the rest into parts. */
  lemma FirstClause(mods: StatementModifiers, t: Table, clauses: seq<TableClause>)
    requires |clauses| > 0
    ensures ApplyParts(mods, t, clauses) ==
            match ApplyClause(mods, t, clauses[0]) {
              case None => None
              case Some(next) => ApplyParts(mods, next, clauses[1..])
            }
  {
    hide C.ApplyColumn, ID.ApplyIndex, F.ApplyFk, K.ApplyCheck, A.ApplyAttr, StrictChecks, Flavor.CanHideIndexes;
    var c, rest := clauses[0], clauses[1..];
    match c
    case OnColumns(x) => assert ColumnPart(clauses) == [x] + ColumnPart(rest);
    case OnIndexes(x) => assert IndexPart(clauses) == [x] + IndexPart(rest);
    case OnForeignKeys(x) => assert FkPart(clauses) == [x] + FkPart(rest);
    case OnChecks(x) => assert CheckPart(clauses) == [x] + CheckPart(rest);
    case OnAttrs(x) => assert AttrPart(clauses) == [x] + AttrPart(rest);
  }

  /** Running a clause list is the same as running each component's clauses on that component. */
  lemma {:induction false} PartsAreIndependent(mods: StatementModifiers, t: Table, clauses: seq<TableClause>)
    ensures ApplyClauses(mods, t, clauses) == ApplyParts(mods, t, clauses)
    decreases |clauses|
  {
    if |clauses| > 0 {
      hide ApplyClause, ApplyParts;
      FirstClause(mods, t, clauses);
      match ApplyClause(mods, t, clauses[0])
      case None =>
      case Some(next) => PartsAreIndependent(mods, next, clauses[1..]);
    }
  }

  // ----- clustered index -----

  function FindColumn(columns: seq<C.Column>, n: string): Option<C.Column> {
    if Has(columns, n) then Some(Get(columns, n)) else None
  }

  /** Some part of the index is no column of the table, or a nullable one. */
  predicate NullableIndex(columns: seq<C.Column>, idx: I.Index) {
    exists n :: 0 <= n < |idx.def.parts| &&
                var col := FindColumn(columns, idx.def.parts[n].columnName);
                col.None? || col.value.def.nullable
  }

  predicate Clusterable(columns: seq<C.Column>, idx: I.Index) {
    idx.def.unique && !I.Functional(idx) && !NullableIndex(columns, idx)
  }

  function FirstClusterable(columns: seq<C.Column>, indexes: seq<I.Index>): Option<I.Index> {
    if |indexes| == 0 then None
    else if Clusterable(columns, indexes[0]) then Some(indexes[0])
    else FirstClusterable(columns, indexes[1..])
  }

  function ClusteredIndexKey(t: Table): Option<I.Index> {
    if t.attrs.engine != "InnoDB" then None
    else if t.keys.primary.Some? then t.keys.primary
    else FirstClusterable(t.columns, t.keys.secondary)
  }

  lemma {:induction false} NoneClusterable(columns: seq<C.Column>, indexes: seq<I.Index>)
    ensures FirstClusterable(columns, indexes).None? <==> forall i :: 0 <= i < |indexes| ==>
            !Clusterable(columns, indexes[i])
  {
    if |indexes| > 0 {
      NoneClusterable(columns, indexes[1..]);
      assert forall i :: 1 <= i < |indexes| ==> indexes[i] == indexes[1..][i - 1];
    }
  }

  /** An index that InnoDB may cluster by: it is unique, and each part is a whole column of the table, no expression,
      that is never NULL. */
  ghost predicate NeverNullUnique(columns: seq<C.Column>, idx: I.Index) {
    && idx.def.unique
    && forall part :: part in idx.def.parts ==>
        part.expression == "" && exists k :: 0 <= k < |columns| && columns[k].name == part.columnName
                                             && !columns[k].def.nullable
  }

  lemma ClusterableIff(columns: seq<C.Column>, idx: I.Index)
    requires Unique(columns)
    ensures Clusterable(columns, idx) <==> NeverNullUnique(columns, idx)
  {
    hide Unique, Names, IndexOf;
    forall n | 0 <= n < |idx.def.parts|
      ensures var m := idx.def.parts[n].columnName;
              (FindColumn(columns, m).Some? && !FindColumn(columns, m).value.def.nullable) <==>
                (exists k :: 0 <= k < |columns| && columns[k].name == m && !columns[k].def.nullable)
    {
      ColumnFound(columns, idx.def.parts[n].columnName);
    }
    assert forall n :: 0 <= n < |idx.def.parts| ==> idx.def.parts[n] in idx.def.parts;
  }

  lemma ColumnFound(columns: seq<C.Column>, m: string)
    requires Unique(columns)
    ensures (FindColumn(columns, m).Some? && !FindColumn(columns, m).value.def.nullable) <==>
            exists k :: 0 <= k < |columns| && columns[k].name == m && !columns[k].def.nullable
  {
    hide Unique, Names, IndexOf;
    if FindColumn(columns, m).Some? {
      assert columns[IndexOf(columns, m)].name == m;
    }
    forall k | 0 <= k < |columns| && columns[k].name == m ensures Has(columns, m) && Get(columns, m) == columns[k] {
      NameAt(columns, k);
      Lookup(columns, k);
    }
  }

  /** The clustered index of an InnoDB table is its primary key, or else the first unique index without NULLs, if
      there is one. Other engines have none. */
  lemma ClusteredIndexKeyIs(t: Table)
    requires Unique(t.columns)
    ensures t.attrs.engine != "InnoDB" ==> ClusteredIndexKey(t) == None
    ensures t.attrs.engine == "InnoDB" && t.keys.primary.Some? ==> ClusteredIndexKey(t) == t.keys.primary
    ensures t.attrs.engine == "InnoDB" && t.keys.primary.None? ==>
              match ClusteredIndexKey(t)
              case None =>
                forall i :: 0 <= i < |t.keys.secondary| ==> !NeverNullUnique(t.columns, t.keys.secondary[i])
              case Some(idx) =>
                exists i :: 0 <= i < |t.keys.secondary| && t.keys.secondary[i] == idx
                  && NeverNullUnique(t.columns, idx)
                  && forall j :: 0 <= j < i ==> !NeverNullUnique(t.columns, t.keys.secondary[j])
  {
    FirstIs(t.columns, t.keys.secondary);
  }

  lemma {:induction false} FirstIs(columns: seq<C.Column>, indexes: seq<I.Index>)
    requires Unique(columns)
    ensures match FirstClusterable(columns, indexes)
            case None => forall i :: 0 <= i < |indexes| ==> !NeverNullUnique(columns, indexes[i])
            case Some(idx) =>
              exists i :: 0 <= i < |indexes| && indexes[i] == idx && NeverNullUnique(columns, idx)
                && forall j :: 0 <= j < i ==> !NeverNullUnique(columns, indexes[j])
  {
    hide Clusterable, NeverNullUnique, Unique;
    if |indexes| > 0 {
      ClusterableIff(columns, indexes[0]);
      if !Clusterable(columns, indexes[0]) {
        var rest := indexes[1..];
        FirstIs(columns, rest);
        assert forall i :: 0 < i < |indexes| ==> indexes[i] == rest[i - 1];
        match FirstClusterable(columns, rest)
        case None =>
        case Some(idx) =>
          var i :| 0 <= i < |rest| && rest[i] == idx && NeverNullUnique(columns, idx)
                   && forall j :: 0 <= j < i ==> !NeverNullUnique(columns, rest[j]);
          assert indexes[i + 1] == idx;
      }
    }
  }

  /** Clusterability depends on nothing but the names and nullability of columns. */
  lemma {:induction false} SameClusterable(a: seq<C.Column>, b: seq<C.Column>, indexes: seq<I.Index>)
    requires Names(a) == Names(b) && forall n :: n in Names(a) ==> Get(a, n).def.nullable == Get(b, n).def.nullable
    ensures FirstClusterable(a, indexes) == FirstClusterable(b, indexes)
    ensures forall idx :: Clusterable(a, idx) <==> Clusterable(b, idx)
  {
    forall idx: I.Index ensures Clusterable(a, idx) <==> Clusterable(b, idx) {
      forall n | 0 <= n < |idx.def.parts|
        ensures var m := idx.def.parts[n].columnName;
                (FindColumn(a, m).None? || FindColumn(a, m).value.def.nullable) <==>
                    (FindColumn(b, m).None? || FindColumn(b, m).value.def.nullable) {
      }
    }
    if |indexes| > 0 {
      SameClusterable(a, b, indexes[1..]);
    }
  }
}
