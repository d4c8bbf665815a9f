// What a run without permission for unsafe statements leaves in place
// (internal/applier/applier.go, internal/applier/ddlstatement.go).

module SafeRuns {
  import opened Wrappers
  import opened NamedLists
  import opened Modifiers
  import opened Tables
  import opened TableDiff
  import opened Alter
  import opened AlterEffects
  import opened Splitting
  import opened KeyedRuns
  import opened SchemaDiff
  import opened Applier
  import A = Attributes
  import R = Routines
  import SC = SchemaConvergence

  /** The tables and routines of a schema. */
  datatype Schema = Schema(tables: TableMap, routines: map<R.RoutineKey, R.Routine>)

  /** Executes one planned statement; None when the server rejects it. */
  ghost function RunEffect(mods: StatementModifiers, db: Schema, e: Effect): Option<Schema> {
    match e
    case ChangesDatabase(_) => Some(db)
    case CreatesTable(to) =>
      if to.name in db.tables then None else Some(db.(tables := db.tables[to.name := SC.Created(mods, to)]))
    case DropsTable(from) =>
      if from.name in db.tables then Some(db.(tables := db.tables - {from.name})) else None
    case AltersTable(from, to, clauses) =>
      if from.name !in db.tables then None
      else (match ApplyClauses(EffectiveMods(mods, to), db.tables[from.name], clauses)
            case None => None
            case Some(t) => Some(db.(tables := db.tables[from.name := t])))
    case DropsRoutine(k) => if k in db.routines then Some(db.(routines := db.routines - {k})) else None
    case CreatesRoutine(to, orReplace) =>
      if R.KeyOf(to) in db.routines && !orReplace then None
      else Some(db.(routines := db.routines[R.KeyOf(to) := to]))
  }

  ghost function RunEffects(mods: StatementModifiers, db: Schema, effects: seq<Effect>): Option<Schema> {
    if |effects| == 0 then Some(db)
    else match RunEffects(mods, db, effects[..|effects| - 1])
      case None => None
      case Some(mid) => RunEffect(mods, mid, effects[|effects| - 1])
  }

  /** Each table and routine of `db` is still there, and no table lost anything that was stored in it. */
  ghost predicate NothingLost(db: Schema, now: Schema) {
    && (forall n :: n in db.tables ==> n in now.tables && Keeps(db.tables[n], now.tables[n]))
    && db.routines.Keys <= now.routines.Keys
  }

  ghost predicate UniqueColumns(tables: TableMap) {
    forall n :: n in tables ==> Unique(tables[n].columns)
  }

  /** The ALTERs among the diffs were made for the tables of the schema. */
  ghost predicate MadeFor(tables: TableMap, diff: ObjectDiff) {
    diff.OfTable? && diff.table.AlterTable? && diff.table.from.name in tables ==>
      forall c :: c in diff.table.clauses ==> Describes(tables[diff.table.from.name], c)
  }

  lemma OneLosesNothing(t: Target, db: Schema, mid: Schema, i: nat)
    requires t.Valid() && !t.mods.allowUnsafe && t.config.safeBelowSize == 0 && i < |t.diffs|
    requires t.OutcomeOf(i).Planned? && MadeFor(db.tables, t.diffs[i])
    requires UniqueColumns(db.tables) && NothingLost(db, mid)
    ensures var r := RunEffect(t.mods, mid, t.OutcomeOf(i).effect); r.Some? ==> NothingLost(db, r.value)
  {
    hide Unique, Keeps, Describes, ApplyClauses, AlterOutcome, EffectiveMods, SC.Created;
    var diff, e := t.diffs[i], t.OutcomeOf(i).effect;
    if e.AltersTable? && e.from.name in db.tables && e.from.name in mid.tables {
      SafeAlterKeeps(t.judge, diff.table.clauses, diff.table.supported, e.to, t.mods, db.tables[e.from.name],
          mid.tables[e.from.name]);
    }
  }

  /** Without AllowUnsafe and safe-below-size, whatever prefix of the plan was executed when a run ends, each table and
      each routine is still there, and no table lost a stored column, its engine or a partition. */
  lemma {:induction false} RunsLoseNothing(t: Target, db: Schema, executed: seq<Effect>)
    requires t.Valid() && !t.mods.allowUnsafe && t.config.safeBelowSize == 0
    requires UniqueColumns(db.tables) && forall i :: 0 <= i < |t.diffs| ==> MadeFor(db.tables, t.diffs[i])
    requires executed <= t.Plan(|t.diffs|)
    ensures var r := RunEffects(t.mods, db, executed); r.Some? ==> NothingLost(db, r.value)
    decreases |executed|
  {
    hide RunEffect, MadeFor, UniqueColumns, NothingLost, Target.Plan, NewDDLStatement;
    if |executed| == 0 {
      Unchanged(db);
    } else {
      var init, e := executed[..|executed| - 1], executed[|executed| - 1];
      RunsLoseNothing(t, db, init);
      var mid := RunEffects(t.mods, db, init);
      if mid.Some? {
        assert e in t.Plan(|t.diffs|);
        var i := PlannedBy(t, |t.diffs|, e);
        OneLosesNothing(t, db, mid.value, i);
      }
    }
  }

  lemma Unchanged(db: Schema)
    ensures NothingLost(db, db)
  {
    forall n | n in db.tables ensures Keeps(db.tables[n], db.tables[n]) {
      KeepsItself(db.tables[n]);
    }
  }

  // ----- the diffs of a whole schema -----

  lemma PiecesAreClauses(td: TableChange, c: TableClause, piece: TableChange)
    requires Splittable(td) && piece.AlterTable? && c in piece.clauses
    requires piece in Pieces(td, ConflictPieces(Others(td.clauses))) || piece == td.(clauses := AddFks(td.clauses))
    ensures c in td.clauses
  {
    hide Select;
    var others := Others(td.clauses);
    SelectElements(td.clauses, FkMarks(td.clauses), false);
    SelectElements(td.clauses, FkMarks(td.clauses), true);
    SelectElements(others, ConflictMarks(others), false);
    SelectElements(others, ConflictMarks(others), true);
    if c !in AddFks(td.clauses) {
      var i :| 0 <= i < |ConflictPieces(others)| && piece == Pieces(td, ConflictPieces(others))[i];
      assert piece.clauses == ConflictPieces(others)[i];
      if i > 0 {
        assert ConflictPieces(others)[i] == Singles(Conflicting(others))[i - 1] == [Conflicting(others)[i - 1]];
        assert c in Conflicting(others);
      } else {
        assert c in Compatible(others);
      }
      assert c in others;
    }
  }

  lemma AltersDescribe(from: Table, to: Table, plan: Plan, td: TableChange, c: TableClause)
    requires td in AltersFor(from, to, plan).0 + AltersFor(from, to, plan).1
    ensures td.AlterTable? && td.from == from && (c in td.clauses ==> Describes(from, c))
  {
    hide DiffClauses, Describes, Select, ConflictPieces, Others, AddFks, A.PartitioningDiff;
    var whole := AlterOf(from, to, plan);
    if whole.Some? && Splittable(whole.value) {
      assert td.AlterTable? && td.from == from;
      if c in td.clauses {
        PiecesAreClauses(whole.value, c, td);
      }
    }
    if whole.Some? && c in td.clauses {
      assert c in whole.value.clauses;
      DiffDescribes(from, to, plan, c);
    }
  }

  lemma {:induction false} InOwn<C>(cs: seq<C>, key: C -> string, c: C)
    requires c in cs
    ensures c in Of(cs, key, key(c))
  {
    var init := cs[..|cs| - 1];
    assert cs == init + [cs[|cs| - 1]];
    if c in init {
      InOwn(init, key, c);
    }
  }

  lemma PreDropDescribes(from: Table, td: TableChange, c: TableClause)
    requires Droppable(from) && td in PreDrop(from) + [DropTable(from)] && td.AlterTable? && c in td.clauses
    ensures Describes(from, c)
  {
  }

  /** The ALTERs of a schema diff are made for the tables of the schema. */
  lemma DiffIsMadeFor(from: TableMap, to: TableMap, visits: seq<Visit>, order: seq<string>, td: TableChange)
    requires ValidOrders(from, to, visits, order) && td in TableChanges(from, to, visits, order)
    ensures MadeFor(from, OfTable(td))
  {
    hide Describes, Droppable, ValidVisits, Table.WellFormed, Of, PreDrop, AltersFor, TableChanges;
    if td.AlterTable? && td.from.name in from {
      var n := td.from.name;
      InOwn(TableChanges(from, to, visits, order), SC.TableKey, td);
      var plan := SC.ChangesOf(from, to, visits, order, n);
      forall c | c in td.clauses ensures Describes(from[n], c) {
        if n in to {
          AltersDescribe(from[n], to[n], plan, td, c);
        } else {
          PreDropDescribes(from[n], td, c);
        }
      }
    }
  }

  /** A schema diff that is run without AllowUnsafe and safe-below-size, whole or in part, loses nothing. */
  lemma SchemaDiffLosesNothing(t: Target, db: Schema, to: TableMap, visits: seq<Visit>, order: seq<string>,
      executed: seq<Effect>)
    requires t.Valid() && !t.mods.allowUnsafe && t.config.safeBelowSize == 0
    requires ValidOrders(db.tables, to, visits, order)
    requires forall i :: 0 <= i < |t.diffs| && t.diffs[i].OfTable? ==>
             t.diffs[i].table in TableChanges(db.tables, to, visits, order)
    requires executed <= t.Plan(|t.diffs|)
    ensures var r := RunEffects(t.mods, db, executed); r.Some? ==> NothingLost(db, r.value)
  {
    hide Describes, TableChanges, RunEffects, NothingLost, Target.Plan, Unique, ValidVisits;
    forall i | 0 <= i < |t.diffs| ensures MadeFor(db.tables, t.diffs[i]) {
      if t.diffs[i].OfTable? {
        DiffIsMadeFor(db.tables, to, visits, order, t.diffs[i].table);
        assert t.diffs[i] == OfTable(t.diffs[i].table);
      }
    }
    RunsLoseNothing(t, db, executed);
  }
}
