// The table part of a schema diff (internal/tengo/diff.go, compareTables): whatever
// the order in which Go iterates over its maps, the emitted diffs turn one schema's
// tables into the other's.

module SchemaDiff {
  import opened Wrappers
  import opened Text
  import opened Tables
  import opened TableDiff
  import opened Splitting
  import opened KeyedRuns
  import A = Attributes

  type TableMap = map<string, Table>

  // ----- the diffs of one table -----

  predicate RangeOrList(t: Table) {
    && t.attrs.partitioning.Some? && t.attrs.partitioning.value.subMethod == ""
    && (HasPrefix(t.attrs.partitioning.value.method_, "RANGE") || HasPrefix(t.attrs.partitioning.value.method_, "LIST"))
  }

  function FakeTo(t: Table): Table {
    t.(attrs := t.attrs.(partitioning := None))
  }

  function DropPartition(t: Table, p: A.Partition): TableChange {
    AlterTable(t, FakeTo(t), [OnAttrs(A.ModifyPartitions([p.name], true))], true)
  }

  /** One ALTER per partition but the last. */
  function PreDrop(t: Table): seq<TableChange>
    requires RangeOrList(t) ==> |t.attrs.partitioning.value.partitions| > 0
  {
    if !RangeOrList(t) then []
    else
      var parts := t.attrs.partitioning.value.partitions;
      seq(|parts| - 1, i requires 0 <= i < |parts| - 1 => DropPartition(t, parts[i]))
  }

  method PreDropAlters(t: Table) returns (result: seq<TableChange>)
    requires RangeOrList(t) ==> |t.attrs.partitioning.value.partitions| > 0
    ensures result == PreDrop(t)
  {
    if t.attrs.partitioning.None? || t.attrs.partitioning.value.subMethod != "" {
      return [];
    }
    var partitioning := t.attrs.partitioning.value;
    if !HasPrefix(partitioning.method_, "RANGE") && !HasPrefix(partitioning.method_, "LIST") {
      return [];
    }
    var fakeTo := t.(attrs := t.attrs.(partitioning := None));
    result := [];
    for n := 0 to |partitioning.partitions| - 1
      invariant result == PreDrop(t)[..n]
    {
      var clause := OnAttrs(A.ModifyPartitions([partitioning.partitions[n].name], true));
      result := result + [AlterTable(t, fakeTo, [clause], true)];
    }
  }

  /** NewAlterTable: no diff at all if the tables are identical. */
  function AlterOf(from: Table, to: Table, plan: Plan): Option<TableChange> {
    var (clauses, supported) := Diff(from, to, plan);
    if supported && |clauses| == 0 then None else Some(AlterTable(from, to, clauses, supported))
  }

  /** The ALTERs that run in place, and the one that only adds foreign keys. */
  function AltersFor(from: Table, to: Table, plan: Plan): (seq<TableChange>, seq<TableChange>) {
    match AlterOf(from, to, plan)
    case None => ([], [])
    case Some(td) =>
      if !Splittable(td) then ([td], [])
      else (if |Others(td.clauses)| > 0 then Pieces(td, ConflictPieces(Others(td.clauses))) else [],
            if |AddFks(td.clauses)| > 0 then [td.(clauses := AddFks(td.clauses))] else [])
  }

  /** A step of the iteration over a map of tables. The plan only matters for a table on both sides. */
  datatype Visit = Visit(name: string, plan: Plan)

  function VisitNames(visits: seq<Visit>): (r: seq<string>)
    ensures |r| == |visits| && forall i :: 0 <= i < |r| ==> r[i] == visits[i].name
  {
    seq(|visits|, i requires 0 <= i < |visits| => visits[i].name)
  }

  ghost predicate Droppable(t: Table) {
    RangeOrList(t) ==> |t.attrs.partitioning.value.partitions| > 0
  }

  ghost predicate WellFormed(tables: TableMap) {
    forall n :: n in tables ==> tables[n].name == n && tables[n].WellFormed() && Droppable(tables[n])
  }

  ghost predicate ValidVisits(from: TableMap, to: TableMap, visits: seq<Visit>) {
    && Lists(VisitNames(visits), from.Keys)
    && forall i :: 0 <= i < |visits| && visits[i].name in from && visits[i].name in to
                   ==> ValidPlan(from[visits[i].name], to[visits[i].name], visits[i].plan)
  }

  function VisitAlters(from: TableMap, to: TableMap, v: Visit): seq<TableChange>
    requires v.name in from && Droppable(from[v.name])
  {
    if v.name in to then AltersFor(from[v.name], to[v.name], v.plan).0
    else PreDrop(from[v.name]) + [DropTable(from[v.name])]
  }

  function VisitFks(from: TableMap, to: TableMap, v: Visit): seq<TableChange>
    requires v.name in from
  {
    if v.name in to then AltersFor(from[v.name], to[v.name], v.plan).1 else []
  }

  ghost predicate Visitable(from: TableMap, visits: seq<Visit>) {
    forall i :: 0 <= i < |visits| ==> visits[i].name in from && Droppable(from[visits[i].name])
  }

  /** What each visit contributes, in order. */
  function AlterChunks(from: TableMap, to: TableMap, visits: seq<Visit>): seq<seq<TableChange>>
    requires Visitable(from, visits)
  {
    seq(|visits|, i requires 0 <= i < |visits| => VisitAlters(from, to, visits[i]))
  }

  function FkChunks(from: TableMap, to: TableMap, visits: seq<Visit>): seq<seq<TableChange>>
    requires Visitable(from, visits)
  {
    seq(|visits|, i requires 0 <= i < |visits| => VisitFks(from, to, visits[i]))
  }

  function CreateIfMissing(from: TableMap, t: Table): seq<TableChange> {
    if t.name in from then [] else [CreateTable(t)]
  }

  function CreateChunks(from: TableMap, to: TableMap, order: seq<string>): seq<seq<TableChange>>
    requires forall i :: 0 <= i < |order| ==> order[i] in to
  {
    seq(|order|, i requires 0 <= i < |order| => CreateIfMissing(from, to[order[i]]))
  }

  ghost predicate ValidOrders(from: TableMap, to: TableMap, visits: seq<Visit>, order: seq<string>) {
    WellFormed(from) && WellFormed(to) && ValidVisits(from, to, visits) && Lists(order, to.Keys)
  }

  lemma OrdersAreInRange(from: TableMap, to: TableMap, visits: seq<Visit>, order: seq<string>)
    requires ValidOrders(from, to, visits, order)
    ensures Visitable(from, visits) && forall i :: 0 <= i < |order| ==> order[i] in to
  {
    forall i | 0 <= i < |visits| ensures visits[i].name in from && Droppable(from[visits[i].name]) {
      ListsOnce(VisitNames(visits), from.Keys, i);
    }
    forall i | 0 <= i < |order| ensures order[i] in to {
      ListsOnce(order, to.Keys, i);
    }
  }

  /** SchemaDiff.TableDiffs, for given iteration orders of the two maps. */
  function TableChanges(from: TableMap, to: TableMap, visits: seq<Visit>, order: seq<string>): seq<TableChange>
    requires ValidOrders(from, to, visits, order)
  {
    OrdersAreInRange(from, to, visits, order);
    Join(AlterChunks(from, to, visits)) + Join(CreateChunks(from, to, order)) + Join(FkChunks(from, to, visits))
  }

  // ----- the loops of compareTables -----

  method NewAlterTable(from: Table, to: Table) returns (td: Option<TableChange>, ghost plan: Plan)
    requires from.WellFormed() && to.WellFormed() && from.name == to.name
    ensures ValidPlan(from, to, plan) && td == AlterOf(from, to, plan)
  {
    var clauses, supported;
    clauses, supported, plan := DiffTables(from, to);
    if supported && |clauses| == 0 {
      return None, plan;
    }
    return Some(AlterTable(from, to, clauses, supported)), plan;
  }

  method AlterOne(from: Table, to: Table) returns (alters: seq<TableChange>, fks: seq<TableChange>, ghost plan: Plan)
    requires from.WellFormed() && to.WellFormed() && from.name == to.name
    ensures ValidPlan(from, to, plan) && (alters, fks) == AltersFor(from, to, plan)
  {
    hide ValidPlan, Diff, Select, ConflictPieces;
    alters, fks := [], [];
    var td;
    td, plan := NewAlterTable(from, to);
    if td.Some? {
      var otherAlter, addFkAlter := SplitAddForeignKeys(td.value);
      alters := SplitConflicts(otherAlter);
      if addFkAlter.Some? {
        fks := [addFkAlter.value];
      }
      if Splittable(td.value) && otherAlter.Some? {
        assert Pieces(otherAlter.value, ConflictPieces(Others(td.value.clauses)))
            == Pieces(td.value, ConflictPieces(Others(td.value.clauses)));
      }
    }
  }

  method CompareTables(from: TableMap, to: TableMap)
      returns (diffs: seq<TableChange>, ghost visits: seq<Visit>, ghost order: seq<string>)
    requires WellFormed(from) && WellFormed(to)
    ensures ValidOrders(from, to, visits, order) && diffs == TableChanges(from, to, visits, order)
  {
    hide WellFormed, ValidVisits, Visitable, AlterChunks, FkChunks, CreateChunks;
    var tableDiffs, creates, addFKAlters;
    tableDiffs, addFKAlters, visits := CompareExisting(from, to);
    assert WellFormed(to);
    creates, order := CreateMissing(from, to);
    diffs := tableDiffs + creates + addFKAlters;
  }

  method CompareExisting(from: TableMap, to: TableMap)
      returns (alters: seq<TableChange>, fks: seq<TableChange>, ghost visits: seq<Visit>)
    requires WellFormed(from) && WellFormed(to)
    ensures ValidVisits(from, to, visits) && Visitable(from, visits)
    ensures alters == Join(AlterChunks(from, to, visits)) && fks == Join(FkChunks(from, to, visits))
  {
    hide VisitAlters, VisitFks, ValidPlan, WellFormed, Droppable, Join, AlterChunks, FkChunks;
    alters, fks, visits := [], [], [];
    NoChunks(from, to);
    var todo := from.Keys;
    while todo != {}
      invariant todo <= from.Keys && multiset(VisitNames(visits)) + multiset(todo) == multiset(from.Keys)
      invariant Visitable(from, visits)
      invariant forall i :: 0 <= i < |visits| && visits[i].name in from && visits[i].name in to ==>
                ValidPlan(from[visits[i].name], to[visits[i].name], visits[i].plan)
      invariant alters == Join(AlterChunks(from, to, visits)) && fks == Join(FkChunks(from, to, visits))
      decreases |todo|
    {
      var name :| name in todo;
      var nowAlters, nowFks;
      ghost var v: Visit;
      nowAlters, nowFks, v := VisitOne(from, to, name);
      AllDroppable(from, name);
      assert VisitNames(visits + [v]) == VisitNames(visits) + [name];
      ChunksGrow(from, to, visits, v);
      TookOne(VisitNames(visits), name, todo, from.Keys);
      alters, fks := alters + nowAlters, fks + nowFks;
      todo := todo - {name};
      visits := visits + [v];
    }
  }

  lemma NoChunks(from: TableMap, to: TableMap)
    ensures Join(AlterChunks(from, to, [])) == [] && Join(FkChunks(from, to, [])) == []
  {
  }

  lemma ChunksGrow(from: TableMap, to: TableMap, visits: seq<Visit>, v: Visit)
    requires Visitable(from, visits) && v.name in from && Droppable(from[v.name])
    ensures Visitable(from, visits + [v])
    ensures Join(AlterChunks(from, to, visits + [v])) == Join(AlterChunks(from, to, visits)) + VisitAlters(from, to, v)
    ensures Join(FkChunks(from, to, visits + [v])) == Join(FkChunks(from, to, visits)) + VisitFks(from, to, v)
  {
    hide VisitAlters, VisitFks, Join, Droppable;
    assert Visitable(from, visits + [v]);
    assert AlterChunks(from, to, visits + [v]) == AlterChunks(from, to, visits) + [VisitAlters(from, to, v)];
    assert FkChunks(from, to, visits + [v]) == FkChunks(from, to, visits) + [VisitFks(from, to, v)];
    JoinStep(AlterChunks(from, to, visits), VisitAlters(from, to, v));
    JoinStep(FkChunks(from, to, visits), VisitFks(from, to, v));
  }

  lemma NothingJoined<C>()
    ensures Join<C>([]) == []
  {
  }

  lemma AllDroppable(tables: TableMap, n: string)
    requires WellFormed(tables) && n in tables
    ensures Droppable(tables[n])
  {
  }

  method VisitOne(from: TableMap, to: TableMap, name: string)
      returns (alters: seq<TableChange>, fks: seq<TableChange>, ghost v: Visit)
    requires WellFormed(from) && WellFormed(to) && name in from
    ensures v.name == name && (name in to ==> ValidPlan(from[name], to[name], v.plan))
    ensures alters == VisitAlters(from, to, v) && fks == VisitFks(from, to, v)
  {
    hide ValidPlan, AltersFor, PreDrop;
    if name !in to {
      var drops := PreDropAlters(from[name]);
      return drops + [DropTable(from[name])], [], Visit(name, Plan({}, [], []));
    }
    ghost var plan;
    alters, fks, plan := AlterOne(from[name], to[name]);
    v := Visit(name, plan);
  }

  method CreateMissing(from: TableMap, to: TableMap) returns (creates: seq<TableChange>, ghost order: seq<string>)
    requires WellFormed(to)
    ensures Lists(order, to.Keys)
    ensures (forall i :: 0 <= i < |order| ==> order[i] in to) && creates == Join(CreateChunks(from, to, order))
  {
    hide Join, Table.WellFormed, Droppable;
    creates, order := [], [];
    NothingJoined<TableChange>();
    assert CreateChunks(from, to, []) == [];
    var todo := to.Keys;
    while todo != {}
      invariant todo <= to.Keys && multiset(order) + multiset(todo) == multiset(to.Keys)
      invariant forall i :: 0 <= i < |order| ==> order[i] in to
      invariant creates == Join(CreateChunks(from, to, order))
      decreases |todo|
    {
      var name :| name in todo;
      ghost var now := CreateIfMissing(from, to[name]);
      assert CreateChunks(from, to, order + [name]) == CreateChunks(from, to, order) + [now];
      JoinStep(CreateChunks(from, to, order), now);
      TookOne(order, name, todo, to.Keys);
      if name !in from {
        creates := creates + [CreateTable(to[name])];
      }
      todo := todo - {name};
      order := order + [name];
    }
  }
}
