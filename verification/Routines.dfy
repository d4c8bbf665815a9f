// The routine part of a schema diff (internal/tengo/diff.go, compareRoutines and
// RoutineDiff.Statement).

module Routines {
  import opened Wrappers
  import opened Modifiers
  import opened KeyedRuns

  datatype Kind = Procedure | Function

  datatype Routine = Routine(
    name: string, kind: Kind, body: string, paramString: string, returnDataType: string, definer: string,
    databaseCollation: string, comment: string, deterministic: bool, sqlDataAccess: string, securityType: string,
    sqlMode: string, createStatement: string)

  datatype RoutineKey = RoutineKey(kind: Kind, name: string)

  type RoutineMap = map<RoutineKey, Routine>

  datatype RoutineDiff = RoutineDiff(from: Option<Routine>, to: Option<Routine>, forReplace: bool, forMetadata: bool) {
    predicate Valid() {
      from.Some? != to.Some?
    }

    function Key(): RoutineKey {
      if from.Some? then KeyOf(from.value) else if to.Some? then KeyOf(to.value) else RoutineKey(Procedure, "")
    }
  }

  function KeyOf(r: Routine): RoutineKey {
    RoutineKey(r.kind, r.name)
  }

  ghost predicate Keyed(m: RoutineMap) {
    forall k :: k in m ==> KeyOf(m[k]) == k
  }

  datatype RoutineStatement =
    | Blank
    | UnsupportedType
    | ForbiddenDrop(dropped: RoutineKey)
    | Drop(dropped: RoutineKey)
    | Create(created: Routine, orReplace: bool)

  /** RoutineDiff.Statement. */
  function Statement(mods: StatementModifiers, rd: RoutineDiff): RoutineStatement {
    if rd.forMetadata && !mods.compareMetadata then Blank
    else
      var mariaReplace := rd.forReplace && mods.flavor.IsMariaDB();
      if rd.from.None? && rd.to.Some? then Create(rd.to.value, mariaReplace)
      else if rd.from.Some? && rd.to.None? then
        if mariaReplace then Blank
        else if !mods.allowUnsafe then ForbiddenDrop(KeyOf(rd.from.value))
        else Drop(KeyOf(rd.from.value))
      else UnsupportedType
  }

  /** Executes the statement of one diff on the routine it concerns. */
  function Execute(mods: StatementModifiers, r: Option<Routine>, rd: RoutineDiff): Option<Option<Routine>> {
    match Statement(mods, rd)
    case Blank => Some(r)
    case UnsupportedType => None
    case ForbiddenDrop(_) => None
    case Drop(_) => if r.Some? then Some(None) else None
    case Create(to, orReplace) => if r.None? || orReplace then Some(Some(to)) else None
  }

  function Executor(mods: StatementModifiers): (Option<Routine>, RoutineDiff) -> Option<Option<Routine>> {
    (r, rd) => Execute(mods, r, rd)
  }

  function DiffKey(rd: RoutineDiff): RoutineKey {
    rd.Key()
  }

  // ----- compareRoutines -----

  function Changed(from: RoutineMap, to: RoutineMap, k: RoutineKey): seq<RoutineDiff>
    requires k in from
  {
    if k !in to then [RoutineDiff(Some(from[k]), None, false, false)]
    else if from[k] == to[k] then []
    else
      var metadataOnly := from[k].createStatement == to[k].createStatement;
      [RoutineDiff(Some(from[k]), None, true, metadataOnly), RoutineDiff(None, Some(to[k]), true, metadataOnly)]
  }

  function Added(from: RoutineMap, to: RoutineMap, k: RoutineKey): seq<RoutineDiff>
    requires k in to
  {
    if k in from then [] else [RoutineDiff(None, Some(to[k]), false, false)]
  }

  function ChangedChunks(from: RoutineMap, to: RoutineMap, order: seq<RoutineKey>): seq<seq<RoutineDiff>>
    requires forall i :: 0 <= i < |order| ==> order[i] in from
  {
    seq(|order|, i requires 0 <= i < |order| => Changed(from, to, order[i]))
  }

  function AddedChunks(from: RoutineMap, to: RoutineMap, order: seq<RoutineKey>): seq<seq<RoutineDiff>>
    requires forall i :: 0 <= i < |order| ==> order[i] in to
  {
    seq(|order|, i requires 0 <= i < |order| => Added(from, to, order[i]))
  }

  function OfKind(m: RoutineMap, kind: Kind): set<RoutineKey> {
    set k | k in m && k.kind == kind
  }

  /** The orders in which the two by-name maps of one kind are iterated. */
  datatype Orders = Orders(fromOrder: seq<RoutineKey>, toOrder: seq<RoutineKey>)

  ghost predicate ValidOrders(from: RoutineMap, to: RoutineMap, kind: Kind, o: Orders) {
    Lists(o.fromOrder, OfKind(from, kind)) && Lists(o.toOrder, OfKind(to, kind))
  }

  lemma OrdersInRange(from: RoutineMap, to: RoutineMap, kind: Kind, o: Orders)
    requires ValidOrders(from, to, kind, o)
    ensures forall i :: 0 <= i < |o.fromOrder| ==> o.fromOrder[i] in from && o.fromOrder[i].kind == kind
    ensures forall i :: 0 <= i < |o.toOrder| ==> o.toOrder[i] in to && o.toOrder[i].kind == kind
  {
    forall i | 0 <= i < |o.fromOrder| ensures o.fromOrder[i] in OfKind(from, kind) {
      ListsOnce(o.fromOrder, OfKind(from, kind), i);
    }
    forall i | 0 <= i < |o.toOrder| ensures o.toOrder[i] in OfKind(to, kind) {
      ListsOnce(o.toOrder, OfKind(to, kind), i);
    }
  }

  function KindDiffs(from: RoutineMap, to: RoutineMap, kind: Kind, o: Orders): seq<RoutineDiff>
    requires ValidOrders(from, to, kind, o)
  {
    OrdersInRange(from, to, kind, o);
    Join(ChangedChunks(from, to, o.fromOrder)) + Join(AddedChunks(from, to, o.toOrder))
  }

  method CompareKind(from: RoutineMap, to: RoutineMap, kind: Kind) returns (diffs: seq<RoutineDiff>, ghost o: Orders)
    ensures ValidOrders(from, to, kind, o) && diffs == KindDiffs(from, to, kind, o)
  {
    hide Join;
    var changed, added;
    ghost var fromOrder, toOrder;
    changed, fromOrder := CompareFrom(from, to, kind);
    added, toOrder := CompareTo(from, to, kind);
    return changed + added, Orders(fromOrder, toOrder);
  }

  lemma NothingJoined()
    ensures Join<RoutineDiff>([]) == []
  {
  }

  method CompareFrom(from: RoutineMap, to: RoutineMap, kind: Kind)
      returns (diffs: seq<RoutineDiff>, ghost order: seq<RoutineKey>)
    ensures Lists(order, OfKind(from, kind)) && forall i :: 0 <= i < |order| ==> order[i] in from
    ensures diffs == Join(ChangedChunks(from, to, order))
  {
    hide Join;
    diffs, order := [], [];
    NothingJoined();
    assert ChangedChunks(from, to, []) == [];
    var todo := OfKind(from, kind);
    while todo != {}
      invariant todo <= OfKind(from, kind) && multiset(order) + multiset(todo) == multiset(OfKind(from, kind))
      invariant forall i :: 0 <= i < |order| ==> order[i] in from
      invariant diffs == Join(ChangedChunks(from, to, order))
      decreases |todo|
    {
      var k :| k in todo;
      ghost var now := Changed(from, to, k);
      assert ChangedChunks(from, to, order + [k]) == ChangedChunks(from, to, order) + [now];
      JoinStep(ChangedChunks(from, to, order), now);
      TookOne(order, k, todo, OfKind(from, kind));
      if k !in to {
        diffs := diffs + [RoutineDiff(Some(from[k]), None, false, false)];
      } else if from[k] != to[k] {
        var metadataOnly := from[k].createStatement == to[k].createStatement;
        diffs := diffs + [RoutineDiff(Some(from[k]), None, true, metadataOnly),
                          RoutineDiff(None, Some(to[k]), true, metadataOnly)];
      }
      todo := todo - {k};
      order := order + [k];
    }
  }

  method CompareTo(from: RoutineMap, to: RoutineMap, kind: Kind)
      returns (diffs: seq<RoutineDiff>, ghost order: seq<RoutineKey>)
    ensures Lists(order, OfKind(to, kind)) && forall i :: 0 <= i < |order| ==> order[i] in to
    ensures diffs == Join(AddedChunks(from, to, order))
  {
    hide Join;
    diffs, order := [], [];
    NothingJoined();
    assert AddedChunks(from, to, []) == [];
    var todo := OfKind(to, kind);
    while todo != {}
      invariant todo <= OfKind(to, kind) && multiset(order) + multiset(todo) == multiset(OfKind(to, kind))
      invariant forall i :: 0 <= i < |order| ==> order[i] in to
      invariant diffs == Join(AddedChunks(from, to, order))
      decreases |todo|
    {
      var k :| k in todo;
      ghost var now := Added(from, to, k);
      assert AddedChunks(from, to, order + [k]) == AddedChunks(from, to, order) + [now];
      JoinStep(AddedChunks(from, to, order), now);
      TookOne(order, k, todo, OfKind(to, kind));
      if k !in from {
        diffs := diffs + [RoutineDiff(None, Some(to[k]), false, false)];
      }
      todo := todo - {k};
      order := order + [k];
    }
  }

  function RoutineDiffs(from: RoutineMap, to: RoutineMap, procs: Orders, funcs: Orders): seq<RoutineDiff>
    requires ValidOrders(from, to, Procedure, procs) && ValidOrders(from, to, Function, funcs)
  {
    KindDiffs(from, to, Procedure, procs) + KindDiffs(from, to, Function, funcs)
  }

  method CompareRoutines(from: RoutineMap, to: RoutineMap)
      returns (routineDiffs: seq<RoutineDiff>, ghost procs: Orders, ghost funcs: Orders)
    ensures ValidOrders(from, to, Procedure, procs) && ValidOrders(from, to, Function, funcs)
    ensures routineDiffs == RoutineDiffs(from, to, procs, funcs)
  {
    hide KindDiffs;
    var a, b;
    a, procs := CompareKind(from, to, Procedure);
    b, funcs := CompareKind(from, to, Function);
    routineDiffs := a + b;
  }

  // ----- what the diffs achieve -----

  /** The diffs of routine `k`. */
  function DiffsFor(from: RoutineMap, to: RoutineMap, k: RoutineKey): seq<RoutineDiff> {
    if k in from then Changed(from, to, k) else if k in to then Added(from, to, k) else []
  }

  lemma ChangedOf(from: RoutineMap, to: RoutineMap, kind: Kind, order: seq<RoutineKey>, k: RoutineKey)
    requires Keyed(from) && Keyed(to) && Lists(order, OfKind(from, kind)) && forall i :: 0 <= i < |order| ==>
             order[i] in from
    ensures Of(Join(ChangedChunks(from, to, order)), DiffKey, k) == if k in OfKind(from, kind)
            then Changed(from, to, k) else []
  {
    hide Of, Join;
    var chunks := ChangedChunks(from, to, order);
    ListsAll(order, OfKind(from, kind));
    assert Owned(chunks, order, DiffKey);
    if k in OfKind(from, kind) {
      var i :| 0 <= i < |order| && order[i] == k;
      ListsDistinct(order, OfKind(from, kind));
      JoinOfOne(chunks, order, DiffKey, i);
    } else {
      JoinOfNone(chunks, order, DiffKey, k);
    }
  }

  lemma AddedOf(from: RoutineMap, to: RoutineMap, kind: Kind, order: seq<RoutineKey>, k: RoutineKey)
    requires Keyed(from) && Keyed(to) && Lists(order, OfKind(to, kind)) && forall i :: 0 <= i < |order| ==>
             order[i] in to
    ensures Of(Join(AddedChunks(from, to, order)), DiffKey, k) == if k in OfKind(to, kind) then Added(from, to, k)
            else []
  {
    hide Of, Join;
    var chunks := AddedChunks(from, to, order);
    ListsAll(order, OfKind(to, kind));
    assert Owned(chunks, order, DiffKey);
    if k in OfKind(to, kind) {
      var i :| 0 <= i < |order| && order[i] == k;
      ListsDistinct(order, OfKind(to, kind));
      JoinOfOne(chunks, order, DiffKey, i);
    } else {
      JoinOfNone(chunks, order, DiffKey, k);
    }
  }

  lemma KindDiffsOf(from: RoutineMap, to: RoutineMap, kind: Kind, o: Orders, k: RoutineKey)
    requires Keyed(from) && Keyed(to) && ValidOrders(from, to, kind, o)
    ensures Of(KindDiffs(from, to, kind, o), DiffKey, k) == if k.kind == kind then DiffsFor(from, to, k) else []
  {
    hide Of, Join, Lists, Changed, ChangedChunks, AddedChunks;
    OrdersInRange(from, to, kind, o);
    OfConcat(Join(ChangedChunks(from, to, o.fromOrder)), Join(AddedChunks(from, to, o.toOrder)), DiffKey, k);
    ChangedOf(from, to, kind, o.fromOrder, k);
    AddedOf(from, to, kind, o.toOrder, k);
  }

  lemma DiffsOf(from: RoutineMap, to: RoutineMap, procs: Orders, funcs: Orders, k: RoutineKey)
    requires Keyed(from) && Keyed(to) && ValidOrders(from, to, Procedure, procs)
             && ValidOrders(from, to, Function, funcs)
    ensures Of(RoutineDiffs(from, to, procs, funcs), DiffKey, k) == DiffsFor(from, to, k)
  {
    hide Of, KindDiffs, ValidOrders, DiffsFor;
    OfConcat(KindDiffs(from, to, Procedure, procs), KindDiffs(from, to, Function, funcs), DiffKey, k);
    KindDiffsOf(from, to, Procedure, procs, k);
    KindDiffsOf(from, to, Function, funcs, k);
  }

  /** Only creation-time metadata differs, and the modifiers say to ignore that. */
  predicate MetadataIgnored(mods: StatementModifiers, from: RoutineMap, to: RoutineMap, k: RoutineKey) {
    !mods.compareMetadata && k in from && k in to && from[k].createStatement == to[k].createStatement
  }

  /** The routine called `k` in the end. */
  function Final(mods: StatementModifiers, from: RoutineMap, to: RoutineMap, k: RoutineKey): Option<Routine> {
    if MetadataIgnored(mods, from, to, k) then Some(from[k]) else At(to, k)
  }

  lemma DiffsExecute(mods: StatementModifiers, from: RoutineMap, to: RoutineMap, k: RoutineKey)
    requires mods.allowUnsafe
    ensures RunOne(At(from, k), DiffsFor(from, to, k), Executor(mods)) == Some(Final(mods, from, to, k))
  {
    var ds := DiffsFor(from, to, k);
    if |ds| > 0 {
      RunOneTwo(At(from, k), ds[0], ds[|ds| - 1], Executor(mods));
    }
  }

  /** With unsafe DDL allowed, the routine diffs run without error in any iteration
      order, on any flavor, and leave exactly the target's routines, except that a
      routine of which only metadata differs stays as it was unless CompareMetadata is set. */
  lemma RoutinesConverge(mods: StatementModifiers, from: RoutineMap, to: RoutineMap, procs: Orders, funcs: Orders)
    requires Keyed(from) && Keyed(to) && ValidOrders(from, to, Procedure, procs)
             && ValidOrders(from, to, Function, funcs)
    requires mods.allowUnsafe
    ensures var r := RunAll(from, RoutineDiffs(from, to, procs, funcs), DiffKey, Executor(mods));
            && r.Some? && (forall k :: At(r.value, k) == Final(mods, from, to, k))
            && (mods.compareMetadata ==> r.value == to)
  {
    hide RoutineDiffs, RunAll, RunOne, Of, DiffsFor, ValidOrders, Executor;
    var diffs := RoutineDiffs(from, to, procs, funcs);
    forall k ensures RunOne(At(from, k), Of(diffs, DiffKey, k), Executor(mods)) == Some(Final(mods, from, to, k)) {
      DiffsOf(from, to, procs, funcs, k);
      DiffsExecute(mods, from, to, k);
    }
    ObjectsAreIndependent(from, diffs, DiffKey, Executor(mods));
    var r := RunAll(from, diffs, DiffKey, Executor(mods)).value;
    if mods.compareMetadata {
      forall k ensures k in r <==> k in to
        ensures k in to ==> k in r && r[k] == to[k]
      {
        assert At(r, k) == Final(mods, from, to, k);
      }
    }
  }

  /** MariaDB's CREATE OR REPLACE, with the DROP left out, ends like DROP and CREATE. */
  lemma ReplaceEqualsDropAndCreate(mods: StatementModifiers, maria: StatementModifiers, from: RoutineMap,
      to: RoutineMap, procs: Orders, funcs: Orders, procs': Orders, funcs': Orders)
    requires Keyed(from) && Keyed(to) && mods.allowUnsafe && maria.allowUnsafe
             && mods.compareMetadata == maria.compareMetadata
    requires ValidOrders(from, to, Procedure, procs) && ValidOrders(from, to, Function, funcs)
    requires ValidOrders(from, to, Procedure, procs') && ValidOrders(from, to, Function, funcs')
    ensures RunAll(from, RoutineDiffs(from, to, procs, funcs), DiffKey, Executor(mods))
            == RunAll(from, RoutineDiffs(from, to, procs', funcs'), DiffKey, Executor(maria))
  {
    hide RoutineDiffs, RunAll, ValidOrders, Executor;
    RoutinesConverge(mods, from, to, procs, funcs);
    RoutinesConverge(maria, from, to, procs', funcs');
    var a, b := RunAll(from, RoutineDiffs(from, to, procs, funcs), DiffKey, Executor(mods)).value,
                RunAll(from, RoutineDiffs(from, to, procs', funcs'), DiffKey, Executor(maria)).value;
    forall k ensures k in a <==> k in b
      ensures k in a && k in b ==> a[k] == b[k]
    {
      assert At(a, k) == Final(mods, from, to, k) == Final(maria, from, to, k) == At(b, k);
    }
    assert a == b;
  }

  /** On MariaDB a routine that is being replaced exists after every statement, even without unsafe DDL. */
  lemma ReplacedNeverMissing(mods: StatementModifiers, from: RoutineMap, to: RoutineMap, k: RoutineKey, n: nat)
    requires mods.flavor.IsMariaDB() && k in from && k in to && n <= |DiffsFor(from, to, k)|
    ensures var r := RunOne(At(from, k), DiffsFor(from, to, k)[..n], Executor(mods)); r.Some? && r.value.Some?
  {
    var ds := DiffsFor(from, to, k);
    if n > 0 {
      RunOneTwo(At(from, k), ds[0], ds[1], Executor(mods));
      assert n == 1 ==> ds[..n] == [ds[0]];
      assert n == 2 ==> ds[..n] == [ds[0], ds[1]];
    }
  }

  /** The two diffs of a replacement are skipped together, exactly if only metadata differs and is to be ignored. */
  lemma SkippedAsAPair(mods: StatementModifiers, from: RoutineMap, to: RoutineMap, k: RoutineKey)
    requires k in from && k in to && from[k] != to[k]
    ensures var ds := DiffsFor(from, to, k);
            && |ds| == 2
            && (Statement(mods, ds[1]).Blank? <==> MetadataIgnored(mods, from, to, k))
            && (Statement(mods, ds[1]).Blank? ==> Statement(mods, ds[0]).Blank?)
            && (Statement(mods, ds[0]).Blank? && !mods.flavor.IsMariaDB() ==> Statement(mods, ds[1]).Blank?)
  {
  }
}
