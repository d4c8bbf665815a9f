// The pieces of a split ALTER TABLE, run in order, have the effect of the whole
// (internal/tengo/diff.go, SplitAddForeignKeys and SplitConflicts).

module SplitMeaning {
  import opened Wrappers
  import opened NamedLists
  import opened Modifiers
  import opened Tables
  import opened ListOps
  import opened Splitting
  import C = Columns
  import I = Indexes
  import ID = IndexDiff
  import F = ForeignKeys
  import K = Checks
  import A = Attributes

  // ----- clauses as list operations -----

  function FkOp(strict: bool, c: F.FkClause): Op<F.FkDef> {
    if F.Suppressed(strict, c) then Skip(c.fk.name)
    else if c.AddForeignKey? then Append(c.fk) else Op.Remove(c.fk.name)
  }

  function FkOps(strict: bool, cs: seq<F.FkClause>): (r: seq<Op<F.FkDef>>)
    ensures |r| == |cs| && forall i :: 0 <= i < |r| ==> r[i] == FkOp(strict, cs[i])
  {
    seq(|cs|, i requires 0 <= i < |cs| => FkOp(strict, cs[i]))
  }

  function IndexOp(strict: bool, canHide: bool, c: ID.IndexClause): Op<I.IndexDef> {
    if ID.Suppressed(strict, canHide, c) || (!c.AlterIndex? && c.index.def.primaryKey) then Skip(c.index.name)
    else match c
      case AddIndex(idx, _) => Append(idx)
      case DropIndex(idx, _) => Op.Remove(idx.name)
      case AlterIndex(idx, invisible, _) => Modify(idx.name, (d: I.IndexDef) => d.(invisible := invisible))
  }

  function IndexOps(strict: bool, canHide: bool, cs: seq<ID.IndexClause>): (r: seq<Op<I.IndexDef>>)
    ensures |r| == |cs| && forall i :: 0 <= i < |r| ==> r[i] == IndexOp(strict, canHide, cs[i])
  {
    seq(|cs|, i requires 0 <= i < |cs| => IndexOp(strict, canHide, cs[i]))
  }

  lemma {:induction false} FksAsOps(strict: bool, l: seq<F.ForeignKey>, cs: seq<F.FkClause>)
    ensures F.ApplyFks(strict, l, cs) == ApplyOps(l, FkOps(strict, cs))
  {
    if |cs| > 0 {
      var init, last := cs[..|cs| - 1], cs[|cs| - 1];
      FksAsOps(strict, l, init);
      assert cs == init + [last] && FkOps(strict, cs)[..|cs| - 1] == FkOps(strict, init);
      F.ApplyFksSplit(strict, l, init, [last]);
      hide Has, Without, F.ApplyFks;
      match ApplyOps(l, FkOps(strict, init))
      case None =>
      case Some(mid) =>
        F.ApplyTwo(strict, mid, last, last);
    }
  }

  function PrimaryStep(strict: bool, canHide: bool, p: Option<I.Index>, c: ID.IndexClause): Option<Option<I.Index>> {
    if ID.Suppressed(strict, canHide, c) || c.AlterIndex? || !c.index.def.primaryKey then Some(p)
    else if c.AddIndex? then (if p.None? then Some(Some(c.index)) else None)
    else (if p.Some? then Some(None) else None)
  }

  /** What the clauses do to the primary key. */
  function PrimaryAfter(strict: bool, canHide: bool, p: Option<I.Index>,
      cs: seq<ID.IndexClause>): Option<Option<I.Index>> {
    if |cs| == 0 then Some(p)
    else match PrimaryAfter(strict, canHide, p, cs[..|cs| - 1])
      case None => None
      case Some(q) => PrimaryStep(strict, canHide, q, cs[|cs| - 1])
  }

  function Both(p: Option<Option<I.Index>>, s: Option<seq<I.Index>>): Option<ID.Keys> {
    if p.None? || s.None? then None else Some(ID.Keys(p.value, s.value))
  }

  lemma StepAsOp(strict: bool, canHide: bool, keys: ID.Keys, c: ID.IndexClause)
    ensures ID.ApplyIndex(strict, canHide, keys, c)
            == Both(PrimaryStep(strict, canHide, keys.primary, c), ApplyOp(keys.secondary, IndexOp(strict, canHide, c)))
  {
    hide Names, IndexOf, Replace;
  }

  lemma {:induction false} IndexesAsOps(strict: bool, canHide: bool, keys: ID.Keys, cs: seq<ID.IndexClause>)
    ensures ID.ApplyIndexes(strict, canHide, keys, cs)
            == Both(PrimaryAfter(strict, canHide, keys.primary, cs),
                ApplyOps(keys.secondary, IndexOps(strict, canHide, cs)))
  {
    if |cs| > 0 {
      hide ID.ApplyIndex, ID.ApplyIndexes, PrimaryStep, ApplyOp, ApplyOps, IndexOp, IndexOps;
      var init, last := cs[..|cs| - 1], cs[|cs| - 1];
      assert cs == init + [last];
      IndexesAsOps(strict, canHide, keys, init);
      LastIndexOp(strict, canHide, keys.secondary, cs);
      ID.ApplyIndexesSplit(strict, canHide, keys, init, [last]);
      match ID.ApplyIndexes(strict, canHide, keys, init)
      case None =>
      case Some(mid) =>
        ID.ApplyTwo(strict, canHide, mid, last, last);
        StepAsOp(strict, canHide, mid, last);
    } else {
      assert IndexOps(strict, canHide, cs) == [];
    }
  }

  lemma LastIndexOp(strict: bool, canHide: bool, l: seq<I.Index>, cs: seq<ID.IndexClause>)
    requires |cs| > 0
    ensures ApplyOps(l, IndexOps(strict, canHide, cs))
            == match ApplyOps(l, IndexOps(strict, canHide, cs[..|cs| - 1])) {
                 case None => None
                 case Some(mid) => ApplyOp(mid, IndexOp(strict, canHide, cs[|cs| - 1]))
               }
  {
    hide ApplyOp, IndexOp;
    assert IndexOps(strict, canHide, cs)[..|cs| - 1] == IndexOps(strict, canHide, cs[..|cs| - 1]);
  }

  lemma {:induction false} SelectFkOps(strict: bool, cs: seq<F.FkClause>, marks: seq<bool>, wanted: bool)
    requires |marks| == |cs|
    ensures FkOps(strict, Select(cs, marks, wanted)) == Select(FkOps(strict, cs), marks, wanted)
  {
    if |cs| > 0 {
      SelectFkOps(strict, cs[..|cs| - 1], marks[..|cs| - 1], wanted);
      assert FkOps(strict, cs)[..|cs| - 1] == FkOps(strict, cs[..|cs| - 1]);
    }
  }

  lemma {:induction false} SelectIndexOps(strict: bool, canHide: bool, cs: seq<ID.IndexClause>, marks: seq<bool>,
      wanted: bool)
    requires |marks| == |cs|
    ensures IndexOps(strict, canHide, Select(cs, marks, wanted)) == Select(IndexOps(strict, canHide, cs), marks, wanted)
  {
    if |cs| > 0 {
      SelectIndexOps(strict, canHide, cs[..|cs| - 1], marks[..|cs| - 1], wanted);
      assert IndexOps(strict, canHide, cs)[..|cs| - 1] == IndexOps(strict, canHide, cs[..|cs| - 1]);
    }
  }

  lemma {:induction false} PrimaryConcat(strict: bool, canHide: bool, p: Option<I.Index>, a: seq<ID.IndexClause>,
      b: seq<ID.IndexClause>)
    ensures PrimaryAfter(strict, canHide, p, a + b)
            == match PrimaryAfter(strict, canHide, p, a) {
                 case None => None
                 case Some(q) => PrimaryAfter(strict, canHide, q, b)
               }
  {
    if |b| == 0 {
      assert a + b == a;
    } else {
      assert (a + b)[..|a + b| - 1] == a + b[..|b| - 1];
      PrimaryConcat(strict, canHide, p, a, b[..|b| - 1]);
    }
  }

  predicate SecondaryAdd(c: ID.IndexClause) {
    c.AddIndex? && !c.index.def.primaryKey
  }

  /** Moving additions of secondary indexes to the end does not affect the primary key. */
  lemma {:induction false} PrimaryKept(strict: bool, canHide: bool, p: Option<I.Index>, cs: seq<ID.IndexClause>,
      marks: seq<bool>)
    requires |marks| == |cs| && forall i :: 0 <= i < |cs| && marks[i] ==> SecondaryAdd(cs[i])
    ensures PrimaryAfter(strict, canHide, p, Select(cs, marks, false)) == PrimaryAfter(strict, canHide, p, cs)
    ensures forall q :: PrimaryAfter(strict, canHide, q, Select(cs, marks, true)) == Some(q)
  {
    if |cs| > 0 {
      var init, before, last := cs[..|cs| - 1], marks[..|cs| - 1], cs[|cs| - 1];
      PrimaryKept(strict, canHide, p, init, before);
      SelectLast(cs, marks, false);
      SelectLast(cs, marks, true);
      hide Select;
      if marks[|cs| - 1] {
        assert (Select(init, before, true) + [last])[..|Select(init, before, true)|] == Select(init, before, true);
      } else {
        assert (Select(init, before, false) + [last])[..|Select(init, before, false)|] == Select(init, before, false);
      }
    }
  }

  // ----- moving additions to the end -----

  /** The names of the indexes that are not FULLTEXT. */
  ghost function Plain(s: seq<I.Index>): set<string> {
    set n | n in Names(s) && Get(s, n).def.kind != "FULLTEXT"
  }

  /** Same primary key and same secondary indexes; those that are not FULLTEXT in the same order. */
  ghost predicate SameKeys(a: ID.Keys, b: ID.Keys) {
    && a.primary == b.primary && SameElements(a.secondary, b.secondary)
    && Only(a.secondary, Plain(b.secondary)) == Only(b.secondary, Plain(b.secondary))
  }

  lemma {:induction false} ItemsFrom<T>(ops: seq<Op<T>>, x: Named<T>)
    requires x in Items(ops)
    ensures Append(x) in ops
  {
    var init, last := ops[..|ops| - 1], ops[|ops| - 1];
    if x in Items(init) {
      ItemsFrom(init, x);
    } else {
      assert last == Append(x);
    }
  }

  lemma LateIsFullText(strict: bool, canHide: bool, cs: seq<ID.IndexClause>, marks: seq<bool>)
    requires |marks| == |cs| && forall i :: 0 <= i < |cs| && marks[i] ==>
             SecondaryAdd(cs[i]) && cs[i].index.def.kind == "FULLTEXT"
    ensures forall x :: x in Items(Late(IndexOps(strict, canHide, cs), marks)) ==> x.def.kind == "FULLTEXT"
  {
    var ops := IndexOps(strict, canHide, cs);
    var late := Late(ops, marks);
    SelectElements(ops, marks, true);
    forall x | x in Items(late) ensures x.def.kind == "FULLTEXT" {
      ItemsFrom(late, x);
      var i :| 0 <= i < |ops| && ops[i] == Append(x) && marks[i];
    }
  }

  lemma IndexesDeferrable(strict: bool, canHide: bool, cs: seq<ID.IndexClause>, marks: seq<bool>)
    requires AddsLast(IndexOps(strict, canHide, cs)) && |marks| == |cs|
    requires forall i :: 0 <= i < |cs| && marks[i] ==> SecondaryAdd(cs[i])
    ensures Deferrable(IndexOps(strict, canHide, cs), marks)
  {
    hide AddsLast;
  }

  /** The indexes in `items` stand at the end; all others keep their order. */
  ghost function Moved(r: seq<I.Index>, items: seq<I.Index>): seq<I.Index> {
    Only(r, Names(r) - Names(items)) + items
  }

  lemma IndexesMove(strict: bool, canHide: bool, keys: ID.Keys, cs: seq<ID.IndexClause>, marks: seq<bool>)
    requires Unique(keys.secondary) && AddsLast(IndexOps(strict, canHide, cs)) && |marks| == |cs|
    requires forall i :: 0 <= i < |cs| && marks[i] ==> SecondaryAdd(cs[i]) && cs[i].index.def.kind == "FULLTEXT"
    requires ID.ApplyIndexes(strict, canHide, keys, cs).Some?
    ensures var r2 := ID.ApplyIndexes(strict, canHide, keys, Select(cs, marks, false) + Select(cs, marks, true));
            && r2.Some? && SameKeys(r2.value, ID.ApplyIndexes(strict, canHide, keys, cs).value)
            && r2.value.secondary == Moved(ID.ApplyIndexes(strict, canHide, keys, cs).value.secondary,
                                           Items(IndexOps(strict, canHide, Select(cs, marks, true))))
  {
    hide Select, AddsLast, Unique, Names, Only, ApplyOps, PrimaryAfter, ID.ApplyIndexes, SameElements, Plain, Items,
         IndexOp;
    var ops, kept, late := IndexOps(strict, canHide, cs), Select(cs, marks, false), Select(cs, marks, true);
    IndexesAsOps(strict, canHide, keys, cs);
    IndexesAsOps(strict, canHide, keys, kept + late);
    PrimaryConcat(strict, canHide, keys.primary, kept, late);
    PrimaryKept(strict, canHide, keys.primary, cs, marks);
    IndexesDeferrable(strict, canHide, cs, marks);
    DeferringPreserves(keys.secondary, ops, marks);
    SelectIndexOps(strict, canHide, cs, marks, false);
    SelectIndexOps(strict, canHide, cs, marks, true);
    assert IndexOps(strict, canHide, kept + late) == Kept(ops, marks) + Late(ops, marks);
    LateIsFullText(strict, canHide, cs, marks);
    PlainOrder(ApplyOps(keys.secondary, ops).value,
        ApplyOps(keys.secondary, Kept(ops, marks) + Late(ops, marks)).value, Items(Late(ops, marks)));
  }

  lemma PlainOrder(r: seq<I.Index>, d: seq<I.Index>, items: seq<I.Index>)
    requires Unique(r) && SameElements(d, r) && d == Only(r, Names(r) - Names(items)) + items
    requires forall x :: x in items ==> x.def.kind == "FULLTEXT"
    ensures Only(d, Plain(r)) == Only(r, Plain(r))
  {
    hide Unique, Names, Only, IndexOf;
    var rest := Only(r, Names(r) - Names(items));
    OnlyConcat(rest, items, Plain(r));
    Concat(rest, items);
    assert Names(items) !! Plain(r) by {
      forall n | n in Names(items) ensures n !in Plain(r) {
        var k := IndexOf(items, n);
        Lookup(d, |rest| + k);
        assert d[|rest| + k] == items[k];
      }
    }
    OnlyNone(items, Plain(r));
    assert Only(rest, Plain(r)) + [] == Only(rest, Plain(r));
    OnlyOnly(r, Names(r) - Names(items), Plain(r));
    OnlySame(r, (Names(r) - Names(items)) * Plain(r), Plain(r));
  }

  lemma FksMove(strict: bool, l: seq<F.ForeignKey>, cs: seq<F.FkClause>, marks: seq<bool>)
    requires Unique(l) && AddsLast(FkOps(strict, cs)) && |marks| == |cs|
    requires forall i :: 0 <= i < |cs| && marks[i] ==> cs[i].AddForeignKey?
    requires F.ApplyFks(strict, l, cs).Some?
    ensures var r2 := F.ApplyFks(strict, l, Select(cs, marks, false) + Select(cs, marks, true));
            r2.Some? && SameElements(r2.value, F.ApplyFks(strict, l, cs).value)
  {
    hide Select, AddsLast, Unique, Names, Only, ApplyOps, F.ApplyFks, SameElements, FkOps, Deferrable;
    var ops, kept, late := FkOps(strict, cs), Select(cs, marks, false), Select(cs, marks, true);
    FksAsOps(strict, l, cs);
    FksAsOps(strict, l, kept + late);
    FksDeferrable(strict, cs, marks);
    DeferringPreserves(l, ops, marks);
    SelectedFkOps(strict, cs, marks);
  }

  lemma FksDeferrable(strict: bool, cs: seq<F.FkClause>, marks: seq<bool>)
    requires AddsLast(FkOps(strict, cs)) && |marks| == |cs|
    requires forall i :: 0 <= i < |cs| && marks[i] ==> cs[i].AddForeignKey?
    ensures Deferrable(FkOps(strict, cs), marks)
  {
    hide AddsLast;
  }

  lemma SelectedFkOps(strict: bool, cs: seq<F.FkClause>, marks: seq<bool>)
    requires |marks| == |cs|
    ensures var ops := FkOps(strict, cs);
            FkOps(strict, Select(cs, marks, false) + Select(cs, marks, true)) == Kept(ops, marks) + Late(ops, marks)
  {
    hide Select;
    SelectFkOps(strict, cs, marks, false);
    SelectFkOps(strict, cs, marks, true);
  }

  // ----- selecting and sorting by component commute -----

  /** The marks of the clauses that `pick` selects. */
  function PickMarks<T>(clauses: seq<TableClause>, marks: seq<bool>, pick: TableClause -> Option<T>): seq<bool>
    requires |marks| == |clauses|
  {
    if |clauses| == 0 then []
    else PickMarks(clauses[..|clauses| - 1], marks[..|clauses| - 1], pick)
         + (if pick(clauses[|clauses| - 1]).Some? then [marks[|clauses| - 1]] else [])
  }

  function Picked<T>(c: TableClause, pick: TableClause -> Option<T>): seq<T> {
    match pick(c) case Some(x) => [x] case None => []
  }

  lemma PickOne<T>(c: TableClause, pick: TableClause -> Option<T>)
    ensures Pick([c], pick) == Picked(c, pick)
  {
    assert [c][1..] == [];
  }

  lemma PickMore<T>(init: seq<TableClause>, last: TableClause, pick: TableClause -> Option<T>)
    ensures Pick(init + [last], pick) == Pick(init, pick) + Picked(last, pick)
  {
    hide Pick, Picked;
    PickConcat(init, [last], pick);
    PickOne(last, pick);
  }

  lemma PickLast<T>(clauses: seq<TableClause>, pick: TableClause -> Option<T>)
    requires |clauses| > 0
    ensures Pick(clauses, pick) == Pick(clauses[..|clauses| - 1], pick) + Picked(clauses[|clauses| - 1], pick)
  {
    hide Pick, Picked;
    var init, last := clauses[..|clauses| - 1], clauses[|clauses| - 1];
    assert clauses == init + [last];
    PickMore(init, last, pick);
  }

  lemma {:induction false} PickMarked<T>(clauses: seq<TableClause>, marks: seq<bool>, pick: TableClause -> Option<T>)
    requires |marks| == |clauses|
    ensures |PickMarks(clauses, marks, pick)| == |Pick(clauses, pick)|
    ensures forall i :: 0 <= i < |Pick(clauses, pick)| && PickMarks(clauses, marks, pick)[i]
                        ==> exists j ::
                            0 <= j < |clauses| && marks[j] && pick(clauses[j]) == Some(Pick(clauses, pick)[i])
  {
    if |clauses| > 0 {
      hide Pick;
      var init, before := clauses[..|clauses| - 1], marks[..|clauses| - 1];
      PickMarked(init, before, pick);
      PickLast(clauses, pick);
      forall i | 0 <= i < |Pick(clauses, pick)| && PickMarks(clauses, marks, pick)[i]
        ensures exists j :: 0 <= j < |clauses| && marks[j] && pick(clauses[j]) == Some(Pick(clauses, pick)[i]) {
        if i < |Pick(init, pick)| {
          var j :| 0 <= j < |init| && before[j] && pick(init[j]) == Some(Pick(init, pick)[i]);
          assert marks[j] && pick(clauses[j]) == Some(Pick(clauses, pick)[i]);
        } else {
          assert marks[|clauses| - 1] && pick(clauses[|clauses| - 1]) == Some(Pick(clauses, pick)[i]);
        }
      }
    } else {
      assert Pick(clauses, pick) == [];
    }
  }

  lemma {:induction false} PickSelect<T>(clauses: seq<TableClause>, marks: seq<bool>, pick: TableClause -> Option<T>,
      wanted: bool)
    requires |marks| == |clauses|
    ensures |PickMarks(clauses, marks, pick)| == |Pick(clauses, pick)|
    ensures Pick(Select(clauses, marks, wanted), pick)
            == Select(Pick(clauses, pick), PickMarks(clauses, marks, pick), wanted)
  {
    PickMarked(clauses, marks, pick);
    if |clauses| > 0 {
      hide Pick, Select;
      var init, before, last := clauses[..|clauses| - 1], marks[..|clauses| - 1], clauses[|clauses| - 1];
      var s := Select(init, before, wanted);
      PickSelect(init, before, pick, wanted);
      PickLast(clauses, pick);
      SelectLast(clauses, marks, wanted);
      PickLast(s + [last], pick);
      assert (s + [last])[..|s|] == s && (s + [last])[|s|] == last;
      var p, m, p0, m0 := Pick(clauses, pick), PickMarks(clauses, marks, pick), Pick(init, pick),
          PickMarks(init, before, pick);
      if pick(last).Some? {
        assert p[..|p| - 1] == p0 && m[..|p| - 1] == m0;
        SelectLast(p, m, wanted);
      } else {
        assert p == p0 && m == m0;
      }
    } else {
      assert Pick(clauses, pick) == [] && Select(clauses, marks, wanted) == [];
    }
  }

  /** If no marked clause is picked, the unmarked ones determine the picked part. */
  lemma PickUnmarked<T(!new)>(clauses: seq<TableClause>, marks: seq<bool>, pick: TableClause -> Option<T>)
    requires |marks| == |clauses| && forall j :: 0 <= j < |clauses| && marks[j] ==> pick(clauses[j]).None?
    ensures Pick(Select(clauses, marks, false), pick) == Pick(clauses, pick)
    ensures Pick(Select(clauses, marks, true), pick) == []
  {
    hide Pick, Select, PickMarks;
    PickMarked(clauses, marks, pick);
    PickSelect(clauses, marks, pick, false);
    PickSelect(clauses, marks, pick, true);
    SelectAll(Pick(clauses, pick), PickMarks(clauses, marks, pick), false);
  }

  // ----- the whole table -----

  /** Nothing with an effect follows an addition under the same name, and no primary key is FULLTEXT. */
  ghost predicate SplitSafe(mods: StatementModifiers, clauses: seq<TableClause>) {
    && AddsLast(FkOps(mods.strictForeignKeyNaming, FkPart(clauses)))
    && AddsLast(IndexOps(mods.strictIndexOrder, mods.flavor.CanHideIndexes(), IndexPart(clauses)))
    && forall i :: 0 <= i < |clauses| && AddsFullText(clauses[i]) ==> !clauses[i].index.index.def.primaryKey
  }

  /** The tables agree but for the order of secondary indexes and foreign keys;
      the indexes that are not FULLTEXT keep their order too. */
  ghost predicate SameTable(a: Table, b: Table) {
    && a == b.(keys := a.keys, foreignKeys := a.foreignKeys)
    && SameKeys(a.keys, b.keys) && SameElements(a.foreignKeys, b.foreignKeys)
  }

  /** The statements of one table, run one after the other. */
  ghost function RunPieces(mods: StatementModifiers, t: Table, pieces: seq<seq<TableClause>>): Option<Table>
    decreases |pieces|
  {
    if |pieces| == 0 then Some(t)
    else match ApplyClauses(mods, t, pieces[0])
      case None => None
      case Some(next) => RunPieces(mods, next, pieces[1..])
  }

  lemma {:induction false} RunPiecesFlat(mods: StatementModifiers, t: Table, pieces: seq<seq<TableClause>>)
    ensures RunPieces(mods, t, pieces) == ApplyClauses(mods, t, Flatten(pieces))
    decreases |pieces|
  {
    if |pieces| > 0 {
      hide ApplyClauses;
      ApplyClausesSplit(mods, t, pieces[0], Flatten(pieces[1..]));
      match ApplyClauses(mods, t, pieces[0])
      case None =>
      case Some(next) => RunPiecesFlat(mods, next, pieces[1..]);
    } else {
      assert ApplyClauses(mods, t, []) == Some(t);
    }
  }

  lemma PickThree<T>(a: seq<TableClause>, b: seq<TableClause>, c: seq<TableClause>, pick: TableClause -> Option<T>)
    ensures Pick(a + b + c, pick) == Pick(a, pick) + Pick(b, pick) + Pick(c, pick)
  {
    hide Pick;
    PickConcat(a, b, pick);
    PickConcat(a + b, c, pick);
  }

  function Rearranged(clauses: seq<TableClause>): seq<TableClause> {
    Compatible(Others(clauses)) + Conflicting(Others(clauses)) + AddFks(clauses)
  }

  /** Parts none of whose clauses move. */
  lemma PartStays<T(!new)>(clauses: seq<TableClause>, pick: TableClause -> Option<T>)
    requires forall c :: IsAddFk(c) || AddsFullText(c) ==> pick(c).None?
    ensures Pick(Rearranged(clauses), pick) == Pick(clauses, pick)
  {
    hide Pick, Select;
    var others := Others(clauses);
    PickUnmarked(clauses, FkMarks(clauses), pick);
    PickUnmarked(others, ConflictMarks(others), pick);
    PickThree(Compatible(others), Conflicting(others), AddFks(clauses), pick);
  }

  lemma FkPartMoves(clauses: seq<TableClause>) returns (marks: seq<bool>)
    ensures |marks| == |FkPart(clauses)| && forall i :: 0 <= i < |marks| && marks[i] ==>
            FkPart(clauses)[i].AddForeignKey?
    ensures FkPart(Rearranged(clauses)) == Select(FkPart(clauses), marks, false) + Select(FkPart(clauses), marks, true)
  {
    hide Pick, Select;
    var others := Others(clauses);
    marks := PickMarks(clauses, FkMarks(clauses), AsFk);
    PickMarked(clauses, FkMarks(clauses), AsFk);
    PickSelect(clauses, FkMarks(clauses), AsFk, false);
    PickSelect(clauses, FkMarks(clauses), AsFk, true);
    PickUnmarked(others, ConflictMarks(others), AsFk);
    PickThree(Compatible(others), Conflicting(others), AddFks(clauses), AsFk);
    forall i | 0 <= i < |marks| && marks[i] ensures FkPart(clauses)[i].AddForeignKey? {
      var j :| 0 <= j < |clauses| && FkMarks(clauses)[j] && AsFk(clauses[j]) == Some(FkPart(clauses)[i]);
    }
  }

  lemma IndexPartMoves(clauses: seq<TableClause>) returns (marks: seq<bool>)
    requires forall i :: 0 <= i < |clauses| && AddsFullText(clauses[i]) ==> !clauses[i].index.index.def.primaryKey
    ensures |marks| == |IndexPart(clauses)|
    ensures Select(IndexPart(clauses), marks, true) == IndexPart(Conflicting(Others(clauses)))
    ensures forall i :: 0 <= i < |marks| && marks[i] ==>
            SecondaryAdd(IndexPart(clauses)[i]) && IndexPart(clauses)[i].index.def.kind == "FULLTEXT"
    ensures IndexPart(Rearranged(clauses))
            == Select(IndexPart(clauses), marks, false) + Select(IndexPart(clauses), marks, true)
  {
    hide Pick, Select;
    var others := Others(clauses);
    var conflicts := ConflictMarks(others);
    marks := PickMarks(others, conflicts, AsIndex);
    PickUnmarked(clauses, FkMarks(clauses), AsIndex);
    PickMarked(others, conflicts, AsIndex);
    PickSelect(others, conflicts, AsIndex, false);
    PickSelect(others, conflicts, AsIndex, true);
    PickThree(Compatible(others), Conflicting(others), AddFks(clauses), AsIndex);
    assert Pick(Rearranged(clauses), AsIndex)
        == Pick(Compatible(others), AsIndex) + Pick(Conflicting(others), AsIndex) + [];
    SelectElements(clauses, FkMarks(clauses), false);
    forall i | 0 <= i < |marks| && marks[i]
      ensures SecondaryAdd(IndexPart(clauses)[i]) && IndexPart(clauses)[i].index.def.kind == "FULLTEXT"
    {
      var j :| 0 <= j < |others| && conflicts[j] && AsIndex(others[j]) == Some(Pick(others, AsIndex)[i]);
      assert others[j] in others;
      var k :| 0 <= k < |clauses| && clauses[k] == others[j] && FkMarks(clauses)[k] == false;
    }
  }

  /** The FULLTEXT indexes that are added by statements of their own. */
  function LateIndexes(mods: StatementModifiers, clauses: seq<TableClause>): seq<I.Index> {
    Items(IndexOps(mods.strictIndexOrder, mods.flavor.CanHideIndexes(), IndexPart(Conflicting(Others(clauses)))))
  }

  /** Splitting an ALTER TABLE does not change what it achieves. */
  lemma SplittingPreserves(mods: StatementModifiers, t: Table, clauses: seq<TableClause>)
    requires t.WellFormed() && SplitSafe(mods, clauses) && ApplyClauses(mods, t, clauses).Some?
    ensures var r := RunPieces(mods, t, AllPieces(clauses));
            && r.Some? && SameTable(r.value, ApplyClauses(mods, t, clauses).value)
            && (Conflicting(Others(clauses)) == [] ==> r.value.keys == ApplyClauses(mods, t, clauses).value.keys)
            && r.value.keys.secondary
               == Moved(ApplyClauses(mods, t, clauses).value.keys.secondary, LateIndexes(mods, clauses))
  {
    hide Pick, Select, ApplyClauses, AllPieces, RunPieces, Flatten, AddsLast, Unique, Names, SameElements, SameKeys,
         Flavor.CanHideIndexes, StrictChecks, C.ApplyColumns, ID.ApplyIndexes, F.ApplyFks, K.ApplyChecks,
         A.ApplyAttrs, Rearranged, FkOps, IndexOps, Moved, Items, Conflicting, Others;
    var moved := Rearranged(clauses);
    RunPiecesFlat(mods, t, AllPieces(clauses));
    assert Flatten(AllPieces(clauses)) == moved by { PiecesFlat(clauses); UnfoldRearranged(clauses); }
    PartsAreIndependent(mods, t, clauses);
    PartsAreIndependent(mods, t, moved);
    PartStays(clauses, AsColumn);
    PartStays(clauses, AsCheck);
    PartStays(clauses, AsAttr);
    var fks := FkPartMoves(clauses);
    FksMove(mods.strictForeignKeyNaming, t.foreignKeys, FkPart(clauses), fks);
    var keys := IndexPartMoves(clauses);
    IndexesMove(mods.strictIndexOrder, mods.flavor.CanHideIndexes(), t.keys, IndexPart(clauses), keys);
    if Conflicting(Others(clauses)) == [] {
      NothingMoves(clauses);
    }
  }

  /** Without a conflict the index clauses stay in their order. */
  lemma NothingMoves(clauses: seq<TableClause>)
    requires Conflicting(Others(clauses)) == []
    ensures IndexPart(Rearranged(clauses)) == IndexPart(clauses)
  {
    hide Pick, Select;
    var others := Others(clauses);
    NoneSelected(others, ConflictMarks(others), true);
    PickUnmarked(clauses, FkMarks(clauses), AsIndex);
    PickThree(Compatible(others), Conflicting(others), AddFks(clauses), AsIndex);
    assert Pick([], AsIndex) == [] by { NothingPicked(); }
    assert IndexPart(Rearranged(clauses)) == IndexPart(others) + [] + [];
  }

  lemma NothingPicked()
    ensures Pick([], AsIndex) == []
  {
  }

  lemma UnfoldRearranged(clauses: seq<TableClause>)
    ensures Rearranged(clauses) == Compatible(Others(clauses)) + Conflicting(Others(clauses)) + AddFks(clauses)
  {
  }
}
