// The clause lists of Table.Diff may be split (internal/tengo/table.go,
// internal/tengo/diff.go): once an index or foreign key was added, no later
// clause touches it.

module SplitSafety {
  import opened Wrappers
  import opened NamedLists
  import opened Modifiers
  import opened Tables
  import opened ListOps
  import opened TableDiff
  import opened Splitting
  import opened SplitMeaning
  import opened Alter
  import C = Columns
  import I = Indexes
  import ID = IndexDiff
  import F = ForeignKeys
  import K = Checks
  import A = Attributes
  import ListDiff

  ghost predicate Mentions<T(!new)>(ops: seq<Op<T>>, names: set<string>) {
    forall i :: 0 <= i < |ops| && !ops[i].Skip? ==> ops[i].Name() in names
  }

  /** The additions among `ops` are all of names in `names`. */
  ghost predicate Adds<T(!new)>(ops: seq<Op<T>>, names: set<string>) {
    forall i :: 0 <= i < |ops| && ops[i].Append? ==> ops[i].Name() in names
  }

  lemma Disjoint<T(!new)>(a: seq<Op<T>>, b: seq<Op<T>>, adds: set<string>, names: set<string>)
    requires AddsLast(a) && AddsLast(b) && Adds(a, adds) && Mentions(b, names) && adds !! names
    ensures AddsLast(a + b)
  {
    AddsLastConcat(a, b);
  }

  // ----- foreign keys -----

  lemma FkOpsConcat(strict: bool, a: seq<F.FkClause>, b: seq<F.FkClause>)
    ensures FkOps(strict, a + b) == FkOps(strict, a) + FkOps(strict, b)
  {
  }

  lemma {:induction false} FkAdds(strict: bool, from: seq<F.ForeignKey>, order: seq<F.ForeignKey>, n: nat)
    requires Unique(order) && n <= |order|
    ensures var ops := FkOps(strict, F.AddClauses(from, order, n));
            AddsLast(ops) && Mentions(ops, Names(order[..n]) - Names(from))
                && Adds(ops, Names(order[..n]) - Names(from))
  {
    if n > 0 {
      hide Unique, Names, F.HasEquivalent, F.Suppressed;
      FkAdds(strict, from, order, n - 1);
      ListDiff.TakeName(order, n - 1);
      var x := order[n - 1];
      FkOpsConcat(strict, F.AddClauses(from, order, n - 1), F.AddClause(from, x));
      Disjoint(FkOps(strict, F.AddClauses(from, order, n - 1)), FkOps(strict, F.AddClause(from, x)),
               Names(order[..n - 1]) - Names(from), {x.name});
    }
  }

  lemma {:induction false} FkChanges(strict: bool, to: seq<F.ForeignKey>, order: seq<F.ForeignKey>, n: nat)
    requires Unique(order) && n <= |order|
    ensures var ops := FkOps(strict, F.ChangeClauses(to, order, n));
            AddsLast(ops) && Mentions(ops, Names(order[..n])) && Adds(ops, Names(order[..n]))
  {
    if n > 0 {
      hide Unique, Names, F.ChangeClause, FkOps, AddsLast, Mentions, Adds;
      FkChanges(strict, to, order, n - 1);
      ListDiff.TakeName(order, n - 1);
      var x := order[n - 1];
      var before, ops := FkOps(strict, F.ChangeClauses(to, order, n - 1)), FkOps(strict, F.ChangeClause(to, x));
      FkOpsConcat(strict, F.ChangeClauses(to, order, n - 1), F.ChangeClause(to, x));
      FkChangeOps(strict, to, x);
      Disjoint(before, ops, Names(order[..n - 1]), {x.name});
      Together(before, ops, Names(order[..n - 1]), {x.name});
    } else {
      NoOps(strict, order[..n]);
    }
  }

  lemma NoOps(strict: bool, l: seq<F.ForeignKey>)
    ensures var ops := FkOps(strict, []); AddsLast(ops) && Mentions(ops, Names(l)) && Adds(ops, Names(l))
  {
  }

  lemma Together<T(!new)>(a: seq<Op<T>>, b: seq<Op<T>>, namesA: set<string>, namesB: set<string>)
    requires Mentions(a, namesA) && Mentions(b, namesB) && Adds(a, namesA) && Adds(b, namesB)
    ensures Mentions(a + b, namesA + namesB) && Adds(a + b, namesA + namesB)
  {
  }

  lemma FkChangeOps(strict: bool, to: seq<F.ForeignKey>, x: F.ForeignKey)
    ensures var ops := FkOps(strict, F.ChangeClause(to, x));
            AddsLast(ops) && Mentions(ops, {x.name}) && Adds(ops, {x.name})
  {
    hide F.HasEquivalent, F.Suppressed, F.Equivalent;
  }

  lemma FksSafe(strict: bool, from: seq<F.ForeignKey>, to: seq<F.ForeignKey>, fromOrder: seq<F.ForeignKey>,
      toOrder: seq<F.ForeignKey>)
    requires SameElements(fromOrder, from) && SameElements(toOrder, to)
    ensures AddsLast(FkOps(strict, F.FkClauses(from, to, fromOrder, toOrder)))
  {
    hide Unique, Names, FkOps, AddsLast, Adds, Mentions;
    var adds, changes := F.AddClauses(from, toOrder, |toOrder|), F.ChangeClauses(to, fromOrder, |fromOrder|);
    FkAdds(strict, from, toOrder, |toOrder|);
    FkChanges(strict, to, fromOrder, |fromOrder|);
    assert toOrder[..|toOrder|] == toOrder && fromOrder[..|fromOrder|] == fromOrder;
    FkOpsConcat(strict, adds, changes);
    Disjoint(FkOps(strict, adds), FkOps(strict, changes), Names(to) - Names(from), Names(from));
  }

  // ----- indexes -----

  lemma IndexOpsConcat(strict: bool, canHide: bool, a: seq<ID.IndexClause>, b: seq<ID.IndexClause>)
    ensures IndexOps(strict, canHide, a + b) == IndexOps(strict, canHide, a) + IndexOps(strict, canHide, b)
  {
  }

  lemma PositionSafe(strict: bool, canHide: bool, from: seq<I.Index>, to: seq<I.Index>, k: nat)
    requires k < |to|
    ensures var ops := IndexOps(strict, canHide, ID.PositionClauses(from, to, k));
            AddsLast(ops) && Mentions(ops, {to[k].name}) && Adds(ops, {to[k].name})
  {
    hide Names, IndexOf, ID.Reordering, I.EqualsIgnoringVisibility;
  }

  lemma {:induction false} PositionsSafe(strict: bool, canHide: bool, from: seq<I.Index>, to: seq<I.Index>, n: nat)
    requires Unique(to) && n <= |to|
    ensures var ops := IndexOps(strict, canHide, ID.PositionsClauses(from, to, n));
            AddsLast(ops) && Adds(ops, Names(to[..n]))
  {
    if n > 0 {
      hide Unique, Names, IndexOp, ID.PositionClauses;
      PositionsSafe(strict, canHide, from, to, n - 1);
      PositionSafe(strict, canHide, from, to, n - 1);
      ListDiff.TakeName(to, n - 1);
      var before, now := ID.PositionsClauses(from, to, n - 1), ID.PositionClauses(from, to, n - 1);
      IndexOpsConcat(strict, canHide, before, now);
      Disjoint(IndexOps(strict, canHide, before), IndexOps(strict, canHide, now), Names(to[..n - 1]), {to[n - 1].name});
    }
  }

  lemma {:induction false} DropsSafe(strict: bool, canHide: bool, from: seq<I.Index>, to: seq<I.Index>, n: nat)
    requires n <= |from|
    ensures forall i :: 0 <= i < |ID.DropClauses(from, to, n)| ==> ID.DropClauses(from, to, n)[i].DropIndex?
  {
    if n > 0 {
      DropsSafe(strict, canHide, from, to, n - 1);
    }
  }

  lemma IndexesSafe(strict: bool, canHide: bool, from: ID.Keys, to: ID.Keys)
    requires ID.WellFormed(from) && ID.WellFormed(to)
    ensures AddsLast(IndexOps(strict, canHide, ID.IndexClauses(from, to)))
  {
    hide Unique, Names, AddsLast, ID.DropClauses, ID.PositionsClauses;
    var head := ID.PrimaryClauses(from.primary, to.primary)
        + ID.DropClauses(from.secondary, to.secondary, |from.secondary|);
    var tail := ID.PositionsClauses(from.secondary, to.secondary, |to.secondary|);
    DropsSafe(strict, canHide, from.secondary, to.secondary, |from.secondary|);
    PositionsSafe(strict, canHide, from.secondary, to.secondary, |to.secondary|);
    var ops := IndexOps(strict, canHide, head);
    assert Adds(ops, {});
    NoAdds(ops);
    AddsLastConcat(ops, IndexOps(strict, canHide, tail));
    IndexOpsConcat(strict, canHide, head, tail);
  }

  lemma NoAdds<T(!new)>(ops: seq<Op<T>>)
    requires Adds(ops, {})
    ensures AddsLast(ops)
  {
  }

  // ----- no primary key is FULLTEXT -----

  predicate PlainPrimary(c: ID.IndexClause) {
    c.AddIndex? && c.index.def.kind == "FULLTEXT" ==> !c.index.def.primaryKey
  }

  lemma {:induction false} PositionsPlain(from: seq<I.Index>, to: seq<I.Index>, n: nat)
    requires n <= |to| && forall i :: 0 <= i < |to| ==> !to[i].def.primaryKey
    ensures forall c :: c in ID.PositionsClauses(from, to, n) ==> PlainPrimary(c)
  {
    if n > 0 {
      hide ID.PositionClauses, PlainPrimary;
      PositionsPlain(from, to, n - 1);
      PositionPlain(from, to, n - 1);
      var before, now := ID.PositionsClauses(from, to, n - 1), ID.PositionClauses(from, to, n - 1);
      assert ID.PositionsClauses(from, to, n) == before + now;
      forall c | c in before + now ensures PlainPrimary(c) {
      }
    }
  }

  lemma PositionPlain(from: seq<I.Index>, to: seq<I.Index>, k: nat)
    requires k < |to| && !to[k].def.primaryKey
    ensures forall c :: c in ID.PositionClauses(from, to, k) ==> PlainPrimary(c)
  {
    hide ID.Reordering, Names, IndexOf, I.EqualsIgnoringVisibility;
  }

  lemma IndexesPlain(from: ID.Keys, to: ID.Keys)
    requires ID.WellFormed(from) && ID.WellFormed(to)
    ensures forall c :: c in ID.IndexClauses(from, to) ==> PlainPrimary(c)
  {
    hide Unique, Names, ID.DropClauses, ID.PositionsClauses;
    var drops := ID.DropClauses(from.secondary, to.secondary, |from.secondary|);
    DropsSafe(true, true, from.secondary, to.secondary, |from.secondary|);
    PositionsPlain(from.secondary, to.secondary, |to.secondary|);
  }

  lemma {:induction false} PickedAll<T>(clauses: seq<TableClause>, pick: TableClause -> Option<T>, i: nat)
    requires i < |clauses| && pick(clauses[i]).Some?
    ensures pick(clauses[i]).value in Pick(clauses, pick)
  {
    if i > 0 {
      PickedAll(clauses[1..], pick, i - 1);
    }
  }

  lemma DiffIsSplitSafe(mods: StatementModifiers, from: Table, to: Table, plan: Plan)
    requires from.WellFormed() && to.WellFormed() && ValidPlan(from, to, plan)
    ensures SplitSafe(mods, DiffClauses(from, to, plan))
  {
    hide Pick, DiffClauses, AddsLast, Unique, Names, SameElements, ID.IndexClauses, F.FkClauses, FkOps, IndexOps;
    var clauses := DiffClauses(from, to, plan);
    DiffParts(from, to, plan);
    FksSafe(mods.strictForeignKeyNaming, from.foreignKeys, to.foreignKeys, plan.fromFkOrder, plan.toFkOrder);
    IndexesSafe(mods.strictIndexOrder, mods.flavor.CanHideIndexes(), from.keys, to.keys);
    IndexesPlain(from.keys, to.keys);
    forall i | 0 <= i < |clauses| && AddsFullText(clauses[i]) ensures !clauses[i].index.index.def.primaryKey {
      PickedAll(clauses, AsIndex, i);
      assert clauses[i].index in IndexPart(clauses);
    }
  }

  /** The ALTERs of a diff, split and run one after the other, reach the target. */
  lemma SplitDiffConverges(mods: StatementModifiers, from: Table, to: Table, plan: Plan) returns (whole: Table)
    requires from.WellFormed() && to.WellFormed() && from.name == to.name
    requires ValidPlan(from, to, plan) && Expressible(mods, from, to)
    ensures ApplyClauses(mods, from, DiffClauses(from, to, plan)) == Some(whole) && Reached(mods, from, to, plan, whole)
    ensures var r := RunPieces(mods, from, AllPieces(DiffClauses(from, to, plan)));
            && r.Some? && SameTable(r.value, whole)
            && (Conflicting(Others(DiffClauses(from, to, plan))) == [] ==> r.value.keys == whole.keys)
  {
    hide AllPieces, RunPieces, DiffClauses, SameTable, ApplyClauses, Reached, Expressible, SplitSafe;
    TableConverges(mods, from, to, plan);
    whole := ApplyClauses(mods, from, DiffClauses(from, to, plan)).value;
    DiffIsSplitSafe(mods, from, to, plan);
    SplittingPreserves(mods, from, DiffClauses(from, to, plan));
  }

  // ----- the order of the indexes after split ALTERs -----

  /** The FULLTEXT indexes stand behind all others, as servers list them. */
  ghost predicate FullTextLast(s: seq<I.Index>) {
    forall i, j :: 0 <= i < j < |s| && s[i].def.kind == "FULLTEXT" ==> s[j].def.kind == "FULLTEXT"
  }

  predicate IsFullTextAdd(c: ID.IndexClause) {
    c.AddIndex? && c.index.def.kind == "FULLTEXT"
  }

  /** The FULLTEXT indexes that are added, in order. */
  function FullTextAdds(cs: seq<ID.IndexClause>): seq<I.Index> {
    if |cs| == 0 then []
    else FullTextAdds(cs[..|cs| - 1]) + (if IsFullTextAdd(cs[|cs| - 1]) then [cs[|cs| - 1].index] else [])
  }

  lemma {:induction false} FullTextConcat(a: seq<ID.IndexClause>, b: seq<ID.IndexClause>)
    ensures FullTextAdds(a + b) == FullTextAdds(a) + FullTextAdds(b)
  {
    if |b| == 0 {
      assert a + b == a;
    } else {
      assert (a + b)[..|a + b| - 1] == a + b[..|b| - 1];
      FullTextConcat(a, b[..|b| - 1]);
    }
  }

  lemma {:induction false} NoFullText(cs: seq<ID.IndexClause>)
    requires forall i :: 0 <= i < |cs| ==> !IsFullTextAdd(cs[i])
    ensures FullTextAdds(cs) == []
  {
    if |cs| > 0 {
      NoFullText(cs[..|cs| - 1]);
    }
  }

  /** With strict ordering, added FULLTEXT indexes are never suppressed. */
  lemma {:induction false} AddsAreItems(canHide: bool, cs: seq<ID.IndexClause>)
    requires forall i :: 0 <= i < |cs| ==> IsFullTextAdd(cs[i]) && !cs[i].index.def.primaryKey
    ensures Items(IndexOps(true, canHide, cs)) == FullTextAdds(cs)
  {
    if |cs| > 0 {
      AddsAreItems(canHide, cs[..|cs| - 1]);
      assert IndexOps(true, canHide, cs)[..|cs| - 1] == IndexOps(true, canHide, cs[..|cs| - 1]);
    }
  }

  /** The clauses that conflict are the additions of all FULLTEXT indexes but the first. */
  lemma {:induction false} ConflictsAreAdds(clauses: seq<TableClause>)
    ensures SeenFullText(clauses) <==> |FullTextAdds(IndexPart(clauses))| > 0
    ensures forall c :: c in IndexPart(Conflicting(clauses)) ==> IsFullTextAdd(c)
    ensures FullTextAdds(IndexPart(Conflicting(clauses)))
            == if SeenFullText(clauses) then FullTextAdds(IndexPart(clauses))[1..] else []
  {
    hide IndexPart, Conflicting, SeenFullText, FullTextAdds, AddsFullText, IsFullTextAdd;
    if |clauses| > 0 {
      var init, last := clauses[..|clauses| - 1], clauses[|clauses| - 1];
      assert clauses == init + [last];
      ConflictsAreAdds(init);
      ConflictingMore(init, last);
      PartOfLast(init, last);
      PartOfLast(Conflicting(init), last);
      FullTextConcat(IndexPart(init), IndexPart([last]));
      FullTextConcat(IndexPart(Conflicting(init)), IndexPart([last]));
      OneFullText(last);
      TailMore(FullTextAdds(IndexPart(init)), FullTextAdds(IndexPart([last])));
    } else {
      NothingConflicts(clauses);
    }
  }

  lemma TailMore<T>(a: seq<T>, b: seq<T>)
    ensures |a| > 0 ==> (a + b)[1..] == a[1..] + b
    ensures |b| == 1 ==> b[1..] == []
    ensures [] + b == b && a + [] == a
  {
  }

  lemma ConflictingMore(init: seq<TableClause>, last: TableClause)
    ensures Conflicting(init + [last])
            == if AddsFullText(last) && SeenFullText(init) then Conflicting(init) + [last] else Conflicting(init)
    ensures SeenFullText(init + [last]) == (SeenFullText(init) || AddsFullText(last))
  {
    hide Select, SeenFullText;
    var clauses := init + [last];
    assert clauses[..|init|] == init && clauses[..|init| + 1] == clauses;
    SeenMore(clauses, |init|);
    MarksOfPrefix(clauses);
    SelectLast(clauses, ConflictMarks(clauses), true);
  }

  lemma NothingConflicts(clauses: seq<TableClause>)
    requires clauses == []
    ensures !SeenFullText(clauses) && IndexPart(clauses) == [] && Conflicting(clauses) == [] && FullTextAdds([]) == []
  {
  }

  lemma MarksOfPrefix(clauses: seq<TableClause>)
    requires |clauses| > 0
    ensures ConflictMarks(clauses)[..|clauses| - 1] == ConflictMarks(clauses[..|clauses| - 1])
  {
    var init := clauses[..|clauses| - 1];
    forall i | 0 <= i < |init| ensures ConflictMarks(clauses)[i] == ConflictMarks(init)[i] {
      assert clauses[..i] == init[..i];
    }
  }

  lemma PartOfLast(init: seq<TableClause>, last: TableClause)
    ensures IndexPart(init + [last]) == IndexPart(init) + IndexPart([last])
  {
    PickConcat(init, [last], AsIndex);
  }

  lemma OneFullText(c: TableClause)
    ensures FullTextAdds(IndexPart([c])) == if AddsFullText(c) then [c.index.index] else []
    ensures forall x :: x in IndexPart([c]) ==> (IsFullTextAdd(x) <==> AddsFullText(c))
  {
    var cs := [c];
    assert Pick(cs[1..], AsIndex) == [];
    if c.OnIndexes? {
      assert AsIndex(c) == Some(c.index);
      assert Pick(cs, AsIndex) == [c.index] && [c.index][..0] == [];
    } else {
      assert AsIndex(c).None?;
      assert Pick(cs, AsIndex) == [];
    }
  }

  /** An iteration adds the index of the target if that is new, has changed, or comes behind such an index. */
  lemma PositionAdds(from: seq<I.Index>, to: seq<I.Index>, k: nat)
    requires k < |to|
    ensures var added := ID.Reordering(from, to, k) || !Has(from, to[k].name)
                         || !I.EqualsIgnoringVisibility(Get(from, to[k].name), to[k]);
            && FullTextAdds(ID.PositionClauses(from, to, k))
               == (if added && to[k].def.kind == "FULLTEXT" then [to[k]] else [])
            && (added ==> ID.Reordering(from, to, k + 1))
  {
    hide I.EqualsIgnoringVisibility, Names, IndexOf, Only;
    var cs := ID.PositionClauses(from, to, k);
    FewAdds(cs);
  }

  lemma FewAdds(cs: seq<ID.IndexClause>)
    ensures |cs| == 0 ==> FullTextAdds(cs) == []
    ensures |cs| == 1 ==> FullTextAdds(cs) == if IsFullTextAdd(cs[0]) then [cs[0].index] else []
    ensures |cs| == 2 && !IsFullTextAdd(cs[0]) ==>
              FullTextAdds(cs) == if IsFullTextAdd(cs[1]) then [cs[1].index] else []
    ensures |cs| == 3 && !IsFullTextAdd(cs[0]) && !IsFullTextAdd(cs[1]) ==>
              FullTextAdds(cs) == if IsFullTextAdd(cs[2]) then [cs[2].index] else []
  {
    if 1 <= |cs| <= 3 {
      var last := cs[|cs| - 1];
      var init := cs[..|cs| - 1];
      assert cs == init + [last];
      FullTextConcat(init, [last]);
      assert [last][..0] == [];
      if forall i :: 0 <= i < |init| ==> !IsFullTextAdd(init[i]) {
        NoFullText(init);
      }
    }
  }

  /** If FULLTEXT indexes come last, those that are added are a final part of the target. */
  lemma {:induction false} AddsAreSuffix(from: seq<I.Index>, to: seq<I.Index>, n: nat) returns (k: nat)
    requires FullTextLast(to) && n <= |to|
    ensures k <= n && FullTextAdds(ID.PositionsClauses(from, to, n)) == to[k..n]
    ensures k < n ==> ID.Reordering(from, to, n) && to[k].def.kind == "FULLTEXT"
  {
    if n == 0 {
      return 0;
    }
    hide I.EqualsIgnoringVisibility, Names, IndexOf, Only, ID.PositionClauses, FullTextAdds, ID.Reordering;
    k := AddsAreSuffix(from, to, n - 1);
    PositionAdds(from, to, n - 1);
    FullTextConcat(ID.PositionsClauses(from, to, n - 1), ID.PositionClauses(from, to, n - 1));
    assert k < n - 1 ==> to[n - 1].def.kind == "FULLTEXT";
    Extend(to, k, n);
    if k == n - 1 && FullTextAdds(ID.PositionClauses(from, to, n - 1)) == [] {
      k := n;
    }
  }

  lemma Extend<T>(s: seq<T>, k: nat, n: nat)
    requires k < n <= |s|
    ensures s[k..n - 1] + [s[n - 1]] == s[k..n] && s[k..n - 1] + [] == s[k..n - 1] && s[n..n] == []
  {
  }

  /** What is added separately are the FULLTEXT indexes behind the first that is added. */
  lemma LateAreAdds(mods: StatementModifiers, clauses: seq<TableClause>)
    requires SplitSafe(mods, clauses) && mods.strictIndexOrder
    ensures var adds := FullTextAdds(IndexPart(clauses));
            LateIndexes(mods, clauses) == if |adds| > 0 then adds[1..] else []
  {
    hide IndexPart, FullTextAdds, Conflicting, Others, SplitSafe, IndexOps, Items, SeenFullText, IsFullTextAdd;
    OthersKeepIndexes(clauses);
    ConflictsAreAdds(Others(clauses));
    LateAreSecondary(mods, clauses);
    AddsAreItems(mods.flavor.CanHideIndexes(), IndexPart(Conflicting(Others(clauses))));
  }

  lemma LateAreSuffix(mods: StatementModifiers, from: Table, to: Table, plan: Plan) returns (j: nat)
    requires from.WellFormed() && to.WellFormed() && FullTextLast(to.keys.secondary) && mods.strictIndexOrder
    requires SplitSafe(mods, DiffClauses(from, to, plan))
    ensures j <= |to.keys.secondary| && LateIndexes(mods, DiffClauses(from, to, plan)) == to.keys.secondary[j..]
  {
    hide IndexPart, DiffClauses, FullTextAdds, FullTextLast, SplitSafe, ID.IndexClauses, LateIndexes;
    DiffParts(from, to, plan);
    LateAreAdds(mods, DiffClauses(from, to, plan));
    var k := IndexAdds(from.keys, to.keys);
    var s := to.keys.secondary;
    j := if k < |s| then k + 1 else k;
    assert k < |s| ==> s[k..][1..] == s[k + 1..];
    assert s[|s|..] == [];
  }

  lemma IndexAdds(from: ID.Keys, to: ID.Keys) returns (k: nat)
    requires ID.WellFormed(from) && ID.WellFormed(to) && FullTextLast(to.secondary)
    ensures k <= |to.secondary| && FullTextAdds(ID.IndexClauses(from, to)) == to.secondary[k..]
  {
    hide Unique, Names, ID.PositionsClauses, ID.DropClauses, FullTextAdds, ID.PrimaryClauses, FullTextLast;
    var pk := ID.PrimaryClauses(from.primary, to.primary);
    var drops := ID.DropClauses(from.secondary, to.secondary, |from.secondary|);
    var rest := ID.PositionsClauses(from.secondary, to.secondary, |to.secondary|);
    k := AddsAreSuffix(from.secondary, to.secondary, |to.secondary|);
    DropsSafe(true, true, from.secondary, to.secondary, |from.secondary|);
    PrimaryIsPlain(from, to);
    FullTextConcat(pk + drops, rest);
    FullTextConcat(pk, drops);
    NoFullText(drops);
    NoFullText(pk);
    assert [] + [] + to.secondary[k..] == to.secondary[k..];
  }

  lemma OthersKeepIndexes(clauses: seq<TableClause>)
    ensures IndexPart(Others(clauses)) == IndexPart(clauses)
  {
    PickUnmarked(clauses, FkMarks(clauses), AsIndex);
  }

  lemma PrimaryIsPlain(from: ID.Keys, to: ID.Keys)
    requires ID.WellFormed(from) && ID.WellFormed(to)
    ensures var pk := ID.PrimaryClauses(from.primary, to.primary);
            forall i :: 0 <= i < |pk| ==> !IsFullTextAdd(pk[i])
  {
  }

  /** None of the FULLTEXT indexes that are added separately is a primary key. */
  lemma LateAreSecondary(mods: StatementModifiers, clauses: seq<TableClause>)
    requires SplitSafe(mods, clauses)
    ensures var late := IndexPart(Conflicting(Others(clauses)));
            forall i :: 0 <= i < |late| && IsFullTextAdd(late[i]) ==> !late[i].index.def.primaryKey
  {
    hide Select, SplitSafe;
    var others := Others(clauses);
    var conflicting := Conflicting(others);
    var late := IndexPart(conflicting);
    SelectElements(others, ConflictMarks(others), true);
    SelectElements(clauses, FkMarks(clauses), false);
    forall i | 0 <= i < |late| && IsFullTextAdd(late[i]) ensures !late[i].index.def.primaryKey {
      var c := PickedFrom(conflicting, i);
      assert c in others && c in clauses;
      SafeIsSecondary(mods, clauses, c);
    }
  }

  lemma SafeIsSecondary(mods: StatementModifiers, clauses: seq<TableClause>, c: TableClause)
    requires SplitSafe(mods, clauses) && c in clauses && AddsFullText(c)
    ensures !c.index.index.def.primaryKey
  {
  }

  lemma {:induction false} PickedFrom(clauses: seq<TableClause>, i: nat) returns (c: TableClause)
    requires i < |IndexPart(clauses)|
    ensures c in clauses && AsIndex(c) == Some(IndexPart(clauses)[i])
  {
    if AsIndex(clauses[0]).Some? {
      if i == 0 {
        return clauses[0];
      }
      c := PickedFrom(clauses[1..], i - 1);
    } else {
      c := PickedFrom(clauses[1..], i);
    }
  }

  /** Moving a final part of a list to its end changes nothing. */
  lemma MovedSuffix(s: seq<I.Index>, j: nat)
    requires Unique(s) && j <= |s|
    ensures Moved(s, s[j..]) == s
  {
    hide Unique, Names, Only;
    assert s == s[..j] + s[j..];
    Concat(s[..j], s[j..]);
    var keep := Names(s) - Names(s[j..]);
    OnlyConcat(s[..j], s[j..], keep);
    OnlyAll(s[..j], keep);
    OnlyNone(s[j..], keep);
    assert s[..j] + [] == s[..j];
  }

  /** If the target lists its FULLTEXT indexes last, even split ALTERs reach its exact order of indexes. */
  lemma SplitReachesOrder(mods: StatementModifiers, from: Table, to: Table, plan: Plan)
    requires from.WellFormed() && to.WellFormed() && from.name == to.name
    requires ValidPlan(from, to, plan) && Expressible(mods, from, to)
    requires mods.strictIndexOrder && FullTextLast(to.keys.secondary)
    ensures var r := RunPieces(mods, from, AllPieces(DiffClauses(from, to, plan)));
            r.Some? && r.value.keys == to.keys
  {
    hide AllPieces, RunPieces, DiffClauses, ApplyClauses, Expressible, SplitSafe, FullTextLast, Moved, LateIndexes,
         SameElements, Only, C.LandedAll, F.Final, A.LandedAttrs, Unique, Names;
    TableConverges(mods, from, to, plan);
    DiffIsSplitSafe(mods, from, to, plan);
    SplittingPreserves(mods, from, DiffClauses(from, to, plan));
    var j := LateAreSuffix(mods, from, to, plan);
    MovedSuffix(to.keys.secondary, j);
  }

  // ----- the clustered index key after split ALTERs -----

  lemma {:induction false} FirstAmong(columns: seq<C.Column>, s: seq<I.Index>, keep: set<string>)
    requires forall i :: 0 <= i < |s| && s[i].name !in keep ==> !Clusterable(columns, s[i])
    ensures FirstClusterable(columns, s) == FirstClusterable(columns, Only(s, keep))
  {
    if |s| > 0 {
      hide Clusterable;
      assert forall i :: 0 <= i < |s[1..]| ==> s[1..][i] == s[i + 1];
      FirstAmong(columns, s[1..], keep);
      assert [s[0]] + Only(s[1..], keep) == if s[0].name in keep then Only(s, keep) else [s[0]] + Only(s[1..], keep);
      if s[0].name in keep {
        assert Only(s, keep)[1..] == Only(s[1..], keep);
      }
    }
  }

  /** A FULLTEXT index cannot be clustered. */
  lemma PlainOnly(columns: seq<C.Column>, s: seq<I.Index>, full: seq<I.Index>)
    requires Unique(full) && SameElements(s, full)
    requires forall i :: 0 <= i < |full| && full[i].def.kind == "FULLTEXT" ==> !full[i].def.unique
    ensures FirstClusterable(columns, s) == FirstClusterable(columns, Only(s, Plain(full)))
  {
    hide Names, Only, Unique, SameElements, Clusterable;
    forall i | 0 <= i < |s| && s[i].name !in Plain(full) ensures !Clusterable(columns, s[i]) {
      SameElementsIn(s, full, i);
      var j :| 0 <= j < |full| && full[j] == s[i];
      NotPlain(full, j);
      FullTextNotClustered(columns, s[i]);
    }
    FirstAmong(columns, s, Plain(full));
  }

  lemma NotPlain(full: seq<I.Index>, j: nat)
    requires Unique(full) && j < |full| && full[j].name !in Plain(full)
    ensures full[j].def.kind == "FULLTEXT"
  {
    NameAt(full, j);
    Lookup(full, j);
  }

  lemma FullTextNotClustered(columns: seq<C.Column>, idx: I.Index)
    requires !idx.def.unique
    ensures !Clusterable(columns, idx)
  {
  }

  lemma SameFirst(columns: seq<C.Column>, a: ID.Keys, b: ID.Keys)
    requires SameKeys(a, b) && Unique(b.secondary)
    requires forall i :: 0 <= i < |b.secondary| && b.secondary[i].def.kind == "FULLTEXT" ==> !b.secondary[i].def.unique
    ensures FirstClusterable(columns, a.secondary) == FirstClusterable(columns, b.secondary)
  {
    hide Unique, Names, Only, SameElements, Plain;
    PlainOnly(columns, a.secondary, b.secondary);
    assert SameElements(b.secondary, b.secondary) by { SameAsSelf(b.secondary); }
    PlainOnly(columns, b.secondary, b.secondary);
  }

  lemma SameAsSelf<T(!new)>(s: seq<Named<T>>)
    requires Unique(s)
    ensures SameElements(s, s)
  {
  }

  /** Whatever modifiers suppress reordering, and however the ALTER is split, an InnoDB table ends up
      with the target's clustered index key. */
  lemma SplitClusteredKeyReached(mods: StatementModifiers, from: Table, to: Table, plan: Plan)
    requires from.WellFormed() && to.WellFormed() && from.name == to.name
    requires ValidPlan(from, to, plan) && Expressible(mods, from, to)
    ensures var r := RunPieces(EffectiveMods(mods, to), from, AllPieces(DiffClauses(from, to, plan)));
            r.Some? && ClusteredIndexKey(r.value) == ClusteredIndexKey(to)
  {
    hide AllPieces, RunPieces, DiffClauses, ApplyClauses, Unique, Names, SameElements, Plain, Only, Clusterable,
         FirstClusterable,
         ID.VisibilityReachable, K.SameEnforcement, CD.Optimal, C.LandedAll, F.Final, A.LandedAttrs;
    var actual := EffectiveMods(mods, to);
    var whole := SplitDiffConverges(actual, from, to, plan);
    ClusteredKeyReached(mods, from, to, plan);
    var r := RunPieces(actual, from, AllPieces(DiffClauses(from, to, plan))).value;
    FullTextKept(whole.keys.secondary, to.keys.secondary);
    SameFirst(whole.columns, r.keys, whole.keys);
  }

  lemma FullTextKept(a: seq<I.Index>, b: seq<I.Index>)
    requires SameElements(a, b) && forall i :: 0 <= i < |b| && b[i].def.kind == "FULLTEXT" ==> !b[i].def.unique
    ensures Unique(a) && forall i :: 0 <= i < |a| && a[i].def.kind == "FULLTEXT" ==> !a[i].def.unique
  {
    forall i | 0 <= i < |a| && a[i].def.kind == "FULLTEXT" ensures !a[i].def.unique {
      SameElementsIn(a, b, i);
    }
  }
}
