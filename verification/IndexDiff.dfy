// The secondary-index part of a table diff (internal/tengo/table.go,
// internal/tengo/alterclause.go).

module IndexDiff {
  import opened Wrappers
  import opened NamedLists
  import opened Indexes
  import opened ListDiff

  datatype IndexClause =
    | AddIndex(index: Index, reorderOnly: bool)
    | DropIndex(index: Index, reorderOnly: bool)
    | AlterIndex(index: Index, newInvisible: bool, alsoReordering: bool)

  /** True iff Clause(mods) is the empty string, under StrictIndexOrder or not,
      on a flavor that can hide indexes or not. */
  predicate Suppressed(strict: bool, canHide: bool, clause: IndexClause) {
    match clause
    case AddIndex(_, reorderOnly) => !strict && reorderOnly
    case DropIndex(_, reorderOnly) => !strict && reorderOnly
    case AlterIndex(_, _, alsoReordering) => (alsoReordering && strict) || !canHide
  }

  /** The primary key and the secondary indexes of a table. */
  datatype Keys = Keys(primary: Option<Index>, secondary: seq<Index>)

  /** The effect of one clause; None when the server would reject it. */
  function ApplyIndex(strict: bool, canHide: bool, keys: Keys, clause: IndexClause): Option<Keys> {
    if Suppressed(strict, canHide, clause) then Some(keys)
    else match clause
      case AddIndex(idx, _) =>
        if idx.def.primaryKey then (if keys.primary.None? then Some(keys.(primary := Some(idx))) else None)
        else if Has(keys.secondary, idx.name) then None
        else Some(keys.(secondary := keys.secondary + [idx]))
      case DropIndex(idx, _) =>
        if idx.def.primaryKey then (if keys.primary.Some? then Some(keys.(primary := None)) else None)
        else if Has(keys.secondary, idx.name) then Some(keys.(secondary := Without(keys.secondary, idx.name)))
        else None
      case AlterIndex(idx, invisible, _) =>
        if Has(keys.secondary, idx.name)
        then Some(keys.(secondary := Replace(keys.secondary, Hidden(Get(keys.secondary, idx.name), invisible))))
        else None
  }

  function Hidden(idx: Index, invisible: bool): Index {
    idx.(def := idx.def.(invisible := invisible))
  }

  function ApplyIndexes(strict: bool, canHide: bool, keys: Keys, clauses: seq<IndexClause>): Option<Keys>
    decreases |clauses|
  {
    if |clauses| == 0 then Some(keys)
    else match ApplyIndex(strict, canHide, keys, clauses[0])
      case None => None
      case Some(next) => ApplyIndexes(strict, canHide, next, clauses[1..])
  }

  lemma {:induction false} ApplyIndexesSplit(strict: bool, canHide: bool, keys: Keys, a: seq<IndexClause>,
      b: seq<IndexClause>)
    ensures ApplyIndexes(strict, canHide, keys, a + b) ==
            match ApplyIndexes(strict, canHide, keys, a) {
              case None => None
              case Some(mid) => ApplyIndexes(strict, canHide, mid, b)
            }
    decreases |a|
  {
    if |a| == 0 {
      assert a + b == b;
    } else {
      assert (a + b)[1..] == a[1..] + b;
      match ApplyIndex(strict, canHide, keys, a[0])
      case None =>
      case Some(next) => ApplyIndexesSplit(strict, canHide, next, a[1..], b);
    }
  }

  // ----- the clauses of a diff -----

  function PrimaryClauses(from: Option<Index>, to: Option<Index>): seq<IndexClause> {
    if from == to then []
    else (if from.Some? then [DropIndex(from.value, false)] else [])
         + (if to.Some? then [AddIndex(to.value, false)] else [])
  }

  /** The drops of the first `n` indexes of `from` that do not exist in `to`. */
  function DropClauses(from: seq<Index>, to: seq<Index>, n: nat): seq<IndexClause>
    requires n <= |from|
  {
    if n == 0 then []
    else DropClauses(from, to, n - 1) + (if Has(to, from[n - 1].name) then [] else [DropIndex(from[n - 1], false)])
  }

  /** reorderIndexes at the start of iteration `n`: everything from here on is dropped and re-added. */
  predicate Reordering(from: seq<Index>, to: seq<Index>, n: nat)
    requires n <= |to|
  {
    && n > 0
    && var still := Only(from, Names(to));
       (Reordering(from, to, n - 1)
       || !Has(from, to[n - 1].name)
       || !EqualsIgnoringVisibility(Get(from, to[n - 1].name), to[n - 1])
       || n > |still| || still[n - 1].name != to[n - 1].name)
  }

  /** The clauses of iteration `k` over the indexes of `to`. */
  function PositionClauses(from: seq<Index>, to: seq<Index>, k: nat): seq<IndexClause>
    requires k < |to|
  {
    if !Has(from, to[k].name) then [AddIndex(to[k], false)]
    else
      var f := Get(from, to[k].name);
      if !EqualsIgnoringVisibility(f, to[k]) then [DropIndex(f, false), AddIndex(to[k], false)]
      else
        (if f.def.invisible == to[k].def.invisible then []
         else [AlterIndex(f, to[k].def.invisible, Reordering(from, to, k))])
        + (if Reordering(from, to, k) then [DropIndex(f, true), AddIndex(to[k], true)] else [])
  }

  function PositionsClauses(from: seq<Index>, to: seq<Index>, n: nat): seq<IndexClause>
    requires n <= |to|
  {
    if n == 0 then [] else PositionsClauses(from, to, n - 1) + PositionClauses(from, to, n - 1)
  }

  function IndexClauses(from: Keys, to: Keys): seq<IndexClause> {
    PrimaryClauses(from.primary, to.primary)
    + DropClauses(from.secondary, to.secondary, |from.secondary|)
    + PositionsClauses(from.secondary, to.secondary, |to.secondary|)
  }

  /** As long as nothing was reordered, both sides agree position by position. */
  lemma {:induction false} NotYetReordering(from: seq<Index>, to: seq<Index>, n: nat)
    requires n <= |to| && !Reordering(from, to, n)
    ensures n <= |Only(from, Names(to))|
    ensures forall i :: 0 <= i < n ==>
              && Has(from, to[i].name) && EqualsIgnoringVisibility(Get(from, to[i].name), to[i])
              && Only(from, Names(to))[i].name == to[i].name
  {
    if n > 0 {
      NotYetReordering(from, to, n - 1);
    }
  }

  // ----- convergence -----

  /** Visibility can be changed, or need not be. */
  ghost predicate VisibilityReachable(canHide: bool, from: seq<Index>, to: seq<Index>) {
    canHide || forall k :: 0 <= k < |to| && Has(from, to[k].name) ==>
        Get(from, to[k].name).def.invisible == to[k].def.invisible
  }

  ghost predicate WellFormed(keys: Keys) {
    && Unique(keys.secondary)
    && (forall i :: 0 <= i < |keys.secondary| ==> !keys.secondary[i].def.primaryKey)
    && (forall i :: 0 <= i < |keys.secondary| && keys.secondary[i].def.kind == "FULLTEXT" ==>
        !keys.secondary[i].def.unique)
    && (keys.primary.Some? ==> keys.primary.value.def.primaryKey && keys.primary.value.def.kind != "FULLTEXT")
  }

  lemma ApplyTwo(strict: bool, canHide: bool, keys: Keys, a: IndexClause, b: IndexClause)
    ensures ApplyIndexes(strict, canHide, keys, [a]) == ApplyIndex(strict, canHide, keys, a)
    ensures ApplyIndexes(strict, canHide, keys, [a] + [b]) ==
            match ApplyIndex(strict, canHide, keys, a) {
              case None => None
              case Some(mid) => ApplyIndex(strict, canHide, mid, b)
            }
  {
    ApplyIndexesSplit(strict, canHide, keys, [a], [b]);
  }

  /** The first `n` iterations succeeded and left the primary key alone. */
  ghost predicate Reached(strict: bool, from: seq<Index>, to: seq<Index>, n: nat, primary: Option<Index>,
      r: Option<Keys>)
    requires n <= |to|
  {
    r.Some? && r.value.primary == primary && Progress(strict, Reordering(from, to, n), from, to, n, r.value.secondary)
  }

  /** One iteration over the indexes of the target. */
  lemma PositionApplies(strict: bool, canHide: bool, from: seq<Index>, to: Keys, n: nat, keys: Keys)
    requires Unique(from) && WellFormed(to) && n < |to.secondary|
    requires forall i :: 0 <= i < |from| ==> !from[i].def.primaryKey
    requires VisibilityReachable(canHide, from, to.secondary)
    requires Progress(strict, Reordering(from, to.secondary, n), from, to.secondary, n, keys.secondary)
    ensures Reached(strict, from, to.secondary, n + 1, keys.primary,
            ApplyIndexes(strict, canHide, keys, PositionClauses(from, to.secondary, n)))
  {
    hide Unique, Names, Only, IndexOf, Progress, Reordering, ApplyIndexes;
    var t := to.secondary[n];
    if !Has(from, t.name) {
      assert Reordering(from, to.secondary, n + 1) by { NowReordering(from, to.secondary, n); }
      AddProgress(strict, Reordering(from, to.secondary, n), from, to.secondary, n, keys.secondary);
      ApplyTwo(strict, canHide, keys, AddIndex(t, false), AddIndex(t, false));
    } else {
      var f := Get(from, t.name);
      NotPrimary(from, t.name);
      EqualsIsEquality(f, t);
      if !EqualsIgnoringVisibility(f, t) {
        assert Reordering(from, to.secondary, n + 1) by { NowReordering(from, to.secondary, n); }
        ReAddProgress(strict, Reordering(from, to.secondary, n), from, to.secondary, n, keys.secondary);
        ApplyTwo(strict, canHide, keys, DropIndex(f, false), AddIndex(t, false));
        assert [DropIndex(f, false), AddIndex(t, false)] == [DropIndex(f, false)] + [AddIndex(t, false)];
      } else {
        UnchangedApplies(strict, canHide, from, to, n, keys);
      }
    }
  }

  lemma NotPrimary(from: seq<Index>, n: string)
    requires Has(from, n) && forall i :: 0 <= i < |from| ==> !from[i].def.primaryKey
    ensures !Get(from, n).def.primaryKey
  {
  }

  lemma NowReordering(from: seq<Index>, to: seq<Index>, n: nat)
    requires n < |to|
    requires Reordering(from, to, n) || !Has(from, to[n].name)
             || !EqualsIgnoringVisibility(Get(from, to[n].name), to[n])
    ensures Reordering(from, to, n + 1)
  {
  }

  /** The index exists on both sides and differs in visibility at most. */
  lemma UnchangedApplies(strict: bool, canHide: bool, from: seq<Index>, to: Keys, n: nat, keys: Keys)
    requires Unique(from) && WellFormed(to) && n < |to.secondary| && Has(from, to.secondary[n].name)
    requires forall i :: 0 <= i < |from| ==> !from[i].def.primaryKey
    requires EqualsIgnoringVisibility(Get(from, to.secondary[n].name), to.secondary[n])
    requires VisibilityReachable(canHide, from, to.secondary)
    requires Progress(strict, Reordering(from, to.secondary, n), from, to.secondary, n, keys.secondary)
    ensures Reached(strict, from, to.secondary, n + 1, keys.primary,
            ApplyIndexes(strict, canHide, keys, PositionClauses(from, to.secondary, n)))
  {
    hide Unique, Names, Only, IndexOf, Reordering, ApplyIndexes;
    var t, f, reorder := to.secondary[n], Get(from, to.secondary[n].name), Reordering(from, to.secondary, n);
    var alter := if f.def.invisible != t.def.invisible then [AlterIndex(f, t.def.invisible, reorder)] else [];
    var move := if reorder then [DropIndex(f, true), AddIndex(t, true)] else [];
    NotPrimary(from, t.name);
    EqualsIsEquality(f, t);
    assert PositionClauses(from, to.secondary, n) == alter + move;
    NameAt(to.secondary, n);
    assert Has(keys.secondary, t.name) && Get(keys.secondary, t.name) == f;
    ReplaceSelf(keys.secondary, t.name);
    if strict && reorder {
      NowReordering(from, to.secondary, n);
      hide Progress;
      ReAddProgress(strict, reorder, from, to.secondary, n, keys.secondary);
      AlterApplies(strict, canHide, keys, f, t, reorder);
      ApplyTwo(strict, canHide, keys, DropIndex(f, true), AddIndex(t, true));
      assert move == [DropIndex(f, true)] + [AddIndex(t, true)];
      ApplyIndexesSplit(strict, canHide, keys, alter, move);
    } else {
      hide Progress;
      StaysInRange(from, to.secondary, n);
      StayProgress(strict, reorder, Reordering(from, to.secondary, n + 1), from, to.secondary, n, keys.secondary);
      AlterApplies(strict, canHide, keys, f, t, reorder);
      var next := keys.(secondary := Replace(keys.secondary, t));
      if reorder {
        ApplyTwo(strict, canHide, next, DropIndex(f, true), AddIndex(t, true));
        assert move == [DropIndex(f, true)] + [AddIndex(t, true)];
      } else {
        ApplyNone(strict, canHide, next);
      }
      ApplyIndexesSplit(strict, canHide, keys, alter, move);
    }
  }

  lemma StaysInRange(from: seq<Index>, to: seq<Index>, n: nat)
    requires Unique(from) && Unique(to) && n < |to| && Has(from, to[n].name)
    ensures !Reordering(from, to, n) ==>
              && n < |Only(from, Names(to))|
              && (Reordering(from, to, n + 1) || Only(from, Names(to))[n].name == to[n].name)
  {
    if !Reordering(from, to, n) {
      NotYetReordering(from, to, n);
      StillInRange(from, to, n);
    }
  }

  lemma ApplyNone(strict: bool, canHide: bool, keys: Keys)
    ensures ApplyIndexes(strict, canHide, keys, []) == Some(keys)
  {
  }

  lemma AlterApplies(strict: bool, canHide: bool, keys: Keys, f: Index, t: Index, reorder: bool)
    requires Has(keys.secondary, t.name) && Get(keys.secondary, t.name) == f && f.name == t.name
    requires Hidden(f, t.def.invisible) == t
    requires f != t ==> canHide
    ensures var alter := if f.def.invisible != t.def.invisible then [AlterIndex(f, t.def.invisible, reorder)] else [];
            ApplyIndexes(strict, canHide, keys, alter)
            == Some(if strict && reorder then keys else keys.(secondary := Replace(keys.secondary, t)))
  {
    ReplaceSelf(keys.secondary, t.name);
  }

  lemma {:induction false} PositionsApply(strict: bool, canHide: bool, from: seq<Index>, to: Keys, n: nat, keys: Keys)
    requires Unique(from) && WellFormed(to) && n <= |to.secondary|
    requires forall i :: 0 <= i < |from| ==> !from[i].def.primaryKey
    requires VisibilityReachable(canHide, from, to.secondary)
    requires Progress(strict, false, from, to.secondary, 0, keys.secondary)
    ensures Reached(strict, from, to.secondary, n, keys.primary,
            ApplyIndexes(strict, canHide, keys, PositionsClauses(from, to.secondary, n)))
  {
    if n > 0 {
      var before := PositionsClauses(from, to.secondary, n - 1);
      var mid := ApplyIndexes(strict, canHide, keys, before);
      hide ApplyIndexes, PositionClauses, Progress, Unique, Names, VisibilityReachable, Reordering;
      PositionsApply(strict, canHide, from, to, n - 1, keys);
      PositionApplies(strict, canHide, from, to, n - 1, mid.value);
      StepReached(strict, canHide, from, to.secondary, n, keys, mid.value);
    }
  }

  lemma StepReached(strict: bool, canHide: bool, from: seq<Index>, to: seq<Index>, n: nat, keys: Keys, mid: Keys)
    requires 0 < n <= |to|
    requires ApplyIndexes(strict, canHide, keys, PositionsClauses(from, to, n - 1)) == Some(mid)
             && mid.primary == keys.primary
    requires Reached(strict, from, to, n, keys.primary,
             ApplyIndexes(strict, canHide, mid, PositionClauses(from, to, n - 1)))
    ensures Reached(strict, from, to, n, keys.primary,
            ApplyIndexes(strict, canHide, keys, PositionsClauses(from, to, n)))
  {
    hide Reached, PositionClauses, ApplyIndexes;
    ApplyIndexesSplit(strict, canHide, keys, PositionsClauses(from, to, n - 1), PositionClauses(from, to, n - 1));
  }

  lemma {:induction false} DropsApply(strict: bool, canHide: bool, keys: Keys, to: seq<Index>, n: nat)
    requires Unique(keys.secondary) && n <= |keys.secondary|
    requires forall i :: 0 <= i < |keys.secondary| ==> !keys.secondary[i].def.primaryKey
    ensures ApplyIndexes(strict, canHide, keys, DropClauses(keys.secondary, to, n))
            == Some(keys.(secondary := Filtering(keys.secondary, Names(to), n)))
  {
    hide Unique, Filtering, Without, Names;
    var s := keys.secondary;
    if n == 0 {
      FilterEnds(s, Names(to));
    } else {
      DropsApply(strict, canHide, keys, to, n - 1);
      FilterStep(s, Names(to), n - 1);
      ApplyIndexesSplit(strict, canHide, keys, DropClauses(s, to, n - 1),
          if Has(to, s[n - 1].name) then [] else [DropIndex(s[n - 1], false)]);
    }
  }

  /** Applying the index clauses of a diff gives the target's primary key and, under
      StrictIndexOrder, exactly its secondary indexes; otherwise the same secondary
      indexes up to order. */
  lemma IndexesConverge(strict: bool, canHide: bool, from: Keys, to: Keys)
    requires WellFormed(from) && WellFormed(to) && VisibilityReachable(canHide, from.secondary, to.secondary)
    ensures var r := ApplyIndexes(strict, canHide, from, IndexClauses(from, to));
            && r.Some? && r.value.primary == to.primary
            && SameElements(r.value.secondary, to.secondary)
            && (strict ==> r.value == to)
  {
    hide Unique, Names, Only, Progress, ApplyIndexes, PositionsClauses, DropClauses, VisibilityReachable;
    var pk, drops, rest := PrimaryClauses(from.primary, to.primary),
        DropClauses(from.secondary, to.secondary, |from.secondary|),
                           PositionsClauses(from.secondary, to.secondary, |to.secondary|);
    PrimaryApplies(strict, canHide, from, to);
    var k1 := from.(primary := to.primary);
    DropsApply(strict, canHide, k1, to.secondary, |from.secondary|);
    var k2 := k1.(secondary := Only(from.secondary, Names(to.secondary)));
    FilterEnds(from.secondary, Names(to.secondary));
    StartProgress(strict, false, from.secondary, to.secondary);
    PositionsApply(strict, canHide, from.secondary, to, |to.secondary|, k2);
    ApplyIndexesSplit(strict, canHide, from, pk, drops);
    ApplyIndexesSplit(strict, canHide, from, pk + drops, rest);
    Finished(strict, Reordering(from.secondary, to.secondary, |to.secondary|), from.secondary, to.secondary,
        ApplyIndexes(strict, canHide, k2, rest).value.secondary);
  }

  lemma PrimaryApplies(strict: bool, canHide: bool, from: Keys, to: Keys)
    requires WellFormed(from) && WellFormed(to)
    ensures ApplyIndexes(strict, canHide, from, PrimaryClauses(from.primary, to.primary))
            == Some(from.(primary := to.primary))
  {
    if from.primary != to.primary {
      var drop := if from.primary.Some? then [DropIndex(from.primary.value, false)] else [];
      var add := if to.primary.Some? then [AddIndex(to.primary.value, false)] else [];
      ApplyIndexesSplit(strict, canHide, from, drop, add);
    }
  }

  // ----- the loops of Table.Diff -----

  method DiffIndexes(from: Keys, to: Keys) returns (clauses: seq<IndexClause>)
    requires WellFormed(from) && WellFormed(to)
    ensures clauses == IndexClauses(from, to)
  {
    hide Unique, Names, Only, EqualsIgnoringVisibility, IndexOf;
    clauses := [];
    if from.primary != to.primary {
      if from.primary.None? {
        clauses := clauses + [AddIndex(to.primary.value, false)];
      } else if to.primary.None? {
        clauses := clauses + [DropIndex(from.primary.value, false)];
      } else {
        clauses := clauses + [DropIndex(from.primary.value, false), AddIndex(to.primary.value, false)];
      }
    }
    ghost var pk := clauses;
    assert pk == PrimaryClauses(from.primary, to.primary);
    var drops, fromIndexStillExist := DropMissing(from.secondary, to.secondary);
    var rest := DiffPositions(from.secondary, to.secondary, fromIndexStillExist);
    clauses := clauses + drops + rest;
  }

  method DropMissing(from: seq<Index>, to: seq<Index>) returns (clauses: seq<IndexClause>, stillExist: seq<Index>)
    ensures clauses == DropClauses(from, to, |from|)
    ensures stillExist == Only(from, Names(to))
  {
    hide Names, Only;
    clauses, stillExist := [], [];
    Nothing(from, 0, Names(to));
    for n := 0 to |from|
      invariant clauses == DropClauses(from, to, n)
      invariant stillExist == Only(from[..n], Names(to))
    {
      assert from[..n + 1] == from[..n] + [from[n]];
      OnlyConcat(from[..n], [from[n]], Names(to));
      One(from[n], Names(to));
      if Has(to, from[n].name) {
        stillExist := stillExist + [from[n]];
      } else {
        clauses := clauses + [DropIndex(from[n], false)];
      }
    }
    assert from[..|from|] == from;
  }

  method DiffPositions(from: seq<Index>, to: seq<Index>, fromIndexStillExist: seq<Index>)
      returns (clauses: seq<IndexClause>)
    requires Unique(from) && Unique(to) && fromIndexStillExist == Only(from, Names(to))
    ensures clauses == PositionsClauses(from, to, |to|)
  {
    hide Unique, Names, Only, EqualsIgnoringVisibility, IndexOf;
    clauses := [];
    var reorderIndexes := false;
    for n := 0 to |to|
      invariant clauses == PositionsClauses(from, to, n)
      invariant reorderIndexes == Reordering(from, to, n)
    {
      var toIndex := to[n];
      ghost var before := clauses;
      if !Has(from, toIndex.name) {
        clauses := clauses + [AddIndex(toIndex, false)];
        reorderIndexes := true;
      } else if !EqualsIgnoringVisibility(Get(from, toIndex.name), toIndex) {
        clauses := clauses + [DropIndex(Get(from, toIndex.name), false), AddIndex(toIndex, false)];
        reorderIndexes := true;
      } else {
        var fromIndex := Get(from, toIndex.name);
        if fromIndex.def.invisible != toIndex.def.invisible {
          clauses := clauses + [AlterIndex(fromIndex, toIndex.def.invisible, reorderIndexes)];
        }
        if reorderIndexes {
          clauses := clauses + [DropIndex(fromIndex, true), AddIndex(toIndex, true)];
        } else {
          NotYetReordering(from, to, n);
          StillInRange(from, to, n);
          if fromIndexStillExist[n].name != toIndex.name {
            reorderIndexes := true;
          }
        }
      }
      assert clauses == before + PositionClauses(from, to, n);
    }
  }

  // ----- no index is both altered and dropped -----

  lemma {:induction false} FromPosition(from: seq<Index>, to: seq<Index>, n: nat, c: IndexClause) returns (k: nat)
    requires n <= |to| && c in PositionsClauses(from, to, n)
    ensures k < n && c in PositionClauses(from, to, k)
  {
    hide PositionClauses;
    if c in PositionClauses(from, to, n - 1) {
      k := n - 1;
    } else {
      k := FromPosition(from, to, n - 1, c);
    }
  }

  lemma {:induction false} FromDrop(from: seq<Index>, to: seq<Index>, n: nat, c: IndexClause)
    requires n <= |from| && c in DropClauses(from, to, n)
    ensures c.DropIndex? && !Has(to, c.index.name)
  {
    if n > 0 && c in DropClauses(from, to, n - 1) {
      FromDrop(from, to, n - 1, c);
    }
  }

  /** Whatever the modifiers, a statement never alters an index that it also drops. */
  lemma NeverAlteredAndDropped(strict: bool, canHide: bool, from: Keys, to: Keys, alter: IndexClause, drop: IndexClause)
    requires WellFormed(from) && WellFormed(to)
    requires alter in IndexClauses(from, to) && alter.AlterIndex? && !Suppressed(strict, canHide, alter)
    requires drop in IndexClauses(from, to) && drop.DropIndex? && !Suppressed(strict, canHide, drop)
    ensures drop.index.def.primaryKey || drop.index.name != alter.index.name
  {
    hide Unique, Names, Only, Reordering, EqualsIgnoringVisibility, IndexOf, IndexClauses;
    if !drop.index.def.primaryKey && drop.index.name == alter.index.name {
      var k := Origin(from, to, alter);
      NameAt(to.secondary, k);
      var l := Origin(from, to, drop);
      NameAt(to.secondary, l);
    }
  }

  /** A clause about an index of the target comes from one iteration. */
  lemma Origin(from: Keys, to: Keys, c: IndexClause) returns (k: nat)
    requires c in IndexClauses(from, to) && !(c.DropIndex? && c.index.def.primaryKey)
    requires c.AlterIndex? || (c.DropIndex? && Has(to.secondary, c.index.name))
    requires WellFormed(from) && WellFormed(to)
    ensures k < |to.secondary| && c in PositionClauses(from.secondary, to.secondary, k)
  {
    hide Unique, Names, Only, Reordering, EqualsIgnoringVisibility, IndexOf, PositionClauses, PositionsClauses,
         DropClauses;
    var f, t := from.secondary, to.secondary;
    if c in DropClauses(f, t, |f|) {
      FromDrop(f, t, |f|, c);
    }
    k := FromPosition(f, t, |t|, c);
  }
}
