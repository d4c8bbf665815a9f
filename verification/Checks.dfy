// Check constraints and their part of a table diff (internal/tengo/check.go,
// internal/tengo/table.go, internal/tengo/alterclause.go).

module Checks {
  import opened Wrappers
  import opened NamedLists
  import opened ListDiff

  datatype CheckDef = CheckDef(clause: string, enforced: bool)

  type Check = Named<CheckDef>

  datatype CheckClause =
    | AddCheck(check: Check, reorderOnly: bool)
    | DropCheck(check: Check, reorderOnly: bool)
    | AlterCheck(check: Check, newEnforcement: bool)

  /** True iff Clause(mods) is the empty string; `strict` is StrictCheckOrder on a MariaDB flavor. */
  predicate Suppressed(strict: bool, clause: CheckClause) {
    !clause.AlterCheck? && clause.reorderOnly && !strict
  }

  function ApplyCheck(strict: bool, checks: seq<Check>, clause: CheckClause): Option<seq<Check>> {
    if Suppressed(strict, clause) then Some(checks)
    else match clause
      case AddCheck(c, _) => if Has(checks, c.name) then None else Some(checks + [c])
      case DropCheck(c, _) => if Has(checks, c.name) then Some(Without(checks, c.name)) else None
      case AlterCheck(c, enforced) =>
        if Has(checks, c.name)
        then Some(Replace(checks, Enforcing(Get(checks, c.name), enforced)))
        else None
  }

  function Enforcing(c: Check, enforced: bool): Check {
    c.(def := c.def.(enforced := enforced))
  }

  function ApplyChecks(strict: bool, checks: seq<Check>, clauses: seq<CheckClause>): Option<seq<Check>>
    decreases |clauses|
  {
    if |clauses| == 0 then Some(checks)
    else match ApplyCheck(strict, checks, clauses[0])
      case None => None
      case Some(next) => ApplyChecks(strict, next, clauses[1..])
  }

  lemma {:induction false} ApplyChecksSplit(strict: bool, checks: seq<Check>, a: seq<CheckClause>, b: seq<CheckClause>)
    ensures ApplyChecks(strict, checks, a + b) ==
            match ApplyChecks(strict, checks, a) { case None => None case Some(mid) => ApplyChecks(strict, mid, b) }
    decreases |a|
  {
    if |a| == 0 {
      assert a + b == b;
    } else {
      assert (a + b)[1..] == a[1..] + b;
      match ApplyCheck(strict, checks, a[0])
      case None =>
      case Some(next) => ApplyChecksSplit(strict, next, a[1..], b);
    }
  }

  // ----- the clauses of a diff -----

  function DropClauses(from: seq<Check>, to: seq<Check>, n: nat): seq<CheckClause>
    requires n <= |from|
  {
    if n == 0 then []
    else DropClauses(from, to, n - 1) + (if Has(to, from[n - 1].name) then [] else [DropCheck(from[n - 1], false)])
  }

  /** reorderChecks at the start of iteration `n`; a change of enforcement alone neither sets nor consults it. */
  predicate Reordering(from: seq<Check>, to: seq<Check>, n: nat)
    requires n <= |to|
  {
    && n > 0
    && var still, t := Only(from, Names(to)), to[n - 1];
       (Reordering(from, to, n - 1)
       || !Has(from, t.name)
       || Get(from, t.name).def.clause != t.def.clause
       || (Get(from, t.name).def.enforced == t.def.enforced && (n > |still| || still[n - 1].name != t.name)))
  }

  function PositionClauses(from: seq<Check>, to: seq<Check>, k: nat): seq<CheckClause>
    requires k < |to|
  {
    var t := to[k];
    if !Has(from, t.name) then [AddCheck(t, false)]
    else
      var f := Get(from, t.name);
      if f.def.clause != t.def.clause then [DropCheck(f, false), AddCheck(t, false)]
      else if f.def.enforced != t.def.enforced then [AlterCheck(f, t.def.enforced)]
      else if Reordering(from, to, k) then [DropCheck(f, true), AddCheck(t, true)]
      else []
  }

  function PositionsClauses(from: seq<Check>, to: seq<Check>, n: nat): seq<CheckClause>
    requires n <= |to|
  {
    if n == 0 then [] else PositionsClauses(from, to, n - 1) + PositionClauses(from, to, n - 1)
  }

  function CheckClauses(from: seq<Check>, to: seq<Check>): seq<CheckClause> {
    DropClauses(from, to, |from|) + PositionsClauses(from, to, |to|)
  }

  lemma {:induction false} NotYetReordering(from: seq<Check>, to: seq<Check>, n: nat)
    requires n <= |to| && !Reordering(from, to, n)
    ensures forall i :: 0 <= i < n ==> Has(from, to[i].name) && Get(from, to[i].name).def.clause == to[i].def.clause
  {
    if n > 0 {
      NotYetReordering(from, to, n - 1);
    }
  }

  // ----- convergence -----

  /** Checks that exist on both sides agree on enforcement, as they always do in MariaDB. */
  ghost predicate SameEnforcement(from: seq<Check>, to: seq<Check>) {
    forall k :: 0 <= k < |to| && Has(from, to[k].name) ==> Get(from, to[k].name).def.enforced == to[k].def.enforced
  }

  lemma ApplyTwo(strict: bool, checks: seq<Check>, a: CheckClause, b: CheckClause)
    ensures ApplyChecks(strict, checks, []) == Some(checks)
    ensures ApplyChecks(strict, checks, [a]) == ApplyCheck(strict, checks, a)
    ensures ApplyChecks(strict, checks, [a, b]) ==
            match ApplyCheck(strict, checks, a) { case None => None case Some(mid) => ApplyCheck(strict, mid, b) }
  {
    ApplyChecksSplit(strict, checks, [a], [b]);
    assert [a] + [b] == [a, b];
  }

  lemma PositionApplies(strict: bool, from: seq<Check>, to: seq<Check>, n: nat, l: seq<Check>)
    requires Unique(from) && Unique(to) && n < |to| && (strict ==> SameEnforcement(from, to))
    requires Progress(strict, Reordering(from, to, n), from, to, n, l)
    ensures var r := ApplyChecks(strict, l, PositionClauses(from, to, n));
            r.Some? && Progress(strict, Reordering(from, to, n + 1), from, to, n + 1, r.value)
  {
    hide Unique, Names, Only, IndexOf, ApplyChecks, Replace, Without;
    var t, reorder := to[n], Reordering(from, to, n);
    if !Has(from, t.name) {
      AddProgress(strict, reorder, from, to, n, l);
      ApplyTwo(strict, l, AddCheck(t, false), AddCheck(t, false));
    } else {
      var f := Get(from, t.name);
      NameAt(to, n);
      assert Has(l, t.name) && Get(l, t.name) == f;
      ReplaceSelf(l, t.name);
      hide Progress;
      if f.def.clause != t.def.clause {
        ReAddProgress(strict, reorder, from, to, n, l);
        ApplyTwo(strict, l, DropCheck(f, false), AddCheck(t, false));
      } else if strict && reorder {
        assert f.def.enforced == t.def.enforced;
        ReAddProgress(strict, reorder, from, to, n, l);
        ApplyTwo(strict, l, DropCheck(f, true), AddCheck(t, true));
      } else {
        if !reorder {
          NotYetReordering(from, to, n);
          StillInRange(from, to, n);
        }
        StayProgress(strict, reorder, Reordering(from, to, n + 1), from, to, n, l);
        ApplyTwo(strict, l, AlterCheck(f, t.def.enforced), AddCheck(t, true));
        ApplyTwo(strict, l, DropCheck(f, true), AddCheck(t, true));
      }
    }
  }

  lemma {:induction false} PositionsApply(strict: bool, from: seq<Check>, to: seq<Check>, n: nat, l: seq<Check>)
    requires Unique(from) && Unique(to) && n <= |to| && (strict ==> SameEnforcement(from, to))
    requires Progress(strict, false, from, to, 0, l)
    ensures var r := ApplyChecks(strict, l, PositionsClauses(from, to, n));
            r.Some? && Progress(strict, Reordering(from, to, n), from, to, n, r.value)
  {
    if n > 0 {
      hide Progress, ApplyChecks, PositionClauses, Unique, SameEnforcement, Reordering, Names;
      PositionsApply(strict, from, to, n - 1, l);
      var before := PositionsClauses(from, to, n - 1);
      PositionApplies(strict, from, to, n - 1, ApplyChecks(strict, l, before).value);
      ApplyChecksSplit(strict, l, before, PositionClauses(from, to, n - 1));
    }
  }

  lemma {:induction false} DropsApply(strict: bool, from: seq<Check>, to: seq<Check>, n: nat)
    requires Unique(from) && n <= |from|
    ensures ApplyChecks(strict, from, DropClauses(from, to, n)) == Some(Filtering(from, Names(to), n))
  {
    hide Unique, Filtering, Without, Names;
    if n == 0 {
      FilterEnds(from, Names(to));
    } else {
      DropsApply(strict, from, to, n - 1);
      FilterStep(from, Names(to), n - 1);
      ApplyChecksSplit(strict, from, DropClauses(from, to, n - 1),
          if Has(to, from[n - 1].name) then [] else [DropCheck(from[n - 1], false)]);
    }
  }

  /** Applying the check clauses of a diff gives the target's checks: in any order
      on MySQL, and exactly, order included, under StrictCheckOrder on MariaDB. */
  lemma ChecksConverge(strict: bool, from: seq<Check>, to: seq<Check>)
    requires Unique(from) && Unique(to) && (strict ==> SameEnforcement(from, to))
    ensures var r := ApplyChecks(strict, from, CheckClauses(from, to));
            r.Some? && SameElements(r.value, to) && (strict ==> r.value == to)
  {
    hide Unique, Names, Only, Progress, ApplyChecks, PositionsClauses, DropClauses, SameEnforcement;
    var drops, rest := DropClauses(from, to, |from|), PositionsClauses(from, to, |to|);
    var kept := Only(from, Names(to));
    DropsApply(strict, from, to, |from|);
    FilterEnds(from, Names(to));
    StartProgress(strict, false, from, to);
    PositionsApply(strict, from, to, |to|, kept);
    ApplyChecksSplit(strict, from, drops, rest);
    Finished(strict, Reordering(from, to, |to|), from, to, ApplyChecks(strict, kept, rest).value);
  }

  // ----- the loops of Table.Diff -----

  method DiffChecks(from: seq<Check>, to: seq<Check>) returns (clauses: seq<CheckClause>)
    requires Unique(from) && Unique(to)
    ensures clauses == CheckClauses(from, to)
  {
    var drops, fromCheckStillExist := DropMissing(from, to);
    var rest := DiffPositions(from, to, fromCheckStillExist);
    clauses := drops + rest;
  }

  method DropMissing(from: seq<Check>, to: seq<Check>) returns (clauses: seq<CheckClause>, stillExist: seq<Check>)
    ensures clauses == DropClauses(from, to, |from|)
    ensures stillExist == Only(from, Names(to))
  {
    hide Names, Only;
    clauses, stillExist := [], [];
    Nothing(from, 0, Names(to));
    for n := 0 to |from|
      invariant clauses == DropClauses(from, to, n)
      invariant stillExist == Only(from[..n], Names(to))
    {
      assert from[..n + 1] == from[..n] + [from[n]];
      OnlyConcat(from[..n], [from[n]], Names(to));
      One(from[n], Names(to));
      if Has(to, from[n].name) {
        stillExist := stillExist + [from[n]];
      } else {
        clauses := clauses + [DropCheck(from[n], false)];
      }
    }
    assert from[..|from|] == from;
  }

  method DiffPositions(from: seq<Check>, to: seq<Check>, fromCheckStillExist: seq<Check>)
      returns (clauses: seq<CheckClause>)
    requires Unique(from) && Unique(to) && fromCheckStillExist == Only(from, Names(to))
    ensures clauses == PositionsClauses(from, to, |to|)
  {
    hide Unique, Names, Only, IndexOf;
    clauses := [];
    var reorderChecks := false;
    for n := 0 to |to|
      invariant clauses == PositionsClauses(from, to, n)
      invariant reorderChecks == Reordering(from, to, n)
    {
      var toCheck := to[n];
      ghost var before := clauses;
      if !Has(from, toCheck.name) {
        clauses := clauses + [AddCheck(toCheck, false)];
        reorderChecks := true;
      } else {
        var fromCheck := Get(from, toCheck.name);
        if fromCheck.def.clause != toCheck.def.clause {
          clauses := clauses + [DropCheck(fromCheck, false), AddCheck(toCheck, false)];
          reorderChecks := true;
        } else if fromCheck.def.enforced != toCheck.def.enforced {
          clauses := clauses + [AlterCheck(fromCheck, toCheck.def.enforced)];
        } else if reorderChecks {
          clauses := clauses + [DropCheck(fromCheck, true), AddCheck(toCheck, true)];
        } else {
          NotYetReordering(from, to, n);
          StillInRange(from, to, n);
          if fromCheckStillExist[n].name != toCheck.name {
            reorderChecks := true;
          }
        }
      }
      assert clauses == before + PositionClauses(from, to, n);
    }
  }
}
