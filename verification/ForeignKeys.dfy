// Foreign keys and their part of a table diff (internal/tengo/foreignkey.go,
// internal/tengo/table.go, internal/tengo/alterclause.go).

module ForeignKeys {
  import opened Wrappers
  import opened NamedLists
  import opened ListDiff

  datatype FkFields = FkFields(
    columnNames: seq<string>, referencedSchemaName: string, referencedTableName: string,
    referencedColumnNames: seq<string>, updateRule: string, deleteRule: string)

  /** The two column lists always have the same length. */
  type FkDef = d: FkFields | |d.columnNames| == |d.referencedColumnNames| witness FkFields([], "", "", [], "", "")

  type ForeignKey = Named<FkDef>

  function NormalizedRule(rule: string): string {
    if rule == "RESTRICT" || rule == "NO ACTION" then "" else rule
  }

  predicate Equivalent(fk: ForeignKey, other: ForeignKey) {
    if fk.def.referencedSchemaName != other.def.referencedSchemaName
       || fk.def.referencedTableName != other.def.referencedTableName then false
    else if NormalizedRule(fk.def.updateRule) != NormalizedRule(other.def.updateRule)
            || NormalizedRule(fk.def.deleteRule) != NormalizedRule(other.def.deleteRule) then false
    else if |fk.def.columnNames| != |other.def.columnNames| then false
    else forall n :: 0 <= n < |fk.def.columnNames| ==>
                       && fk.def.columnNames[n] == other.def.columnNames[n]
                       && fk.def.referencedColumnNames[n] == other.def.referencedColumnNames[n]
  }

  predicate Equals(fk: ForeignKey, other: ForeignKey) {
    fk.name == other.name && fk.def.updateRule == other.def.updateRule && fk.def.deleteRule == other.def.deleteRule
        && Equivalent(fk, other)
  }

  lemma EqualsIsEquality(fk: ForeignKey, other: ForeignKey)
    ensures Equals(fk, other) <==> fk == other
  {
    if Equals(fk, other) {
      assert fk.def.columnNames == other.def.columnNames;
      assert fk.def.referencedColumnNames == other.def.referencedColumnNames;
    }
  }

  /** What a server does with the rows of the child table when a parent row changes or goes away. */
  datatype Action = Reject | Cascade | SetNull | SetDefault | Other(rule: string)

  /** RESTRICT, NO ACTION and no rule at all are the same to MySQL and MariaDB. */
  function ActionOf(rule: string): Action {
    match rule
    case "" => Reject
    case "RESTRICT" => Reject
    case "NO ACTION" => Reject
    case "CASCADE" => Cascade
    case "SET NULL" => SetNull
    case "SET DEFAULT" => SetDefault
    case _ => Other(rule)
  }

  /** Two foreign keys restrict the same columns by the same columns of the same table, with the same actions. */
  predicate SameConstraint(a: ForeignKey, b: ForeignKey) {
    && a.def.columnNames == b.def.columnNames
    && a.def.referencedSchemaName == b.def.referencedSchemaName
    && a.def.referencedTableName == b.def.referencedTableName
    && a.def.referencedColumnNames == b.def.referencedColumnNames
    && ActionOf(a.def.updateRule) == ActionOf(b.def.updateRule)
    && ActionOf(a.def.deleteRule) == ActionOf(b.def.deleteRule)
  }

  /** Functional equivalence is having the same effect: nothing but the name and the wording of a rule may differ. */
  lemma EquivalentIffSameConstraint(a: ForeignKey, b: ForeignKey)
    ensures Equivalent(a, b) <==> SameConstraint(a, b)
  {
    SameAction(a.def.updateRule, b.def.updateRule);
    SameAction(a.def.deleteRule, b.def.deleteRule);
    if Equivalent(a, b) {
      assert a.def.columnNames == b.def.columnNames;
      assert a.def.referencedColumnNames == b.def.referencedColumnNames;
    }
  }

  lemma SameAction(a: string, b: string)
    ensures NormalizedRule(a) == NormalizedRule(b) <==> ActionOf(a) == ActionOf(b)
  {
  }

  lemma EquivalentIsEquivalence(a: ForeignKey, b: ForeignKey, c: ForeignKey)
    ensures Equivalent(a, a)
    ensures Equivalent(a, b) ==> Equivalent(b, a)
    ensures Equivalent(a, b) && Equivalent(b, c) ==> Equivalent(a, c)
  {
  }

  datatype FkClause =
    | AddForeignKey(fk: ForeignKey, cosmeticOnly: bool)
    | DropForeignKey(fk: ForeignKey, cosmeticOnly: bool)

  /** True iff Clause(mods) is the empty string; `strict` is StrictForeignKeyNaming. */
  predicate Suppressed(strict: bool, clause: FkClause) {
    !strict && clause.cosmeticOnly
  }

  function ApplyFk(strict: bool, fks: seq<ForeignKey>, clause: FkClause): Option<seq<ForeignKey>> {
    if Suppressed(strict, clause) then Some(fks)
    else match clause
      case AddForeignKey(fk, _) => if Has(fks, fk.name) then None else Some(fks + [fk])
      case DropForeignKey(fk, _) => if Has(fks, fk.name) then Some(Without(fks, fk.name)) else None
  }

  function ApplyFks(strict: bool, fks: seq<ForeignKey>, clauses: seq<FkClause>): Option<seq<ForeignKey>>
    decreases |clauses|
  {
    if |clauses| == 0 then Some(fks)
    else match ApplyFk(strict, fks, clauses[0])
      case None => None
      case Some(next) => ApplyFks(strict, next, clauses[1..])
  }

  lemma {:induction false} ApplyFksSplit(strict: bool, fks: seq<ForeignKey>, a: seq<FkClause>, b: seq<FkClause>)
    ensures ApplyFks(strict, fks, a + b) ==
            match ApplyFks(strict, fks, a) { case None => None case Some(mid) => ApplyFks(strict, mid, b) }
    decreases |a|
  {
    if |a| == 0 {
      assert a + b == b;
    } else {
      assert (a + b)[1..] == a[1..] + b;
      match ApplyFk(strict, fks, a[0])
      case None =>
      case Some(next) => ApplyFksSplit(strict, next, a[1..], b);
    }
  }

  // ----- the clauses of a diff; Go iterates over maps, so in any order -----

  /** fkChangeCosmeticOnly. */
  predicate HasEquivalent(fk: ForeignKey, others: seq<ForeignKey>) {
    exists i :: 0 <= i < |others| && Equivalent(fk, others[i])
  }

  function AddClause(from: seq<ForeignKey>, t: ForeignKey): seq<FkClause> {
    if Has(from, t.name) then [] else [AddForeignKey(t, HasEquivalent(t, from))]
  }

  function AddClauses(from: seq<ForeignKey>, toOrder: seq<ForeignKey>, n: nat): seq<FkClause>
    requires n <= |toOrder|
  {
    if n == 0 then []
    else AddClauses(from, toOrder, n - 1) + AddClause(from, toOrder[n - 1])
  }

  function ChangeClause(to: seq<ForeignKey>, f: ForeignKey): seq<FkClause> {
    if !Has(to, f.name) then [DropForeignKey(f, HasEquivalent(f, to))]
    else
      var t := Get(to, f.name);
      if f == t then [] else [DropForeignKey(f, Equivalent(f, t)), AddForeignKey(t, Equivalent(f, t))]
  }

  function ChangeClauses(to: seq<ForeignKey>, fromOrder: seq<ForeignKey>, n: nat): seq<FkClause>
    requires n <= |fromOrder|
  {
    if n == 0 then [] else ChangeClauses(to, fromOrder, n - 1) + ChangeClause(to, fromOrder[n - 1])
  }

  /** `toOrder` and `fromOrder` are the orders in which the by-name maps happen to be iterated. */
  function FkClauses(from: seq<ForeignKey>, to: seq<ForeignKey>, fromOrder: seq<ForeignKey>,
      toOrder: seq<ForeignKey>): seq<FkClause> {
    AddClauses(from, toOrder, |toOrder|) + ChangeClauses(to, fromOrder, |fromOrder|)
  }

  // ----- what is left under a name -----

  function Find(s: seq<ForeignKey>, n: string): Option<ForeignKey> {
    if Has(s, n) then Some(Get(s, n)) else None
  }

  /** The foreign key called `n` after the diff was applied. */
  function Final(strict: bool, from: seq<ForeignKey>, to: seq<ForeignKey>, n: string): Option<ForeignKey> {
    match (Find(from, n), Find(to, n))
    case (None, None) => None
    case (None, Some(t)) => if strict || !HasEquivalent(t, from) then Some(t) else None
    case (Some(f), None) => if !strict && HasEquivalent(f, to) then Some(f) else None
    case (Some(f), Some(t)) => if !strict && Equivalent(f, t) then Some(f) else Some(t)
  }

  ghost predicate Handled(strict: bool, from: seq<ForeignKey>, to: seq<ForeignKey>, done: set<string>,
      l: seq<ForeignKey>) {
    Unique(l) && forall n :: Find(l, n) == if n in done then Final(strict, from, to, n) else Find(from, n)
  }

  lemma FindAppended(l: seq<ForeignKey>, x: ForeignKey)
    requires Unique(l) && !Has(l, x.name)
    ensures Unique(l + [x]) && forall n :: Find(l + [x], n) == if n == x.name then Some(x) else Find(l, n)
  {
    Appended(l, x, {});
  }

  lemma FindRemoved(l: seq<ForeignKey>, m: string)
    requires Unique(l) && Has(l, m)
    ensures Unique(Without(l, m)) && forall n :: Find(Without(l, m), n) == if n == m then None else Find(l, n)
  {
    Removed(l, m, {});
  }

  lemma ApplyTwo(strict: bool, fks: seq<ForeignKey>, a: FkClause, b: FkClause)
    ensures ApplyFks(strict, fks, []) == Some(fks)
    ensures ApplyFks(strict, fks, [a]) == ApplyFk(strict, fks, a)
    ensures ApplyFks(strict, fks, [a, b]) ==
            match ApplyFk(strict, fks, a) { case None => None case Some(mid) => ApplyFk(strict, mid, b) }
  {
    ApplyFksSplit(strict, fks, [a], [b]);
    assert [a] + [b] == [a, b];
  }

  lemma AddHandles(strict: bool, from: seq<ForeignKey>, to: seq<ForeignKey>, done: set<string>, t: ForeignKey,
      l: seq<ForeignKey>)
    requires Handled(strict, from, to, done, l)
    requires t.name !in done && !Has(from, t.name) && Find(to, t.name) == Some(t)
    ensures var r := ApplyFk(strict, l, AddForeignKey(t, HasEquivalent(t, from)));
            r.Some? && Handled(strict, from, to, done + {t.name}, r.value)
  {
    hide Unique, Names, IndexOf, Equivalent, HasEquivalent;
    assert Find(l, t.name) == None;
    FindAppended(l, t);
  }

  lemma ChangeHandles(strict: bool, from: seq<ForeignKey>, to: seq<ForeignKey>, done: set<string>, f: ForeignKey,
      l: seq<ForeignKey>)
    requires Handled(strict, from, to, done, l)
    requires f.name !in done && Find(from, f.name) == Some(f)
    ensures var r := ApplyFks(strict, l, ChangeClause(to, f));
            r.Some? && Handled(strict, from, to, done + {f.name}, r.value)
  {
    hide Unique, Names, IndexOf, Equivalent, HasEquivalent, ApplyFks, Without;
    assert Find(l, f.name) == Some(f);
    FindRemoved(l, f.name);
    var rest := Without(l, f.name);
    if !Has(to, f.name) {
      ApplyTwo(strict, l, DropForeignKey(f, HasEquivalent(f, to)), AddForeignKey(f, true));
    } else {
      var t := Get(to, f.name);
      assert Find(rest, f.name) == None;
      FindAppended(rest, t);
      ApplyTwo(strict, l, DropForeignKey(f, Equivalent(f, t)), AddForeignKey(t, Equivalent(f, t)));
      if f == t {
        EquivalentIsEquivalence(f, f, f);
      }
    }
  }

  lemma OrderFind(order: seq<ForeignKey>, s: seq<ForeignKey>, i: nat)
    requires SameElements(order, s) && i < |order|
    ensures Find(s, order[i].name) == Some(order[i])
  {
    NameAt(order, i);
  }

  lemma AddStepHandles(strict: bool, from: seq<ForeignKey>, to: seq<ForeignKey>, toOrder: seq<ForeignKey>, k: nat,
      l: seq<ForeignKey>)
    requires SameElements(toOrder, to) && k < |toOrder|
    requires Handled(strict, from, to, Names(toOrder[..k]) - Names(from), l)
    ensures var r := ApplyFks(strict, l, AddClause(from, toOrder[k]));
            r.Some? && Handled(strict, from, to, Names(toOrder[..k + 1]) - Names(from), r.value)
  {
    hide Unique, Names, IndexOf, Equivalent, HasEquivalent, ApplyFks, Handled, Find;
    var t, before := toOrder[k], Names(toOrder[..k]) - Names(from);
    TakeName(toOrder, k);
    var clause := AddForeignKey(t, HasEquivalent(t, from));
    ApplyTwo(strict, l, clause, clause);
    if Has(from, t.name) {
      assert Names(toOrder[..k + 1]) - Names(from) == before;
    } else {
      OrderFind(toOrder, to, k);
      AddHandles(strict, from, to, before, t, l);
      assert Names(toOrder[..k + 1]) - Names(from) == before + {t.name};
    }
  }

  lemma {:induction false} AddsHandle(strict: bool, from: seq<ForeignKey>, to: seq<ForeignKey>,
      toOrder: seq<ForeignKey>, n: nat)
    requires Unique(from) && Unique(to) && SameElements(toOrder, to) && n <= |toOrder|
    ensures var r := ApplyFks(strict, from, AddClauses(from, toOrder, n));
            r.Some? && Handled(strict, from, to, Names(toOrder[..n]) - Names(from), r.value)
  {
    if n > 0 {
      hide Unique, Names, ApplyFks, Handled, SameElements, AddClause;
      AddsHandle(strict, from, to, toOrder, n - 1);
      AddStepHandles(strict, from, to, toOrder, n - 1, ApplyFks(strict, from, AddClauses(from, toOrder, n - 1)).value);
      ApplyFksSplit(strict, from, AddClauses(from, toOrder, n - 1), AddClause(from, toOrder[n - 1]));
    }
  }

  lemma ChangeStepHandles(strict: bool, from: seq<ForeignKey>, to: seq<ForeignKey>, fromOrder: seq<ForeignKey>, k: nat,
      l: seq<ForeignKey>)
    requires SameElements(fromOrder, from) && k < |fromOrder|
    requires Handled(strict, from, to, Names(to) - Names(from) + Names(fromOrder[..k]), l)
    ensures var r := ApplyFks(strict, l, ChangeClause(to, fromOrder[k]));
            r.Some? && Handled(strict, from, to, Names(to) - Names(from) + Names(fromOrder[..k + 1]), r.value)
  {
    hide Unique, Names, ApplyFks, Handled, ChangeClause, Find;
    var f, done := fromOrder[k], Names(to) - Names(from) + Names(fromOrder[..k]);
    TakeName(fromOrder, k);
    OrderFind(fromOrder, from, k);
    InNames(from, f);
    ChangeHandles(strict, from, to, done, f, l);
    assert Names(to) - Names(from) + Names(fromOrder[..k + 1]) == done + {f.name};
  }

  lemma {:induction false} ChangesHandle(strict: bool, from: seq<ForeignKey>, to: seq<ForeignKey>,
      fromOrder: seq<ForeignKey>, n: nat, l: seq<ForeignKey>)
    requires Unique(from) && Unique(to) && SameElements(fromOrder, from) && n <= |fromOrder|
    requires Handled(strict, from, to, Names(to) - Names(from), l)
    ensures var r := ApplyFks(strict, l, ChangeClauses(to, fromOrder, n));
            r.Some? && Handled(strict, from, to, Names(to) - Names(from) + Names(fromOrder[..n]), r.value)
  {
    hide Unique, Names, ApplyFks, Handled, ChangeClause, SameElements;
    if n == 0 {
      NoFks(strict, l);
      assert Names(to) - Names(from) + Names(fromOrder[..0]) == Names(to) - Names(from) by { NoNames(fromOrder[..0]); }
    } else {
      ChangesHandle(strict, from, to, fromOrder, n - 1, l);
      ChangeStepHandles(strict, from, to, fromOrder, n - 1,
          ApplyFks(strict, l, ChangeClauses(to, fromOrder, n - 1)).value);
      ApplyFksSplit(strict, l, ChangeClauses(to, fromOrder, n - 1), ChangeClause(to, fromOrder[n - 1]));
    }
  }

  lemma NoFks(strict: bool, l: seq<ForeignKey>)
    ensures ApplyFks(strict, l, []) == Some(l)
  {
  }

  lemma NoNames(s: seq<ForeignKey>)
    ensures s == [] ==> Names(s) == {}
  {
  }

  lemma InNames(s: seq<ForeignKey>, f: ForeignKey)
    requires Find(s, f.name) == Some(f)
    ensures f.name in Names(s)
  {
  }

  /** Whatever the iteration orders, applying the foreign-key clauses leaves
      under every name exactly what `Final` says; with StrictForeignKeyNaming
      that is the target. */
  lemma ForeignKeysConverge(strict: bool, from: seq<ForeignKey>, to: seq<ForeignKey>, fromOrder: seq<ForeignKey>,
      toOrder: seq<ForeignKey>)
    requires Unique(from) && Unique(to) && SameElements(fromOrder, from) && SameElements(toOrder, to)
    ensures var r := ApplyFks(strict, from, FkClauses(from, to, fromOrder, toOrder));
            && r.Some? && Unique(r.value)
            && (forall n :: Find(r.value, n) == Final(strict, from, to, n))
            && (strict ==> SameElements(r.value, to))
  {
    hide Unique, IndexOf, Equivalent, HasEquivalent, ApplyFks, AddClauses, ChangeClauses;
    AddsHandle(strict, from, to, toOrder, |toOrder|);
    assert toOrder[..|toOrder|] == toOrder && fromOrder[..|fromOrder|] == fromOrder;
    var adds := AddClauses(from, toOrder, |toOrder|);
    var mid := ApplyFks(strict, from, adds).value;
    ChangesHandle(strict, from, to, fromOrder, |fromOrder|, mid);
    ApplyFksSplit(strict, from, adds, ChangeClauses(to, fromOrder, |fromOrder|));
    var r := ApplyFks(strict, from, FkClauses(from, to, fromOrder, toOrder)).value;
    forall n ensures Find(r, n) == Final(strict, from, to, n) {
    }
    if strict {
      forall n ensures n in Names(r) <==> n in Names(to) {
        assert Find(r, n) == Final(strict, from, to, n);
      }
      forall n | n in Names(to) ensures Get(r, n) == Get(to, n) {
        assert Find(r, n) == Final(strict, from, to, n);
      }
    }
  }

  // ----- functional coverage without StrictForeignKeyNaming -----

  /** Every foreign key left constrains rows just as one of the target's does. */
  lemma SurvivorsAreWanted(from: seq<ForeignKey>, to: seq<ForeignKey>, n: string)
    requires Final(false, from, to, n).Some?
    ensures exists i :: 0 <= i < |to| && SameConstraint(Final(false, from, to, n).value, to[i])
  {
    hide Equivalent, SameConstraint;
    var s := Final(false, from, to, n).value;
    if Has(to, n) {
      var t := Get(to, n);
      EquivalentIsEquivalence(t, t, t);
      assert Equivalent(s, to[IndexOf(to, n)]);
    }
    assert HasEquivalent(s, to);
    var i :| 0 <= i < |to| && Equivalent(s, to[i]);
    EquivalentIffSameConstraint(s, to[i]);
  }

  /** Some foreign key left after the diff is functionally equivalent to `t`. */
  ghost predicate Covered(from: seq<ForeignKey>, to: seq<ForeignKey>, t: ForeignKey) {
    exists n :: Final(false, from, to, n).Some? && Equivalent(Final(false, from, to, n).value, t)
  }

  /** A target foreign key with a new name either has no equivalent among the old
      ones, or has an equivalent that was renamed away, or has an equivalent among
      the target's foreign keys that kept an old name. */
  ghost predicate NothingLost(from: seq<ForeignKey>, to: seq<ForeignKey>, t: ForeignKey) {
    || Has(from, t.name)
    || !HasEquivalent(t, from)
    || (exists i :: 0 <= i < |from| && Equivalent(t, from[i]) && !Has(to, from[i].name))
    || (exists i :: 0 <= i < |to| && Equivalent(t, to[i]) && Has(from, to[i].name))
  }

  lemma SameNameCovers(from: seq<ForeignKey>, to: seq<ForeignKey>, t: ForeignKey, u: ForeignKey)
    requires Has(from, u.name) && Find(to, u.name) == Some(u) && Equivalent(t, u)
    ensures Covered(from, to, t)
  {
    var s := Final(false, from, to, u.name).value;
    EquivalentIsEquivalence(u, u, u);
    EquivalentIsEquivalence(t, u, t);
    EquivalentIsEquivalence(s, u, t);
    assert Equivalent(s, t);
  }

  lemma UniqueFind(s: seq<ForeignKey>, i: nat)
    requires Unique(s) && i < |s|
    ensures Find(s, s[i].name) == Some(s[i])
  {
    Lookup(s, i);
  }

  /** Suppressing cosmetic changes keeps target key `t` covered exactly when nothing is lost: the check
      "is there an equivalent old key" does not ask whether that old key itself is about to be redefined. */
  lemma CoverageIffNothingLost(from: seq<ForeignKey>, to: seq<ForeignKey>, k: nat)
    requires Unique(from) && Unique(to) && k < |to|
    ensures Covered(from, to, to[k]) <==> NothingLost(from, to, to[k])
  {
    hide Unique, Names, IndexOf, Equivalent;
    var t := to[k];
    UniqueFind(to, k);
    EquivalentIsEquivalence(t, t, t);
    if NothingLost(from, to, t) {
      if Has(from, t.name) {
        SameNameCovers(from, to, t, t);
      } else if !HasEquivalent(t, from) {
        assert Final(false, from, to, t.name) == Some(t);
      } else if exists i :: 0 <= i < |to| && Equivalent(t, to[i]) && Has(from, to[i].name) {
        var i :| 0 <= i < |to| && Equivalent(t, to[i]) && Has(from, to[i].name);
        UniqueFind(to, i);
        SameNameCovers(from, to, t, to[i]);
      } else {
        var i :| 0 <= i < |from| && Equivalent(t, from[i]) && !Has(to, from[i].name);
        UniqueFind(from, i);
        EquivalentIsEquivalence(t, from[i], t);
        assert HasEquivalent(from[i], to);
        assert Final(false, from, to, from[i].name) == Some(from[i]);
      }
    }
    if Covered(from, to, t) {
      var n :| Final(false, from, to, n).Some? && Equivalent(Final(false, from, to, n).value, t);
      CoverIsExplained(from, to, t, n);
    }
  }

  lemma CoverIsExplained(from: seq<ForeignKey>, to: seq<ForeignKey>, t: ForeignKey, n: string)
    requires Unique(from) && Unique(to)
    requires Final(false, from, to, n).Some? && Equivalent(Final(false, from, to, n).value, t)
    ensures NothingLost(from, to, t)
  {
    hide Unique, Names, Equivalent;
    var s := Final(false, from, to, n).value;
    EquivalentIsEquivalence(s, t, s);
    if !Has(to, n) {
      assert s == from[IndexOf(from, n)];
    } else if Has(from, n) {
      var u := to[IndexOf(to, n)];
      EquivalentIsEquivalence(u, u, u);
      EquivalentIsEquivalence(t, s, u);
    } else {
      forall i | 0 <= i < |from| ensures !Equivalent(t, from[i]) {
        EquivalentIsEquivalence(s, t, from[i]);
      }
    }
  }

  /** It is enough that no foreign key changes functionally under its own name. */
  lemma NothingLostIfStable(from: seq<ForeignKey>, to: seq<ForeignKey>, k: nat)
    requires Unique(from) && Unique(to) && k < |to|
    requires forall n :: Has(from, n) && Has(to, n) ==> Equivalent(Get(from, n), Get(to, n))
    ensures NothingLost(from, to, to[k])
  {
    hide Unique, Names, Equivalent;
    var t := to[k];
    if HasEquivalent(t, from) {
      var i :| 0 <= i < |from| && Equivalent(t, from[i]);
      UniqueFind(from, i);
      var n := from[i].name;
      if Has(to, n) {
        EquivalentIsEquivalence(t, from[i], Get(to, n));
        assert Equivalent(t, to[IndexOf(to, n)]);
      }
    }
  }

  function SimpleFk(name: string, table: string): ForeignKey {
    Named(name, FkFields(["a"], "", table, ["a"], "", ""))
  }

  /** Example: `x` is redefined while its old definition reappears as `y`; the constraint of `y` is lost. */
  lemma RedefinedAndRenamedIsLost()
    ensures var from, to := [SimpleFk("x", "t1")], [SimpleFk("x", "t2"), SimpleFk("y", "t1")];
            Unique(from) && Unique(to) && !Covered(from, to, to[1])
  {
    var from: seq<ForeignKey>, to: seq<ForeignKey> := [SimpleFk("x", "t1")], [SimpleFk("x", "t2"), SimpleFk("y", "t1")];
    TwoNames(from[0], from[0]);
    TwoNames(to[0], to[1]);
    assert "x" != "y";
    assert Equivalent(to[1], from[0]);
    CoverageIffNothingLost(from, to, 1);
  }

  /** Short lists and their names. */
  lemma TwoNames(f: ForeignKey, g: ForeignKey)
    ensures Unique([f]) && Names([f]) == {f.name}
    ensures Names([f, g]) == {f.name, g.name} && (Unique([f, g]) <==> f.name != g.name)
  {
    assert [f][1..] == [] && [f, g][1..] == [g] && [g][1..] == [];
  }

  // ----- the loops of Table.Diff; each picks the next map entry arbitrarily -----

  lemma {:induction false} AddClausesExtend(from: seq<ForeignKey>, order: seq<ForeignKey>, t: ForeignKey, n: nat)
    requires n <= |order|
    ensures AddClauses(from, order + [t], n) == AddClauses(from, order, n)
  {
    if n > 0 {
      AddClausesExtend(from, order, t, n - 1);
    }
  }

  lemma {:induction false} ChangeClausesExtend(to: seq<ForeignKey>, order: seq<ForeignKey>, f: ForeignKey, n: nat)
    requires n <= |order|
    ensures ChangeClauses(to, order + [f], n) == ChangeClauses(to, order, n)
  {
    if n > 0 {
      ChangeClausesExtend(to, order, f, n - 1);
    }
  }

  /** `order` lists the entries of `s` that were visited so far. */
  ghost predicate Visited(s: seq<ForeignKey>, todo: set<string>, order: seq<ForeignKey>) {
    && Unique(order) && todo <= Names(s) && Names(order) == Names(s) - todo
    && forall n :: n in Names(order) ==> Get(order, n) == Get(s, n)
  }

  lemma Visit(s: seq<ForeignKey>, todo: set<string>, order: seq<ForeignKey>, n: string)
    requires Visited(s, todo, order) && n in todo
    ensures Visited(s, todo - {n}, order + [Get(s, n)])
  {
    hide Unique, Names, IndexOf;
    Appended(order, Get(s, n), {});
  }

  method DiffForeignKeys(from: seq<ForeignKey>, to: seq<ForeignKey>)
    returns (clauses: seq<FkClause>, ghost fromOrder: seq<ForeignKey>, ghost toOrder: seq<ForeignKey>)
    requires Unique(from) && Unique(to)
    ensures SameElements(fromOrder, from) && SameElements(toOrder, to)
    ensures clauses == FkClauses(from, to, fromOrder, toOrder)
  {
    var adds, changes;
    adds, toOrder := DiffNewKeys(from, to);
    changes, fromOrder := DiffOldKeys(from, to);
    clauses := adds + changes;
  }

  method DiffNewKeys(from: seq<ForeignKey>, to: seq<ForeignKey>)
      returns (clauses: seq<FkClause>, ghost order: seq<ForeignKey>)
    ensures SameElements(order, to) && clauses == AddClauses(from, order, |order|)
  {
    hide Unique, Names, IndexOf, Equivalent, HasEquivalent, Visited, AddClauses;
    var todo := Names(to);
    clauses, order := [], [];
    assert Visited(to, todo, []) && AddClauses(from, [], 0) == [] by { NothingVisited(from, to); }
    while todo != {}
      invariant Visited(to, todo, order)
      invariant clauses == AddClauses(from, order, |order|)
    {
      var n :| n in todo;
      assert Has(to, n) by { InTodo(to, todo, order, n); }
      var toFk := Get(to, n);
      Visit(to, todo, order, n);
      AddClausesExtend(from, order, toFk, |order|);
      ghost var before := clauses;
      if !Has(from, toFk.name) {
        clauses := clauses + [AddForeignKey(toFk, HasEquivalent(toFk, from))];
      }
      todo, order := todo - {n}, order + [toFk];
      assert AddClauses(from, order, |order|) == before + AddClause(from, toFk) by { AddClausesStep(from, order); }
    }
    AllVisited(to, order);
  }

  method DiffOldKeys(from: seq<ForeignKey>, to: seq<ForeignKey>)
      returns (clauses: seq<FkClause>, ghost order: seq<ForeignKey>)
    ensures SameElements(order, from) && clauses == ChangeClauses(to, order, |order|)
  {
    hide Unique, Names, IndexOf, Equivalent, HasEquivalent, Visited, ChangeClauses;
    var todo := Names(from);
    clauses, order := [], [];
    assert Visited(from, todo, []) && ChangeClauses(to, [], 0) == [] by { NothingVisited(to, from); }
    while todo != {}
      invariant Visited(from, todo, order)
      invariant clauses == ChangeClauses(to, order, |order|)
    {
      var n :| n in todo;
      assert Has(from, n) by { InTodo(from, todo, order, n); }
      var fromFk := Get(from, n);
      Visit(from, todo, order, n);
      ChangeClausesExtend(to, order, fromFk, |order|);
      ghost var before := clauses;
      if !Has(to, fromFk.name) {
        clauses := clauses + [DropForeignKey(fromFk, HasEquivalent(fromFk, to))];
      } else {
        var toFk := Get(to, fromFk.name);
        EqualsIsEquality(fromFk, toFk);
        if !Equals(fromFk, toFk) {
          var cosmeticOnly := Equivalent(fromFk, toFk);
          clauses := clauses + [DropForeignKey(fromFk, cosmeticOnly), AddForeignKey(toFk, cosmeticOnly)];
        }
      }
      todo, order := todo - {n}, order + [fromFk];
      assert ChangeClauses(to, order, |order|) == before + ChangeClause(to, fromFk) by { ChangeClausesStep(to, order); }
    }
    AllVisited(from, order);
  }

  lemma NothingVisited(other: seq<ForeignKey>, s: seq<ForeignKey>)
    ensures Visited(s, Names(s), []) && AddClauses(other, [], 0) == [] && ChangeClauses(other, [], 0) == []
  {
  }

  lemma InTodo(s: seq<ForeignKey>, todo: set<string>, order: seq<ForeignKey>, n: string)
    requires Visited(s, todo, order) && n in todo
    ensures Has(s, n)
  {
  }

  lemma AllVisited(s: seq<ForeignKey>, order: seq<ForeignKey>)
    requires Visited(s, {}, order)
    ensures SameElements(order, s)
  {
  }

  lemma AddClausesStep(from: seq<ForeignKey>, order: seq<ForeignKey>)
    requires |order| > 0
    ensures AddClauses(from, order, |order|)
            == AddClauses(from, order, |order| - 1) + AddClause(from, order[|order| - 1])
  {
  }

  lemma ChangeClausesStep(to: seq<ForeignKey>, order: seq<ForeignKey>)
    requires |order| > 0
    ensures ChangeClauses(to, order, |order|)
            == ChangeClauses(to, order, |order| - 1) + ChangeClause(to, order[|order| - 1])
  {
  }
}
