// Columns and the column part of a table diff (internal/tengo/column.go,
// internal/tengo/table.go, internal/tengo/alterclause.go).

module Columns {
  import opened Wrappers
  import opened NamedLists
  import opened Text

  datatype ColumnDef = ColumnDef(
    typeInDB: string, nullable: bool, autoIncrement: bool, default: string, onUpdate: string,
    generationExpr: string, virtual: bool, charSet: string, collation: string, collationIsDefault: bool,
    forceShowCharSet: bool, forceShowCollation: bool, compression: string, comment: string,
    invisible: bool, checkClause: string)

  type Column = Named<ColumnDef>

  function StripDisplayWidth(colType: string): (string, bool) {
    var input := ToLower(colType);
    if !Contains(input, "int(") && input != "year(4)" then (colType, false)
    else if input == "tinyint(1)" || HasSuffix(input, "zerofill") then (colType, false)
    else (Before(colType, '(') + (if HasSuffix(input, " unsigned") then " unsigned" else ""), true)
  }

  /** Column.Equivalent: equal up to cosmetic differences. */
  predicate Equivalent(c: Column, other: Column) {
    c == other ||
    var (cType, cHad) := StripDisplayWidth(c.def.typeInDB);
    var (otherType, otherHad) := StripDisplayWidth(other.def.typeInDB);
    && cType == otherType
    && !(c.def.typeInDB != other.def.typeInDB && cHad && otherHad)
    && var charSet := if (other.def.charSet == "utf8mb3" && c.def.charSet == "utf8")
                         || (other.def.charSet == "utf8" && c.def.charSet == "utf8mb3")
                      then other.def.charSet else c.def.charSet;
       var collation :=
         if HasPrefix(other.def.collation, "utf8mb3_") then ReplaceFirst(c.def.collation, "utf8_", "utf8mb3_")
         else if HasPrefix(other.def.collation, "utf8_") then ReplaceFirst(c.def.collation, "utf8mb3_", "utf8_")
         else c.def.collation;
       c.(def := c.def.(typeInDB := other.def.typeInDB, forceShowCharSet := other.def.forceShowCharSet,
                        forceShowCollation := other.def.forceShowCollation,
                        charSet := charSet, collation := collation)) == other
  }

  // ----- clauses and what the server does with them -----

  datatype Position = Anywhere | First | After(name: string)

  datatype ColumnClause =
    | DropColumn(column: Column)
    | ModifyColumn(oldColumn: Column, newColumn: Column, position: Position)
    | AddColumn(column: Column, position: Position)

  /** True iff Clause(mods) is the empty string. */
  predicate Suppressed(strict: bool, clause: ColumnClause) {
    !strict && clause.ModifyColumn? && clause.position == Anywhere && Equivalent(clause.oldColumn, clause.newColumn)
  }

  function Place(cols: seq<Column>, c: Column, p: Position): Option<seq<Column>> {
    match p
    case Anywhere => Some(cols + [c])
    case First => Some([c] + cols)
    case After(n) => if Has(cols, n) then Some(InsertAfter(cols, n, c)) else None
  }

  /** The effect of one clause; None when the server would reject it. */
  function ApplyColumn(strict: bool, cols: seq<Column>, clause: ColumnClause): Option<seq<Column>> {
    if Suppressed(strict, clause) then Some(cols)
    else match clause
      case DropColumn(c) =>
        if Has(cols, c.name) then Some(Without(cols, c.name)) else None
      case ModifyColumn(o, c, p) =>
        if o.name != c.name || !Has(cols, c.name) then None
        else if p == Anywhere then Some(Replace(cols, c))
        else Place(Without(cols, c.name), c, p)
      case AddColumn(c, p) =>
        if Has(cols, c.name) then None else Place(cols, c, p)
  }

  function ApplyColumns(strict: bool, cols: seq<Column>, clauses: seq<ColumnClause>): Option<seq<Column>>
    decreases |clauses|
  {
    if |clauses| == 0 then Some(cols)
    else match ApplyColumn(strict, cols, clauses[0])
      case None => None
      case Some(next) => ApplyColumns(strict, next, clauses[1..])
  }

  lemma {:induction false} ApplyColumnsSplit(strict: bool, cols: seq<Column>, a: seq<ColumnClause>,
      b: seq<ColumnClause>)
    ensures ApplyColumns(strict, cols, a + b) ==
            match ApplyColumns(strict, cols, a) { case None => None case Some(mid) => ApplyColumns(strict, mid, b) }
    decreases |a|
  {
    if |a| == 0 {
      assert a + b == b;
    } else {
      assert (a + b)[1..] == a[1..] + b;
      match ApplyColumn(strict, cols, a[0])
      case None =>
      case Some(next) => ApplyColumnsSplit(strict, next, a[1..], b);
    }
  }

  // ----- the clauses of a diff, given the names of the columns left in place -----

  function DropClause(cols: seq<Column>, k: nat, keep: set<string>): seq<ColumnClause>
    requires k < |cols|
  {
    if cols[k].name in keep then [] else [DropColumn(cols[k])]
  }

  /** The drops for the first `n` columns. */
  function DropClauses(cols: seq<Column>, keep: set<string>, n: nat): seq<ColumnClause>
    requires n <= |cols|
  {
    if n == 0 then [] else DropClauses(cols, keep, n - 1) + DropClause(cols, n - 1, keep)
  }

  predicate AllIn(cols: seq<Column>, from: seq<Column>) {
    forall i :: 0 <= i < |cols| ==> Has(from, cols[i].name)
  }

  /** The clause for common column `k` of the target order, if any. */
  function ModifyClause(from: seq<Column>, common: seq<Column>, k: nat, stay: set<string>): seq<ColumnClause>
    requires k < |common| && Has(from, common[k].name)
  {
    var source, c := Get(from, common[k].name), common[k];
    if c.name !in stay then [ModifyColumn(source, c, if k == 0 then First else After(common[k - 1].name))]
    else if source != c then [ModifyColumn(source, c, Anywhere)]
    else []
  }

  /** The modifications of the first `n` common columns. */
  function ModifyClauses(from: seq<Column>, common: seq<Column>, n: nat, stay: set<string>): seq<ColumnClause>
    requires n <= |common| && AllIn(common, from)
  {
    if n == 0 then [] else ModifyClauses(from, common, n - 1, stay) + ModifyClause(from, common, n - 1, stay)
  }

  /** The clause adding column `k` of `to`, unless it is in `existing`; it is
      positioned exactly when an existing column comes after it. */
  function AddClause(to: seq<Column>, k: nat, existing: set<string>): seq<ColumnClause>
    requires k < |to|
  {
    if to[k].name in existing then []
    else [AddColumn(to[k],
        if Names(to[k + 1..]) !! existing then Anywhere else if k == 0 then First else After(to[k - 1].name))]
  }

  /** The adds for the first `n` columns. */
  function AddClauses(to: seq<Column>, n: nat, existing: set<string>): seq<ColumnClause>
    requires n <= |to|
  {
    if n == 0 then [] else AddClauses(to, n - 1, existing) + AddClause(to, n - 1, existing)
  }

  /** All column clauses in emission order: drops, then modifications, then adds. */
  function ColumnClauses(from: seq<Column>, to: seq<Column>, stay: set<string>): seq<ColumnClause> {
    CommonHas(from, to);
    var common := Only(to, Names(from));
    DropClauses(from, Names(to), |from|) + ModifyClauses(from, common, |common|, stay)
        + AddClauses(to, |to|, Names(from))
  }

  lemma CommonHas(from: seq<Column>, to: seq<Column>)
    ensures Names(Only(to, Names(from))) == Names(to) * Names(from)
    ensures AllIn(Only(to, Names(from)), from)
  {
    var common := Only(to, Names(from));
    OnlyNames(to, Names(from));
    forall i | 0 <= i < |common| ensures Has(from, common[i].name) {
      NameAt(common, i);
    }
  }

  /** The columns of `stay` already stand in the target's relative order. */
  ghost predicate InOrder(from: seq<Column>, to: seq<Column>, stay: set<string>) {
    NameSeq(Only(from, stay)) == NameSeq(Only(to, stay))
  }

  // ----- convergence -----

  /** What column `c` of the target becomes: `c`, or its old version when the change is cosmetic and not wanted. */
  function Landed(strict: bool, from: seq<Column>, c: Column, stay: set<string>): (r: Column)
    ensures r.name == c.name
  {
    if !strict && c.name in stay && Has(from, c.name) && Equivalent(Get(from, c.name), c) then Get(from, c.name) else c
  }

  function LandedAll(strict: bool, from: seq<Column>, cols: seq<Column>, stay: set<string>): (r: seq<Column>)
    ensures |r| == |cols| && Names(r) == Names(cols) && (Unique(cols) ==> Unique(r))
    ensures forall i :: 0 <= i < |cols| ==> r[i] == Landed(strict, from, cols[i], stay)
  {
    if |cols| == 0 then [] else [Landed(strict, from, cols[0], stay)] + LandedAll(strict, from, cols[1..], stay)
  }

  /** The old versions of `cols`. */
  function Sources(from: seq<Column>, cols: seq<Column>): (r: seq<Column>)
    requires AllIn(cols, from)
    ensures |r| == |cols| && Names(r) == Names(cols) && (Unique(cols) ==> Unique(r))
    ensures forall i :: 0 <= i < |cols| ==> r[i] == Get(from, cols[i].name)
  {
    if |cols| == 0 then [] else [Get(from, cols[0].name)] + Sources(from, cols[1..])
  }

  /** The target order of the common columns after the first `k` of them were handled. */
  function Stage(strict: bool, from: seq<Column>, common: seq<Column>, k: nat, stay: set<string>): seq<Column>
    requires k <= |common| && AllIn(common, from)
  {
    LandedAll(strict, from, common[..k], stay) + Sources(from, common[k..])
  }

  function Settled(common: seq<Column>, k: nat, stay: set<string>): set<string>
    requires k <= |common|
  {
    Names(common[..k]) + stay
  }

  /** Among the settled columns of `cols` the target order is reached. */
  ghost predicate Sorted(strict: bool, from: seq<Column>, common: seq<Column>, k: nat, stay: set<string>,
      cols: seq<Column>)
    requires k <= |common| && AllIn(common, from)
  {
    && Unique(cols) && Names(cols) == Names(common)
    && Only(cols, Settled(common, k, stay)) == Only(Stage(strict, from, common, k, stay), Settled(common, k, stay))
  }

  /** Taking `c`, not yet settled, out of a sorted list. */
  lemma TakeOut(cols: seq<Column>, a: seq<Column>, s: Column, b: seq<Column>, settled: set<string>)
    requires Unique(cols) && Has(cols, s.name) && s.name !in settled
    requires Only(cols, settled) == Only(a + [s] + b, settled) && Names(a) <= settled
    ensures var rest := Without(cols, s.name);
            && Unique(rest) && Names(rest) == Names(cols) - {s.name}
            && Only(rest, settled) == a + Only(b, settled)
  {
    hide Names, Unique, Only;
    var i := IndexOf(cols, s.name);
    var x, y := cols[..i], cols[i + 1..];
    Found(cols, s.name);
    Around(x, Get(cols, s.name), y);
    Concat(x, y);
    OnlyAround(x, Get(cols, s.name), y, settled);
    OnlyAround(a, s, b, settled);
    OnlyAll(a, settled);
    OnlyConcat(x, y, settled);
    assert Only(x, settled) + [] + Only(y, settled) == Only(x, settled) + Only(y, settled);
    assert a + [] + Only(b, settled) == a + Only(b, settled);
  }

  lemma PutFirst(rest: seq<Column>, b: seq<Column>, c: Column, settled: set<string>)
    requires Unique(rest) && c.name !in Names(rest) && c.name !in Names(b)
    requires Only(rest, settled) == Only(b, settled)
    ensures Unique([c] + rest) && Names([c] + rest) == Names(rest) + {c.name}
    ensures Only([c] + rest, settled + {c.name}) == Only([c] + b, settled + {c.name})
  {
    Concat([c], rest);
    OnlySame(rest, settled, settled + {c.name});
    OnlySame(b, settled, settled + {c.name});
  }

  /** The last settled column `q` of the sorted prefix splits the list where the prefix ends. */
  lemma FindPrefix(rest: seq<Column>, a: seq<Column>, q: Column, b: seq<Column>, settled: set<string>)
    requires Unique(rest) && q.name in settled
    requires Only(rest, settled) == a + [q] + b
    ensures Has(rest, q.name) && Get(rest, q.name) == q
    ensures Only(rest[..IndexOf(rest, q.name)], settled) == a
    ensures Only(rest[IndexOf(rest, q.name) + 1..], settled) == b
  {
    hide Names, Unique, Only;
    OnlyNames(rest, settled);
    Around(a, q, b);
    var l := Get(rest, q.name);
    var u, v := rest[..IndexOf(rest, q.name)], rest[IndexOf(rest, q.name) + 1..];
    Found(rest, q.name);
    OnlyAround(u, l, v, settled);
    SplitIsUnique(Only(u, settled), l, Only(v, settled), a, q, b);
  }

  lemma PutAfter(rest: seq<Column>, a: seq<Column>, q: Column, b: seq<Column>, c: Column, settled: set<string>)
    requires Unique(rest) && c.name !in Names(rest) && c.name !in Names(b) && c.name !in settled
    requires Names(a) <= settled && q.name in settled
    requires Only(rest, settled) == a + [q] + Only(b, settled)
    ensures Has(rest, q.name)
    ensures var r := InsertAfter(rest, q.name, c);
            && Unique(r) && Names(r) == Names(rest) + {c.name}
            && Only(r, settled + {c.name}) == Only(a + [q] + [c] + b, settled + {c.name})
  {
    hide Names, Unique, Only;
    var more := settled + {c.name};
    FindPrefix(rest, a, q, Only(b, settled), settled);
    var u, v := rest[..IndexOf(rest, q.name)], rest[IndexOf(rest, q.name) + 1..];
    Found(rest, q.name);
    Around(u, q, v);
    assert InsertAfter(rest, q.name, c) == u + [q] + [c] + v;
    InsertUnique(u + [q], c, v);
    PrefixOnly(u, a, q, c, settled, more);
    PrefixOnly(a, a, q, c, settled, more) by { OnlyAll(a, settled); }
    OnlySame(v, settled, more);
    OnlySame(b, settled, more);
    OnlyConcat(u + [q] + [c], v, more);
    OnlyConcat(a + [q] + [c], b, more);
  }

  lemma PrefixOnly(u: seq<Column>, a: seq<Column>, q: Column, c: Column, settled: set<string>, more: set<string>)
    requires more == settled + {c.name} && c.name !in Names(u) && q.name in settled
    requires Only(u, settled) == a
    ensures Only(u + [q] + [c], more) == a + [q] + [c]
  {
    hide Names, Only;
    OnlySame(u, settled, more);
    OnlyConcat(u + [q], [c], more);
    OnlyConcat(u, [q], more);
    One(q, more);
    One(c, more);
  }

  /** Replacing the settled `s` in place. */
  lemma PutInPlace(cols: seq<Column>, a: seq<Column>, s: Column, b: seq<Column>, c: Column, settled: set<string>)
    requires Unique(cols) && Has(cols, c.name) && c.name in settled && s.name == c.name
    requires Unique(a + [s] + b) && Names(a) <= settled
    requires Only(cols, settled) == Only(a + [s] + b, settled)
    ensures Unique(Replace(cols, c)) && Names(Replace(cols, c)) == Names(cols)
    ensures Only(Replace(cols, c), settled) == Only(a + [c] + b, settled)
  {
    hide Names, Unique, Only;
    var l := Get(cols, c.name);
    var x, y := cols[..IndexOf(cols, c.name)], cols[IndexOf(cols, c.name) + 1..];
    Found(cols, c.name);
    Around(x, l, y);
    OnlyNames(cols, settled);
    OnlyAround(x, l, y, settled);
    OnlyAround(a, s, b, settled);
    SplitIsUnique(Only(x, settled), l, Only(y, settled), Only(a, settled), s, Only(b, settled));
    OnlyAround(x, c, y, settled);
    OnlyAround(a, c, b, settled);
    Concat(x, y);
    InsertUnique(x, c, y);
  }

  lemma PrefixNames(a: seq<Column>, k: nat)
    requires k <= |a|
    ensures Names(a[..k]) <= Names(a)
  {
    assert a == a[..k] + a[k..];
    Concat(a[..k], a[k..]);
  }

  lemma OnlyAround(a: seq<Column>, c: Column, b: seq<Column>, keep: set<string>)
    ensures Only(a + [c] + b, keep) == Only(a, keep) + (if c.name in keep then [c] else []) + Only(b, keep)
  {
    OnlyConcat(a + [c], b, keep);
    OnlyConcat(a, [c], keep);
  }

  lemma InsertUnique(a: seq<Column>, c: Column, b: seq<Column>)
    requires Unique(a + b) && c.name !in Names(a + b)
    ensures Unique(a + [c] + b) && Names(a + [c] + b) == Names(a + b) + {c.name}
  {
    Concat(a, b);
    Concat(a + [c], b);
    Concat(a, [c]);
  }

  lemma StageSplit(strict: bool, from: seq<Column>, common: seq<Column>, k: nat, stay: set<string>)
    requires k < |common| && AllIn(common, from)
    ensures var a, b := LandedAll(strict, from, common[..k], stay), Sources(from, common[k + 1..]);
            && Stage(strict, from, common, k, stay) == a + [Get(from, common[k].name)] + b
            && Stage(strict, from, common, k + 1, stay) == a + [Landed(strict, from, common[k], stay)] + b
    ensures Settled(common, k + 1, stay) == Settled(common, k, stay) + {common[k].name}
  {
    hide Names, Unique, Only, LandedAll, Sources, Landed, IndexOf;
    assert common[k..] == [common[k]] + common[k + 1..];
    assert common[..k + 1] == common[..k] + [common[k]];
    Concat(common[..k], [common[k]]);
    One(common[k], {});
  }

  lemma {:induction false} StageUnique(strict: bool, from: seq<Column>, common: seq<Column>, k: nat, stay: set<string>)
    requires Unique(common) && k <= |common| && AllIn(common, from)
    ensures Unique(Stage(strict, from, common, k, stay)) && Names(Stage(strict, from, common, k, stay)) == Names(common)
  {
    assert common == common[..k] + common[k..];
    Concat(common[..k], common[k..]);
    Concat(LandedAll(strict, from, common[..k], stay), Sources(from, common[k..]));
  }

  /** A column that does not stay put is moved right behind the previous column of the target order. */
  lemma MoveSorts(cols: seq<Column>, a: seq<Column>, s: Column, b: seq<Column>, c: Column, settled: set<string>)
    requires Unique(cols) && Has(cols, c.name) && c.name !in settled && s.name == c.name
    requires Unique(a + [s] + b) && Names(a) <= settled
    requires Only(cols, settled) == Only(a + [s] + b, settled)
    ensures var r := Place(Without(cols, c.name), c, if |a| == 0 then First else After(a[|a| - 1].name));
            && r.Some? && Unique(r.value) && Names(r.value) == Names(cols)
            && Only(r.value, settled + {c.name}) == Only(a + [c] + b, settled + {c.name})
  {
    hide Names, Unique, Only, InsertAfter, Without, IndexOf;
    Around(a, s, b);
    TakeOut(cols, a, s, b, settled);
    var rest := Without(cols, c.name);
    assert Names(cols) - {c.name} + {c.name} == Names(cols);
    if |a| == 0 {
      assert a == [] && a + Only(b, settled) == Only(b, settled);
      PutFirst(rest, b, c, settled);
      assert a + [c] + b == [c] + b;
    } else {
      var init, q := a[..|a| - 1], a[|a| - 1];
      NameAt(a, |a| - 1);
      assert a == init + [q];
      assert a + Only(b, settled) == init + [q] + Only(b, settled);
      PrefixNames(a, |a| - 1);
      PutAfter(rest, init, q, b, c, settled);
    }
  }

  /** One pass of the modification loop: the clause for column `k` sorts one more column. */
  lemma ModifySorts(strict: bool, from: seq<Column>, common: seq<Column>, k: nat, stay: set<string>, cols: seq<Column>)
    requires Unique(common) && k < |common| && AllIn(common, from)
    requires Sorted(strict, from, common, k, stay, cols)
    ensures var r := ApplyColumns(strict, cols, ModifyClause(from, common, k, stay));
            r.Some? && Sorted(strict, from, common, k + 1, stay, r.value)
  {
    hide Names, Unique, Only, Equivalent, Replace, Place, Without, LandedAll, Sources, Stage, IndexOf;
    var c, s, settled := common[k], Get(from, common[k].name), Settled(common, k, stay);
    var a, b := LandedAll(strict, from, common[..k], stay), Sources(from, common[k + 1..]);
    StageSplit(strict, from, common, k, stay);
    StageUnique(strict, from, common, k, stay);
    NameAt(common, k);
    assert common == common[..k] + [c] + common[k + 1..];
    Around(common[..k], c, common[k + 1..]);
    if c.name !in stay {
      MoveSorts(cols, a, s, b, c, settled);
    } else {
      assert Settled(common, k + 1, stay) == settled + {c.name} == settled;
      if s != c && !Suppressed(strict, ModifyColumn(s, c, Anywhere)) {
        PutInPlace(cols, a, s, b, c, settled);
      } else {
        assert Landed(strict, from, c, stay) == s;
      }
    }
  }

  lemma {:induction false} ModifiesSort(strict: bool, from: seq<Column>, common: seq<Column>, n: nat,
      stay: set<string>, cols: seq<Column>)
    requires Unique(common) && n <= |common| && AllIn(common, from)
    requires Sorted(strict, from, common, 0, stay, cols)
    ensures var r := ApplyColumns(strict, cols, ModifyClauses(from, common, n, stay));
            r.Some? && Sorted(strict, from, common, n, stay, r.value)
  {
    if n > 0 {
      hide Sorted, ModifyClause, ApplyColumns, Unique;
      ModifiesSort(strict, from, common, n - 1, stay, cols);
      var before := ModifyClauses(from, common, n - 1, stay);
      ModifySorts(strict, from, common, n - 1, stay, ApplyColumns(strict, cols, before).value);
      ApplyColumnsSplit(strict, cols, before, ModifyClause(from, common, n - 1, stay));
    }
  }

  lemma FullySorted(strict: bool, from: seq<Column>, common: seq<Column>, stay: set<string>, cols: seq<Column>)
    requires AllIn(common, from) && Sorted(strict, from, common, |common|, stay, cols)
    ensures cols == LandedAll(strict, from, common, stay)
  {
    var n := |common|;
    assert common[..n] == common && common[n..] == [];
    assert Stage(strict, from, common, n, stay) == LandedAll(strict, from, common, stay);
    OnlyAll(cols, Settled(common, n, stay));
    OnlyAll(LandedAll(strict, from, common, stay), Settled(common, n, stay));
  }

  lemma {:induction false} DropsApply(strict: bool, cols: seq<Column>, keep: set<string>, n: nat)
    requires Unique(cols) && n <= |cols|
    ensures ApplyColumns(strict, cols, DropClauses(cols, keep, n)) == Some(Filtering(cols, keep, n))
  {
    hide Unique, Filtering, Without;
    if n == 0 {
      FilterEnds(cols, keep);
    } else {
      DropsApply(strict, cols, keep, n - 1);
      FilterStep(cols, keep, n - 1);
      ApplyColumnsSplit(strict, cols, DropClauses(cols, keep, n - 1), DropClause(cols, n - 1, keep));
    }
  }

  lemma {:induction false} SameNames(a: seq<Column>, b: seq<Column>)
    requires |a| == |b| && forall i :: 0 <= i < |a| ==> a[i].name == b[i].name
    ensures Names(a) == Names(b) && (Unique(a) <==> Unique(b))
  {
    if |a| > 0 {
      SameNames(a[1..], b[1..]);
    }
  }

  /** `land` is a version of `to`: same names in the same order, and the same new columns. */
  ghost predicate Lands(to: seq<Column>, land: seq<Column>, existing: set<string>) {
    && |land| == |to|
    && forall i :: 0 <= i < |to| ==> land[i].name == to[i].name && (to[i].name in existing || land[i] == to[i])
  }

  /** ADD COLUMN puts column `k` right behind the columns before it, wherever the existing ones after it stand. */
  lemma AddPlaces(before: seq<Column>, c: Column, after: seq<Column>)
    requires Unique(before + after)
    ensures Place(before + after, c,
            if |after| == 0 then Anywhere else if |before| == 0 then First else After(before[|before| - 1].name))
            == Some(before + [c] + after)
  {
    hide Names, Unique;
    if |after| == 0 {
      assert before + after + [c] == before + [c] + after;
    } else if |before| == 0 {
      assert [c] + (before + after) == before + [c] + after;
    } else {
      var init, l := before[..|before| - 1], before[|before| - 1];
      assert before + after == init + [l] + after;
      Around(init, l, after);
      assert InsertAfter(before + after, l.name, c) == before + [c] + after;
    }
  }

  lemma AddSkips(land: seq<Column>, k: nat, existing: set<string>)
    requires k < |land|
    ensures Only(land[k..], existing)
            == (if land[k].name in existing then [land[k]] else []) + Only(land[k + 1..], existing)
    ensures land[k].name in existing ==>
              land[..k] + Only(land[k..], existing) == land[..k + 1] + Only(land[k + 1..], existing)
  {
    assert land[k..] == [land[k]] + land[k + 1..];
    OnlyConcat([land[k]], land[k + 1..], existing);
    One(land[k], existing);
  }

  lemma AddApplies(strict: bool, to: seq<Column>, land: seq<Column>, k: nat, existing: set<string>)
    requires Unique(to) && k < |to| && Lands(to, land, existing)
    ensures ApplyColumns(strict, land[..k] + Only(land[k..], existing), AddClause(to, k, existing))
            == Some(land[..k + 1] + Only(land[k + 1..], existing))
  {
    hide Names, Unique, Only, Place;
    AddSkips(land, k, existing);
    if to[k].name !in existing {
      var c, before, rest := land[k], land[..k], land[k + 1..];
      var after := Only(rest, existing);
      SameNames(land, to);
      SameNames(rest, to[k + 1..]);
      assert land == before + [c] + rest;
      Around(before, c, rest);
      OnlyNames(rest, existing);
      Concat(before, after);
      One(c, existing);
      if Names(to[k + 1..]) !! existing {
        OnlyNone(rest, existing);
      } else {
        assert |after| > 0;
      }
      AddPlaces(before, c, after);
      assert [] + after == after;
    }
  }

  lemma {:induction false} AddsApply(strict: bool, to: seq<Column>, land: seq<Column>, n: nat, existing: set<string>)
    requires Unique(to) && n <= |to| && Lands(to, land, existing)
    ensures ApplyColumns(strict, Only(land, existing), AddClauses(to, n, existing))
            == Some(land[..n] + Only(land[n..], existing))
  {
    if n == 0 {
      assert land[0..] == land && land[..0] + Only(land, existing) == Only(land, existing);
    } else {
      hide Names, Unique, Only, ApplyColumns, AddClause, Lands;
      AddsApply(strict, to, land, n - 1, existing);
      AddApplies(strict, to, land, n - 1, existing);
      ApplyColumnsSplit(strict, Only(land, existing), AddClauses(to, n - 1, existing), AddClause(to, n - 1, existing));
    }
  }

  /** Applying the column clauses of a diff, in order, turns `from`'s columns into
      the target's; under loose modifiers a column left in place may keep a
      definition that differs from the target's only cosmetically. */
  lemma ColumnsConverge(strict: bool, from: seq<Column>, to: seq<Column>, stay: set<string>)
    requires Unique(from) && Unique(to)
    requires stay <= Names(from) * Names(to) && InOrder(from, to, stay)
    ensures ApplyColumns(strict, from, ColumnClauses(from, to, stay)) == Some(LandedAll(strict, from, to, stay))
    ensures strict ==> LandedAll(strict, from, to, stay) == to
  {
    hide Unique, Only, ApplyColumns, DropClauses, ModifyClauses, AddClauses, IndexOf, Equivalent;
    CommonHas(from, to);
    var common, land := Only(to, Names(from)), LandedAll(strict, from, to, stay);
    DropsAndModifiesApply(strict, from, to, stay);
    LandedOnly(strict, from, to, stay);
    AddsApply(strict, to, land, |to|, Names(from));
    assert land[|to|..] == land[|to|..|to|] && land[..|to|] + [] == land;
    Nothing(land, |to|, Names(from));
    ApplyColumnsSplit(strict, from, DropClauses(from, Names(to), |from|) + ModifyClauses(from, common, |common|, stay),
                      AddClauses(to, |to|, Names(from)));
  }

  lemma DropsAndModifiesApply(strict: bool, from: seq<Column>, to: seq<Column>, stay: set<string>)
    requires Unique(from) && Unique(to)
    requires stay <= Names(from) * Names(to) && InOrder(from, to, stay)
    requires AllIn(Only(to, Names(from)), from)
    ensures var common := Only(to, Names(from));
            ApplyColumns(strict, from,
                DropClauses(from, Names(to), |from|) + ModifyClauses(from, common, |common|, stay))
            == Some(LandedAll(strict, from, common, stay))
  {
    hide Names, Unique, Only, LandedAll, ApplyColumns, DropClauses, ModifyClauses, Sorted;
    var common, kept := Only(to, Names(from)), Only(from, Names(to));
    OnlyNames(to, Names(from));
    DropsApply(strict, from, Names(to), |from|);
    FilterEnds(from, Names(to));
    StaySorted(strict, from, to, stay);
    ModifiesSort(strict, from, common, |common|, stay, kept);
    FullySorted(strict, from, common, stay,
        ApplyColumns(strict, kept, ModifyClauses(from, common, |common|, stay)).value);
    ApplyColumnsSplit(strict, from, DropClauses(from, Names(to), |from|), ModifyClauses(from, common, |common|, stay));
  }

  lemma {:induction false} LandedOnly(strict: bool, from: seq<Column>, to: seq<Column>, stay: set<string>)
    ensures Only(LandedAll(strict, from, to, stay), Names(from)) == LandedAll(strict, from, Only(to, Names(from)), stay)
  {
    if |to| > 0 {
      LandedOnly(strict, from, to[1..], stay);
    }
  }

  lemma {:induction false} SourcesOf(from: seq<Column>, cols: seq<Column>, sub: seq<Column>)
    requires Unique(from)
    requires NameSeq(cols) == NameSeq(sub)
    requires AllIn(cols, from)
    requires AllIn(sub, from) && forall i :: 0 <= i < |sub| ==> Get(from, sub[i].name) == sub[i]
    ensures Sources(from, cols) == sub
  {
    forall i | 0 <= i < |cols| ensures Sources(from, cols)[i] == sub[i] {
      assert cols[i].name == NameSeq(cols)[i] == NameSeq(sub)[i] == sub[i].name;
    }
  }

  lemma {:induction false} SourcesOnly(from: seq<Column>, cols: seq<Column>, keep: set<string>)
    requires AllIn(cols, from)
    ensures AllIn(Only(cols, keep), from)
    ensures Only(Sources(from, cols), keep) == Sources(from, Only(cols, keep))
  {
    if |cols| > 0 {
      SourcesOnly(from, cols[1..], keep);
    }
  }

  /** Before the first modification the columns left in place are sorted. */
  lemma StaySorted(strict: bool, from: seq<Column>, to: seq<Column>, stay: set<string>)
    requires Unique(from) && Unique(to)
    requires stay <= Names(from) * Names(to) && InOrder(from, to, stay)
    requires AllIn(Only(to, Names(from)), from)
    ensures Sorted(strict, from, Only(to, Names(from)), 0, stay, Only(from, Names(to)))
  {
    hide Names, Unique, Only, Sources, LandedAll, Landed, IndexOf, NameSeq;
    var common, kept := Only(to, Names(from)), Only(from, Names(to));
    OnlyNames(to, Names(from));
    OnlyNames(from, Names(to));
    StageZero(strict, from, common, stay);
    SourcesOnly(from, common, stay);
    OnlyOnly(to, Names(from), stay);
    OnlyOnly(from, Names(to), stay);
    assert Names(from) * stay == stay && Names(to) * stay == stay;
    SelectedGet(from, stay);
    SourcesOf(from, Only(to, stay), Only(from, stay));
  }

  lemma SelectedGet(from: seq<Column>, keep: set<string>)
    requires Unique(from)
    ensures AllIn(Only(from, keep), from)
    ensures forall i :: 0 <= i < |Only(from, keep)| ==> Get(from, Only(from, keep)[i].name) == Only(from, keep)[i]
  {
    hide Only, Unique, Names;
    var sub := Only(from, keep);
    OnlyNames(from, keep);
    forall i | 0 <= i < |sub| ensures Has(from, sub[i].name) && Get(from, sub[i].name) == sub[i] {
      NameAt(sub, i);
      OnlyGet(from, keep, sub[i].name);
    }
  }

  lemma StageZero(strict: bool, from: seq<Column>, common: seq<Column>, stay: set<string>)
    requires AllIn(common, from)
    ensures Stage(strict, from, common, 0, stay) == Sources(from, common)
    ensures Settled(common, 0, stay) == stay
  {
    assert common[..0] == [] && common[0..] == common;
  }
}
