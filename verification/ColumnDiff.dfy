// compareColumnExistence and the methods of columnsComparison (internal/tengo/table.go).

module ColumnDiff {
  import opened Wrappers
  import opened NamedLists
  import opened Subsequences
  import opened Columns
  import opened ColumnOrder

  /** The number of MODIFY COLUMN clauses that reposition a column. */
  function Repositioned(clauses: seq<ColumnClause>): nat {
    if |clauses| == 0 then 0
    else (if clauses[0].ModifyColumn? && clauses[0].position != Anywhere then 1 else 0) + Repositioned(clauses[1..])
  }

  lemma {:induction false} RepositionedSplit(a: seq<ColumnClause>, b: seq<ColumnClause>)
    ensures Repositioned(a + b) == Repositioned(a) + Repositioned(b)
  {
    if |a| == 0 {
      assert a + b == b;
    } else {
      assert (a + b)[1..] == a[1..] + b;
      RepositionedSplit(a[1..], b);
    }
  }

  lemma {:induction false} ModifiesReposition(from: seq<Column>, common: seq<Column>, n: nat, stay: set<string>)
    requires Unique(common) && n <= |common| && AllIn(common, from)
    ensures Repositioned(ModifyClauses(from, common, n, stay)) == n - |Names(common[..n]) * stay|
  {
    hide Names, Unique, ModifyClause;
    Nothing(common, 0, {});
    assert common[..0] == common[0..0];
    if n > 0 {
      ModifiesReposition(from, common, n - 1, stay);
      RepositionedSplit(ModifyClauses(from, common, n - 1, stay), ModifyClause(from, common, n - 1, stay));
      SingleReposition(from, common, n - 1, stay);
      var c := common[n - 1];
      assert common == common[..n - 1] + [c] + common[n..] && common[..n] == common[..n - 1] + [c];
      Around(common[..n - 1], c, common[n..]);
      Concat(common[..n - 1], [c]);
      One(c, {});
      CountIn(c.name, Names(common[..n - 1]), stay);
    }
  }

  lemma CountIn(n: string, rest: set<string>, stay: set<string>)
    requires n !in rest
    ensures |(rest + {n}) * stay| == |rest * stay| + (if n in stay then 1 else 0)
  {
    if n in stay {
      assert (rest + {n}) * stay == rest * stay + {n};
    } else {
      assert (rest + {n}) * stay == rest * stay;
    }
  }

  lemma SingleReposition(from: seq<Column>, common: seq<Column>, k: nat, stay: set<string>)
    requires k < |common| && Has(from, common[k].name)
    ensures Repositioned(ModifyClause(from, common, k, stay)) == if common[k].name in stay then 0 else 1
  {
  }

  lemma {:induction false} DropsReposition(cols: seq<Column>, keep: set<string>, n: nat)
    requires n <= |cols|
    ensures Repositioned(DropClauses(cols, keep, n)) == 0
  {
    hide Names;
    if n > 0 {
      DropsReposition(cols, keep, n - 1);
      RepositionedSplit(DropClauses(cols, keep, n - 1), DropClause(cols, n - 1, keep));
    }
  }

  lemma {:induction false} AddsReposition(cols: seq<Column>, keep: set<string>, n: nat)
    requires n <= |cols|
    ensures Repositioned(AddClauses(cols, n, keep)) == 0
  {
    hide Names;
    if n > 0 {
      AddsReposition(cols, keep, n - 1);
      RepositionedSplit(AddClauses(cols, n - 1, keep), AddClause(cols, n - 1, keep));
    }
  }

  /** A set of columns that may stay put, and no increasing subsequence of positions is longer. */
  ghost predicate Optimal(from: seq<Column>, to: seq<Column>, stay: set<string>) {
    var kept, common := Only(from, Names(to)), Only(to, Names(from));
    && stay <= Names(common) && InOrder(from, to, stay)
    && AllIn(kept, common)
    && forall d: seq<int> :: Increasing(d) && Sub(d, Positions(kept, common)) ==> |d| <= |stay|
  }

  lemma CommonSame(from: seq<Column>, to: seq<Column>)
    requires Unique(from) && Unique(to)
    ensures var kept, common := Only(from, Names(to)), Only(to, Names(from));
            && SameColumns(kept, common) && AllIn(common, from) && |kept| == |common|
            && Names(common) == Names(from) * Names(to)
  {
    hide Only, Unique, Names, IndexOf;
    var kept, common := Only(from, Names(to)), Only(to, Names(from));
    OnlyNames(from, Names(to));
    OnlyNames(to, Names(from));
    NameCount(kept);
    NameCount(common);
    forall i | 0 <= i < |kept| ensures Has(common, kept[i].name) {
      NameAt(kept, i);
    }
    forall i | 0 <= i < |common| ensures Has(from, common[i].name) {
      NameAt(common, i);
    }
  }

  /** A set staying in order among the common columns stays in order among all columns. */
  lemma StayWidens(from: seq<Column>, to: seq<Column>, stay: set<string>)
    requires stay <= Names(from) * Names(to)
    ensures InOrder(Only(from, Names(to)), Only(to, Names(from)), stay) <==> InOrder(from, to, stay)
  {
    OnlyOnly(from, Names(to), stay);
    OnlyOnly(to, Names(from), stay);
    assert Names(to) * stay == stay && Names(from) * stay == stay;
  }

  datatype ColumnsComparison = ColumnsComparison(
    from: seq<Column>, to: seq<Column>,
    fromStillPresent: seq<bool>, fromOrderCommonCols: seq<Column>,
    toAlreadyExisted: seq<bool>, toOrderCommonCols: seq<Column>,
    commonColumnsMoved: bool)
  {
    ghost predicate Valid() {
      && Unique(from) && Unique(to)
      && |fromStillPresent| == |from| && |toAlreadyExisted| == |to|
      && (forall n :: 0 <= n < |from| ==> (fromStillPresent[n] <==> from[n].name in Names(to)))
      && (forall n :: 0 <= n < |to| ==> (toAlreadyExisted[n] <==> to[n].name in Names(from)))
      && fromOrderCommonCols == Only(from, Names(to)) && toOrderCommonCols == Only(to, Names(from))
      && (commonColumnsMoved <==> NameSeq(fromOrderCommonCols) != NameSeq(toOrderCommonCols))
    }

    method ColumnDrops() returns (clauses: seq<ColumnClause>)
      requires Valid()
      ensures clauses == DropClauses(from, Names(to), |from|)
    {
      hide Names, Unique, Only;
      clauses := [];
      for n := 0 to |from|
        invariant clauses == DropClauses(from, Names(to), n)
      {
        if !fromStillPresent[n] {
          clauses := clauses + [DropColumn(from[n])];
        }
      }
    }

    /** Are there any pre-existing columns after position `toPos`? */
    method ExistingColsAfter(toPos: nat) returns (existingColsAfter: bool)
      requires Valid() && toPos < |to|
      ensures existingColsAfter <==> !(Names(to[toPos + 1..]) !! Names(from))
    {
      hide Names, Unique, Only;
      Nothing(to, toPos + 1, {});
      for after := toPos + 1 to |to|
        invariant Names(to[toPos + 1..after]) !! Names(from)
      {
        NamesGrow(to, toPos + 1, after);
        if toAlreadyExisted[after] {
          return true;
        }
      }
      assert to[toPos + 1..|to|] == to[toPos + 1..];
      return false;
    }

    method ColumnAdds() returns (clauses: seq<ColumnClause>)
      requires Valid()
      ensures clauses == AddClauses(to, |to|, Names(from))
    {
      hide Names, Unique, Only;
      clauses := [];
      for toPos := 0 to |to|
        invariant clauses == AddClauses(to, toPos, Names(from))
      {
        if !toAlreadyExisted[toPos] {
          var existingColsAfter := ExistingColsAfter(toPos);
          var position := if !existingColsAfter then Anywhere else if toPos == 0 then First
              else After(to[toPos - 1].name);
          clauses := clauses + [AddColumn(to[toPos], position)];
        }
      }
    }

    /** The MODIFY COLUMN clauses, repositioning every common column outside a longest set that may stay put. */
    method ColumnModifications() returns (clauses: seq<ColumnClause>, ghost stay: set<string>)
      requires Valid()
      ensures AllIn(toOrderCommonCols, from)
      ensures clauses == ModifyClauses(from, toOrderCommonCols, |toOrderCommonCols|, stay)
      ensures Optimal(from, to, stay)
    {
      hide Names, Unique, Only, ModifyClauses, Optimal;
      CommonSame(from, to);
      if |toOrderCommonCols| == 0 || !commonColumnsMoved {
        AllStay();
        stay := Names(toOrderCommonCols);
        clauses := InPlaceModifications();
      } else {
        clauses, stay := MovingModifications();
      }
    }

    /** All common columns are at the same position. */
    method InPlaceModifications() returns (clauses: seq<ColumnClause>)
      requires Valid() && (|toOrderCommonCols| == 0 || !commonColumnsMoved) && AllIn(toOrderCommonCols, from)
      ensures clauses == ModifyClauses(from, toOrderCommonCols, |toOrderCommonCols|, Names(toOrderCommonCols))
    {
      hide Names, Unique, Only, IndexOf;
      clauses := [];
      for toPos := 0 to |toOrderCommonCols|
        invariant clauses == ModifyClauses(from, toOrderCommonCols, toPos, Names(toOrderCommonCols))
      {
        FromCommonIsSource(toPos);
        NameAt(toOrderCommonCols, toPos);
        var toCol, fromCol := toOrderCommonCols[toPos], fromOrderCommonCols[toPos];
        if fromCol != toCol {
          clauses := clauses + [ModifyColumn(fromCol, toCol, Anywhere)];
        }
      }
    }

    /** One or more common columns were repositioned: those on a longest increasing subsequence stay put. */
    method MovingModifications() returns (clauses: seq<ColumnClause>, ghost stay: set<string>)
      requires Valid() && AllIn(toOrderCommonCols, from) && AllIn(fromOrderCommonCols, toOrderCommonCols)
      ensures clauses == ModifyClauses(from, toOrderCommonCols, |toOrderCommonCols|, stay)
      ensures Optimal(from, to, stay)
    {
      var fromIndexToPos := Positions(fromOrderCommonCols, toOrderCommonCols);
      var lis := LongestIncreasingSubsequence(fromIndexToPos);
      var stayPut := seq(|toOrderCommonCols|, i => i in lis);
      stay := NamesAt(toOrderCommonCols, Elements(lis));
      LongestStays(lis);
      assert forall i :: 0 <= i < |toOrderCommonCols| ==> (stayPut[i] <==> toOrderCommonCols[i].name in stay) by {
        CommonSame(from, to);
        forall i | 0 <= i < |toOrderCommonCols| ensures stayPut[i] <==> toOrderCommonCols[i].name in stay {
          InNamesAt(toOrderCommonCols, Elements(lis), i);
        }
      }
      clauses := ModifyOrMove(stayPut, stay);
    }

    /** For each common column (in target order): a clause if the column was reordered or modified. */
    method ModifyOrMove(stayPut: seq<bool>, ghost stay: set<string>) returns (clauses: seq<ColumnClause>)
      requires AllIn(toOrderCommonCols, from) && |stayPut| == |toOrderCommonCols|
      requires forall i :: 0 <= i < |toOrderCommonCols| ==> (stayPut[i] <==> toOrderCommonCols[i].name in stay)
      ensures clauses == ModifyClauses(from, toOrderCommonCols, |toOrderCommonCols|, stay)
    {
      hide Names, IndexOf;
      clauses := [];
      for toPos := 0 to |toOrderCommonCols|
        invariant clauses == ModifyClauses(from, toOrderCommonCols, toPos, stay)
      {
        var toCol := toOrderCommonCols[toPos];
        var fromCol := Get(from, toCol.name);
        var moved := !stayPut[toPos];
        if moved || fromCol != toCol {
          var position := if moved && toPos == 0 then First
                          else if moved then After(toOrderCommonCols[toPos - 1].name) else Anywhere;
          clauses := clauses + [ModifyColumn(fromCol, toCol, position)];
        }
      }
    }

    lemma LongestStays(lis: seq<int>)
      requires Valid() && AllIn(fromOrderCommonCols, toOrderCommonCols)
      requires var perm := Positions(fromOrderCommonCols, toOrderCommonCols);
               && Increasing(lis) && Sub(lis, perm)
               && forall d: seq<int> :: Increasing(d) && Sub(d, perm) ==> |d| <= |lis|
      ensures Optimal(from, to, NamesAt(toOrderCommonCols, Elements(lis)))
    {
      hide Names, Unique, Only, IndexOf, Sub, Increasing, NamesAt, InOrder;
      CommonSame(from, to);
      SubsequenceStays(fromOrderCommonCols, toOrderCommonCols, lis);
      StayWidens(from, to, NamesAt(toOrderCommonCols, Elements(lis)));
    }

    lemma FromCommonIsSource(k: nat)
      requires Valid() && !commonColumnsMoved && k < |toOrderCommonCols|
      ensures |fromOrderCommonCols| == |toOrderCommonCols|
      ensures Has(from, toOrderCommonCols[k].name) && Get(from, toOrderCommonCols[k].name) == fromOrderCommonCols[k]
    {
      assert |fromOrderCommonCols| == |NameSeq(fromOrderCommonCols)| == |toOrderCommonCols|;
      SelectedGet(from, Names(to));
      assert NameSeq(fromOrderCommonCols)[k] == NameSeq(toOrderCommonCols)[k];
    }

    lemma AllStay()
      requires Valid() && (|toOrderCommonCols| == 0 || !commonColumnsMoved)
      ensures Optimal(from, to, Names(toOrderCommonCols))
    {
      var stay := Names(toOrderCommonCols);
      CommonSame(from, to);
      OnlyAll(fromOrderCommonCols, stay);
      OnlyAll(toOrderCommonCols, stay);
      NameCount(toOrderCommonCols);
      StayWidens(from, to, stay);
      var perm := Positions(fromOrderCommonCols, toOrderCommonCols);
      forall d: seq<int> | Increasing(d) && Sub(d, perm) ensures |d| <= |stay| {
        SubShorter(d, perm);
      }
    }
  }

  lemma NamesGrow(to: seq<Column>, lo: nat, hi: nat)
    requires lo <= hi < |to|
    ensures Names(to[lo..hi + 1]) == Names(to[lo..hi]) + {to[hi].name}
    ensures to[hi].name in Names(to[lo..]) && Names(to[lo..lo]) == {}
  {
    assert to[lo..hi + 1] == to[lo..hi] + [to[hi]];
    Concat(to[lo..hi], [to[hi]]);
    One(to[hi], {});
    NameAt(to[lo..], hi - lo);
    assert to[lo..][hi - lo] == to[hi];
  }

  lemma {:induction false} SubShorter(c: seq<int>, s: seq<int>)
    requires Sub(c, s)
    ensures |c| <= |s|
    decreases |s|
  {
    if |c| > 0 {
      if Sub(c, s[..|s| - 1]) {
        SubShorter(c, s[..|s| - 1]);
      } else {
        SubShorter(c[..|c| - 1], s[..|s| - 1]);
      }
    }
  }

  lemma PrefixCount(to: seq<Column>, n: nat, from: seq<Column>)
    requires Unique(from) && Unique(to) && n <= |to|
    ensures |Only(to[..n], Names(from))| <= |Only(from, Names(to))|
  {
    hide Only, Unique, Names;
    var part := Only(to[..n], Names(from));
    assert to == to[..n] + to[n..];
    Concat(to[..n], to[n..]);
    OnlyNames(to[..n], Names(from));
    OnlyNames(from, Names(to));
    NameCount(part);
    NameCount(Only(from, Names(to)));
    SubsetSize(Names(part), Names(Only(from, Names(to))));
  }

  method CompareColumnExistence(from: seq<Column>, to: seq<Column>) returns (cc: ColumnsComparison)
    requires Unique(from) && Unique(to)
    ensures cc.Valid() && cc.from == from && cc.to == to
  {
    hide Names, Unique, Only;
    var fromStillPresent, fromOrderCommonCols := [], [];
    Nothing(from, 0, Names(to));
    Nothing(to, 0, Names(from));
    for n := 0 to |from|
      invariant |fromStillPresent| == n
      invariant forall i :: 0 <= i < n ==> (fromStillPresent[i] <==> from[i].name in Names(to))
      invariant fromOrderCommonCols == Only(from[..n], Names(to))
    {
      var col := from[n];
      assert from[..n + 1] == from[..n] + [col];
      OnlyConcat(from[..n], [col], Names(to));
      One(col, Names(to));
      fromStillPresent := fromStillPresent + [Has(to, col.name)];
      if Has(to, col.name) {
        fromOrderCommonCols := fromOrderCommonCols + [col];
      }
    }
    assert from[..|from|] == from;

    var toAlreadyExisted, toOrderCommonCols, commonColumnsMoved := [], [], false;
    for n := 0 to |to|
      invariant |toAlreadyExisted| == n
      invariant forall i :: 0 <= i < n ==> (toAlreadyExisted[i] <==> to[i].name in Names(from))
      invariant toOrderCommonCols == Only(to[..n], Names(from)) && |toOrderCommonCols| <= |fromOrderCommonCols|
      invariant commonColumnsMoved <==>
                NameSeq(toOrderCommonCols) != NameSeq(fromOrderCommonCols)[..|toOrderCommonCols|]
    {
      var col := to[n];
      assert to[..n + 1] == to[..n] + [col];
      OnlyConcat(to[..n], [col], Names(from));
      One(col, Names(from));
      PrefixCount(to, n + 1, from);
      toAlreadyExisted := toAlreadyExisted + [Has(from, col.name)];
      if Has(from, col.name) {
        ghost var before := toOrderCommonCols;
        toOrderCommonCols := toOrderCommonCols + [col];
        if !commonColumnsMoved && col.name != fromOrderCommonCols[|toOrderCommonCols| - 1].name {
          commonColumnsMoved := true;
        }
        assert NameSeq(toOrderCommonCols) == NameSeq(before) + [col.name];
        ghost var fromNames := NameSeq(fromOrderCommonCols);
        assert fromNames[..|before| + 1] == fromNames[..|before|] + [fromNames[|before|]];
      }
    }
    assert to[..|to|] == to;
    CommonSame(from, to);
    assert NameSeq(fromOrderCommonCols)[..|toOrderCommonCols|] == NameSeq(fromOrderCommonCols);
    cc := ColumnsComparison(from, to, fromStillPresent, fromOrderCommonCols, toAlreadyExisted, toOrderCommonCols,
        commonColumnsMoved);
  }

  /** The column clauses of Table.Diff: they bring the columns to the target
      exactly (up to unwanted cosmetic differences), with as few repositionings as
      any plan of single-column moves needs for the common columns. */
  method DiffColumns(from: seq<Column>, to: seq<Column>) returns (clauses: seq<ColumnClause>, ghost stay: set<string>)
    requires Unique(from) && Unique(to)
    ensures clauses == ColumnClauses(from, to, stay) && Optimal(from, to, stay)
    ensures ApplyColumns(true, from, clauses) == Some(to)
    ensures ApplyColumns(false, from, clauses) == Some(LandedAll(false, from, to, stay))
    ensures forall moves :: FollowsTarget(from, to, moves) ==> Repositioned(clauses) <= |moves|
  {
    var cc := CompareColumnExistence(from, to);
    CommonSame(from, to);
    var drops := cc.ColumnDrops();
    var mods;
    mods, stay := cc.ColumnModifications();
    var adds := cc.ColumnAdds();
    clauses := drops + mods + adds;
    ColumnsConverge(true, from, to, stay);
    ColumnsConverge(false, from, to, stay);
    RepositionedCount(from, to, stay);
    forall moves | FollowsTarget(from, to, moves) ensures Repositioned(clauses) <= |moves| {
      PlanIsOptimal(from, to, stay, moves);
    }
  }

  /** The moves bring the columns common to both tables into the target's order. */
  ghost predicate FollowsTarget(from: seq<Column>, to: seq<Column>, moves: seq<Move>) {
    var kept, common := Only(from, Names(to)), Only(to, Names(from));
    ApplyMoves(kept, moves).Some? && NameSeq(ApplyMoves(kept, moves).value) == NameSeq(common)
  }

  lemma RepositionedCount(from: seq<Column>, to: seq<Column>, stay: set<string>)
    requires Unique(from) && Unique(to) && stay <= Names(Only(to, Names(from)))
    ensures Repositioned(ColumnClauses(from, to, stay)) == |Only(to, Names(from))| - |stay|
  {
    CommonSame(from, to);
    var common := Only(to, Names(from));
    var drops, mods := DropClauses(from, Names(to), |from|), ModifyClauses(from, common, |common|, stay);
    RepositionedSplit(drops, mods);
    RepositionedSplit(drops + mods, AddClauses(to, |to|, Names(from)));
    DropsReposition(from, Names(to), |from|);
    AddsReposition(to, Names(from), |to|);
    ModifiesReposition(from, common, |common|, stay);
    assert common[..|common|] == common && Names(common) * stay == stay;
  }

  /** No plan of single-column moves reaches the target order of the common columns with fewer moves. */
  lemma PlanIsOptimal(from: seq<Column>, to: seq<Column>, stay: set<string>, moves: seq<Move>)
    requires Unique(from) && Unique(to) && Optimal(from, to, stay) && FollowsTarget(from, to, moves)
    ensures Repositioned(ColumnClauses(from, to, stay)) <= |moves|
  {
    CommonSame(from, to);
    var kept, common := Only(from, Names(to)), Only(to, Names(from));
    StayWidens(from, to, stay);
    var c := StaysIsSubsequence(kept, common, stay);
    FewestMoves(kept, common, c, moves);
    RepositionedCount(from, to, stay);
  }
}
