// How few columns have to be repositioned (internal/tengo/table.go,
// columnModifications): increasing subsequences of positions are exactly the
// sets of columns that may stay in place, and no plan of single-column moves
// beats the longest one.

module ColumnOrder {
  import opened Wrappers
  import opened NamedLists
  import opened Subsequences
  import opened Columns

  /** Where each column of `cols` stands in `common`. */
  function Positions(cols: seq<Column>, common: seq<Column>): (r: seq<int>)
    requires AllIn(cols, common)
    ensures |r| == |cols| && forall i :: 0 <= i < |cols| ==> r[i] == IndexOf(common, cols[i].name)
  {
    seq(|cols|, i requires 0 <= i < |cols| => IndexOf(common, cols[i].name))
  }

  function Filter(s: seq<int>, keep: set<int>): seq<int> {
    if |s| == 0 then []
    else Filter(s[..|s| - 1], keep) + (if s[|s| - 1] in keep then [s[|s| - 1]] else [])
  }

  ghost predicate Distinct(s: seq<int>) {
    forall i, j :: 0 <= i < j < |s| ==> s[i] != s[j]
  }

  function Elements(s: seq<int>): set<int> {
    set x | x in s
  }

  lemma {:induction false} SubElements(c: seq<int>, s: seq<int>)
    requires Sub(c, s)
    ensures Elements(c) <= Elements(s)
    decreases |s|
  {
    if |c| > 0 {
      var init, last := s[..|s| - 1], s[|s| - 1];
      assert s == init + [last];
      if Sub(c, init) {
        SubElements(c, init);
      } else {
        var d := c[..|c| - 1];
        SubElements(d, init);
        assert c == d + [last];
        assert forall x :: x in c ==> x in Elements(d) || x == last;
      }
    }
  }

  lemma {:induction false} FilterSame(s: seq<int>, k1: set<int>, k2: set<int>)
    requires forall x :: x in s ==> (x in k1 <==> x in k2)
    ensures Filter(s, k1) == Filter(s, k2)
  {
    if |s| > 0 {
      var init, last := s[..|s| - 1], s[|s| - 1];
      assert last in s && forall x :: x in init ==> x in s;
      FilterSame(init, k1, k2);
      assert last in k1 <==> last in k2;
    }
  }

  /** A subsequence of a sequence without repetitions is selected by its elements. */
  lemma {:induction false} SubIsFilter(c: seq<int>, s: seq<int>)
    requires Sub(c, s) && Distinct(s)
    ensures Filter(s, Elements(c)) == c
    decreases |s|
  {
    if |s| > 0 {
      var init, last := s[..|s| - 1], s[|s| - 1];
      if Sub(c, init) {
        SubIsFilter(c, init);
        SubElements(c, init);
      } else {
        var d := c[..|c| - 1];
        assert c == d + [last];
        SubIsFilter(d, init);
        SubElements(d, init);
        FilterSame(init, Elements(c), Elements(d));
      }
    }
  }

  lemma {:induction false} FilterIsSub(s: seq<int>, keep: set<int>)
    ensures Sub(Filter(s, keep), s)
  {
    if |s| > 0 {
      FilterIsSub(s[..|s| - 1], keep);
      SubWeaken(Filter(s[..|s| - 1], keep), s[..|s| - 1], s[|s| - 1]);
      assert s == s[..|s| - 1] + [s[|s| - 1]];
      assert Filter(s[..|s| - 1], keep) + [] == Filter(s[..|s| - 1], keep);
    }
  }

  function UpTo(n: nat): (r: seq<int>)
    ensures |r| == n && forall i :: 0 <= i < n ==> r[i] == i
  {
    seq(n, i => i)
  }

  lemma {:induction false} IncreasingIsSub(c: seq<int>, n: nat)
    requires Increasing(c) && forall i :: 0 <= i < |c| ==> 0 <= c[i] < n
    ensures Sub(c, UpTo(n))
    decreases n
  {
    if |c| > 0 {
      assert 0 <= c[0] < n;
      assert UpTo(n)[..n - 1] == UpTo(n - 1);
      if c[|c| - 1] == n - 1 {
        IncreasingIsSub(c[..|c| - 1], n - 1);
      } else {
        IncreasingIsSub(c, n - 1);
      }
    }
  }

  lemma IncreasingIsFilter(c: seq<int>, n: nat)
    requires Increasing(c) && forall i :: 0 <= i < |c| ==> 0 <= c[i] < n
    ensures Filter(UpTo(n), Elements(c)) == c
  {
    IncreasingIsSub(c, n);
    SubIsFilter(c, UpTo(n));
  }

  lemma {:induction false} FilterElements(s: seq<int>, keep: set<int>)
    ensures forall x :: x in Filter(s, keep) <==> x in s && x in keep
  {
    if |s| > 0 {
      var init, last := s[..|s| - 1], s[|s| - 1];
      FilterElements(init, keep);
      assert s == init + [last];
    }
  }

  lemma {:induction false} FilterIncreasing(s: seq<int>, keep: set<int>)
    requires Increasing(s)
    ensures Increasing(Filter(s, keep))
  {
    if |s| > 0 {
      var init, last := s[..|s| - 1], s[|s| - 1];
      FilterIncreasing(init, keep);
      FilterElements(init, keep);
      var f := Filter(init, keep);
      assert forall i :: 0 <= i < |f| ==> f[i] in f;
    }
  }

  /** The names at the given positions. */
  function NamesAt(common: seq<Column>, at: set<int>): set<string> {
    set i | i in at && 0 <= i < |common| :: common[i].name
  }

  lemma InNamesAt(common: seq<Column>, at: set<int>, i: nat)
    requires Unique(common) && i < |common|
    ensures common[i].name in NamesAt(common, at) <==> i in at
  {
    NameAt(common, i);
    forall j: int | j in at && 0 <= j < |common| && common[j].name == common[i].name ensures j == i {
      NameAt(common, j);
    }
  }

  /** Selecting columns by position is filtering their positions. */
  lemma {:induction false} OnlyIsFilter(cols: seq<Column>, common: seq<Column>, at: set<int>)
    requires Unique(common) && AllIn(cols, common)
    ensures AllIn(Only(cols, NamesAt(common, at)), common)
    ensures Positions(Only(cols, NamesAt(common, at)), common) == Filter(Positions(cols, common), at)
    decreases |cols|
  {
    if |cols| > 0 {
      var init, last, keep := cols[..|cols| - 1], cols[|cols| - 1], NamesAt(common, at);
      assert cols == init + [last];
      OnlyIsFilter(init, common, at);
      OnlyConcat(init, [last], keep);
      One(last, keep);
      var p := IndexOf(common, last.name);
      InNamesAt(common, at, p);
      assert Positions(cols, common)[..|cols| - 1] == Positions(init, common);
    }
  }

  lemma PositionsDistinct(cols: seq<Column>, common: seq<Column>)
    requires Unique(cols) && AllIn(cols, common)
    ensures Distinct(Positions(cols, common))
  {
    forall i, j | 0 <= i < j < |cols| ensures Positions(cols, common)[i] != Positions(cols, common)[j] {
      NameAt(cols, i);
      NameAt(cols, j);
    }
  }

  lemma PositionsOfSelf(common: seq<Column>)
    requires Unique(common)
    ensures AllIn(common, common) && Positions(common, common) == UpTo(|common|)
  {
    forall i | 0 <= i < |common| ensures Has(common, common[i].name) && IndexOf(common, common[i].name) == i {
      NameAt(common, i);
    }
  }

  lemma SamePositions(a: seq<Column>, b: seq<Column>, common: seq<Column>)
    requires AllIn(a, common) && AllIn(b, common)
    ensures Positions(a, common) == Positions(b, common) <==> NameSeq(a) == NameSeq(b)
  {
    if Positions(a, common) == Positions(b, common) {
      assert |a| == |Positions(a, common)| == |b|;
      forall i | 0 <= i < |a| ensures NameSeq(a)[i] == NameSeq(b)[i] {
        assert Positions(a, common)[i] == Positions(b, common)[i];
      }
    }
    if NameSeq(a) == NameSeq(b) {
      assert |a| == |NameSeq(a)| == |b|;
      forall i | 0 <= i < |a| ensures Positions(a, common)[i] == Positions(b, common)[i] {
        assert NameSeq(a)[i] == NameSeq(b)[i];
      }
    }
  }

  ghost predicate SameColumns(kept: seq<Column>, common: seq<Column>) {
    Unique(kept) && Unique(common) && Names(kept) == Names(common) && AllIn(kept, common)
  }

  /** The columns selected by an increasing subsequence of positions already stand in target order. */
  lemma SubsequenceStays(kept: seq<Column>, common: seq<Column>, c: seq<int>)
    requires SameColumns(kept, common)
    requires Increasing(c) && Sub(c, Positions(kept, common))
    ensures InOrder(kept, common, NamesAt(common, Elements(c)))
    ensures NamesAt(common, Elements(c)) <= Names(common)
    ensures |NamesAt(common, Elements(c))| == |c|
  {
    hide Names, Unique, Only, Sub, Filter, Increasing;
    var stay := NamesAt(common, Elements(c));
    SubElements(c, Positions(kept, common));
    forall i | 0 <= i < |c| ensures 0 <= c[i] < |common| {
      assert c[i] in Elements(c);
    }
    PositionsDistinct(kept, common);
    PositionsOfSelf(common);
    SubIsFilter(c, Positions(kept, common));
    IncreasingIsFilter(c, |common|);
    OnlyIsFilter(kept, common, Elements(c));
    OnlyIsFilter(common, common, Elements(c));
    SamePositions(Only(kept, stay), Only(common, stay), common);
    NamesAtBound(common, Elements(c));
    OnlyNames(common, stay);
    assert Names(common) * stay == stay;
    NameCount(Only(common, stay));
  }

  lemma NamesAtBound(common: seq<Column>, at: set<int>)
    ensures NamesAt(common, at) <= Names(common)
  {
    forall n | n in NamesAt(common, at) ensures n in Names(common) {
      var i :| i in at && 0 <= i < |common| && common[i].name == n;
      NameAt(common, i);
    }
  }

  /** Columns that stand in target order give an increasing subsequence of positions. */
  lemma StaysIsSubsequence(kept: seq<Column>, common: seq<Column>, stay: set<string>) returns (c: seq<int>)
    requires SameColumns(kept, common)
    requires stay <= Names(common) && InOrder(kept, common, stay)
    ensures Increasing(c) && Sub(c, Positions(kept, common)) && |c| == |stay|
  {
    var at := set n | n in stay :: IndexOf(common, n);
    assert NamesAt(common, at) == stay by {
      forall n | n in stay ensures n in NamesAt(common, at) {
        assert IndexOf(common, n) in at;
      }
      forall n | n in NamesAt(common, at) ensures n in stay {
        var i :| i in at && 0 <= i < |common| && common[i].name == n;
      }
    }
    c := Filter(Positions(kept, common), at);
    FilterIsSub(Positions(kept, common), at);
    OnlyIsFilter(kept, common, at);
    PositionsOfSelf(common);
    OnlyIsFilter(common, common, at);
    SamePositions(Only(kept, stay), Only(common, stay), common);
    FilterIncreasing(UpTo(|common|), at);
    OnlyNames(kept, stay);
    assert Names(Only(kept, stay)) == stay;
    NameCount(Only(kept, stay));
  }

  // ----- plans of single-column moves -----

  datatype Move = Move(name: string, to: Position)

  function ApplyMoves(cols: seq<Column>, moves: seq<Move>): Option<seq<Column>>
    decreases |moves|
  {
    if |moves| == 0 then Some(cols)
    else if !Has(cols, moves[0].name) then None
    else match Place(Without(cols, moves[0].name), Get(cols, moves[0].name), moves[0].to)
      case None => None
      case Some(next) => ApplyMoves(next, moves[1..])
  }

  function Moved(moves: seq<Move>): set<string> {
    set i | 0 <= i < |moves| :: moves[i].name
  }

  lemma {:induction false} PlaceKeeps(cols: seq<Column>, c: Column, p: Position, keep: set<string>)
    requires c.name !in keep && Place(cols, c, p).Some?
    ensures Only(Place(cols, c, p).value, keep) == Only(cols, keep)
  {
    hide Only;
    match p
    case Anywhere =>
      OnlyAround(cols, c, [], keep);
      One(c, keep);
      assert cols + [c] + [] == cols + [c] && Only(cols, keep) + [] + [] == Only(cols, keep);
    case First =>
      OnlyAround([], c, cols, keep);
      One(c, keep);
      assert [] + [c] + cols == [c] + cols && [] + [] + Only(cols, keep) == Only(cols, keep);
    case After(n) =>
      var i := IndexOf(cols, n) + 1;
      OnlyAround(cols[..i], c, cols[i..], keep);
      OnlyConcat(cols[..i], cols[i..], keep);
      assert cols == cols[..i] + cols[i..];
      assert Only(cols[..i], keep) + [] + Only(cols[i..], keep) == Only(cols[..i], keep) + Only(cols[i..], keep);
  }

  lemma {:induction false} MovesKeepOthers(cols: seq<Column>, moves: seq<Move>, keep: set<string>)
    requires ApplyMoves(cols, moves).Some? && Moved(moves) !! keep
    ensures Only(ApplyMoves(cols, moves).value, keep) == Only(cols, keep)
    decreases |moves|
  {
    if |moves| > 0 {
      var n := moves[0].name;
      assert n in Moved(moves);
      var c, i := Get(cols, n), IndexOf(cols, n);
      Found(cols, n);
      OnlyAround(cols[..i], c, cols[i + 1..], keep);
      OnlyConcat(cols[..i], cols[i + 1..], keep);
      assert Only(cols[..i], keep) + [] == Only(cols[..i], keep);
      PlaceKeeps(Without(cols, n), c, moves[0].to, keep);
      forall m | m in Moved(moves[1..]) ensures m in Moved(moves) {
        var j :| 0 <= j < |moves[1..]| && moves[1..][j].name == m;
        assert moves[j + 1].name == m;
      }
      MovesKeepOthers(Place(Without(cols, n), c, moves[0].to).value, moves[1..], keep);
    }
  }

  lemma {:induction false} MovedCount(moves: seq<Move>)
    ensures |Moved(moves)| <= |moves|
  {
    if |moves| > 0 {
      var init, last := moves[..|moves| - 1], moves[|moves| - 1];
      MovedCount(init);
      assert Moved(moves) == Moved(init) + {last.name};
    }
  }

  /** If `c` is a longest increasing subsequence of positions, every plan of
      single-column moves that reaches the target order moves at least as many
      columns as remain outside `c`. */
  lemma FewestMoves(kept: seq<Column>, common: seq<Column>, c: seq<int>, moves: seq<Move>)
    requires SameColumns(kept, common)
    requires forall d: seq<int> :: Increasing(d) && Sub(d, Positions(kept, common)) ==> |d| <= |c|
    requires ApplyMoves(kept, moves).Some? && NameSeq(ApplyMoves(kept, moves).value) == NameSeq(common)
    ensures |moves| >= |common| - |c|
  {
    var stay := Names(common) - Moved(moves);
    MovesKeepOthers(kept, moves, stay);
    var result := ApplyMoves(kept, moves).value;
    assert |result| == |NameSeq(result)| == |common|;
    assert forall i :: 0 <= i < |common| ==> result[i].name == NameSeq(result)[i] == common[i].name;
    OnlySameNames(result, common, stay);
    var d := StaysIsSubsequence(kept, common, stay);
    NameCount(common);
    MovedCount(moves);
    assert Names(common) <= stay + Moved(moves);
    SetBound(Names(common), stay, Moved(moves));
  }

  lemma SetBound(a: set<string>, b: set<string>, c: set<string>)
    requires a <= b + c
    ensures |a| <= |b| + |c|
  {
    SubsetSize(a, b + c);
    assert b + c == b + (c - b);
    assert |b + (c - b)| == |b| + |c - b|;
    SubsetSize(c - b, c);
  }

  lemma {:induction false} OnlySameNames(a: seq<Column>, b: seq<Column>, keep: set<string>)
    requires |a| == |b| && forall i :: 0 <= i < |a| ==> a[i].name == b[i].name
    ensures NameSeq(Only(a, keep)) == NameSeq(Only(b, keep))
  {
    if |a| > 0 {
      OnlySameNames(a[1..], b[1..], keep);
      var x, y := Only(a[1..], keep), Only(b[1..], keep);
      assert NameSeq([a[0]] + x) == [a[0].name] + NameSeq(x);
      assert NameSeq([b[0]] + y) == [b[0].name] + NameSeq(y);
    }
  }
}
