// Longest increasing subsequences (internal/tengo/util.go).

module Subsequences {

  ghost predicate Increasing(s: seq<int>) {
    forall i, j :: 0 <= i < j < |s| ==> s[i] < s[j]
  }

  /** True iff `c` can be obtained from `s` by deleting elements. */
  ghost predicate Sub<T>(c: seq<T>, s: seq<T>)
    decreases |s|
  {
    if |c| == 0 then true
    else if |s| == 0 then false
    else
      || Sub(c, s[..|s| - 1])
      || (c[|c| - 1] == s[|s| - 1] && Sub(c[..|c| - 1], s[..|s| - 1]))
  }

  function Last(s: seq<int>): int
    requires |s| > 0
  {
    s[|s| - 1]
  }

  /** `c` is an increasing subsequence of `s` of length `n`. */
  ghost predicate Candidate(c: seq<int>, s: seq<int>, n: nat) {
    |c| == n && Increasing(c) && Sub(c, s)
  }

  /** The last elements of the candidate lists, shortest list first. */
  function Ends(cands: seq<seq<int>>): (e: seq<int>)
    requires forall k :: 0 <= k < |cands| ==> |cands[k]| == k + 1
    ensures |e| == |cands| && forall k :: 0 <= k < |cands| ==> e[k] == cands[k][k]
  {
    seq(|cands|, k requires 0 <= k < |cands| => cands[k][k])
  }

  ghost predicate Tiered(cands: seq<seq<int>>) {
    (forall k :: 0 <= k < |cands| ==> |cands[k]| == k + 1) && Increasing(Ends(cands))
  }

  ghost predicate AllCandidates(cands: seq<seq<int>>, s: seq<int>) {
    forall k :: 0 <= k < |cands| ==> Candidate(cands[k], s, k + 1)
  }

  /** Some increasing subsequence with the length of `c` is known to end at least as low as `c`. */
  ghost predicate Beaten(ends: seq<int>, c: seq<int>)
    requires |c| > 0
  {
    |c| <= |ends| && ends[|c| - 1] <= Last(c)
  }

  ghost predicate NoneBetter(ends: seq<int>, s: seq<int>) {
    forall c: seq<int>, n: nat :: n > 0 && Candidate(c, s, n) ==> Beaten(ends, c)
  }

  /** `cands[k]` is an increasing subsequence of `s` of length k+1 whose last
      element is as small as possible; no longer increasing subsequence exists. */
  ghost predicate Best(cands: seq<seq<int>>, s: seq<int>) {
    Tiered(cands) && AllCandidates(cands, s) && NoneBetter(Ends(cands), s)
  }

  /** Prepending `x` extends the candidate before position `j` and replaces the one at `j`. */
  function Placed(cands: seq<seq<int>>, j: nat, x: int): seq<seq<int>>
    requires j <= |cands|
  {
    var list := (if j == 0 then [] else cands[j - 1]) + [x];
    if j == |cands| then cands + [list] else cands[j := list]
  }

  lemma SubWeaken<T>(c: seq<T>, s: seq<T>, x: T)
    ensures Sub(c, s) ==> Sub(c, s + [x])
    ensures Sub(c, s) ==> Sub(c + [x], s + [x])
  {
    assert (s + [x])[..|s|] == s;
    assert (c + [x])[..|c|] == c;
  }

  lemma CandidateExtends(c: seq<int>, s: seq<int>, x: int)
    requires Candidate(c, s, |c|)
    ensures Candidate(c, s + [x], |c|)
    ensures (|c| > 0 ==> Last(c) < x) ==> Candidate(c + [x], s + [x], |c| + 1)
  {
    SubWeaken(c, s, x);
  }

  lemma CandidateShrinks(c: seq<int>, s: seq<int>, x: int)
    requires |c| > 0 && Candidate(c, s + [x], |c|)
    ensures Candidate(c, s, |c|) || (Last(c) == x && Candidate(c[..|c| - 1], s, |c| - 1))
  {
    assert (s + [x])[..|s|] == s;
  }

  /** `x` may take position `j` among the ascending `ends`. */
  ghost predicate Fits(ends: seq<int>, j: nat, x: int) {
    j <= |ends| && (j > 0 ==> ends[j - 1] < x) && (j < |ends| ==> x <= ends[j])
  }

  function PlacedEnds(ends: seq<int>, j: nat, x: int): seq<int>
    requires j <= |ends|
  {
    if j == |ends| then ends + [x] else ends[j := x]
  }

  lemma PlacedTiered(cands: seq<seq<int>>, j: nat, x: int)
    requires Tiered(cands) && Fits(Ends(cands), j, x)
    ensures Tiered(Placed(cands, j, x)) && Ends(Placed(cands, j, x)) == PlacedEnds(Ends(cands), j, x)
  {
    hide Increasing;
    assert Increasing(PlacedEnds(Ends(cands), j, x)) by { PlacedIncreasing(Ends(cands), j, x); }
    assert Ends(Placed(cands, j, x)) == PlacedEnds(Ends(cands), j, x);
  }

  lemma PlacedIncreasing(ends: seq<int>, j: nat, x: int)
    requires Increasing(ends) && Fits(ends, j, x)
    ensures Increasing(PlacedEnds(ends, j, x))
  {
  }

  lemma PlacedCandidates(cands: seq<seq<int>>, s: seq<int>, j: nat, x: int)
    requires Tiered(cands) && Fits(Ends(cands), j, x) && AllCandidates(cands, s)
    ensures AllCandidates(Placed(cands, j, x), s + [x])
  {
    var r := Placed(cands, j, x);
    forall k | 0 <= k < |r| ensures Candidate(r[k], s + [x], k + 1) {
      if k != j {
        CandidateExtends(cands[k], s, x);
      } else if j > 0 {
        CandidateExtends(cands[j - 1], s, x);
      } else {
        CandidateExtends([], s, x);
      }
    }
  }

  /** A placement beats whatever was beaten before, and what was beaten without its last element `x`. */
  lemma PlacedBeats(ends: seq<int>, j: nat, x: int, c: seq<int>)
    requires Increasing(ends) && Fits(ends, j, x)
    requires |c| > 0
    requires Beaten(ends, c) || (Last(c) == x && (|c| > 1 ==> c[|c| - 2] < x && Beaten(ends, c[..|c| - 1])))
    ensures Beaten(PlacedEnds(ends, j, x), c)
  {
    if !Beaten(ends, c) && |c| > 1 {
      assert Last(c[..|c| - 1]) == c[|c| - 2];
    }
  }

  lemma PlacedNoneBetter(ends: seq<int>, s: seq<int>, j: nat, x: int)
    requires Increasing(ends) && Fits(ends, j, x) && NoneBetter(ends, s)
    ensures NoneBetter(PlacedEnds(ends, j, x), s + [x])
  {
    forall c: seq<int>, n: nat | n > 0 && Candidate(c, s + [x], n) ensures Beaten(PlacedEnds(ends, j, x), c) {
      CandidateShrinks(c, s, x);
      if !Candidate(c, s, |c|) && |c| > 1 {
        assert c[|c| - 2] < c[|c| - 1];
        assert Beaten(ends, c[..|c| - 1]);
      }
      PlacedBeats(ends, j, x, c);
    }
  }

  lemma PlaceKeepsBest(cands: seq<seq<int>>, s: seq<int>, j: nat, x: int)
    requires Best(cands, s) && Fits(Ends(cands), j, x)
    ensures Best(Placed(cands, j, x), s + [x])
  {
    PlacedTiered(cands, j, x);
    PlacedCandidates(cands, s, j, x);
    PlacedNoneBetter(Ends(cands), s, j, x);
  }

  lemma BestOfOne(x: int)
    ensures Best([[x]], [x])
  {
    var none: seq<int>, noCands: seq<seq<int>> := [], [];
    assert none + [x] == [x] && noCands + [[x]] == [[x]];
    assert Placed(noCands, 0, x) == [[x]];
    PlaceKeepsBest(noCands, none, 0, x);
  }

  lemma ShortIsLongest(s: seq<int>)
    requires |s| < 2
    ensures Increasing(s) && Sub(s, s)
    ensures forall c: seq<int> :: Sub(c, s) ==> |c| <= |s|
  {
    assert |s| == 1 ==> s[..0] == [];
  }

  lemma BestIsLongest(cands: seq<seq<int>>, s: seq<int>)
    requires |cands| > 0 && Best(cands, s)
    ensures |cands[|cands| - 1]| == |cands|
    ensures Increasing(cands[|cands| - 1]) && Sub(cands[|cands| - 1], s)
    ensures forall c: seq<int> :: Increasing(c) && Sub(c, s) ==> |c| <= |cands|
  {
    forall c: seq<int> | Increasing(c) && Sub(c, s) ensures |c| <= |cands| {
      if |c| > 0 {
        assert Candidate(c, s, |c|);
      }
    }
  }

  /** Patience-style search: the result is an increasing subsequence of maximum length. */
  method LongestIncreasingSubsequence(input: seq<int>) returns (r: seq<int>)
    ensures Increasing(r) && Sub(r, input)
    ensures forall c: seq<int> :: Increasing(c) && Sub(c, input) ==> |c| <= |r|
  {
    hide NoneBetter, AllCandidates, Candidate, Increasing, Sub;
    if |input| < 2 {
      ShortIsLongest(input);
      return input;
    }
    var cands := [[input[0]]];
    BestOfOne(input[0]);
    assert input[..1] == [input[0]];
    for i := 1 to |input|
      invariant |cands| > 0 && Best(cands, input[..i])
    {
      var comp := input[i];
      ghost var before, at := cands, 0;
      if comp < cands[0][0] {
        cands := cands[0 := [comp]];
      } else if comp > Last(cands[|cands| - 1]) {
        at := |cands|;
        cands := cands + [cands[|cands| - 1] + [comp]];
      } else {
        var j := |cands| - 2;
        while j >= 0 && comp <= Last(cands[j])
          invariant -1 <= j <= |cands| - 2
          invariant comp <= Last(cands[j + 1])
        {
          j := j - 1;
        }
        at := j + 1;
        if j >= 0 {
          cands := cands[j + 1 := cands[j] + [comp]];
        } else {
          assert cands[0] == [comp];
        }
      }
      assert [] + [comp] == [comp];
      assert cands == Placed(before, at, comp);
      PlaceKeepsBest(before, input[..i], at, comp);
      assert input[..i + 1] == input[..i] + [comp];
    }
    assert input[..|input|] == input;
    r := cands[|cands| - 1];
    BestIsLongest(cands, input);
  }
}
