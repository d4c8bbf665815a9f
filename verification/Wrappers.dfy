module Wrappers {
  datatype Option<+T> = None | Some(value: T)

  lemma {:induction false} SubsetSize<T>(a: set<T>, b: set<T>)
    requires a <= b
    ensures |a| <= |b|
    decreases |a|
  {
    if a != {} {
      var x :| x in a;
      SubsetSize(a - {x}, b - {x});
    }
  }

  /** The elements whose mark is `wanted`, in order. */
  function Select<T>(s: seq<T>, marks: seq<bool>, wanted: bool): seq<T>
    requires |marks| == |s|
  {
    if |s| == 0 then []
    else Select(s[..|s| - 1], marks[..|s| - 1], wanted) + (if marks[|s| - 1] == wanted then [s[|s| - 1]] else [])
  }

  lemma {:induction false} SelectElements<T>(s: seq<T>, marks: seq<bool>, wanted: bool)
    requires |marks| == |s|
    ensures |Select(s, marks, wanted)| <= |s|
    ensures forall x :: x in Select(s, marks, wanted) ==> exists i :: 0 <= i < |s| && s[i] == x && marks[i] == wanted
  {
    if |s| > 0 {
      var init, before := s[..|s| - 1], marks[..|s| - 1];
      SelectElements(init, before, wanted);
      forall x | x in Select(s, marks, wanted) ensures exists i :: 0 <= i < |s| && s[i] == x && marks[i] == wanted {
        if x in Select(init, before, wanted) {
          var i :| 0 <= i < |init| && init[i] == x && before[i] == wanted;
          assert s[i] == x && marks[i] == wanted;
        } else {
          assert s[|s| - 1] == x && marks[|s| - 1] == wanted;
        }
      }
    }
  }

  lemma SelectLast<T>(s: seq<T>, marks: seq<bool>, wanted: bool)
    requires |marks| == |s| > 0
    ensures var init := Select(s[..|s| - 1], marks[..|s| - 1], wanted);
            Select(s, marks, wanted) == if marks[|s| - 1] == wanted then init + [s[|s| - 1]] else init
  {
  }

  /** The two selections together are a rearrangement of the whole. */
  lemma {:induction false} SelectPartition<T>(s: seq<T>, marks: seq<bool>)
    requires |marks| == |s|
    ensures multiset(s) == multiset(Select(s, marks, false)) + multiset(Select(s, marks, true))
  {
    if |s| > 0 {
      hide Select;
      SelectPartition(s[..|s| - 1], marks[..|s| - 1]);
      assert s == s[..|s| - 1] + [s[|s| - 1]];
      SelectLast(s, marks, false);
      SelectLast(s, marks, true);
    }
  }

  lemma {:induction false} SelectAll<T>(s: seq<T>, marks: seq<bool>, wanted: bool)
    requires |marks| == |s| && forall i :: 0 <= i < |s| ==> marks[i] == wanted
    ensures Select(s, marks, wanted) == s && Select(s, marks, !wanted) == []
  {
    if |s| > 0 {
      SelectAll(s[..|s| - 1], marks[..|s| - 1], wanted);
      assert s == s[..|s| - 1] + [s[|s| - 1]];
    }
  }
}
