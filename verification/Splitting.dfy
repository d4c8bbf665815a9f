// Splitting one ALTER TABLE into several (internal/tengo/diff.go,
// SplitAddForeignKeys and SplitConflicts), and why the pieces run one after the
// other have the effect of the whole.

module Splitting {
  import opened Wrappers
  import opened Tables

  /** tengo.TableDiff. */
  datatype TableChange =
    | CreateTable(to: Table)
    | DropTable(from: Table)
    | AlterTable(from: Table, to: Table, clauses: seq<TableClause>, supported: bool)

  predicate IsAddFk(c: TableClause) {
    c.OnForeignKeys? && c.fk.AddForeignKey?
  }

  predicate AddsFullText(c: TableClause) {
    c.OnIndexes? && c.index.AddIndex? && c.index.index.def.kind == "FULLTEXT"
  }

  predicate SeenFullText(clauses: seq<TableClause>) {
    exists i :: 0 <= i < |clauses| && AddsFullText(clauses[i])
  }

  /** The clauses that go to the ALTER that only adds foreign keys. */
  function FkMarks(clauses: seq<TableClause>): (m: seq<bool>)
    ensures |m| == |clauses| && forall i :: 0 <= i < |m| ==> m[i] == IsAddFk(clauses[i])
  {
    seq(|clauses|, i requires 0 <= i < |clauses| => IsAddFk(clauses[i]))
  }

  /** The clauses that need an ALTER of their own: every FULLTEXT index but the first. */
  function ConflictMarks(clauses: seq<TableClause>): (m: seq<bool>)
    ensures |m| == |clauses| && forall i :: 0 <= i < |m| ==>
            m[i] == (AddsFullText(clauses[i]) && SeenFullText(clauses[..i]))
  {
    seq(|clauses|, i requires 0 <= i < |clauses| => AddsFullText(clauses[i]) && SeenFullText(clauses[..i]))
  }

  function Others(clauses: seq<TableClause>): seq<TableClause> { Select(clauses, FkMarks(clauses), false) }
  function AddFks(clauses: seq<TableClause>): seq<TableClause> { Select(clauses, FkMarks(clauses), true) }
  function Compatible(clauses: seq<TableClause>): seq<TableClause> { Select(clauses, ConflictMarks(clauses), false) }
  function Conflicting(clauses: seq<TableClause>): seq<TableClause> { Select(clauses, ConflictMarks(clauses), true) }

  predicate Splittable(td: TableChange) {
    td.AlterTable? && td.supported && |td.clauses| > 0
  }

  method SplitAddForeignKeys(td: TableChange) returns (other: Option<TableChange>, addFks: Option<TableChange>)
    ensures !Splittable(td) ==> other == Some(td) && addFks == None
    ensures Splittable(td) ==> other == Piece(td, Others(td.clauses)) && addFks == Piece(td, AddFks(td.clauses))
  {
    if !td.AlterTable? || !td.supported || |td.clauses| == 0 {
      return Some(td), None;
    }
    ghost var marks := FkMarks(td.clauses);
    var addFKClauses, otherClauses := [], [];
    for n := 0 to |td.clauses|
      invariant otherClauses == Select(td.clauses[..n], marks[..n], false)
      invariant addFKClauses == Select(td.clauses[..n], marks[..n], true)
    {
      assert td.clauses[..n + 1][..n] == td.clauses[..n] && marks[..n + 1][..n] == marks[..n];
      if IsAddFk(td.clauses[n]) {
        addFKClauses := addFKClauses + [td.clauses[n]];
      } else {
        otherClauses := otherClauses + [td.clauses[n]];
      }
    }
    assert td.clauses[..|td.clauses|] == td.clauses && marks[..|td.clauses|] == marks;
    SelectPartition(td.clauses, marks);
    if |addFKClauses| == 0 {
      NoneSelected(td.clauses, marks, true);
      return Some(td), None;
    } else if |otherClauses| == 0 {
      NoneSelected(td.clauses, marks, false);
      return None, Some(td);
    }
    return Some(td.(clauses := otherClauses)), Some(td.(clauses := addFKClauses));
  }

  /** An ALTER with some of the clauses; none if there are no clauses. */
  function Piece(td: TableChange, clauses: seq<TableClause>): Option<TableChange>
    requires td.AlterTable?
  {
    if |clauses| == 0 then None else Some(td.(clauses := clauses))
  }

  lemma {:induction false} NoneSelected<T>(s: seq<T>, marks: seq<bool>, wanted: bool)
    requires |marks| == |s| && Select(s, marks, wanted) == []
    ensures Select(s, marks, !wanted) == s
  {
    if |s| > 0 {
      NoneSelected(s[..|s| - 1], marks[..|s| - 1], wanted);
      assert s == s[..|s| - 1] + [s[|s| - 1]];
    }
  }

  method SplitConflicts(td: Option<TableChange>) returns (result: seq<TableChange>)
    ensures td.None? ==> result == []
    ensures td.Some? && !Splittable(td.value) ==> result == [td.value]
    ensures td.Some? && Splittable(td.value) ==> result == Pieces(td.value, ConflictPieces(td.value.clauses))
  {
    if td.None? {
      return [];
    }
    var t := td.value;
    if !t.AlterTable? || !t.supported || |t.clauses| == 0 {
      return [t];
    }
    ghost var marks := ConflictMarks(t.clauses);
    var seenAddFulltext := false;
    var keepClauses, separateClauses := [], [];
    for n := 0 to |t.clauses|
      invariant keepClauses == Select(t.clauses[..n], marks[..n], false)
      invariant separateClauses == Select(t.clauses[..n], marks[..n], true)
      invariant seenAddFulltext == SeenFullText(t.clauses[..n])
    {
      assert t.clauses[..n + 1][..n] == t.clauses[..n] && marks[..n + 1][..n] == marks[..n];
      SeenMore(t.clauses, n);
      if AddsFullText(t.clauses[n]) && seenAddFulltext {
        separateClauses := separateClauses + [t.clauses[n]];
      } else {
        seenAddFulltext := seenAddFulltext || AddsFullText(t.clauses[n]);
        keepClauses := keepClauses + [t.clauses[n]];
      }
    }
    assert t.clauses[..|t.clauses|] == t.clauses && marks[..|t.clauses|] == marks;
    result := [t.(clauses := keepClauses)];
    for n := 0 to |separateClauses|
      invariant result == Pieces(t, [keepClauses] + Singles(separateClauses[..n]))
    {
      assert Singles(separateClauses[..n + 1]) == Singles(separateClauses[..n]) + [[separateClauses[n]]];
      assert [keepClauses] + Singles(separateClauses[..n + 1])
          == [keepClauses] + Singles(separateClauses[..n]) + [[separateClauses[n]]];
      result := result + [t.(clauses := [separateClauses[n]])];
    }
    assert separateClauses[..|separateClauses|] == separateClauses;
  }

  lemma SeenMore(clauses: seq<TableClause>, n: nat)
    requires n < |clauses|
    ensures SeenFullText(clauses[..n + 1]) == (SeenFullText(clauses[..n]) || AddsFullText(clauses[n]))
  {
    if SeenFullText(clauses[..n]) {
      var i :| 0 <= i < n && AddsFullText(clauses[..n][i]);
      assert AddsFullText(clauses[..n + 1][i]);
    } else if AddsFullText(clauses[n]) {
      assert AddsFullText(clauses[..n + 1][n]);
    } else {
      assert clauses[..n + 1] == clauses[..n] + [clauses[n]];
    }
  }

  function Singles(clauses: seq<TableClause>): seq<seq<TableClause>> {
    seq(|clauses|, i requires 0 <= i < |clauses| => [clauses[i]])
  }

  /** The clause lists SplitConflicts makes out of one. */
  function ConflictPieces(clauses: seq<TableClause>): seq<seq<TableClause>> {
    [Compatible(clauses)] + Singles(Conflicting(clauses))
  }

  function Pieces(td: TableChange, pieces: seq<seq<TableClause>>): seq<TableChange>
    requires td.AlterTable?
  {
    seq(|pieces|, i requires 0 <= i < |pieces| => td.(clauses := pieces[i]))
  }

  /** The clause lists of one altered table, in the order in which they run. */
  function AllPieces(clauses: seq<TableClause>): seq<seq<TableClause>> {
    (if |Others(clauses)| > 0 then ConflictPieces(Others(clauses)) else [])
    + (if |AddFks(clauses)| > 0 then [AddFks(clauses)] else [])
  }

  function Flatten<T>(pieces: seq<seq<T>>): seq<T> {
    if |pieces| == 0 then [] else pieces[0] + Flatten(pieces[1..])
  }

  lemma {:induction false} FlattenConcat<T>(a: seq<seq<T>>, b: seq<seq<T>>)
    ensures Flatten(a + b) == Flatten(a) + Flatten(b)
  {
    if |a| == 0 {
      assert a + b == b;
    } else {
      assert (a + b)[1..] == a[1..] + b;
      FlattenConcat(a[1..], b);
    }
  }

  lemma {:induction false} FlattenSingles(clauses: seq<TableClause>)
    ensures Flatten(Singles(clauses)) == clauses
  {
    if |clauses| > 0 {
      assert Singles(clauses)[1..] == Singles(clauses[1..]);
      FlattenSingles(clauses[1..]);
    }
  }

  lemma PiecesFlat(clauses: seq<TableClause>)
    ensures Flatten(AllPieces(clauses)) == Compatible(Others(clauses)) + Conflicting(Others(clauses)) + AddFks(clauses)
  {
    hide Select;
    var others, adds := Others(clauses), AddFks(clauses);
    var head := if |others| > 0 then ConflictPieces(others) else [];
    var tail := if |adds| > 0 then [adds] else [];
    FlattenConcat(head, tail);
    assert Flatten(tail) == adds by { assert |adds| > 0 ==> tail[1..] == [] && Flatten(tail) == adds + Flatten([]); }
    if |others| > 0 {
      FlattenConcat([Compatible(others)], Singles(Conflicting(others)));
      assert [Compatible(others)][1..] == [] && Flatten([Compatible(others)]) == Compatible(others) + Flatten([]);
      FlattenSingles(Conflicting(others));
    } else {
      SelectElements(others, ConflictMarks(others), false);
      SelectElements(others, ConflictMarks(others), true);
    }
  }

  // ----- the shape of the pieces -----

  /** Each clause ends up in exactly one piece. */
  lemma PiecesPartition(clauses: seq<TableClause>)
    ensures multiset(Flatten(AllPieces(clauses))) == multiset(clauses)
  {
    hide Select, AllPieces, Flatten;
    PiecesFlat(clauses);
    SelectPartition(clauses, FkMarks(clauses));
    SelectPartition(Others(clauses), ConflictMarks(Others(clauses)));
  }

  /** What a clause asks of the server that may need a statement of its own. */
  datatype Demand = BuildsFullText | RefersToTable | NoDemand

  function DemandOf(c: TableClause): Demand {
    match c
    case OnIndexes(AddIndex(idx, _)) => if idx.def.kind == "FULLTEXT" then BuildsFullText else NoDemand
    case OnForeignKeys(AddForeignKey(_, _)) => RefersToTable
    case _ => NoDemand
  }

  predicate AtMostOneFullText(clauses: seq<TableClause>) {
    forall i, j :: 0 <= i < j < |clauses| && DemandOf(clauses[i]).BuildsFullText? ==>
      !DemandOf(clauses[j]).BuildsFullText?
  }

  predicate OnlyFks(clauses: seq<TableClause>) {
    forall i :: 0 <= i < |clauses| ==> DemandOf(clauses[i]).RefersToTable?
  }

  predicate NoFks(clauses: seq<TableClause>) {
    forall i :: 0 <= i < |clauses| ==> !DemandOf(clauses[i]).RefersToTable?
  }

  lemma DemandIff(c: TableClause)
    ensures DemandOf(c).BuildsFullText? <==> AddsFullText(c)
    ensures DemandOf(c).RefersToTable? <==> IsAddFk(c)
  {
  }

  lemma {:induction false} KeepsOneFullText(clauses: seq<TableClause>, marks: seq<bool>)
    requires |marks| == |clauses| && forall i :: 0 <= i < |marks| ==>
             marks[i] == (AddsFullText(clauses[i]) && SeenFullText(clauses[..i]))
    ensures AtMostOneFullText(Select(clauses, marks, false))
  {
    if |clauses| > 0 {
      var init, before := clauses[..|clauses| - 1], marks[..|clauses| - 1];
      forall i | 0 <= i < |init| ensures before[i] == (AddsFullText(init[i]) && SeenFullText(init[..i])) {
        assert init[..i] == clauses[..i];
      }
      KeepsOneFullText(init, before);
      var kept := Select(init, before, false);
      if !marks[|clauses| - 1] && AddsFullText(clauses[|clauses| - 1]) {
        SelectElements(init, before, false);
        forall i | 0 <= i < |kept| ensures !AddsFullText(kept[i]) {
          assert kept[i] in kept;
          var j :| 0 <= j < |init| && init[j] == kept[i];
          assert !AddsFullText(init[j]);
        }
      }
    }
  }

  /** No piece adds two FULLTEXT indexes or mixes added foreign keys with anything else. */
  lemma PiecesAreLegal(clauses: seq<TableClause>, i: nat)
    requires i < |AllPieces(clauses)|
    ensures AtMostOneFullText(AllPieces(clauses)[i])
    ensures OnlyFks(AllPieces(clauses)[i]) || NoFks(AllPieces(clauses)[i])
    ensures OnlyFks(AllPieces(clauses)[i]) && |AllPieces(clauses)[i]| > 0 ==> i == |AllPieces(clauses)| - 1
  {
    hide Select;
    var others, adds := Others(clauses), AddFks(clauses);
    var p := AllPieces(clauses)[i];
    SelectElements(clauses, FkMarks(clauses), false);
    SelectElements(clauses, FkMarks(clauses), true);
    if |others| > 0 && i < |ConflictPieces(others)| {
      SelectElements(others, ConflictMarks(others), i > 0);
      KeepsOneFullText(others, ConflictMarks(others));
      forall k | 0 <= k < |p| ensures !IsAddFk(p[k]) {
        assert p[k] in Select(others, ConflictMarks(others), i > 0);
        assert p[k] in others;
      }
      assert |p| > 0 ==> !IsAddFk(p[0]);
    } else {
      assert p == adds;
      forall k | 0 <= k < |p| ensures IsAddFk(p[k]) {
        assert p[k] in adds;
      }
    }
  }

  lemma SelectsNone(clauses: seq<TableClause>, marks: seq<bool>, wanted: bool)
    requires |marks| == |clauses| && forall i :: 0 <= i < |marks| ==> marks[i] != wanted
    ensures Select(clauses, marks, wanted) == [] && Select(clauses, marks, !wanted) == clauses
  {
    hide Select;
    SelectElements(clauses, marks, wanted);
    FirstIn(Select(clauses, marks, wanted));
    NoneSelected(clauses, marks, wanted);
  }

  lemma FirstIn<T>(s: seq<T>)
    ensures |s| > 0 ==> s[0] in s
  {
  }

  /** An ALTER is left in one piece exactly if it builds one FULLTEXT index at most and either adds foreign keys only or
      none. */
  lemma SplitIffNeeded(clauses: seq<TableClause>)
    requires |clauses| > 0
    ensures AllPieces(clauses) == [clauses] <==> AtMostOneFullText(clauses) && (OnlyFks(clauses) || NoFks(clauses))
  {
    hide Select, DemandOf, IsAddFk, AddsFullText;
    forall c: TableClause ensures (DemandOf(c).BuildsFullText? <==> AddsFullText(c))
      && (DemandOf(c).RefersToTable? <==> IsAddFk(c)) {
      DemandIff(c);
    }
    if AllPieces(clauses) == [clauses] {
      PiecesAreLegal(clauses, 0);
    }
    if OnlyFks(clauses) {
      SelectsNone(clauses, FkMarks(clauses), false);
    } else if NoFks(clauses) && AtMostOneFullText(clauses) {
      SelectsNone(clauses, FkMarks(clauses), true);
      forall i | 0 <= i < |clauses| ensures !ConflictMarks(clauses)[i] {
        assert forall j :: 0 <= j < i ==> clauses[..i][j] == clauses[j];
      }
      SelectsNone(clauses, ConflictMarks(clauses), true);
      assert Singles([]) == [];
    }
  }
}
