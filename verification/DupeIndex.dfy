// The dupe-index linter rule (internal/linter/check_dupe_index.go).

module DupeIndex {
  import opened Wrappers
  import opened Indexes
  import opened IndexMeaning

  /** The facts a note is made of; its wording is not modelled. */
  datatype Note = Note(dupe: string, better: string, equivalent: bool)

  /** `j` is the first index other than `i` itself that makes `i` redundant. */
  ghost predicate FirstBetter(s: seq<Index>, i: nat, j: nat)
    requires i < |s|
  {
    && j < |s| && j != i && RedundantTo(s[i], s[j])
    && forall k :: 0 <= k < j && k != i ==> !RedundantTo(s[i], s[k])
  }

  ghost predicate RedundantToPrimary(primary: Option<Index>, idx: Index) {
    primary.Some? && RedundantTo(idx, primary.value)
  }

  /** The rule emits a note for index `i`. */
  ghost predicate Flagged(primary: Option<Index>, s: seq<Index>, i: nat)
    requires i < |s|
  {
    || RedundantToPrimary(primary, s[i])
    || exists j: nat :: FirstBetter(s, i, j) && (!Equivalent(s[i], s[j]) || i > j)
  }

  ghost predicate NoteFor(primary: Option<Index>, s: seq<Index>, i: nat, note: Note)
    requires i < |s|
  {
    if RedundantToPrimary(primary, s[i]) then note == Note(s[i].name, "PRIMARY", false)
    else exists j: nat :: FirstBetter(s, i, j) && (!Equivalent(s[i], s[j]) || i > j)
                     && note == Note(s[i].name, s[j].name, Equivalent(s[i], s[j]))
  }

  /** Exactly one note per flagged index, in the order of the indexes. */
  ghost predicate NotesFor(primary: Option<Index>, s: seq<Index>, n: nat, flagged: seq<nat>, notes: seq<Note>)
    requires n <= |s|
  {
    && |flagged| == |notes|
    && (forall k :: 0 <= k < |flagged| ==> flagged[k] < n)
    && (forall k, l :: 0 <= k < l < |flagged| ==> flagged[k] < flagged[l])
    && (forall i :: 0 <= i < n ==> (i in flagged <==> Flagged(primary, s, i)))
    && (forall k :: 0 <= k < |flagged| ==> NoteFor(primary, s, flagged[k], notes[k]))
  }

  lemma NoteAdded(primary: Option<Index>, s: seq<Index>, n: nat, flagged: seq<nat>, notes: seq<Note>, note: Note)
    requires n < |s| && NotesFor(primary, s, n, flagged, notes)
    requires Flagged(primary, s, n) && NoteFor(primary, s, n, note)
    ensures NotesFor(primary, s, n + 1, flagged + [n], notes + [note])
  {
    hide Flagged, NoteFor;
    forall i | 0 <= i < n + 1 ensures i in flagged + [n] <==> Flagged(primary, s, i) {
      assert i < n ==> (i in flagged + [n] <==> i in flagged);
    }
  }

  lemma NoNoteAdded(primary: Option<Index>, s: seq<Index>, n: nat, flagged: seq<nat>, notes: seq<Note>)
    requires n < |s| && NotesFor(primary, s, n, flagged, notes) && !Flagged(primary, s, n)
    ensures NotesFor(primary, s, n + 1, flagged, notes)
  {
    hide Flagged, NoteFor;
  }

  method DupeIndexChecker(primary: Option<Index>, s: seq<Index>) returns (results: seq<Note>, ghost flagged: seq<nat>)
    ensures NotesFor(primary, s, |s|, flagged, results)
  {
    hide RedundantTo, Equivalent, NotesFor;
    results, flagged := [], [];
    assert NotesFor(primary, s, 0, [], []) by { NoNotesYet(primary, s); }
    for i := 0 to |s|
      invariant NotesFor(primary, s, i, flagged, results)
    {
      var idx := s[i];
      if primary.Some? && RedundantTo(idx, primary.value) {
        var note := Note(idx.name, "PRIMARY", false);
        NoteAdded(primary, s, i, flagged, results, note);
        results, flagged := results + [note], flagged + [i];
        continue;
      }
      ghost var before, beforeFlagged := results, flagged;
      var j := 0;
      while j < |s|
        invariant 0 <= j <= |s| && results == before && flagged == beforeFlagged
        invariant forall k :: 0 <= k < j && k != i ==> !RedundantTo(s[i], s[k])
      {
        var other := s[j];
        if i != j && RedundantTo(idx, other) {
          break;
        }
        j := j + 1;
      }
      if j < |s| {
        assert FirstBetter(s, i, j);
        assert forall j': nat :: FirstBetter(s, i, j') ==> j' == j;
        var equivalent := Equivalent(idx, s[j]);
        if !equivalent || i > j {
          var note := Note(idx.name, s[j].name, equivalent);
          NoteAdded(primary, s, i, flagged, results, note);
          results, flagged := results + [note], flagged + [i];
        } else {
          NoNoteAdded(primary, s, i, flagged, results);
        }
      } else {
        NoNoteAdded(primary, s, i, flagged, results);
      }
    }
  }

  lemma NoNotesYet(primary: Option<Index>, s: seq<Index>)
    ensures NotesFor(primary, s, 0, [], [])
  {
  }

  // ----- dropping every flagged index at once -----

  /** The indexes that make `i` redundant. */
  ghost function Above(s: seq<Index>, i: nat): set<nat>
    requires i < |s|
  {
    set k: nat | k < |s| && RedundantTo(s[i], s[k])
  }

  /** `c` is redundant only to indexes that are redundant to `c` as well. */
  ghost predicate Top(s: seq<Index>, c: nat)
    requires c < |s|
  {
    forall k :: 0 <= k < |s| && RedundantTo(s[c], s[k]) ==> RedundantTo(s[k], s[c])
  }

  lemma {:induction false} ClimbToTop(s: seq<Index>, i: nat) returns (c: nat)
    requires i < |s|
    ensures c < |s| && Top(s, c) && (c == i || RedundantTo(s[i], s[c]))
    decreases |Above(s, i)|
  {
    hide RedundantTo;
    if Top(s, i) {
      return i;
    }
    var k :| 0 <= k < |s| && RedundantTo(s[i], s[k]) && !RedundantTo(s[k], s[i]);
    forall m | m in Above(s, k) ensures m in Above(s, i) {
      RedundantTransitive(s[i], s[k], s[m]);
    }
    NotPrimary(s[i], s[k]);
    assert i in Above(s, i) && i !in Above(s, k);
    ProperSubset(Above(s, k), Above(s, i));
    c := ClimbToTop(s, k);
    if c != k {
      RedundantTransitive(s[i], s[k], s[c]);
    }
  }

  lemma NotPrimary(a: Index, b: Index)
    requires RedundantTo(a, b)
    ensures RedundantTo(a, a)
  {
  }

  lemma {:induction false} ProperSubset(a: set<nat>, b: set<nat>)
    requires a < b
    ensures |a| < |b|
  {
    var x :| x in b && x !in a;
    assert a <= b - {x};
    SubsetSize(a, b - {x});
  }

  /** Among the indexes equivalent to a top one, the first is never flagged because of another secondary index. */
  lemma {:induction false} FirstOfClass(s: seq<Index>, c: nat) returns (m: nat)
    requires c < |s| && Top(s, c)
    ensures m < |s| && (m == c || RedundantTo(s[c], s[m]))
    ensures forall j: nat :: FirstBetter(s, m, j) ==> Equivalent(s[m], s[j]) && m < j
    decreases c
  {
    hide RedundantTo, Equivalent;
    if exists k :: 0 <= k < c && RedundantTo(s[c], s[k]) {
      var k :| 0 <= k < c && RedundantTo(s[c], s[k]);
      forall j | 0 <= j < |s| && RedundantTo(s[k], s[j]) ensures RedundantTo(s[j], s[k]) {
        RedundantTransitive(s[c], s[k], s[j]);
        RedundantTransitive(s[j], s[c], s[k]);
      }
      m := FirstOfClass(s, k);
      if m != k {
        RedundantTransitive(s[c], s[k], s[m]);
      }
    } else {
      m := c;
      forall j: nat | FirstBetter(s, m, j) ensures Equivalent(s[m], s[j]) && m < j {
        RedundantAntisymmetric(s[m], s[j]);
      }
    }
  }

  /** Every flagged index is covered by the primary key or by an index without a
      note: dropping all flagged indexes at once loses no coverage. */
  lemma FlaggedIsCovered(primary: Option<Index>, s: seq<Index>, i: nat) returns (m: nat)
    requires i < |s| && Flagged(primary, s, i)
    ensures RedundantToPrimary(primary, s[i]) || (m < |s| && !Flagged(primary, s, m) && RedundantTo(s[i], s[m]))
  {
    hide RedundantTo, Equivalent;
    if RedundantToPrimary(primary, s[i]) {
      return 0;
    }
    var c := ClimbToTop(s, i);
    m := FirstOfClass(s, c);
    if m != i {
      if c != i && m != c {
        RedundantTransitive(s[i], s[c], s[m]);
      }
      if RedundantToPrimary(primary, s[m]) {
        RedundantTransitive(s[i], s[m], primary.value);
      }
    }
  }

  /** What dropping every flagged index at once leaves behind: an index, or the primary key, that serves in the place
      of the flagged one, is visible if that is, and forbids what it forbids. */
  ghost predicate Replaces(other: Index, idx: Index) {
    && Serves(other, idx) && (other.def.invisible ==> idx.def.invisible)
    && idx.def.kind == other.def.kind && idx.def.fullTextParser == other.def.fullTextParser
    && (idx.def.unique ==> other.def.unique)
    && (idx.def.unique ==>
        forall r: Row, s: Row :: Entry(idx, r) == Entry(idx, s) ==> Entry(other, r) == Entry(other, s))
  }

  lemma FlaggedIsReplaced(primary: Option<Index>, s: seq<Index>, i: nat) returns (other: Index)
    requires i < |s| && Flagged(primary, s, i)
    ensures Replaces(other, s[i])
    ensures primary == Some(other) || exists m :: 0 <= m < |s| && s[m] == other && !Flagged(primary, s, m)
  {
    hide RedundantTo, Serves, Flagged;
    var m := FlaggedIsCovered(primary, s, i);
    other := if RedundantToPrimary(primary, s[i]) then primary.value else s[m];
    RedundantIsServed(s[i], other);
  }
}
