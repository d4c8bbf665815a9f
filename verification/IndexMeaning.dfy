// What it means that one index is redundant to another (internal/tengo/index.go,
// RedundantTo): reading the rows by the other index, one finds all that the first
// index offers.

module IndexMeaning {
  import opened NamedLists
  import opened Indexes

  /** The values of one row: those of its columns, and of the expressions over them. */
  type Row = (string, string) -> string

  function ValueOf(row: Row, part: IndexPart): string {
    row(part.columnName, part.expression)
  }

  /** What an index stores of a value: its first bytes, or all of it. */
  function Cut(value: string, prefixLength: nat): string {
    if prefixLength == 0 || |value| <= prefixLength then value else value[..prefixLength]
  }

  function Stored(row: Row, part: IndexPart): string {
    Cut(ValueOf(row, part), part.prefixLength)
  }

  /** The entry of a row in an index. */
  function Entry(idx: Index, row: Row): (r: seq<string>)
    ensures |r| == |idx.def.parts| && forall i :: 0 <= i < |r| ==> r[i] == Stored(row, idx.def.parts[i])
  {
    seq(|idx.def.parts|, i requires 0 <= i < |idx.def.parts| => Stored(row, idx.def.parts[i]))
  }

  // ----- the order of entries -----

  /** The order of values. */
  predicate Less(a: string, b: string) {
    |b| > 0 && (|a| == 0 || a[0] < b[0] || (a[0] == b[0] && Less(a[1..], b[1..])))
  }

  predicate Level(part: IndexPart, r: Row, s: Row) {
    Stored(r, part) == Stored(s, part)
  }

  /** In the order of the index, row `r` comes in front of row `s` by this part, or is level with it. */
  predicate UpTo(part: IndexPart, r: Row, s: Row) {
    Level(part, r, s) || if part.descending then Less(Stored(s, part), Stored(r, part))
                         else Less(Stored(r, part), Stored(s, part))
  }

  /** The first `n` parts do not tell the rows apart. */
  predicate Agree(parts: seq<IndexPart>, n: nat, r: Row, s: Row) {
    forall i :: 0 <= i < n && i < |parts| ==> Level(parts[i], r, s)
  }

  /** Rows that `other` does not tell apart by its first parts, `idx` does not by as many; and the order in which
      `other` has them by its next part is one by the next part of `idx`. So whatever is looked up, or read in
      order, by leading columns of `idx`, can be by those of `other`. */
  ghost predicate Serves(other: Index, idx: Index) {
    forall n: nat, r: Row, s: Row :: n < |idx.def.parts| && Agree(other.def.parts, n, r, s) ==>
      ServesAt(other.def.parts, idx.def.parts, n, r, s)
  }

  predicate ServesAt(others: seq<IndexPart>, parts: seq<IndexPart>, n: nat, r: Row, s: Row)
    requires n < |parts|
  {
    && Agree(parts, n, r, s)
    && (if n < |others| then UpTo(others[n], r, s) ==> UpTo(parts[n], r, s) else Level(parts[n], r, s))
  }

  /** No column and no expression occurs twice in an index. */
  ghost predicate Proper(idx: Index) {
    forall i, j :: 0 <= i < j < |idx.def.parts| ==>
      idx.def.parts[i].columnName != idx.def.parts[j].columnName
      || idx.def.parts[i].expression != idx.def.parts[j].expression
  }

  // ----- cutting keeps the order -----

  lemma {:induction false} LessIrreflexive(a: string)
    ensures !Less(a, a)
  {
    if |a| > 0 {
      LessIrreflexive(a[1..]);
    }
  }

  lemma {:induction false} LessTotal(a: string, b: string)
    ensures a == b || Less(a, b) || Less(b, a)
  {
    if |a| > 0 && |b| > 0 && a[0] == b[0] {
      LessTotal(a[1..], b[1..]);
      if a[1..] == b[1..] {
        assert a == [a[0]] + a[1..] && b == [b[0]] + b[1..];
      }
    }
  }

  lemma {:induction false} CutKeepsOrder(a: string, b: string, p: nat)
    requires Less(a, b)
    ensures Cut(a, p) == Cut(b, p) || Less(Cut(a, p), Cut(b, p))
    decreases p
  {
    if p > 0 {
      var x, y := Cut(a, p), Cut(b, p);
      if |a| > 0 && a[0] == b[0] {
        assert x[0] == a[0] && y[0] == b[0];
        if p > 1 {
          CutKeepsOrder(a[1..], b[1..], p - 1);
          assert x[1..] == Cut(a[1..], p - 1) && y[1..] == Cut(b[1..], p - 1);
          assert x == [x[0]] + x[1..] && y == [y[0]] + y[1..];
        }
      }
    }
  }

  /** What a longer prefix stores determines what a shorter one stores. */
  lemma CutOfCut(v: string, p: nat, q: nat)
    requires q == 0 || (0 < p <= q)
    ensures Cut(Cut(v, q), p) == Cut(v, p)
  {
  }

  lemma StoredBy(part: IndexPart, other: IndexPart, row: Row)
    requires PartCovers(part, other)
    ensures Stored(row, part) == Cut(Stored(row, other), part.prefixLength)
  {
    CutOfCut(ValueOf(row, part), part.prefixLength, other.prefixLength);
  }

  lemma PartServes(part: IndexPart, other: IndexPart, r: Row, s: Row)
    requires PartCovers(part, other)
    ensures Level(other, r, s) ==> Level(part, r, s)
    ensures UpTo(other, r, s) ==> UpTo(part, r, s)
  {
    hide Cut, Less;
    StoredBy(part, other, r);
    StoredBy(part, other, s);
    if UpTo(other, r, s) && !Level(other, r, s) {
      if part.descending {
        CutKeepsOrder(Stored(s, other), Stored(r, other), part.prefixLength);
      } else {
        CutKeepsOrder(Stored(r, other), Stored(s, other), part.prefixLength);
      }
    }
  }

  /** Each part of the index has a counterpart that covers it. */
  predicate AllCovered(idx: Index, other: Index) {
    |idx.def.parts| <= |other.def.parts|
    && forall i :: 0 <= i < |idx.def.parts| ==> PartCovers(idx.def.parts[i], other.def.parts[i])
  }

  lemma CoveredServes(idx: Index, other: Index)
    requires AllCovered(idx, other)
    ensures Serves(other, idx)
  {
    hide PartCovers, Level, UpTo;
    var a, b := idx.def.parts, other.def.parts;
    forall n: nat, r: Row, s: Row | n < |a| && Agree(b, n, r, s) ensures ServesAt(b, a, n, r, s) {
      forall i | 0 <= i <= n
        ensures Level(b[i], r, s) ==> Level(a[i], r, s)
        ensures UpTo(b[i], r, s) ==> UpTo(a[i], r, s)
      {
        PartServes(a[i], b[i], r, s);
      }
    }
  }

  // ----- and the converse -----

  /** A row with one value in one place, and nothing anywhere else. */
  function Only(part: IndexPart, value: string): Row {
    (c: string, e: string) => if c == part.columnName && e == part.expression then value else ""
  }

  predicate SamePlace(a: IndexPart, b: IndexPart) {
    a.columnName == b.columnName && a.expression == b.expression
  }

  lemma OnlyThere(part: IndexPart, v: string, w: string, p: IndexPart)
    ensures !SamePlace(p, part) ==> Level(p, Only(part, v), Only(part, w))
    ensures SamePlace(p, part) ==> Stored(Only(part, v), p) == Cut(v, p.prefixLength)
                                   && Stored(Only(part, w), p) == Cut(w, p.prefixLength)
  {
  }

  function Letters(n: nat): (s: string)
    ensures |s| == n
  {
    seq(n, _ => 'a')
  }

  /** Two values, in order, that show that the part is not covered. */
  function Witness(part: IndexPart, other: IndexPart): (string, string) {
    if SamePlace(part, other) && part.descending == other.descending
      then (Letters(other.prefixLength), Letters(other.prefixLength + 1))
    else ("", "a")
  }

  lemma NotCovered(part: IndexPart, other: IndexPart)
    requires !PartCovers(part, other)
    ensures var (v, w) := Witness(part, other);
            var r, s := Only(part, v), Only(part, w);
            !((UpTo(other, r, s) ==> UpTo(part, r, s)) && (UpTo(other, s, r) ==> UpTo(part, s, r)))
  {
    var (v, w) := Witness(part, other);
    OnlyThere(part, v, w, part);
    OnlyThere(part, v, w, other);
    if SamePlace(part, other) && part.descending == other.descending {
      var p, q := part.prefixLength, other.prefixLength;
      assert Cut(v, q) == v == Cut(w, q);
      assert Cut(v, p) != Cut(w, p);
      LettersLess(q);
      LessAntisymmetric(Cut(v, p), Cut(w, p));
    } else {
      assert Less("", "a") && !Less("a", "");
      assert Cut("a", part.prefixLength) == "a" && Cut("", part.prefixLength) == "";
      assert Cut("a", other.prefixLength) == "a" && Cut("", other.prefixLength) == "";
    }
  }

  lemma LessAntisymmetric(a: string, b: string)
    ensures a != b ==> !(Less(a, b) && Less(b, a))
  {
  }

  lemma LettersLess(n: nat)
    ensures Letters(n + 1)[..n] == Letters(n)
  {
  }

  lemma ServedIsCovered(idx: Index, other: Index, n: nat)
    requires Proper(idx) && Serves(other, idx) && n < |idx.def.parts|
    requires forall i :: 0 <= i < n ==> i < |other.def.parts| && PartCovers(idx.def.parts[i], other.def.parts[i])
    ensures n < |other.def.parts| && PartCovers(idx.def.parts[n], other.def.parts[n])
  {
    var a, b := idx.def.parts, other.def.parts;
    var part := a[n];
    var (v, w) := if n < |b| then Witness(part, b[n]) else ("", "a");
    var r, s := Only(part, v), Only(part, w);
    forall i | 0 <= i < n ensures i < |b| && Level(b[i], r, s) && Level(b[i], s, r) {
      assert SamePlace(a[i], b[i]);
      OnlyThere(part, v, w, b[i]);
    }
    assert Agree(b, n, r, s) && Agree(b, n, s, r);
    assert ServesAt(b, a, n, r, s) && ServesAt(b, a, n, s, r);
    if n >= |b| {
      OnlyThere(part, v, w, part);
      assert false;
    } else if !PartCovers(part, b[n]) {
      NotCovered(part, b[n]);
      assert false;
    }
  }

  lemma {:induction false} ServedAreCovered(idx: Index, other: Index, n: nat)
    requires Proper(idx) && Serves(other, idx) && n <= |idx.def.parts|
    ensures n <= |other.def.parts|
    ensures forall i :: 0 <= i < n ==> PartCovers(idx.def.parts[i], other.def.parts[i])
  {
    if n > 0 {
      hide Serves, Proper, PartCovers;
      ServedAreCovered(idx, other, n - 1);
      ServedIsCovered(idx, other, n - 1);
    }
  }

  // ----- redundancy -----

  /** An index that is no constraint is redundant exactly if another one of its kind serves in its place, and can be
      seen if it can; full-text indexes only if they have equally many columns. */
  lemma RedundantIffServed(idx: Index, other: Index)
    requires !idx.def.primaryKey && !idx.def.unique && Proper(idx)
    ensures RedundantTo(idx, other) <==>
            && idx.def.kind == other.def.kind && idx.def.fullTextParser == other.def.fullTextParser
            && (other.def.invisible ==> idx.def.invisible) && Serves(other, idx)
            && (idx.def.kind == "FULLTEXT" ==> |idx.def.parts| == |other.def.parts|)
  {
    hide Serves, PartCovers;
    if RedundantTo(idx, other) {
      CoveredServes(idx, other);
    }
    if Serves(other, idx) {
      ServedAreCovered(idx, other, |idx.def.parts|);
    }
  }

  /** Whatever the kinds, a redundant index is served; its entries are those of the other one, cut; and if it forbids
      two rows with the same entry, then so does the other. */
  lemma RedundantIsServed(idx: Index, other: Index)
    requires RedundantTo(idx, other)
    ensures Serves(other, idx) && (other.def.invisible ==> idx.def.invisible)
    ensures idx.def.kind == other.def.kind && idx.def.fullTextParser == other.def.fullTextParser
    ensures forall row: Row, i :: 0 <= i < |idx.def.parts| ==>
              i < |other.def.parts| && Entry(idx, row)[i] == Cut(Entry(other, row)[i], idx.def.parts[i].prefixLength)
    ensures idx.def.unique ==>
              other.def.unique
              && forall r: Row, s: Row :: Entry(idx, r) == Entry(idx, s) ==> Entry(other, r) == Entry(other, s)
  {
    hide Serves, PartCovers, Cut;
    if idx.def.unique {
      SamePartsCover(idx, other);
    }
    CoveredServes(idx, other);
    forall row: Row, i | 0 <= i < |idx.def.parts|
      ensures Entry(idx, row)[i] == Cut(Entry(other, row)[i], idx.def.parts[i].prefixLength)
    {
      StoredBy(idx.def.parts[i], other.def.parts[i], row);
    }
  }

  lemma SamePartsCover(idx: Index, other: Index)
    requires idx.def.parts == other.def.parts
    ensures AllCovered(idx, other)
  {
  }

  /** A unique index is redundant exactly to a unique index of its kind that serves in its place, and the other way
      round; and that can be seen if it can. */
  lemma UniqueIffMutual(idx: Index, other: Index)
    requires !idx.def.primaryKey && idx.def.unique && Proper(idx) && Proper(other)
    ensures RedundantTo(idx, other) <==>
            && idx.def.kind == other.def.kind && idx.def.fullTextParser == other.def.fullTextParser
            && (other.def.invisible ==> idx.def.invisible) && other.def.unique
            && Serves(other, idx) && Serves(idx, other)
  {
    hide Serves, PartCovers, Proper;
    if RedundantTo(idx, other) {
      SamePartsCover(idx, other);
      SamePartsCover(other, idx);
      CoveredServes(idx, other);
      CoveredServes(other, idx);
    }
    if Serves(other, idx) && Serves(idx, other) {
      ServedAreCovered(idx, other, |idx.def.parts|);
      ServedAreCovered(other, idx, |other.def.parts|);
      forall i | 0 <= i < |idx.def.parts| ensures idx.def.parts[i] == other.def.parts[i] {
        CoverEachOther(idx.def.parts[i], other.def.parts[i]);
      }
    }
  }

  lemma CoverEachOther(a: IndexPart, b: IndexPart)
    requires PartCovers(a, b) && PartCovers(b, a)
    ensures a == b
  {
  }
}
