// Indexes and their comparisons (internal/tengo/index.go).

module Indexes {
  import opened NamedLists

  datatype IndexPart = IndexPart(columnName: string, expression: string, prefixLength: nat, descending: bool)

  datatype IndexDef = IndexDef(
    parts: seq<IndexPart>, primaryKey: bool, unique: bool, invisible: bool,
    comment: string, kind: string, fullTextParser: string)

  type Index = Named<IndexDef>

  predicate Equivalent(idx: Index, other: Index) {
    && idx.def.primaryKey == other.def.primaryKey && idx.def.unique == other.def.unique
    && idx.def.kind == other.def.kind && idx.def.fullTextParser == other.def.fullTextParser
    && idx.def.parts == other.def.parts
  }

  predicate EqualsIgnoringVisibility(idx: Index, other: Index) {
    idx.name == other.name && idx.def.comment == other.def.comment && Equivalent(idx, other)
  }

  predicate Equals(idx: Index, other: Index) {
    idx.def.invisible == other.def.invisible && EqualsIgnoringVisibility(idx, other)
  }

  predicate Functional(idx: Index) {
    exists n :: 0 <= n < |idx.def.parts| && idx.def.parts[n].expression != ""
  }

  /** A part of one index makes the same part of a shorter index superfluous. */
  predicate PartCovers(part: IndexPart, other: IndexPart) {
    && part.columnName == other.columnName && part.expression == other.expression && part.descending == other.descending
    && !(other.prefixLength > 0 && (part.prefixLength == 0 || part.prefixLength > other.prefixLength))
  }

  predicate RedundantTo(idx: Index, other: Index) {
    if idx.def.primaryKey || (idx.def.unique && !other.def.unique)
       || idx.def.kind != other.def.kind || idx.def.fullTextParser != other.def.fullTextParser then false
    else if !idx.def.invisible && other.def.invisible then false
    else if idx.def.unique && other.def.unique then idx.def.parts == other.def.parts
    else if idx.def.kind == "FULLTEXT" && |idx.def.parts| != |other.def.parts| then false
    else if |idx.def.parts| > |other.def.parts| then false
    else forall n :: 0 <= n < |idx.def.parts| ==> PartCovers(idx.def.parts[n], other.def.parts[n])
  }

  /** Index.Equals holds of nothing but identical indexes. */
  lemma EqualsIsEquality(idx: Index, other: Index)
    ensures Equals(idx, other) <==> idx == other
    ensures EqualsIgnoringVisibility(idx, other) <==> idx.(def := idx.def.(invisible := other.def.invisible)) == other
  {
  }

  lemma RedundantReflexive(idx: Index)
    ensures RedundantTo(idx, idx) <==> !idx.def.primaryKey
  {
  }

  lemma RedundantTransitive(a: Index, b: Index, c: Index)
    requires RedundantTo(a, b) && RedundantTo(b, c)
    ensures RedundantTo(a, c)
  {
    forall n | 0 <= n < |a.def.parts| ensures PartCovers(a.def.parts[n], c.def.parts[n]) {
      assert PartCovers(a.def.parts[n], b.def.parts[n]);
      assert PartCovers(b.def.parts[n], c.def.parts[n]);
    }
  }

  /** Mutually redundant indexes are functionally identical, and equally visible. */
  lemma RedundantAntisymmetric(a: Index, b: Index)
    requires RedundantTo(a, b) && RedundantTo(b, a)
    ensures Equivalent(a, b) && a.def.invisible == b.def.invisible
  {
    if !a.def.unique {
      assert |a.def.parts| == |b.def.parts|;
      forall n | 0 <= n < |a.def.parts| ensures a.def.parts[n] == b.def.parts[n] {
        assert PartCovers(a.def.parts[n], b.def.parts[n]);
        assert PartCovers(b.def.parts[n], a.def.parts[n]);
      }
      assert a.def.parts == b.def.parts;
    }
  }
}
