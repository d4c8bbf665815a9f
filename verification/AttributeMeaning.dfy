// What becomes of the attributes of an altered table, by statement modifier
// (internal/tengo/alterclause.go, internal/tengo/diff.go).

module AttributeMeaning {
  import opened Wrappers
  import opened Text
  import opened Modifiers
  import opened Attributes
  import C = ColumnMeaning

  /** The next AUTO_INCREMENT value of a table that had `from` and is described with `to`. */
  function NextValue(mode: NextAutoIncMode, from: nat, to: nat): nat {
    match mode
    case Ignore => from
    case IfIncreased => if from < to then to else from
    case IfAlready => if from > 1 then to else from
    case Always => to
  }

  /** Both tables are partitioned in the same way, if perhaps into other partitions. */
  predicate SameLayout(a: Option<TablePartitioning>, b: Option<TablePartitioning>) {
    a.Some? && b.Some? && a.value == b.value.(partitions := a.value.partitions)
  }

  /** Keep never undoes or changes a partitioning, Remove never brings one about. The partitions of a table that stays
      partitioned in the same way are not touched. */
  function FinalPartitioning(mode: PartitioningMode, from: Option<TablePartitioning>, to: Option<TablePartitioning>):
      Option<TablePartitioning> {
    match mode
    case Permissive => if SameLayout(from, to) then from else to
    case Keep => if from.Some? then from else to
    case Remove => if to.Some? then from else None
  }

  lemma PartitioningEnds(mods: StatementModifiers, from: Option<TablePartitioning>, to: Option<TablePartitioning>)
    ensures LandedPartitioning(mods, from, to) == FinalPartitioning(mods.partitioning, from, to)
  {
  }

  lemma SameCollationIff(a: string, b: string)
    requires C.PlainName(a) && C.PlainName(b)
    ensures SameCollation(a, b) <==> C.SameCollationName(a, b)
  {
    hide ReplaceFirst, Contains, HasPrefix;
    C.ReplaceAtStart(a, "utf8_", "utf8mb3_");
    C.ReplaceAtStart(b, "utf8_", "utf8mb3_");
    C.Prefixed(a, b);
    C.Prefixed(b, a);
  }

  /** All of the diff's clauses on attributes leave a table with the described engine and comment, with a counter and a
      partitioning according to the modifiers, with the described collation unless only the alias utf8 is spelled in
      another way, and with the described tablespace if one is described. */
  lemma AttributesEnd(mods: StatementModifiers, from: Attrs, to: Attrs, toHasAutoIncrement: bool)
    requires C.PlainName(from.collation) && C.PlainName(to.collation)
    ensures var end := ApplyAttrs(mods, from, CharSetClauses(from, to) + RestClauses(from, to, toHasAutoIncrement));
            && end.engine == to.engine && end.comment == to.comment
            && end.nextAutoIncrement == (if toHasAutoIncrement
                then NextValue(mods.nextAutoInc, from.nextAutoIncrement, to.nextAutoIncrement)
                else from.nextAutoIncrement)
            && end.partitioning == FinalPartitioning(mods.partitioning, from.partitioning, to.partitioning)
            && end.tablespace == (if to.tablespace == "" then from.tablespace else to.tablespace)
            && (if C.SameCollationName(from.collation, to.collation)
                then end.collation == from.collation && end.charSet == from.charSet
                else end.collation == to.collation && end.charSet == to.charSet)
  {
    hide C.SameCollationName, C.PlainName, SameCollation, LandedPartitioning, FinalPartitioning;
    AttrsConverge(mods, from, to, toHasAutoIncrement);
    PartitioningEnds(mods, from.partitioning, to.partitioning);
    SameCollationIff(from.collation, to.collation);
  }

  /** The one change of partitioning that no clause stands for: other partitions of a table that is partitioned in the
      same way, but neither by range nor by list. */
  lemma UnsupportedIff(from: Option<TablePartitioning>, to: Option<TablePartitioning>)
    ensures !PartitioningDiff(from, to).1 <==>
              SameLayout(from, to) && from != to
              && !HasPrefix(from.value.method_, "RANGE") && !HasPrefix(from.value.method_, "LIST")
  {
    hide HasPrefix;
    if SameLayout(from, to) {
      assert SamePartitions(from.value.partitions, to.value.partitions) <==>
        from.value.partitions == to.value.partitions;
    }
  }
}
