// Table-level attributes: character set, engine, options, partitioning and the
// rest (internal/tengo/table.go, internal/tengo/alterclause.go,
// internal/tengo/partition.go).

module Attributes {
  import opened Wrappers
  import opened Text
  import opened Modifiers
  import O = CreateOptions

  datatype Partition = Partition(name: string, subName: string, values: string, comment: string, engine: string,
      dataDir: string)

  datatype TablePartitioning = TablePartitioning(
    method_: string, subMethod: string, expression: string, subExpression: string, algoClause: string,
    partitions: seq<Partition>)

  datatype Attrs = Attrs(
    engine: string, charSet: string, collation: string, createOptions: O.Options,
    comment: string, tablespace: string, nextAutoIncrement: nat, partitioning: Option<TablePartitioning>)

  datatype AttrClause =
    | ChangeCharSet(fromCollation: string, toCharSet: string, toCollation: string)
    | ChangeStorageEngine(newEngine: string)
    | ChangeAutoIncrement(oldNext: nat, newNext: nat)
    | ChangeCreateOptions(oldOptions: O.Options, newOptions: O.Options)
    | ChangeComment(newComment: string)
    | ChangeTablespace(newTablespace: string)
    | PartitionBy(partitioning: TablePartitioning, rePartition: bool)
    | RemovePartitioning
    | ModifyPartitions(dropped: seq<string>, forDropTable: bool)

  predicate SameCollation(fromCollation: string, toCollation: string) {
    fromCollation == toCollation ||
    ((HasPrefix(fromCollation, "utf8mb3_") || HasPrefix(toCollation, "utf8mb3_"))
     && ReplaceFirst(fromCollation, "utf8_", "utf8mb3_") == ReplaceFirst(toCollation, "utf8_", "utf8mb3_"))
  }

  /** True iff Clause(mods) is the empty string. */
  predicate Suppressed(mods: StatementModifiers, clause: AttrClause) {
    match clause
    case ChangeCharSet(fromCollation, _, toCollation) => SameCollation(fromCollation, toCollation)
    case ChangeStorageEngine(_) => false
    case ChangeAutoIncrement(oldNext, newNext) =>
      || mods.nextAutoInc == Ignore
      || (mods.nextAutoInc == IfIncreased && oldNext >= newNext)
      || (mods.nextAutoInc == IfAlready && oldNext <= 1)
    case ChangeCreateOptions(oldOpts, newOpts) => O.OptionChanges(oldOpts, newOpts) == map[]
    case ChangeComment(_) => false
    case ChangeTablespace(t) => t == ""
    case PartitionBy(_, rePartition) => mods.partitioning == Remove || (rePartition && mods.partitioning == Keep)
    case RemovePartitioning => mods.partitioning == Keep
    case ModifyPartitions(dropped, forDropTable) => !forDropTable || |dropped| == 0 || mods.skipPreDropAlters
  }

  function WithoutPartitions(parts: seq<Partition>, dropped: seq<string>): seq<Partition> {
    if |parts| == 0 then []
    else (if parts[0].name in dropped then [] else [parts[0]]) + WithoutPartitions(parts[1..], dropped)
  }

  ghost function ApplyAttr(mods: StatementModifiers, a: Attrs, clause: AttrClause): Attrs {
    if Suppressed(mods, clause) then a
    else match clause
      case ChangeCharSet(_, charSet, collation) => a.(charSet := charSet, collation := collation)
      case ChangeStorageEngine(e) => a.(engine := e)
      case ChangeAutoIncrement(_, n) => a.(nextAutoIncrement := n)
      case ChangeCreateOptions(o, n) => 
        a.(createOptions := O.Listing(O.SetOptions(O.Settings(a.createOptions), O.OptionChanges(o, n))))
      case ChangeComment(c) => a.(comment := c)
      case ChangeTablespace(t) => a.(tablespace := t)
      case PartitionBy(p, _) => a.(partitioning := Some(p))
      case RemovePartitioning => a.(partitioning := None)
      case ModifyPartitions(dropped, _) =>
        if a.partitioning.None? then a
        else
          var p := a.partitioning.value;
          a.(partitioning := Some(p.(partitions := WithoutPartitions(p.partitions, dropped))))
  }

  ghost function ApplyAttrs(mods: StatementModifiers, a: Attrs, clauses: seq<AttrClause>): Attrs
    decreases |clauses|
  {
    if |clauses| == 0 then a else ApplyAttrs(mods, ApplyAttr(mods, a, clauses[0]), clauses[1..])
  }

  lemma {:induction false} ApplyAttrsSplit(mods: StatementModifiers, a: Attrs, x: seq<AttrClause>, y: seq<AttrClause>)
    ensures ApplyAttrs(mods, a, x + y) == ApplyAttrs(mods, ApplyAttrs(mods, a, x), y)
    decreases |x|
  {
    if |x| == 0 {
      assert x + y == y;
    } else {
      assert (x + y)[1..] == x[1..] + y;
      ApplyAttrsSplit(mods, ApplyAttr(mods, a, x[0]), x[1..], y);
    }
  }

  // ----- the clauses of a diff -----

  predicate SamePartitions(a: seq<Partition>, b: seq<Partition>) {
    |a| == |b| && forall n :: 0 <= n < |a| ==> a[n] == b[n]
  }

  /** TablePartitioning.Diff: the clauses, and whether the change is supported. */
  function PartitioningDiff(from: Option<TablePartitioning>, to: Option<TablePartitioning>): (seq<AttrClause>, bool) {
    if from.None? && to.None? then ([], true)
    else if from.None? then ([PartitionBy(to.value, false)], true)
    else if to.None? then ([RemovePartitioning], true)
    else
      var f, t := from.value, to.value;
      if f.method_ != t.method_ || f.subMethod != t.subMethod || f.expression != t.expression
         || f.subExpression != t.subExpression || f.algoClause != t.algoClause then ([PartitionBy(t, true)], true)
      else if SamePartitions(f.partitions, t.partitions) then ([], true)
      else if HasPrefix(f.method_, "RANGE") || HasPrefix(f.method_, "LIST") then ([ModifyPartitions([], false)], true)
      else ([], false)
  }

  function When(condition: bool, clause: AttrClause): seq<AttrClause> {
    if condition then [clause] else []
  }

  function CharSetClauses(from: Attrs, to: Attrs): seq<AttrClause> {
    When(from.charSet != to.charSet || from.collation != to.collation,
        ChangeCharSet(from.collation, to.charSet, to.collation))
  }

  /** The clauses after columns, indexes and constraints; partitioning comes last. */
  function RestClauses(from: Attrs, to: Attrs, toHasAutoIncrement: bool): seq<AttrClause> {
    When(from.engine != to.engine, ChangeStorageEngine(to.engine))
    + When(from.nextAutoIncrement != to.nextAutoIncrement && toHasAutoIncrement,
           ChangeAutoIncrement(from.nextAutoIncrement, to.nextAutoIncrement))
    + When(from.createOptions != to.createOptions, ChangeCreateOptions(from.createOptions, to.createOptions))
    + When(from.comment != to.comment, ChangeComment(to.comment))
    + When(from.tablespace != to.tablespace, ChangeTablespace(to.tablespace))
    + PartitioningDiff(from.partitioning, to.partitioning).0
  }

  // ----- convergence -----

  function LandedPartitioning(mods: StatementModifiers, from: Option<TablePartitioning>,
      to: Option<TablePartitioning>): Option<TablePartitioning> {
    var clauses := PartitioningDiff(from, to).0;
    if |clauses| == 0 || Suppressed(mods, clauses[0]) then from else to
  }

  /** The attributes after the diff was applied. */
  ghost function LandedAttrs(mods: StatementModifiers, from: Attrs, to: Attrs, toHasAutoIncrement: bool): Attrs {
    var keepCharSet := SameCollation(from.collation, to.collation);
    Attrs(
      to.engine,
      if keepCharSet then from.charSet else to.charSet,
      if keepCharSet then from.collation else to.collation,
      O.Landed(from.createOptions, to.createOptions),
      to.comment,
      if to.tablespace == "" then from.tablespace else to.tablespace,
      if toHasAutoIncrement && !Suppressed(mods, ChangeAutoIncrement(from.nextAutoIncrement, to.nextAutoIncrement))
      then to.nextAutoIncrement else from.nextAutoIncrement,
      LandedPartitioning(mods, from.partitioning, to.partitioning))
  }

  lemma ThenWhen(mods: StatementModifiers, a: Attrs, before: seq<AttrClause>, condition: bool, c: AttrClause)
    ensures ApplyAttrs(mods, a, before + When(condition, c)) ==
            var mid := ApplyAttrs(mods, a, before); if condition then ApplyAttr(mods, mid, c) else mid
  {
    ApplyAttrsSplit(mods, a, before, When(condition, c));
  }

  /** The clauses in emission order, up to and including the one on the AUTO_INCREMENT value. */
  function LeadClauses(from: Attrs, to: Attrs, toHasAutoIncrement: bool): seq<AttrClause> {
    CharSetClauses(from, to)
    + When(from.engine != to.engine, ChangeStorageEngine(to.engine))
    + When(from.nextAutoIncrement != to.nextAutoIncrement && toHasAutoIncrement,
           ChangeAutoIncrement(from.nextAutoIncrement, to.nextAutoIncrement))
  }

  /** The same, up to and including the one on the comment. */
  function PlainClauses(from: Attrs, to: Attrs, toHasAutoIncrement: bool): seq<AttrClause> {
    LeadClauses(from, to, toHasAutoIncrement)
    + When(from.createOptions != to.createOptions, ChangeCreateOptions(from.createOptions, to.createOptions))
    + When(from.comment != to.comment, ChangeComment(to.comment))
  }

  lemma LeadApply(mods: StatementModifiers, from: Attrs, to: Attrs, toHasAutoIncrement: bool)
    ensures ApplyAttrs(mods, from, LeadClauses(from, to, toHasAutoIncrement))
            == LandedAttrs(mods, from, to, toHasAutoIncrement).(createOptions := from.createOptions,
                comment := from.comment,
                 tablespace := from.tablespace, partitioning := from.partitioning)
  {
    hide SameCollation, O.OptionChanges, O.SetOptions, O.Settings, O.Listing, ApplyAttrs, When, LandedPartitioning;
    var p0 := CharSetClauses(from, to);
    var p1 := p0 + When(from.engine != to.engine, ChangeStorageEngine(to.engine));
    SameCollationReflexive(to.collation);
    assert [] + p0 == p0;
    ApplyNothing(mods, from);
    ThenWhen(mods, from, [], from.charSet != to.charSet || from.collation != to.collation,
        ChangeCharSet(from.collation, to.charSet, to.collation));
    ThenWhen(mods, from, p0, from.engine != to.engine, ChangeStorageEngine(to.engine));
    ThenWhen(mods, from, p1, from.nextAutoIncrement != to.nextAutoIncrement && toHasAutoIncrement,
             ChangeAutoIncrement(from.nextAutoIncrement, to.nextAutoIncrement));
  }

  lemma PlainApply(mods: StatementModifiers, from: Attrs, to: Attrs, toHasAutoIncrement: bool)
    ensures ApplyAttrs(mods, from, PlainClauses(from, to, toHasAutoIncrement))
            == LandedAttrs(mods, from, to, toHasAutoIncrement).(tablespace := from.tablespace,
                partitioning := from.partitioning)
  {
    hide SameCollation, O.OptionChanges, O.SetOptions, O.Settings, O.Listing, ApplyAttrs, When, LandedPartitioning,
         LeadClauses;
    var p2 := LeadClauses(from, to, toHasAutoIncrement);
    var p3 := p2
        + When(from.createOptions != to.createOptions, ChangeCreateOptions(from.createOptions, to.createOptions));
    LeadApply(mods, from, to, toHasAutoIncrement);
    O.EmptyIff(from.createOptions, from.createOptions);
    ThenWhen(mods, from, p2, from.createOptions != to.createOptions,
        ChangeCreateOptions(from.createOptions, to.createOptions));
    ThenWhen(mods, from, p3, from.comment != to.comment, ChangeComment(to.comment));
  }

  lemma AttrsConverge(mods: StatementModifiers, from: Attrs, to: Attrs, toHasAutoIncrement: bool)
    ensures ApplyAttrs(mods, from, CharSetClauses(from, to) + RestClauses(from, to, toHasAutoIncrement))
            == LandedAttrs(mods, from, to, toHasAutoIncrement)
  {
    hide PlainClauses, ApplyAttrs, LandedPartitioning, PartitioningDiff;
    var plain, c5 := PlainClauses(from, to, toHasAutoIncrement), ChangeTablespace(to.tablespace);
    var c6 := PartitioningDiff(from.partitioning, to.partitioning).0;
    var p5 := plain + When(from.tablespace != to.tablespace, c5);
    PlainApply(mods, from, to, toHasAutoIncrement);
    ThenWhen(mods, from, plain, from.tablespace != to.tablespace, c5);
    ApplyAttrsSplit(mods, from, p5, c6);
    PartitioningApplies(mods, ApplyAttrs(mods, from, p5), from.partitioning, to.partitioning);
    assert CharSetClauses(from, to) + RestClauses(from, to, toHasAutoIncrement)
        == p5 + c6 by { Regroup(from, to, toHasAutoIncrement); }
  }

  lemma Regroup(from: Attrs, to: Attrs, toHasAutoIncrement: bool)
    ensures CharSetClauses(from, to) + RestClauses(from, to, toHasAutoIncrement)
            == PlainClauses(from, to, toHasAutoIncrement)
                + When(from.tablespace != to.tablespace, ChangeTablespace(to.tablespace))
               + PartitioningDiff(from.partitioning, to.partitioning).0
  {
    hide When, PartitioningDiff;
  }

  lemma ApplyNothing(mods: StatementModifiers, a: Attrs)
    ensures ApplyAttrs(mods, a, []) == a
  {
  }

  lemma SameCollationReflexive(c: string)
    ensures SameCollation(c, c)
  {
  }

  lemma PartitioningApplies(mods: StatementModifiers, a: Attrs, from: Option<TablePartitioning>,
      to: Option<TablePartitioning>)
    requires a.partitioning == from
    ensures ApplyAttrs(mods, a, PartitioningDiff(from, to).0) == a.(partitioning := LandedPartitioning(mods, from, to))
  {
    var c := PartitioningDiff(from, to).0;
    assert |c| == 1 ==> c[1..] == [];
  }

  /** After the strictest diff was applied, diffing against the same target again
      finds nothing that has any text. */
  lemma AttrsSettle(mods: StatementModifiers, from: Attrs, to: Attrs, toHasAutoIncrement: bool, c: AttrClause)
    requires mods.nextAutoInc == Always && mods.partitioning == Permissive
    requires O.Reported(from.createOptions) && O.Reported(to.createOptions)
    requires PartitioningDiff(from.partitioning, to.partitioning).1
    ensures var r := LandedAttrs(mods, from, to, toHasAutoIncrement);
            && (c in CharSetClauses(r, to) + RestClauses(r, to, toHasAutoIncrement) ==> Suppressed(mods, c))
            && PartitioningDiff(r.partitioning, to.partitioning).1
  {
    hide O.Reported, O.Landed, O.OptionChanges, SameCollation, LandedPartitioning, PartitioningDiff;
    var r := LandedAttrs(mods, from, to, toHasAutoIncrement);
    SameCollationReflexive(to.collation);
    O.SecondIsEmpty(from.createOptions, to.createOptions);
    PartitioningSettles(mods, from.partitioning, to.partitioning, c);
    assert c in RestClauses(r, to, toHasAutoIncrement) ==>
        c in PartitioningDiff(r.partitioning, to.partitioning).0 || Suppressed(mods, c);
  }

  lemma PartitioningSettles(mods: StatementModifiers, from: Option<TablePartitioning>, to: Option<TablePartitioning>,
      c: AttrClause)
    requires mods.partitioning == Permissive && PartitioningDiff(from, to).1
    ensures var r := LandedPartitioning(mods, from, to);
            (c in PartitioningDiff(r, to).0 ==> Suppressed(mods, c)) && PartitioningDiff(r, to).1
  {
  }
}
