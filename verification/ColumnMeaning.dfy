// What equivalent columns have in common (internal/tengo/column.go, Equivalent;
// internal/tengo/util.go, StripDisplayWidth).

module ColumnMeaning {
  import opened Wrappers
  import opened Text
  import opened Columns
  import opened UnsafeTypes

  // ----- names of character sets and collations -----

  predicate SameCharSetName(a: string, b: string) {
    a == b || (a == "utf8" && b == "utf8mb3") || (a == "utf8mb3" && b == "utf8")
  }

  /** utf8 is an old name of utf8mb3, also at the start of the names of its collations. */
  predicate SameCollationName(a: string, b: string) {
    || a == b
    || (HasPrefix(a, "utf8_") && HasPrefix(b, "utf8mb3_") && a[|"utf8_"|..] == b[|"utf8mb3_"|..])
    || (HasPrefix(b, "utf8_") && HasPrefix(a, "utf8mb3_") && b[|"utf8_"|..] == a[|"utf8mb3_"|..])
  }

  /** A collation name has a character set at its start only. */
  predicate PlainName(s: string) {
    |s| > 0 ==> !Contains(s[1..], "utf8_") && !Contains(s[1..], "utf8mb3_")
  }

  lemma {:induction false} ReplaceNone(s: string, target: string, with: string)
    requires |target| > 0 && !Contains(s, target)
    ensures ReplaceFirst(s, target, with) == s
  {
    if |s| > 0 {
      ReplaceNone(s[1..], target, with);
    }
  }

  lemma ReplaceAtStart(s: string, target: string, with: string)
    requires |target| > 0 && (|s| > 0 ==> !Contains(s[1..], target))
    ensures ReplaceFirst(s, target, with) == if HasPrefix(s, target) then with + s[|target|..] else s
  {
    if |s| > 0 && !HasPrefix(s, target) {
      ReplaceNone(s[1..], target, with);
    }
  }

  // ----- equivalent columns -----

  /** Everything but the type, and what is only shown or named in another way. */
  predicate SameButNames(c: Column, o: Column) {
    && c.name == o.name && c.def.nullable == o.def.nullable && c.def.autoIncrement == o.def.autoIncrement
    && c.def.default == o.def.default && c.def.onUpdate == o.def.onUpdate
    && c.def.generationExpr == o.def.generationExpr && c.def.virtual == o.def.virtual
    && c.def.collationIsDefault == o.def.collationIsDefault && c.def.compression == o.def.compression
    && c.def.comment == o.def.comment && c.def.invisible == o.def.invisible
    && c.def.checkClause == o.def.checkClause
    && SameCharSetName(c.def.charSet, o.def.charSet) && SameCollationName(c.def.collation, o.def.collation)
  }

  /** The types are the same text, or one of them shows a display width that the other leaves out. */
  predicate SameTypeText(a: string, b: string) {
    var (x, xHad) := StripDisplayWidth(a);
    var (y, yHad) := StripDisplayWidth(b);
    a == b || (x == y && !(xHad && yHad))
  }

  /** The name of collation `x` as the server that reports `y` would write it. */
  function Renamed(x: string, y: string): string {
    if HasPrefix(y, "utf8mb3_") then ReplaceFirst(x, "utf8_", "utf8mb3_")
    else if HasPrefix(y, "utf8_") then ReplaceFirst(x, "utf8mb3_", "utf8_")
    else x
  }

  lemma RenamedIff(x: string, y: string)
    requires PlainName(x) && PlainName(y)
    ensures Renamed(x, y) == y <==> SameCollationName(x, y)
  {
    hide ReplaceFirst, Contains, HasPrefix;
    ReplaceAtStart(x, "utf8_", "utf8mb3_");
    ReplaceAtStart(x, "utf8mb3_", "utf8_");
    Prefixed(x, y);
    Prefixed(y, x);
  }

  /** Equivalent columns have everything in common but the display width of an integer type and the spelling of the
      character set, whether that is shown or not. */
  lemma EquivalentIff(c: Column, o: Column)
    requires PlainName(c.def.collation) && PlainName(o.def.collation)
    ensures Equivalent(c, o) <==> SameButNames(c, o) && SameTypeText(c.def.typeInDB, o.def.typeInDB)
  {
    hide StripDisplayWidth, ReplaceFirst, HasPrefix, SameCollationName, PlainName;
    RenamedIff(c.def.collation, o.def.collation);
    SameName(c.def.collation);
  }

  lemma SameName(x: string)
    ensures SameCollationName(x, x)
  {
  }

  lemma OtherPrefix(x: string)
    ensures HasPrefix(x, "utf8mb3_") ==> x[4] == 'm'
  {
    if HasPrefix(x, "utf8mb3_") {
      assert x[4] == x[..8][4];
    }
  }

  /** A name with a prefix is the prefix and the rest. */
  lemma Prefixed(x: string, y: string)
    ensures HasPrefix(x, "utf8_") ==> x == "utf8_" + x[|"utf8_"|..] && !HasPrefix(x, "utf8mb3_")
    ensures HasPrefix(x, "utf8mb3_") ==> x == "utf8mb3_" + x[|"utf8mb3_"|..]
    ensures HasPrefix(x, "utf8_") ==> (y == "utf8mb3_" + x[|"utf8_"|..] <==>
                                         HasPrefix(y, "utf8mb3_") && y[|"utf8mb3_"|..] == x[|"utf8_"|..])
    ensures HasPrefix(x, "utf8mb3_") ==> (y == "utf8_" + x[|"utf8mb3_"|..] <==>
                                            HasPrefix(y, "utf8_") && y[|"utf8_"|..] == x[|"utf8mb3_"|..])
  {
    if HasPrefix(x, "utf8_") {
      assert x[4] == x[..5][4] == '_';
      assert ("utf8mb3_" + x[5..])[..8] == "utf8mb3_" && ("utf8mb3_" + x[5..])[8..] == x[5..];
      OtherPrefix(x);
    }
    if HasPrefix(x, "utf8mb3_") {
      assert ("utf8_" + x[8..])[..5] == "utf8_" && ("utf8_" + x[8..])[5..] == x[8..];
    }
  }

  // ----- display widths -----

  /** A display width that means nothing: not that of tinyint(1), which some take for a boolean, and not the number of
      digits to fill up with zeros. */
  predicate IdleWidth(t: IntType) {
    t.width.Some? && !t.zerofill && !(t.rank == 1 && t.width == Some(1) && !t.unsigned)
  }

  function WithoutWidth(t: IntType): IntType {
    IntFields(t.rank, None, t.unsigned, t.zerofill)
  }

  predicate IntName(name: string) {
    |name| >= 3 && name[|name| - 3..] == "int" && '(' !in name && name[0] != 'y'
  }

  lemma WidthIn(name: string, digits: string, suffix: string)
    requires IntName(name)
    ensures var s := name + ("(" + digits + ")" + suffix); Contains(s, "int(") && Before(s, '(') == name
  {
    hide Contains, Before;
    var rest := digits + ")" + suffix;
    var front := name[..|name| - 3];
    assert name == front + "int";
    assert name + ("(" + digits + ")" + suffix) == front + ("int(" + rest) == name + ("(" + rest);
    ContainsMiddle(front, "int(", rest);
    BeforeParen(name, rest);
  }

  lemma WidthShown(t: IntType)
    ensures Contains(Render(t), "int(") <==> t.width.Some?
    ensures t.width.Some? ==> Before(Render(t), '(') == INT_RANK[t.rank]
    ensures Render(t) != "year(4)"
  {
    hide Contains, Digits, Suffix, Before, Render, IntName;
    var name := Parts(t);
    assert Render(t)[0] == name[0] by { StartsOther(name); }
    if t.width.Some? {
      WidthIn(name, Digits(t.width.value), Suffix(t));
      assert WidthText(t) + Suffix(t) == "(" + Digits(t.width.value) + ")" + Suffix(t);
    } else {
      assert '(' !in Render(t) by { StartsOther(name); }
      NotContains(Render(t), "int(", '(');
    }
    StartsOther(name);
  }

  lemma StartsOther(name: string)
    requires IntName(name)
    ensures |name| > 0 && name[0] != 'y' && '(' !in name && name[|name| - 1] == 't'
  {
    assert name[|name| - 1] == name[|name| - 3..][2];
  }

  lemma Parts(t: IntType) returns (name: string)
    ensures name == INT_RANK[t.rank] && IntName(name) && Render(t) == name + (WidthText(t) + Suffix(t))
    ensures '(' !in Suffix(t)
    ensures Suffix(t) == if t.zerofill then " unsigned zerofill" else if t.unsigned then " unsigned" else ""
  {
    hide IntName, WidthText;
    NameEnds(t.rank);
    SuffixLetters(t);
    name := INT_RANK[t.rank];
  }

  lemma NameEnds(rank: nat)
    requires 1 <= rank <= 5
    ensures IntName(INT_RANK[rank])
  {
    match rank
    case 1 => assert INT_RANK[1] == "tinyint";
    case 2 => assert INT_RANK[2] == "smallint";
    case 3 => assert INT_RANK[3] == "mediumint";
    case 4 => assert INT_RANK[4] == "int";
    case _ => assert INT_RANK[5] == "bigint";
  }

  lemma SuffixLetters(t: IntType)
    ensures '(' !in Suffix(t)
    ensures Suffix(t) == if t.zerofill then " unsigned zerofill" else if t.unsigned then " unsigned" else ""
  {
  }

  lemma {:induction false} BeforeParen(a: string, rest: string)
    requires '(' !in a
    ensures Before(a + ("(" + rest), '(') == a
  {
    var s := a + ("(" + rest);
    if |a| > 0 {
      assert s[1..] == a[1..] + ("(" + rest);
      BeforeParen(a[1..], rest);
      assert a == [a[0]] + a[1..];
    }
  }

  lemma SuffixIn(front: string, suffix: string)
    requires |front| > 0 && front[|front| - 1] in "t)"
    requires suffix in ["", " unsigned", " unsigned zerofill"]
    ensures HasSuffix(front + suffix, "zerofill") <==> suffix == " unsigned zerofill"
    ensures HasSuffix(front + suffix, " unsigned") <==> suffix == " unsigned"
  {
    hide HasSuffix;
    var s := front + suffix;
    LastChar(s, "zerofill");
    LastChar(s, " unsigned");
    if suffix == "" {
      assert s == front;
    } else if suffix == " unsigned" {
      JoinedSuffix(front, " unsigned");
    } else {
      assert s == (front + " unsigned ") + "zerofill";
      JoinedSuffix(front + " unsigned ", "zerofill");
    }
  }

  lemma LastChar(s: string, suffix: string)
    requires |suffix| > 0
    ensures HasSuffix(s, suffix) ==> |s| > 0 && s[|s| - 1] == suffix[|suffix| - 1]
  {
    if HasSuffix(s, suffix) {
      assert s[|s| - 1] == s[|s| - |suffix|..][|suffix| - 1];
    }
  }

  lemma JoinedSuffix(a: string, b: string)
    ensures HasSuffix(a + b, b)
  {
  }

  lemma FrontEnds(name: string, t: IntType)
    requires IntName(name)
    ensures var front := name + WidthText(t); |front| > 0 && front[|front| - 1] in "t)"
  {
    hide Digits, IntName;
    StartsOther(name);
  }

  lemma SuffixKinds(t: IntType)
    ensures Suffix(t) in ["", " unsigned", " unsigned zerofill"]
    ensures Suffix(t) == " unsigned zerofill" <==> t.zerofill
    ensures Suffix(t) == " unsigned" <==> t.unsigned && !t.zerofill
  {
    hide Suffix;
    SuffixLetters(t);
    assert |Suffix(t)| == if t.zerofill then 18 else if t.unsigned then 9 else 0;
  }

  lemma Regrouped(a: string, b: string, c: string)
    ensures a + b + c == a + (b + c)
  {
  }

  lemma SuffixShown(t: IntType)
    ensures HasSuffix(Render(t), "zerofill") <==> t.zerofill
    ensures HasSuffix(Render(t), " unsigned") <==> t.unsigned && !t.zerofill
  {
    hide Digits, Suffix, Render, HasSuffix, IntName, WidthText;
    var name := Parts(t);
    FrontEnds(name, t);
    SuffixKinds(t);
    SuffixIn(name + WidthText(t), Suffix(t));
    Regrouped(name, WidthText(t), Suffix(t));
  }

  lemma OneDigit(n: nat)
    ensures Digits(n) == "1" <==> n == 1
  {
    if n >= 10 {
      assert |Digits(n / 10)| > 0;
    }
  }

  lemma StartsWith(s: string, prefix: string)
    requires |prefix| > 0
    ensures HasPrefix(s, prefix) ==> s[0] == prefix[0]
  {
    if HasPrefix(s, prefix) {
      assert s[0] == s[..|prefix|][0];
    }
  }

  lemma TinyRank()
    ensures Rank("tinyint(1)") == 1
  {
    hide HasPrefix;
    var s := "tinyint(1)";
    StartsWith(s, "bigint");
    StartsWith(s, "int");
    StartsWith(s, "mediumint");
    StartsWith(s, "smallint");
    TinyPrefix(s);
  }

  lemma TinyPrefix(s: string)
    requires s == "tinyint(1)"
    ensures HasPrefix(s, "tinyint")
  {
    assert s[..7] == "tinyint";
  }

  lemma TinyOne(t: IntType)
    ensures Render(t) == "tinyint(1)" <==> t.rank == 1 && t.width == Some(1) && !t.unsigned
  {
    hide Digits, Render, Suffix, IntName, Rank;
    var name := Parts(t);
    TinyRank();
    RenderRank(t);
    if t.rank == 1 {
      assert name == "tinyint";
      assert Render(t)[7..] == WidthText(t) + Suffix(t);
      assert "tinyint(1)"[7..] == "(1)" && "tinyint" + "(1)" == "tinyint(1)";
      if t.width.Some? {
        OneDigit(t.width.value);
        OneWidth(Digits(t.width.value), Suffix(t));
      }
    }
  }

  lemma OneWidth(digits: string, suffix: string)
    requires suffix in ["", " unsigned", " unsigned zerofill"]
    ensures "(" + digits + ")" + suffix == "(1)" <==> digits == "1" && suffix == ""
  {
    var s := "(" + digits + ")" + suffix;
    assert suffix != "" ==> |s| > 3;
    assert suffix == "" ==> s[1..|s| - 1] == digits;
  }

  lemma StripRender(t: IntType)
    ensures StripDisplayWidth(Render(t)) == if IdleWidth(t) then (Render(WithoutWidth(t)), true) else (Render(t), false)
  {
    hide Contains, HasSuffix, Before, Render, INT_RANK;
    RenderLower(t);
    WidthShown(t);
    SuffixShown(t);
    TinyOne(t);
    WithoutIs(t);
  }

  lemma WithoutIs(t: IntType)
    ensures !t.zerofill ==> Render(WithoutWidth(t)) == INT_RANK[t.rank] + (if t.unsigned then " unsigned" else "")
  {
    assert "" + Suffix(t) == Suffix(t);
  }

  lemma NoWidthIs(a: IntType, b: IntType)
    requires Render(WithoutWidth(a)) == Render(b)
    ensures b == WithoutWidth(a)
  {
    hide Render;
    var x := WithoutWidth(a);
    RenderRank(x);
    RenderRank(b);
    RenderUnsigned(x);
    RenderUnsigned(b);
    SuffixShown(x);
    SuffixShown(b);
    WidthShown(x);
    WidthShown(b);
  }

  /** Columns of integer types are equivalent only if they hold the same values and show them in the same way: only an
      idle display width may be shown by one and not by the other. */
  lemma WidthIsCosmetic(c: Column, o: Column, a: IntType, b: IntType)
    requires PlainName(c.def.collation) && PlainName(o.def.collation)
    requires c.def.typeInDB == Render(a) && o.def.typeInDB == Render(b)
    ensures Equivalent(c, o) <==>
            && SameButNames(c, o)
            && (Render(a) == Render(b) || (IdleWidth(a) && b == WithoutWidth(a))
                || (IdleWidth(b) && a == WithoutWidth(b)))
    ensures Equivalent(c, o) ==> FitsIn(a, b) && FitsIn(b, a)
  {
    hide Equivalent, SameButNames, StripDisplayWidth, PlainName, FitsIn, Render, IdleWidth;
    EquivalentIff(c, o);
    StripRender(a);
    StripRender(b);
    if Render(WithoutWidth(a)) == Render(b) {
      NoWidthIs(a, b);
      NeverIdle(a);
    }
    if Render(WithoutWidth(b)) == Render(a) {
      NoWidthIs(b, a);
      NeverIdle(b);
    }
    if Equivalent(c, o) {
      RenderRank(a);
      RenderRank(b);
      RenderUnsigned(a);
      RenderUnsigned(b);
      RangesByRank(a, b);
      RangesByRank(b, a);
    }
  }

  lemma NeverIdle(t: IntType)
    ensures !IdleWidth(WithoutWidth(t))
  {
  }
}
