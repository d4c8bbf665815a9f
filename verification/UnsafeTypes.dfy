// ModifyColumn.Unsafe for the integer family (internal/tengo/alterclause.go).

module UnsafeTypes {
  import opened Wrappers
  import opened Text
  import opened Columns

  const INT_RANK := ["NOT AN INT", "tinyint", "smallint", "mediumint", "int", "bigint"]

  /** 1 to 5 for the integer types in order of size, 0 for any other type. */
  function Rank(t: string): nat {
    if HasPrefix(t, "bigint") then 5
    else if HasPrefix(t, "int") then 4
    else if HasPrefix(t, "mediumint") then 3
    else if HasPrefix(t, "smallint") then 2
    else if HasPrefix(t, "tinyint") then 1
    else 0
  }

  /** The verdict on a change between types that are not both integers is a
      parameter: it rests on textual heuristics that are not modelled. */
  type Judge = (string, string) -> bool

  function Unsafe(judge: Judge, oldColumn: Column, newColumn: Column): bool {
    if oldColumn.def.virtual then false
    else if oldColumn.def.charSet != newColumn.def.charSet then true
    else
      var oldType, newType := ToLower(oldColumn.def.typeInDB), ToLower(newColumn.def.typeInDB);
      if oldType == newType then false
      else if !Contains(oldType, "unsigned") && Contains(newType, "unsigned") then true
      else if Rank(oldType) > 0 && Rank(newType) > 0 then
        if Contains(oldType, "unsigned") && !Contains(newType, "unsigned") then Rank(oldType) >= Rank(newType)
        else Rank(oldType) > Rank(newType)
      else judge(oldType, newType)
  }

  /** The loop over intRank: the last matching prefix wins. */
  method IntRanks(oldType: string, newType: string) returns (oldRank: nat, newRank: nat)
    ensures oldRank == Rank(oldType) && newRank == Rank(newType)
  {
    oldRank, newRank := 0, 0;
    for n := 1 to |INT_RANK|
      invariant oldRank == RankUpTo(oldType, n) && newRank == RankUpTo(newType, n)
    {
      if HasPrefix(oldType, INT_RANK[n]) {
        oldRank := n;
      }
      if HasPrefix(newType, INT_RANK[n]) {
        newRank := n;
      }
    }
    RankIsLast(oldType);
    RankIsLast(newType);
  }

  function RankUpTo(t: string, n: nat): nat
    requires 1 <= n <= |INT_RANK|
  {
    if n == 1 then 0 else if HasPrefix(t, INT_RANK[n - 1]) then n - 1 else RankUpTo(t, n - 1)
  }

  lemma RankIsLast(t: string)
    ensures RankUpTo(t, 6) == Rank(t)
  {
    assert RankUpTo(t, 2) == if HasPrefix(t, "tinyint") then 1 else 0;
    assert RankUpTo(t, 4) == if HasPrefix(t, "mediumint") then 3 else if HasPrefix(t, "smallint") then 2
        else RankUpTo(t, 2);
  }

  // ----- integer types as the server writes them -----

  /** ZEROFILL implies UNSIGNED. */
  datatype IntFields = IntFields(rank: nat, width: Option<nat>, unsigned: bool, zerofill: bool)

  type IntType = t: IntFields | 1 <= t.rank <= 5 && (t.zerofill ==> t.unsigned) witness IntFields(1, None, false, false)

  function Digits(n: nat): (r: string)
    ensures forall i :: 0 <= i < |r| ==> '0' <= r[i] <= '9'
  {
    if n < 10 then [('0' as int + n) as char] else Digits(n / 10) + [('0' as int + n % 10) as char]
  }

  function WidthText(t: IntType): (r: string)
    ensures forall i :: 0 <= i < |r| ==> r[i] == '(' || r[i] == ')' || '0' <= r[i] <= '9'
  {
    match t.width
    case None => ""
    case Some(w) => "(" + Digits(w) + ")"
  }

  function Suffix(t: IntType): string {
    (if t.unsigned then " unsigned" else "") + (if t.zerofill then " zerofill" else "")
  }

  function Render(t: IntType): string {
    INT_RANK[t.rank] + (WidthText(t) + Suffix(t))
  }

  function Bits(rank: nat): nat {
    match rank
    case 1 => 8
    case 2 => 16
    case 3 => 24
    case 4 => 32
    case _ => 64
  }

  function Pow2(n: nat): nat {
    if n == 0 then 1 else 2 * Pow2(n - 1)
  }

  function Lowest(t: IntType): int {
    if t.unsigned then 0 else 0 - Pow2(Bits(t.rank) - 1)
  }

  function Highest(t: IntType): int {
    if t.unsigned then Pow2(Bits(t.rank)) - 1 else Pow2(Bits(t.rank) - 1) - 1
  }

  /** Every value of type `a` is a value of type `b`. */
  predicate FitsIn(a: IntType, b: IntType) {
    Lowest(b) <= Lowest(a) && Highest(a) <= Highest(b)
  }

  lemma {:induction false} NotContains(s: string, needle: string, c: char)
    requires c in needle && c !in s
    ensures !Contains(s, needle)
  {
    if |s| > 0 {
      NotContains(s[1..], needle, c);
    }
  }

  lemma {:induction false} ContainsMiddle(a: string, needle: string, b: string)
    ensures Contains(a + (needle + b), needle)
  {
    if |a| == 0 {
      assert a + (needle + b) == needle + b;
      assert (needle + b)[..|needle|] == needle;
    } else {
      assert (a + (needle + b))[1..] == a[1..] + (needle + b);
      ContainsMiddle(a[1..], needle, b);
    }
  }

  lemma NameLetters(rank: nat)
    requires 1 <= rank <= 5
    ensures (if rank == 3 then 's' else 'u') !in INT_RANK[rank]
    ensures forall i :: 0 <= i < |INT_RANK[rank]| ==> 'a' <= INT_RANK[rank][i] <= 'z'
  {
    match rank
    case 1 => assert INT_RANK[1] == "tinyint";
    case 2 => assert INT_RANK[2] == "smallint";
    case 3 => assert INT_RANK[3] == "mediumint";
    case 4 => assert INT_RANK[4] == "int";
    case _ => assert INT_RANK[5] == "bigint";
  }

  lemma RenderUnsigned(t: IntType)
    ensures Contains(Render(t), "unsigned") <==> t.unsigned
  {
    hide Contains;
    var name, w := INT_RANK[t.rank], WidthText(t);
    if t.unsigned {
      var rest := if t.zerofill then " zerofill" else "";
      assert Suffix(t) == " " + ("unsigned" + rest);
      assert Render(t) == (name + w + " ") + ("unsigned" + rest);
      ContainsMiddle(name + w + " ", "unsigned", rest);
    } else {
      assert Suffix(t) == "";
      assert Render(t) == name + w;
      var c := if t.rank == 3 then 's' else 'u';
      assert "unsigned"[0] == 'u' && "unsigned"[2] == 's';
      NameLetters(t.rank);
      assert c !in w;
      NotContains(name + w, "unsigned", c);
    }
  }

  lemma RenderRank(t: IntType)
    ensures Rank(Render(t)) == t.rank
  {
    hide WidthText, Suffix;
    var name := INT_RANK[t.rank];
    assert Render(t)[..|name|] == name;
    match t.rank
    case 1 => assert name == "tinyint" && HasPrefix(Render(t), "tinyint");
    case 2 => assert name == "smallint" && Render(t)[0] == 's' && HasPrefix(Render(t), "smallint");
    case 3 => assert name == "mediumint" && Render(t)[0] == 'm' && HasPrefix(Render(t), "mediumint");
    case 4 => assert name == "int" && Render(t)[0] == 'i' && HasPrefix(Render(t), "int");
    case _ => assert name == "bigint" && Render(t)[0] == 'b' && HasPrefix(Render(t), "bigint");
  }

  lemma RenderLower(t: IntType)
    ensures ToLower(Render(t)) == Render(t)
  {
    var name, w, suffix := INT_RANK[t.rank], WidthText(t), Suffix(t);
    NameLetters(t.rank);
    SuffixLower(t);
    forall i | 0 <= i < |Render(t)| ensures !('A' <= Render(t)[i] <= 'Z') {
      hide INT_RANK, WidthText, Suffix;
      if i < |name| {
        assert Render(t)[i] == name[i];
      } else if i < |name| + |w| {
        assert Render(t)[i] == w[i - |name|];
      } else {
        assert Render(t)[i] == suffix[i - |name| - |w|];
      }
    }
  }

  lemma SuffixLower(t: IntType)
    ensures forall i :: 0 <= i < |Suffix(t)| ==> !('A' <= Suffix(t)[i] <= 'Z')
  {
  }

  lemma {:induction false} PowGrows(a: nat, b: nat)
    requires a <= b
    ensures Pow2(a) <= Pow2(b) && (a < b ==> Pow2(a) < Pow2(b))
    decreases b
  {
    PowPositive(a);
    if a < b {
      PowGrows(a, b - 1);
    }
  }

  lemma RangesByRank(a: IntType, b: IntType)
    ensures FitsIn(a, b) <==>
            if a.unsigned == b.unsigned then a.rank <= b.rank else a.unsigned && a.rank < b.rank
  {
    hide Pow2;
    var x, y := Bits(a.rank), Bits(b.rank);
    assert Pow2(x) == 2 * Pow2(x - 1) && Pow2(y) == 2 * Pow2(y - 1) by { DoublePow(x - 1); DoublePow(y - 1); }
    if x <= y {
      PowGrows(x, y);
    } else {
      PowGrows(y, x);
    }
    if x < y {
      PowGrows(x, y - 1);
    } else {
      PowGrows(y - 1, x - 1);
    }
    PowPositive(x - 1);
    PowPositive(y - 1);
  }

  lemma DoublePow(n: nat)
    ensures Pow2(n + 1) == 2 * Pow2(n)
  {
  }

  lemma {:induction false} PowPositive(n: nat)
    ensures Pow2(n) >= 1
  {
    if n > 0 {
      PowPositive(n - 1);
    }
  }

  /** A change between integer types on a non-virtual column passes the gate
      exactly when every old value fits the new type, whatever the display widths. */
  lemma IntegerGateIsExact(judge: Judge, oldColumn: Column, newColumn: Column, a: IntType, b: IntType)
    requires !oldColumn.def.virtual && oldColumn.def.charSet == newColumn.def.charSet
    requires oldColumn.def.typeInDB == Render(a) && newColumn.def.typeInDB == Render(b)
    ensures !Unsafe(judge, oldColumn, newColumn) <==> FitsIn(a, b)
  {
    RenderLower(a);
    RenderLower(b);
    RenderUnsigned(a);
    RenderUnsigned(b);
    RenderRank(a);
    RenderRank(b);
    RangesByRank(a, b);
  }
}
