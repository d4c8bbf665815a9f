// Quoting of identifiers and values (internal/tengo/util.go), and reading them back
// (internal/tengo/lexer.go, internal/tengo/parser.go).

module Quoting {
  import opened Text
  import opened LexSpec

  /** strings.Replace(s, c, with, -1). */
  function ReplaceChar(s: string, c: char, with: string): string {
    if |s| == 0 then "" else (if s[0] == c then with else [s[0]]) + ReplaceChar(s[1..], c, with)
  }

  lemma {:induction false} ReplaceConcat(a: string, b: string, c: char, with: string)
    ensures ReplaceChar(a + b, c, with) == ReplaceChar(a, c, with) + ReplaceChar(b, c, with)
  {
    if |a| == 0 {
      assert a + b == b;
    } else {
      assert (a + b)[1..] == a[1..] + b;
      ReplaceConcat(a[1..], b, c, with);
    }
  }

  // ----- identifiers -----

  function EscapeIdentifier(input: string): string {
    "`" + ReplaceChar(input, '`', "``") + "`"
  }

  /** strings.Replace(s, "``", "`", -1). */
  function Undouble(s: string): string {
    if |s| >= 2 && s[0] == '`' && s[1] == '`' then ['`'] + Undouble(s[2..])
    else if |s| > 0 then [s[0]] + Undouble(s[1..])
    else ""
  }

  function StripBackticks(input: string): string {
    if |input| < 2 || input[0] != '`' || input[|input| - 1] != '`' then input else Undouble(input[1..|input| - 1])
  }

  lemma {:induction false} UndoubleDoubled(s: string)
    ensures Undouble(ReplaceChar(s, '`', "``")) == s
  {
    if |s| > 0 {
      UndoubleDoubled(s[1..]);
      var rest := ReplaceChar(s[1..], '`', "``");
      if s[0] == '`' {
        assert ReplaceChar(s, '`', "``")[2..] == rest;
      } else {
        assert ReplaceChar(s, '`', "``")[1..] == rest;
      }
      assert s == [s[0]] + s[1..];
    }
  }

  /** Stripping the backticks of an escaped identifier gives the identifier back. */
  lemma StripEscaped(s: string)
    ensures StripBackticks(EscapeIdentifier(s)) == s
  {
    var e := EscapeIdentifier(s);
    assert e[1..|e| - 1] == ReplaceChar(s, '`', "``");
    UndoubleDoubled(s);
  }

  lemma {:induction false} DoubledEnds(t: string, i: nat, s: string, rest: string)
    requires i <= |t| && t[i..] == ReplaceChar(s, '`', "``") + "`" + rest
    ensures |t| == i + |ReplaceChar(s, '`', "``")| + 1 + |rest|
    ensures !HasPrefix(rest, "`") ==> StringEnd(t, i, '`', false) == (|t| - |rest|, true)
    ensures HasPrefix(rest, "`") ==> StringEnd(t, i, '`', false).0 > |t| - |rest|
    decreases |s|
  {
    var quoted := ReplaceChar(s, '`', "``");
    assert |t[i..]| == |t| - i;
    if |s| == 0 {
      assert t[i] == t[i..][0] == '`';
      assert |rest| > 0 ==> t[i + 1] == t[i..][1] == rest[0];
    } else {
      var tail := ReplaceChar(s[1..], '`', "``");
      var size := if s[0] == '`' then 2 else 1;
      assert quoted[size..] == tail;
      assert t[i + size..] == t[i..][size..] == tail + "`" + rest;
      DoubledEnds(t, i + size, s[1..], rest);
      assert t[i] == t[i..][0] == s[0];
      if s[0] == '`' {
        assert t[i + 1] == t[i..][1] == '`';
      }
    }
  }

  /** An escaped identifier is read as exactly one identifier token, unless another
      backtick follows it, whatever the identifier contains. */
  lemma IdentifierIsOneToken(s: string, rest: string, afterFiller: bool, delimiter: string)
    requires !HasPrefix(EscapeIdentifier(s) + rest, delimiter)
    ensures NextToken(EscapeIdentifier(s) + rest, afterFiller, delimiter) == Token(|EscapeIdentifier(s)|, Ident, false)
            <==> !HasPrefix(rest, "`")
  {
    hide ReplaceChar;
    var t := EscapeIdentifier(s) + rest;
    assert t[1..] == ReplaceChar(s, '`', "``") + "`" + rest;
    DoubledEnds(t, 1, s, rest);
    assert t[0] == '`';
  }

  // ----- values -----

  const REPLACEMENTS: seq<(char, string)> := [('\\', "\\\\"), ('\0', "\\0"), ('\'', "''"), ('\n', "\\n"), ('\r', "\\r")]

  /** What becomes of one character. */
  function EscapeChar(c: char): string {
    if c == '\\' then "\\\\"
    else if c == '\0' then "\\0"
    else if c == '\'' then "''"
    else if c == '\n' then "\\n"
    else if c == '\r' then "\\r"
    else [c]
  }

  function EscapeValue(s: string): string {
    if |s| == 0 then "" else EscapeChar(s[0]) + EscapeValue(s[1..])
  }

  /** What the first `k` passes make of one character. */
  function PassesOn(c: char, k: nat): string
    requires k <= |REPLACEMENTS|
  {
    if exists j :: 0 <= j < k && REPLACEMENTS[j].0 == c then EscapeChar(c) else [c]
  }

  function Passes(s: string, k: nat): string
    requires k <= |REPLACEMENTS|
  {
    if |s| == 0 then "" else PassesOn(s[0], k) + Passes(s[1..], k)
  }

  lemma PassOn(c: char, k: nat)
    requires k < |REPLACEMENTS|
    ensures ReplaceChar(PassesOn(c, k), REPLACEMENTS[k].0, REPLACEMENTS[k].1) == PassesOn(c, k + 1)
  {
    var (old_, new_) := REPLACEMENTS[k];
    var before := PassesOn(c, k);
    assert |before| <= 2;
    assert ReplaceChar(before, old_, new_)
        == (if before[0] == old_ then new_ else [before[0]]) + ReplaceChar(before[1..], old_, new_);
    assert |before| == 2 ==> ReplaceChar(before[1..], old_, new_) == if before[1] == old_ then new_ else [before[1]];
    assert REPLACEMENTS[0].0 == '\\' && REPLACEMENTS[1].0 == '\0' && REPLACEMENTS[2].0 == '\''
        && REPLACEMENTS[3].0 == '\n' && REPLACEMENTS[4].0 == '\r';
  }

  lemma {:induction false} PassAll(s: string, k: nat)
    requires k < |REPLACEMENTS|
    ensures ReplaceChar(Passes(s, k), REPLACEMENTS[k].0, REPLACEMENTS[k].1) == Passes(s, k + 1)
  {
    hide PassesOn, EscapeChar;
    if |s| > 0 {
      PassAll(s[1..], k);
      PassOn(s[0], k);
      ReplaceConcat(PassesOn(s[0], k), Passes(s[1..], k), REPLACEMENTS[k].0, REPLACEMENTS[k].1);
    }
  }

  lemma {:induction false} NoPasses(s: string)
    ensures Passes(s, 0) == s
  {
    if |s| > 0 {
      NoPasses(s[1..]);
    }
  }

  lemma {:induction false} AllPasses(s: string)
    ensures Passes(s, |REPLACEMENTS|) == EscapeValue(s)
  {
    if |s| > 0 {
      AllPasses(s[1..]);
      var c := s[0];
      assert REPLACEMENTS[0].0 == '\\' && REPLACEMENTS[1].0 == '\0' && REPLACEMENTS[2].0 == '\''
          && REPLACEMENTS[3].0 == '\n' && REPLACEMENTS[4].0 == '\r';
    }
  }

  /** The five replacement passes, each over the result of the one before, amount to
      a single pass that escapes character by character. */
  method EscapeValueForCreateTable(input: string) returns (r: string)
    ensures r == EscapeValue(input)
  {
    hide ReplaceChar, Passes;
    r := input;
    NoPasses(input);
    for n := 0 to |REPLACEMENTS|
      invariant r == Passes(input, n)
    {
      PassAll(input, n);
      r := ReplaceChar(r, REPLACEMENTS[n].0, REPLACEMENTS[n].1);
    }
    AllPasses(input);
  }

  lemma {:induction false} EscapedEnds(t: string, i: nat, s: string, rest: string)
    requires i <= |t| && t[i..] == EscapeValue(s) + "'" + rest
    ensures |t| == i + |EscapeValue(s)| + 1 + |rest|
    ensures !HasPrefix(rest, "'") ==> StringEnd(t, i, '\'', false) == (|t| - |rest|, true)
    ensures HasPrefix(rest, "'") ==> StringEnd(t, i, '\'', false).0 > |t| - |rest|
    decreases |s|
  {
    assert |t[i..]| == |t| - i;
    if |s| == 0 {
      assert t[i] == t[i..][0] == '\'';
      assert |rest| > 0 ==> t[i + 1] == t[i..][1] == rest[0];
    } else {
      hide EscapeChar, StringEnd;
      var head, tail := EscapeChar(s[0]), EscapeValue(s[1..]);
      assert EscapeValue(s) + "'" + rest == head + (tail + "'" + rest);
      EscapedStep(t, i, s[0], tail + "'" + rest);
      EscapedEnds(t, i + |head|, s[1..], rest);
      assert |EscapeValue(s)| == |head| + |tail|;
    }
  }

  lemma EscapedStep(t: string, i: nat, c: char, tail: string)
    requires i <= |t| && t[i..] == EscapeChar(c) + tail && |tail| > 0
    ensures i + |EscapeChar(c)| < |t| && t[i + |EscapeChar(c)|..] == tail
    ensures StringEnd(t, i, '\'', false) == StringEnd(t, i + |EscapeChar(c)|, '\'', false)
  {
    var head := EscapeChar(c);
    assert t[i + |head|..] == t[i..][|head|..];
    assert t[i] == t[i..][0] == head[0];
    assert |head| == 2 ==> t[i + 1] == t[i..][1] == head[1];
  }

  /** A quoted value is read as exactly one string token, unless another quote follows it. */
  lemma ValueIsOneToken(s: string, rest: string, afterFiller: bool, delimiter: string)
    requires !HasPrefix("'" + EscapeValue(s) + "'" + rest, delimiter)
    ensures NextToken("'" + EscapeValue(s) + "'" + rest, afterFiller, delimiter)
            == Token(|EscapeValue(s)| + 2, Str, false)
            <==> !HasPrefix(rest, "'")
  {
    hide EscapeValue;
    var t := "'" + EscapeValue(s) + "'" + rest;
    assert t[1..] == EscapeValue(s) + "'" + rest;
    EscapedEnds(t, 1, s, rest);
    assert t[0] == '\'';
  }

  // ----- reading a value back -----

  /** The value of the inside of a single-quoted literal: a backslash escapes the next
      character, a doubled quote stands for one. */
  function LiteralValue(s: string): string {
    if |s| == 0 then ""
    else if s[0] == '\\' && |s| >= 2 then [Unescaped(s[1])] + LiteralValue(s[2..])
    else if s[0] == '\'' && |s| >= 2 && s[1] == '\'' then ['\''] + LiteralValue(s[2..])
    else [s[0]] + LiteralValue(s[1..])
  }

  function Unescaped(c: char): char {
    if c == '0' then '\0' else if c == 'n' then '\n' else if c == 'r' then '\r' else c
  }

  lemma ValueOfHead(c: char, tail: string)
    ensures LiteralValue(EscapeChar(c) + tail) == [c] + LiteralValue(tail)
  {
    var head := EscapeChar(c);
    assert (head + tail)[|head|..] == tail;
  }

  /** An escaped value stands for the value itself. */
  lemma {:induction false} EscapedMeansValue(s: string)
    ensures LiteralValue(EscapeValue(s)) == s
  {
    if |s| > 0 {
      hide LiteralValue, EscapeChar;
      EscapedMeansValue(s[1..]);
      ValueOfHead(s[0], EscapeValue(s[1..]));
      assert s == [s[0]] + s[1..];
    } else {
      assert LiteralValue("") == "" by { NoValue(); }
    }
  }

  lemma NoValue()
    ensures LiteralValue("") == ""
  {
  }
}
