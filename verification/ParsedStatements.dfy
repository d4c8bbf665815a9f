// What a list of parsed statements has to satisfy (internal/tengo/parser.go).

module ParsedStatements {
  import opened LexSpec
  import opened Utf8
  import opened Positions
  import opened Statements
  import L = Lexer

  datatype ObjectType = NoObject | Table | Function | Procedure

  /** tengo.Statement. */
  datatype Stmt = Stmt(
    line: nat, char_: nat, text: string, kind: Kind, objectType: ObjectType, objectName: string, qualifier: string,
    delimiter: string, defaultDatabase: string, compound: bool, nameClause: string)

  function Texts(stmts: seq<Stmt>): string {
    if |stmts| == 0 then "" else Texts(stmts[..|stmts| - 1]) + stmts[|stmts| - 1].text
  }

  lemma TextsMore(stmts: seq<Stmt>, s: Stmt)
    ensures Texts(stmts + [s]) == Texts(stmts) + s.text
  {
    assert (stmts + [s])[..|stmts|] == stmts;
  }

  // ----- positions -----

  /** The byte-order mark is a statement of its own, at character 0; the next
      statement starts at character 1. */
  predicate IsBom(s: Stmt) {
    s.char_ == 0
  }

  function PosAfter(p: Pos, s: Stmt): Pos {
    if IsBom(s) then START else AfterText(p, s.text)
  }

  /** The position behind a list of statements, statement by statement. */
  function PosOf(stmts: seq<Stmt>): Pos {
    if |stmts| == 0 then START else PosAfter(PosOf(stmts[..|stmts| - 1]), stmts[|stmts| - 1])
  }

  /** Lines and columns are counted from 1 on. */
  lemma {:induction false} PositionsPositive(stmts: seq<Stmt>)
    ensures PosOf(stmts).col > 0 && PosOf(stmts).line > 0
  {
    if |stmts| > 0 {
      PositionsPositive(stmts[..|stmts| - 1]);
      NeverBack(PosOf(stmts[..|stmts| - 1]), stmts[|stmts| - 1].text);
    }
  }

  predicate PlacedAt(p: Pos, s: Stmt) {
    if IsBom(s) then p == START && s.line == 1 && s.text == L.BOM else Pos(s.line, s.char_) == p
  }

  predicate Placed(stmts: seq<Stmt>) {
    forall i :: 0 <= i < |stmts| ==> PlacedAt(PosOf(stmts[..i]), stmts[i])
  }

  lemma PosMore(stmts: seq<Stmt>, s: Stmt)
    ensures PosOf(stmts + [s]) == PosAfter(PosOf(stmts), s)
  {
    assert (stmts + [s])[..|stmts|] == stmts;
  }

  lemma PlacedMore(stmts: seq<Stmt>, s: Stmt)
    requires Placed(stmts) && PlacedAt(PosOf(stmts), s)
    ensures Placed(stmts + [s])
  {
    forall i | 0 <= i < |stmts + [s]| ensures PlacedAt(PosOf((stmts + [s])[..i]), (stmts + [s])[i]) {
      assert i < |stmts| ==> (stmts + [s])[..i] == stmts[..i];
      assert i == |stmts| ==> (stmts + [s])[..i] == stmts;
    }
  }

  /** The text in front of a statement, not counting the byte-order mark. */
  function Preceding(stmts: seq<Stmt>): string {
    if |stmts| == 0 then ""
    else if IsBom(stmts[|stmts| - 1]) then ""
    else Preceding(stmts[..|stmts| - 1]) + stmts[|stmts| - 1].text
  }

  /** No rune reaches across the start of a statement, unless a line starts in the statement. */
  ghost predicate AllJoin(stmts: seq<Stmt>) {
    forall i :: 0 <= i < |stmts| ==> IsBom(stmts[i]) || Joins(Preceding(stmts[..i]), stmts[i].text)
  }

  /** Each statement starts with a rune. */
  ghost predicate StartWithRunes(stmts: seq<Stmt>) {
    forall i :: 0 <= i < |stmts| ==> RuneAt(stmts[i].text, 0)
  }

  /** The position behind the first `n` statements, counted statement by statement, is that of the whole text. */
  ghost predicate AbsoluteAt(stmts: seq<Stmt>, n: nat)
    requires n <= |stmts|
  {
    PosOf(stmts[..n]) == AfterText(START, Preceding(stmts[..n]))
  }

  ghost predicate Absolute(stmts: seq<Stmt>) {
    forall n :: 0 <= n <= |stmts| ==> AbsoluteAt(stmts, n)
  }

  /** Behind a byte-order mark, the position is absolute; behind another statement it
      is so if and only if it was so before, and the texts join. */
  lemma AbsoluteStep(stmts: seq<Stmt>, n: nat)
    requires n < |stmts|
    ensures IsBom(stmts[n]) ==> AbsoluteAt(stmts, n + 1)
    ensures !IsBom(stmts[n]) && AbsoluteAt(stmts, n) ==>
              (AbsoluteAt(stmts, n + 1) <==> Joins(Preceding(stmts[..n]), stmts[n].text))
  {
    hide AfterText, Joins;
    var longer := stmts[..n + 1];
    assert longer[..n] == stmts[..n] && longer[|longer| - 1] == stmts[n];
    NoText();
    AfterConcat(START, Preceding(stmts[..n]), stmts[n].text);
  }

  lemma {:induction false} AbsoluteUpTo(stmts: seq<Stmt>, n: nat)
    requires n <= |stmts| && forall i :: 0 <= i < n ==> IsBom(stmts[i]) || Joins(Preceding(stmts[..i]), stmts[i].text)
    ensures AbsoluteAt(stmts, n)
  {
    hide AbsoluteAt, Joins;
    if n == 0 {
      NothingPrecedes(stmts);
    } else {
      AbsoluteUpTo(stmts, n - 1);
      AbsoluteStep(stmts, n - 1);
    }
  }

  lemma NothingPrecedes(stmts: seq<Stmt>)
    ensures AbsoluteAt(stmts, 0)
  {
    NoText();
  }

  /** The positions of statements, and the one behind the last, are those in the whole text if
      and only if no rune reaches across the start of a statement without a line end. */
  lemma PositionsAreAbsoluteIff(stmts: seq<Stmt>)
    ensures Absolute(stmts) <==> AllJoin(stmts)
  {
    hide AbsoluteAt, Joins;
    if AllJoin(stmts) {
      forall n | 0 <= n <= |stmts| ensures AbsoluteAt(stmts, n) {
        AbsoluteUpTo(stmts, n);
      }
    }
    if Absolute(stmts) {
      forall i | 0 <= i < |stmts| ensures IsBom(stmts[i]) || Joins(Preceding(stmts[..i]), stmts[i].text) {
        AbsoluteStep(stmts, i);
      }
    }
  }

  /** The recorded line and column of each statement are those of its first
      character in the whole text, if each statement starts with a rune. */
  lemma PositionsAreAbsolute(stmts: seq<Stmt>)
    requires Placed(stmts) && StartWithRunes(stmts)
    ensures Absolute(stmts)
    ensures forall i :: 0 <= i < |stmts| && !IsBom(stmts[i]) ==>
              Pos(stmts[i].line, stmts[i].char_) == AfterText(START, Preceding(stmts[..i]))
  {
    hide AfterText, Joins;
    forall i | 0 <= i < |stmts| ensures Joins(Preceding(stmts[..i]), stmts[i].text) {
      LeadJoins(Preceding(stmts[..i]), stmts[i].text);
    }
    PositionsAreAbsoluteIff(stmts);
    forall i | 0 <= i < |stmts| && !IsBom(stmts[i])
      ensures Pos(stmts[i].line, stmts[i].char_) == AfterText(START, Preceding(stmts[..i]))
    {
      assert AbsoluteAt(stmts, i);
    }
  }

  lemma NoText()
    ensures AfterText(START, "") == START
  {
  }

  // ----- delimiters -----

  predicate IsDelimiterCommand(s: Stmt) {
    s.kind == Command && s.delimiter == NO_DELIMITER
  }

  /** `force[i]` is the delimiter in force at the start of statement `i`. It is never
      empty, is what the statement records unless that is a DELIMITER command, and
      changes at DELIMITER commands only. */
  ghost predicate Delimited(stmts: seq<Stmt>, force: seq<string>) {
    && |force| == |stmts| + 1 && force[0] == ";"
    && (forall i :: 0 <= i < |force| ==> force[i] != "")
    && (forall i :: 0 <= i < |stmts| ==>
        IsDelimiterCommand(stmts[i]) || (stmts[i].delimiter == force[i] && force[i + 1] == force[i]))
  }

  /** The finished statements and their delimiters. */
  ghost predicate Tracked(stmts: seq<Stmt>, force: seq<string>) {
    && Placed(stmts) && Delimited(stmts, force)
    && forall i :: 0 <= i < |stmts| ==> stmts[i].text != ""
  }

  lemma TrackedMore(stmts: seq<Stmt>, force: seq<string>, s: Stmt, d: string)
    requires Tracked(stmts, force) && |force| == |stmts| + 1 && PlacedAt(PosOf(stmts), s) && s.text != "" && d != ""
    requires IsDelimiterCommand(s) || (s.delimiter == force[|stmts|] && d == force[|stmts|])
    ensures Tracked(stmts + [s], force + [d]) && PosOf(stmts + [s]) == PosAfter(PosOf(stmts), s)
  {
    hide Placed, Delimited, PosOf, PlacedAt;
    PlacedMore(stmts, s);
    DelimitedMore(stmts, force, s, d);
    PosMore(stmts, s);
  }

  lemma DelimitedMore(stmts: seq<Stmt>, force: seq<string>, s: Stmt, d: string)
    requires Delimited(stmts, force) && d != ""
    requires IsDelimiterCommand(s) || (s.delimiter == force[|stmts|] && d == force[|stmts|])
    ensures Delimited(stmts + [s], force + [d])
  {
  }

  // ----- a rune that is split -----

  const LEAD: string := [0xC3 as char]
  const TRAIL: string := [0xA9 as char]

  function Plain(line: nat, char_: nat, text: string, kind: Kind, delimiter: string): Stmt {
    Stmt(line, char_, text, kind, NoObject, "", "", delimiter, "", false, "")
  }

  /** The first byte of a two-byte rune is made the delimiter, so the rune in line 2 is cut. */
  const SPLIT_RUNE: seq<Stmt> := [
    Plain(1, 1, "delimiter " + LEAD + "\n", Command, NO_DELIMITER), Plain(2, 1, LEAD, Noop, LEAD),
    Plain(2, 2, TRAIL + LEAD, UnknownKind, LEAD), Plain(2, 4, "z", UnknownKind, LEAD)]

  /** The text without its first line, if that is `line`. */
  lemma SecondLine(p: Pos, line: string, s: string)
    requires forall i :: 0 <= i < |line| ==> line[i] != '\n'
    ensures AfterText(p, line + "\n" + s) == AfterText(Pos(p.line + 1, 1), s)
  {
    hide AfterText;
    var t := line + "\n" + s;
    assert forall i :: 0 <= i < |line| ==> t[i] == line[i];
    assert t[|line|] == '\n' && LineLength(t) == |line|;
    assert t[|line| + 1..] == s;
    AfterUnfold(p, t);
  }

  lemma OneLine(p: Pos, s: string)
    requires forall i :: 0 <= i < |s| ==> s[i] != '\n'
    ensures AfterText(p, s) == Pos(p.line, p.col + RuneCount(s))
  {
    assert LineLength(s) == |s|;
  }

  lemma FewRunes()
    ensures RuneCount("") == 0 && RuneCount(LEAD) == 1 && RuneCount(TRAIL + LEAD) == 2
    ensures RuneCount(LEAD + TRAIL + LEAD) == 2
  {
    var s := LEAD + TRAIL + LEAD;
    assert s[2..] == LEAD && RuneSize(s) == 2;
    assert (TRAIL + LEAD)[1..] == LEAD && LEAD[1..] == "";
  }

  /** The column of the last statement is recorded as 4, but its character is the third of its line. */
  lemma SplitRuneIsMiscounted()
    ensures Placed(SPLIT_RUNE) && Delimited(SPLIT_RUNE, [";", LEAD, LEAD, LEAD, LEAD]) && !AllJoin(SPLIT_RUNE)
    ensures Texts(SPLIT_RUNE) == "delimiter " + LEAD + "\n" + LEAD + TRAIL + LEAD + "z"
    ensures AfterText(START, Preceding(SPLIT_RUNE[..3])) == Pos(2, 3) && SPLIT_RUNE[3].char_ == 4
  {
    var l := SPLIT_RUNE;
    hide AfterText, RuneCount, Texts, Preceding, PosOf;
    Two(l[0], l[1]);
    Four(l[0], l[1], l[2], l[3]);
    SplitRunePositions();
    Empty();
    assert l[..0] == [] && l[..1] == [l[0]] && l[..2] == [l[0], l[1]] && l[..3] == [l[0], l[1], l[2]];
    assert l[0].text + l[1].text + l[2].text == "delimiter " + LEAD + "\n" + (LEAD + TRAIL + LEAD);
    assert !AbsoluteAt(l, 3);
    PositionsAreAbsoluteIff(l);
  }

  lemma Two(a: Stmt, b: Stmt)
    requires !IsBom(a) && !IsBom(b)
    ensures PosOf([a]) == AfterText(START, a.text) && PosOf([a, b]) == AfterText(AfterText(START, a.text), b.text)
    ensures Preceding([a, b]) == a.text + b.text && Texts([a, b]) == a.text + b.text
  {
    hide PosOf, AfterText, Preceding, Texts;
    Empty();
    assert [] + [a] == [a] && [a] + [b] == [a, b];
    OneMore([], a);
    OneMore([a], b);
  }

  lemma Empty()
    ensures PosOf([]) == START && Preceding([]) == "" && Texts([]) == ""
  {
  }

  lemma Four(a: Stmt, b: Stmt, c: Stmt, d: Stmt)
    requires !IsBom(a) && !IsBom(b) && !IsBom(c)
    ensures PosOf([a, b, c]) == AfterText(AfterText(AfterText(START, a.text), b.text), c.text)
    ensures Preceding([a, b, c]) == a.text + b.text + c.text && Texts([a, b, c, d]) == a.text + b.text + c.text + d.text
  {
    hide PosOf, AfterText, Preceding, Texts;
    Two(a, b);
    assert [a, b] + [c] == [a, b, c] && [a, b, c] + [d] == [a, b, c, d];
    OneMore([a, b], c);
    TextsMore([a, b, c], d);
  }

  lemma OneMore(stmts: seq<Stmt>, s: Stmt)
    requires !IsBom(s)
    ensures PosOf(stmts + [s]) == AfterText(PosOf(stmts), s.text)
    ensures Preceding(stmts + [s]) == Preceding(stmts) + s.text && Texts(stmts + [s]) == Texts(stmts) + s.text
  {
    hide AfterText;
    assert (stmts + [s])[..|stmts|] == stmts;
  }

  lemma SplitRunePositions()
    ensures AfterText(START, "delimiter " + LEAD + "\n") == Pos(2, 1)
    ensures AfterText(Pos(2, 1), LEAD) == Pos(2, 2) && AfterText(Pos(2, 2), TRAIL + LEAD) == Pos(2, 4)
    ensures AfterText(START, "delimiter " + LEAD + "\n" + (LEAD + TRAIL + LEAD)) == Pos(2, 3)
  {
    var first := "delimiter " + LEAD;
    assert first + "\n" + "" == first + "\n";
    FewRunes();
    hide RuneCount;
    SecondLine(START, first, "");
    SecondLine(START, first, LEAD + TRAIL + LEAD);
    OneLine(Pos(2, 1), "");
    OneLine(Pos(2, 1), LEAD);
    OneLine(Pos(2, 2), TRAIL + LEAD);
    OneLine(Pos(2, 1), LEAD + TRAIL + LEAD);
  }
}
