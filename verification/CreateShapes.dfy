// What the tokens behind CREATE say about a statement, told from all of them at once, and that
// the parser, which reads ahead as few tokens as it needs, sees enough (internal/tengo/parser.go).

module CreateShapes {
  import opened Text
  import opened LexSpec
  import opened Statements
  import opened ParsedStatements
  import opened ParserTokens
  import opened TokenGroups
  import T = ParserTokens
  import Q = Quoting

  type Token = T.Token

  // ----- the object that a CREATE statement is about -----

  /** The tokens up to and including the first delimiter. */
  function Visible(ts: seq<Token>): (r: seq<Token>)
    ensures r <= ts
  {
    if |ts| == 0 then [] else if ts[0].typ == Delimiter then [ts[0]] else [ts[0]] + Visible(ts[1..])
  }

  /** The number of tokens of IF NOT EXISTS, if the tokens start with it. */
  function OptionSize(ts: seq<Token>): (n: nat)
    ensures n <= |ts|
  {
    if Matches(ts, ["if", "not", "exists"]) then 3 else 0
  }

  /** The number of tokens of the user behind DEFINER =: CURRENT_USER, with or without parentheses, or user@host in
      front of another token. */
  function UserSize(ts: seq<Token>): (n: nat)
    ensures n <= |ts|
  {
    if Matches(ts, ["current_user", "(", ")"]) then 3
    else if Matches(ts, ["current_user"]) then 1
    else if |ts| >= 4 && ts[1].typ == Symbol && ts[1].val == "@" then 3
    else 0
  }

  /** The number of tokens of a DEFINER clause, which needs four tokens to be looked at. */
  function DefinerSize(ts: seq<Token>): (n: nat)
    ensures n <= |ts| && n <= 5
  {
    if |ts| < 4 || !Matches(ts, ["definer", "="]) || UserSize(ts[2..]) == 0 then 0 else 2 + UserSize(ts[2..])
  }

  /** The kind of object, its name, and the number of tokens up to the end of the name. */
  datatype Shape = Shape(objectType: ObjectType, used: nat, qualifier: string, name: string)

  /** What the tokens behind CREATE tell: any number of DEFINER clauses, the kind of object, IF NOT EXISTS or not, and
      the name. */
  function ShapeOf(ts: seq<Token>): (r: Shape)
    ensures r.used <= |ts|
    decreases |ts|
  {
    if |ts| == 0 then Shape(NoObject, 0, "", "")
    else if ObjectOf(ts[0]) != NoObject then
      var n := 1 + OptionSize(ts[1..]);
      Shape(ObjectOf(ts[0]), n + NameSize(ts[n..]), NameIn(ts[n..]).0, NameIn(ts[n..]).1)
    else if ts[0].typ == Word && DefinerSize(ts) > 0 then
      var r := ShapeOf(ts[DefinerSize(ts)..]);
      r.(used := r.used + DefinerSize(ts))
    else Shape(NoObject, 0, "", "")
  }

  /** The statement has that kind and name if there is a name, and is compound exactly if it is a routine with BEGIN
      behind its name. */
  predicate Agrees(s: Stmt, shape: Shape, behind: seq<Token>) {
    && (s.qualifier, s.objectName) == (shape.qualifier, shape.name)
    && s.objectType == (if shape.name == "" then NoObject else shape.objectType)
    && s.kind == (if shape.name == "" then UnknownKind else Create)
    && s.compound == (shape.objectType in {Procedure, Function} && HasBegin(behind))
  }

  /** A statement of which nothing was recognized. */
  predicate Unrecognized(s: Stmt) {
    s.kind == UnknownKind && s.objectName == s.qualifier == "" && s.objectType == NoObject && !s.compound
  }

  /** The statement is what the tokens behind CREATE tell. */
  predicate Told(s: Stmt, ts: seq<Token>) {
    var shape := ShapeOf(Visible(ts));
    Agrees(s, shape, ts[shape.used..])
  }

  /** No token has an unquoted space in it. */
  predicate Spaceless(ts: seq<Token>) {
    forall i :: 0 <= i < |ts| ==> Separate(ts[i].val)
  }

  /** No token has an unquoted space in it, and no delimiter is the word EXISTS. */
  predicate Undisturbed(ts: seq<Token>) {
    Spaceless(ts) && forall t :: t in ts && t.typ == Delimiter ==> ToLower(t.val) != "exists"
  }

  /** A statement that starts with CREATE is what the tokens behind that tell. A statement is a no-op exactly if it is
      filler or a delimiter of its own, and unknown if it starts with any other token but a client command. */
  predicate ToldByTokens(s: Stmt, g: seq<Token>) {
    |g| > 0 ==>
      match Keyword(g[0])
      case FillerOrDelimiter => s.kind == Noop && |g| == 1
      case CreateWord =>
        s.kind != Noop && (Undisturbed(NonFiller(g)) ==> |NonFiller(g)| > 0 && Told(s, NonFiller(g)[1..]))
      case Other => Unrecognized(s)
      case _ => s.kind != Noop
  }

  /** A DELIMITER command. */
  predicate Declares(g: seq<Token>) {
    |g| > 0 && Keyword(g[0]).DelimiterWord?
  }

  /** There is a DELIMITER command in front of statement `i`. */
  predicate DeclaredBy(groups: seq<seq<Token>>, i: nat) {
    exists j :: 0 <= j < i && j < |groups| && Declares(groups[j])
  }

  predicate AllTold(stmts: seq<Stmt>, groups: seq<seq<Token>>) {
    |groups| == |stmts| && forall i :: 0 <= i < |stmts| ==> ToldByTokens(stmts[i], groups[i])
  }

  /** Of the first `n` statements, only those behind a DELIMITER command are compound. */
  predicate Declared(stmts: seq<Stmt>, groups: seq<seq<Token>>, n: int) {
    forall i :: 0 <= i < n && i < |stmts| && stmts[i].compound ==> DeclaredBy(groups, i)
  }

  lemma NothingTold(stmts: seq<Stmt>, groups: seq<seq<Token>>)
    requires stmts == [] && groups == []
    ensures AllTold(stmts, groups) && Declared(stmts, groups, |stmts|)
  {
  }

  lemma DeclaredFewer(stmts: seq<Stmt>, groups: seq<seq<Token>>, n: int)
    requires Declared(stmts, groups, n)
    ensures Declared(stmts, groups, n - 1)
  {
  }

  lemma ToldMore(stmts: seq<Stmt>, before: seq<seq<Token>>, s: Stmt, groups: seq<seq<Token>>)
    requires AllTold(stmts, before) && Declared(stmts, before, |stmts|)
    requires |groups| == |before| + 1 && groups[..|before|] == before && ToldByTokens(s, groups[|before|])
    ensures AllTold(stmts + [s], groups) && Declared(stmts + [s], groups, |stmts|)
    ensures (s.compound ==> DeclaredBy(before, |before|)) ==> Declared(stmts + [s], groups, |stmts| + 1)
    ensures DeclaredBy(groups, |groups|) <==> DeclaredBy(before, |before|) || Declares(groups[|before|])
  {
    hide Declares, ToldByTokens;
    assert forall j :: 0 <= j < |before| ==> groups[j] == before[j];
    assert forall i :: 0 <= i <= |before| ==> (DeclaredBy(groups, i) <==> DeclaredBy(before, i));
  }

  // ----- what is read ahead is enough -----

  /** `tokens` are all the tokens of `ts`, or the first `n`, or those up to a delimiter. */
  predicate Sees(tokens: seq<Token>, n: nat, ts: seq<Token>) {
    tokens <= ts && UpToDelimiter(tokens) && (|tokens| >= n || EndsInDelimiter(tokens) || tokens == ts)
  }

  lemma {:induction false} VisibleFrom(front: seq<Token>, ts: seq<Token>)
    requires forall i :: 0 <= i < |front| ==> front[i].typ != Delimiter
    ensures Visible(front + ts) == front + Visible(ts)
  {
    if |front| == 0 {
      assert front + ts == ts;
    } else {
      assert (front + ts)[1..] == front[1..] + ts;
      VisibleFrom(front[1..], ts);
    }
  }

  /** What is read ahead is visible, and enough of it. */
  lemma SeesVisible(tokens: seq<Token>, n: nat, ts: seq<Token>)
    requires Sees(tokens, n, ts)
    ensures tokens <= Visible(ts) && (|tokens| >= n || tokens == Visible(ts))
  {
    if EndsInDelimiter(tokens) {
      var k := |tokens| - 1;
      assert ts == tokens[..k] + ts[k..];
      VisibleFrom(tokens[..k], ts[k..]);
      assert tokens == tokens[..k] + [tokens[k]];
    } else {
      assert ts == tokens + ts[|tokens|..];
      VisibleFrom(tokens, ts[|tokens|..]);
    }
  }

  lemma MatchesSeen(a: seq<Token>, b: seq<Token>, want: seq<string>)
    requires a <= b && (|a| >= |want| || a == b)
    ensures Matches(a, want) == Matches(b, want)
  {
    hide ToLower;
  }

  lemma OptionSeen(a: seq<Token>, b: seq<Token>)
    requires a <= b && (|a| >= 3 || a == b)
    ensures OptionSize(a) == OptionSize(b)
  {
    hide Matches;
    MatchesSeen(a, b, ["if", "not", "exists"]);
  }

  lemma NameSeen(a: seq<Token>, b: seq<Token>)
    requires a <= b && (|a| >= 3 || a == b)
    ensures NameIn(a) == NameIn(b) && NameSize(a) == NameSize(b)
  {
    hide NameOf, HasPrefix;
  }

  lemma UserSeen(a: seq<Token>, b: seq<Token>)
    requires a <= b && (|a| >= 4 || a == b)
    ensures UserSize(a) == UserSize(b)
  {
    hide Matches;
    MatchesSeen(a, b, ["current_user", "(", ")"]);
    MatchesSeen(a, b, ["current_user"]);
  }

  lemma DefinerSeen(a: seq<Token>, b: seq<Token>)
    requires a <= b && (|a| >= 6 || a == b)
    ensures DefinerSize(a) == DefinerSize(b)
  {
    hide Matches, UserSize;
    if |a| >= 6 {
      assert a[2..] <= b[2..] && |a[2..]| >= 4;
      MatchesSeen(a, b, ["definer", "="]);
      UserSeen(a[2..], b[2..]);
    }
  }

  // ----- the parser's steps -----

  /** The keyword, an optional IF NOT EXISTS and the tokens of which the name is taken were read; enough of them,
      unless they are all there are. */
  predicate Shown(ts: seq<Token>, head: seq<Token>, keyword: Token, skipped: seq<Token>, named: seq<Token>) {
    && head + [keyword] + skipped + named <= ts && UpToDelimiter(skipped) && UpToDelimiter(named)
    && (|named| >= 3 || EndsInDelimiter(named) || ts == head + [keyword] + skipped + named)
    && (Spaceless(skipped + named) ==> |skipped| == OptionSize(skipped + named))
  }

  lemma SkippedUndisturbed(skipped: seq<Token>, more: seq<Token>)
    requires |skipped| == OptionSize(skipped + more) && Undisturbed(skipped)
    ensures forall i :: 0 <= i < |skipped| ==> skipped[i].typ != Delimiter || (i < 2 && |skipped| == 3)
    ensures |skipped| == 3 ==> skipped[2].typ != Delimiter
  {
    hide ToLower, Separate;
    if |skipped| == 3 {
      assert ToLower((skipped + more)[2].val) == "exists";
      assert skipped[2] in skipped;
    }
  }

  lemma UndisturbedTail(ts: seq<Token>, k: nat, n: nat)
    requires Undisturbed(ts) && k <= n <= |ts|
    ensures Undisturbed(ts[k..n])
  {
    hide Separate, ToLower;
    assert forall i :: 0 <= i < n - k ==> ts[k..n][i] == ts[k + i];
    forall t | t in ts[k..n] ensures t in ts {
    }
  }

  lemma Arranged(ts: seq<Token>, keyword: Token, skipped: seq<Token>, named: seq<Token>)
    requires [] + [keyword] + skipped + named <= ts
    ensures ts == [keyword] + skipped + ts[1 + |skipped|..] && named <= ts[1 + |skipped|..]
    ensures skipped == ts[1..1 + |skipped|] && skipped + named == ts[1..1 + |skipped + named|]
  {
    assert [] + [keyword] + skipped + named == [keyword] + skipped + named;
  }

  lemma SkippedFits(ts: seq<Token>, keyword: Token, skipped: seq<Token>, named: seq<Token>)
    requires Shown(ts, [], keyword, skipped, named) && Undisturbed(ts)
    ensures |skipped| == OptionSize(skipped + named) && forall t :: t in skipped ==> t.typ != Delimiter
  {
    hide OptionSize, Visible, Undisturbed, Spaceless;
    Arranged(ts, keyword, skipped, named);
    UndisturbedSpaceless(ts, 1, 1 + |skipped + named|);
    UndisturbedTail(ts, 1, 1 + |skipped|);
    SkippedUndisturbed(skipped, named);
  }

  /** The tokens in front of the name, none of which is a delimiter. */
  lemma FrontVisible(ts: seq<Token>, keyword: Token, skipped: seq<Token>, named: seq<Token>)
    requires Shown(ts, [], keyword, skipped, named) && Undisturbed(ts) && ObjectOf(keyword) != NoObject
    ensures 1 + |skipped| <= |ts| && |skipped| == OptionSize(skipped + named)
    ensures named <= ts[1 + |skipped|..] && Visible(ts) == [keyword] + skipped + Visible(ts[1 + |skipped|..])
  {
    hide OptionSize, Visible, Undisturbed, Spaceless, ObjectOf;
    SkippedFits(ts, keyword, skipped, named);
    KeywordIsWord(keyword);
    Arranged(ts, keyword, skipped, named);
    VisibleFrom([keyword] + skipped, ts[1 + |skipped|..]);
  }

  /** What the parser takes for the option and the name is what all the visible tokens tell. */
  lemma ShapeRead(ts: seq<Token>, keyword: Token, skipped: seq<Token>, named: seq<Token>)
    requires Shown(ts, [], keyword, skipped, named) && Undisturbed(ts) && ObjectOf(keyword) != NoObject
    ensures ShapeOf(Visible(ts)) == Shape(ObjectOf(keyword), 1 + |skipped| + NameSize(named), NameIn(named).0,
        NameIn(named).1)
  {
    hide NameIn, NameSize, OptionSize, Spaceless, Visible, Undisturbed, UpToDelimiter, EndsInDelimiter;
    FrontVisible(ts, keyword, skipped, named);
    var behind := ts[1 + |skipped|..];
    assert [] + [keyword] + skipped + named == ts ==> named == behind;
    SeesVisible(named, 3, behind);
    NameSeen(named, Visible(behind));
    OptionOfLonger(skipped, named, Visible(behind));
    ShapeOfParts(Visible(ts), keyword, skipped, Visible(behind));
  }

  lemma ShapeOfParts(v: seq<Token>, keyword: Token, skipped: seq<Token>, behind: seq<Token>)
    requires v == [keyword] + skipped + behind && |skipped| == OptionSize(skipped + behind)
    requires ObjectOf(keyword) != NoObject
    ensures ShapeOf(v) == Shape(ObjectOf(keyword), 1 + |skipped| + NameSize(behind), NameIn(behind).0, NameIn(behind).1)
  {
    hide NameIn, NameSize, OptionSize, ObjectOf;
    assert v[1..] == skipped + behind && v[1 + |skipped|..] == behind;
  }

  lemma UndisturbedSpaceless(ts: seq<Token>, k: nat, n: nat)
    requires Undisturbed(ts) && k <= n <= |ts|
    ensures Spaceless(ts[k..n])
  {
    hide Separate, ToLower;
    assert forall i :: 0 <= i < n - k ==> ts[k..n][i] == ts[k + i];
  }

  lemma KeywordIsWord(t: Token)
    requires ObjectOf(t) != NoObject
    ensures t.typ == Word
  {
  }

  lemma OptionOfLonger(skipped: seq<Token>, named: seq<Token>, behind: seq<Token>)
    requires named <= behind && (|named| >= 3 || named == behind)
    ensures OptionSize(skipped + behind) == OptionSize(skipped + named)
  {
    hide OptionSize;
    OptionSeen(skipped + named, skipped + behind);
  }

  lemma ShapeTold(s: Stmt, ts: seq<Token>, keyword: Token, skipped: seq<Token>, named: seq<Token>)
    requires Shown(ts, [], keyword, skipped, named) && Undisturbed(ts) && ObjectOf(keyword) != NoObject
    requires (s.qualifier, s.objectName) == NameIn(named)
    requires s.objectType == (if s.objectName == "" then NoObject else ObjectOf(keyword))
    requires s.kind == (if s.objectName == "" then UnknownKind else Create)
    requires s.compound == (ObjectOf(keyword) in {Procedure, Function}
                            && HasBegin(ts[1 + |skipped| + NameSize(named)..]))
    ensures Told(s, ts)
  {
    hide NameIn, NameSize, Shown, Undisturbed, HasBegin, ShapeOf;
    ShapeRead(ts, keyword, skipped, named);
  }

  // ----- DEFINER clauses -----

  lemma ShapeBehindDefiner(ts: seq<Token>, d: nat)
    requires |ts| > 0 && ts[0].typ == Word && d == DefinerSize(Visible(ts)) > 0 && d <= |ts|
    requires forall i :: 0 <= i < d ==> ts[i].typ != Delimiter
    ensures var shape := ShapeOf(Visible(ts[d..])); ShapeOf(Visible(ts)) == shape.(used := shape.used + d)
  {
    hide DefinerSize, ObjectOf, Visible, ShapeOf;
    var front, rest, v := ts[..d], ts[d..], Visible(ts);
    assert ts == front + rest;
    VisibleFrom(front, rest);
    DefinerIsNoObject(v);
    assert v[d..] == Visible(rest) && v[0] == ts[0];
    ShapeUnfold(v);
  }

  lemma ShapeUnfold(v: seq<Token>)
    requires |v| > 0 && v[0].typ == Word && ObjectOf(v[0]) == NoObject && DefinerSize(v) > 0
    ensures var shape := ShapeOf(v[DefinerSize(v)..]); ShapeOf(v) == shape.(used := shape.used + DefinerSize(v))
  {
    hide DefinerSize, NameIn, NameSize, OptionSize, ObjectOf;
  }

  lemma ToldBehindDefiner(s: Stmt, ts: seq<Token>, d: nat)
    requires |ts| > 0 && ts[0].typ == Word && d == DefinerSize(Visible(ts)) > 0 && d <= |ts|
    requires forall i :: 0 <= i < d ==> ts[i].typ != Delimiter
    requires Told(s, ts[d..])
    ensures Told(s, ts)
  {
    hide Agrees, DefinerSize, ShapeOf, Visible;
    ShapeBehindDefiner(ts, d);
    var shape := ShapeOf(Visible(ts[d..]));
    assert ts[shape.used + d..] == ts[d..][shape.used..];
    AgreesAnyway(s, shape, shape.used + d, ts[shape.used + d..]);
  }

  lemma AgreesAnyway(s: Stmt, shape: Shape, used: nat, behind: seq<Token>)
    requires Agrees(s, shape, behind)
    ensures Agrees(s, shape.(used := used), behind)
  {
  }

  lemma DefinerIsNoObject(ts: seq<Token>)
    ensures DefinerSize(ts) > 0 ==> |ts| > 0 && ObjectOf(ts[0]) == NoObject && ToLower(ts[0].val) == "definer"
  {
    hide ToLower;
    if DefinerSize(ts) > 0 {
      assert ToLower(ts[0].val) == "definer";
    }
  }

  /** Behind a DEFINER clause that ends with the delimiter, there is nothing to be recognized. */
  lemma UntoldBehindDefiner(s: Stmt, ts: seq<Token>)
    requires Unrecognized(s) && |ts| > 0 && ts[0].typ == Word
    requires DefinerSize(Visible(ts)) > 0 ==> DefinerSize(Visible(ts)) == |Visible(ts)|
    requires ObjectOf(ts[0]) == NoObject
    ensures Told(s, ts)
  {
    hide HasBegin, DefinerSize, NameIn, NameSize, OptionSize, ObjectOf;
    var v := Visible(ts);
    assert v[0] == ts[0];
    if DefinerSize(v) > 0 {
      assert v[DefinerSize(v)..] == [];
      assert ShapeOf([]) == Shape(NoObject, 0, "", "");
    }
    assert ShapeOf(v) == Shape(NoObject, DefinerSize(v), "", "");
  }

  lemma UntoldOther(s: Stmt, ts: seq<Token>)
    requires Unrecognized(s)
    requires |ts| > 0 ==> ObjectOf(ts[0]) == NoObject && (ts[0].typ != Word || ToLower(ts[0].val) != "definer")
    ensures Told(s, ts)
  {
    hide HasBegin, NameIn, NameSize, OptionSize, DefinerSize, ToLower, ObjectOf;
    if |ts| > 0 {
      var v := Visible(ts);
      DefinerIsNoObject(v);
      assert v[0] == ts[0];
    }
  }

  /** One token behind CREATE is too few. */
  lemma UntoldShort(s: Stmt, ts: seq<Token>)
    requires Unrecognized(s) && |Visible(ts)| < 2 && (ts == Visible(ts) || ObjectOf(ts[0]) == NoObject)
    ensures Told(s, ts)
  {
    var v := Visible(ts);
    if |v| == 1 {
      assert v[0] == ts[0] && v[1..] == [] && DefinerSize(v) == 0;
    }
  }

  // ----- joined texts and single tokens -----

  lemma LongestOne(tokens: seq<Token>, want: seq<string>)
    ensures LongestJoin(tokens, [want]) == if JoinsTo(tokens, want) then |want| else 0
  {
    hide JoinsTo;
    var none: seq<seq<string>> := [want][1..];
    assert none == [];
  }

  lemma WindowMatches(tokens: seq<Token>, n: nat, want: seq<string>)
    requires Spaceless(tokens) && |want| <= n && forall i :: 0 <= i < |want| ==> IsWanted(want[i])
    ensures JoinsTo(Window(tokens, n), want) == Matches(tokens, want)
  {
    hide JoinsTo, ToLower, Separate, IsWanted;
    JoinsIsMatches(Window(tokens, n), want);
    MatchesSeen(Window(tokens, n), tokens, want);
  }

  lemma OptionJoined(tokens: seq<Token>)
    requires Spaceless(tokens)
    ensures MaxLength(IF_NOT_EXISTS) == 3
    ensures LongestJoin(Window(tokens, 3), IF_NOT_EXISTS) == OptionSize(tokens)
  {
    hide JoinsTo, Matches, Spaceless, LongestJoin;
    assert IF_NOT_EXISTS[1..] == [] && IF_NOT_EXISTS == [["if", "not", "exists"]];
    LongestOne(Window(tokens, 3), ["if", "not", "exists"]);
    WindowMatches(tokens, 3, ["if", "not", "exists"]);
  }

  lemma DefinerJoined(tokens: seq<Token>)
    requires Spaceless(tokens)
    ensures MaxLength(DEFINER) == 2
    ensures LongestJoin(Window(tokens, 2), DEFINER) == if Matches(tokens, ["definer", "="]) then 2 else 0
  {
    hide JoinsTo, Matches, Spaceless, LongestJoin;
    assert DEFINER[1..] == [] && DEFINER == [["definer", "="]];
    LongestOne(Window(tokens, 2), ["definer", "="]);
    WindowMatches(tokens, 2, ["definer", "="]);
  }

  lemma UserJoined(tokens: seq<Token>)
    requires Spaceless(tokens)
    ensures MaxLength(CURRENT_USER) == 3
    ensures LongestJoin(Window(tokens, 3), CURRENT_USER)
            == if Matches(tokens, ["current_user", "(", ")"]) then 3
               else if Matches(tokens, ["current_user"]) then 1 else 0
  {
    hide JoinsTo, Matches, Spaceless;
    var more := CURRENT_USER[1..];
    assert more == [["current_user", "(", ")"]] && more[1..] == [];
    assert MaxLength(more[1..]) == 0 && MaxLength(more) == 3;
    LongestOne(Window(tokens, 3), ["current_user", "(", ")"]);
    WindowMatches(tokens, 3, ["current_user", "(", ")"]);
    WindowMatches(tokens, 3, ["current_user"]);
  }

  lemma UpToPrefix(a: seq<Token>, b: seq<Token>)
    requires UpToDelimiter(a + b)
    ensures UpToDelimiter(a) && (|b| > 0 ==> UpToDelimiter(b) && forall i :: 0 <= i < |a| ==> a[i].typ != Delimiter)
  {
    assert forall i :: 0 <= i < |a| ==> (a + b)[i] == a[i];
    assert forall i :: 0 <= i < |b| ==> (a + b)[|a| + i] == b[i];
  }

  lemma SpacelessPrefix(a: seq<Token>, b: seq<Token>)
    requires a <= b && Spaceless(b)
    ensures Spaceless(a)
  {
    hide Separate;
  }

  /** IF NOT EXISTS was looked for among enough tokens. */
  lemma OptionRead(skipped: seq<Token>, before: seq<Token>, named: seq<Token>)
    requires before <= named && (|skipped + before| >= 3 || before == named)
    requires var n := LongestJoin(Window(skipped + before, MaxLength(IF_NOT_EXISTS)), IF_NOT_EXISTS);
             n > |skipped + before| || n == |skipped|
    ensures Spaceless(skipped + named) ==> |skipped| == OptionSize(skipped + named)
  {
    if Spaceless(skipped + named) {
      hide LongestJoin, Window, OptionSize, Spaceless, MaxLength;
      SpacelessPrefix(skipped + before, skipped + named);
      OptionJoined(skipped + before);
      OptionSeen(skipped + before, skipped + named);
    }
  }

  lemma OptionTaken(skipped: seq<Token>, before: seq<Token>, named: seq<Token>, cut: bool)
    requires IsOption(skipped) && before <= named && (EndsInDelimiter(before) || cut ==> named == before)
    requires |skipped + before| >= MaxLength(IF_NOT_EXISTS) || cut || EndsInDelimiter(skipped + before)
    requires var n := LongestJoin(Window(skipped + before, MaxLength(IF_NOT_EXISTS)), IF_NOT_EXISTS);
             n > |skipped + before| || n == |skipped|
    ensures Spaceless(skipped + named) ==> |skipped| == OptionSize(skipped + named)
  {
    if Spaceless(skipped + named) {
      hide LongestJoin, Window, OptionSize, Spaceless, MaxLength, JoinsTo;
      SpacelessPrefix(skipped + before, skipped + named);
      OptionJoined(skipped + before);
      assert skipped == [] ==> skipped + before == before;
      OptionRead(skipped, before, named);
    }
  }

  /** A tail of the tokens, in which the same was read. */
  lemma ShownBehind(ts: seq<Token>, head: seq<Token>, keyword: Token, skipped: seq<Token>, named: seq<Token>)
    requires Shown(ts, head, keyword, skipped, named)
    ensures |head| <= |ts| && Shown(ts[|head|..], [], keyword, skipped, named)
  {
    hide Spaceless, OptionSize, UpToDelimiter, EndsInDelimiter;
    var front := [keyword] + skipped + named;
    assert head + [keyword] + skipped + named == head + front && [] + [keyword] + skipped + named == front;
    assert ts == head + front ==> ts[|head|..] == front;
  }

  /** What was read stays in front of what is read later; nothing is, behind an error. */
  lemma ShownLater(a: seq<Token>, b: seq<Token>, head: seq<Token>, keyword: Token, skipped: seq<Token>,
      named: seq<Token>, cut: bool)
    requires a <= b && (cut ==> a == b) && NonFiller(a) == head + [keyword] + skipped + named
    requires UpToDelimiter(skipped) && UpToDelimiter(named) && (|named| >= 3 || cut || EndsInDelimiter(named))
    requires Spaceless(skipped + named) ==> |skipped| == OptionSize(skipped + named)
    ensures Shown(NonFiller(b), head, keyword, skipped, named)
  {
    hide NonFiller, UpToDelimiter, EndsInDelimiter, Spaceless, OptionSize;
    NonFillerPrefix(a, b);
  }

  // ----- BEGIN behind the name of a routine -----

  lemma {:induction false} NonFillerConcat(a: seq<Token>, b: seq<Token>)
    ensures NonFiller(a + b) == NonFiller(a) + NonFiller(b)
  {
    if |b| == 0 {
      assert a + b == a;
    } else {
      var init := b[..|b| - 1];
      assert (a + b)[..|a + b| - 1] == a + init;
      NonFillerConcat(a, init);
      assert NonFiller(a) + (NonFiller(init) + [b[|b| - 1]]) == NonFiller(a) + NonFiller(init) + [b[|b| - 1]];
    }
  }

  lemma {:induction false} BeginInSome(ts: seq<Token>)
    ensures HasBegin(NonFiller(ts)) == HasBegin(ts)
  {
    if |ts| > 0 {
      var init, last := ts[..|ts| - 1], ts[|ts| - 1];
      assert ts == init + [last];
      BeginInSome(init);
      BeginMore(init, last);
      BeginMore(NonFiller(init), last);
    }
  }

  lemma BeginConcat(a: seq<Token>, b: seq<Token>)
    ensures HasBegin(a + b) <==> HasBegin(a) || HasBegin(b)
  {
    hide IsBegin;
    if HasBegin(a) {
      var i :| 0 <= i < |a| && IsBegin(a[i]);
      assert IsBegin((a + b)[i]);
    }
    if HasBegin(b) {
      var i :| 0 <= i < |b| && IsBegin(b[i]);
      assert IsBegin((a + b)[|a| + i]);
    }
  }

  /** The tokens behind the name, of which `rest` were read ahead and the others by the loop of the program. */
  lemma ProgramBehind(taken: seq<Token>, front: seq<Token>, rest: seq<Token>, all: seq<Token>)
    requires NonFiller(taken) == front + rest && rest <= all
    ensures NonFiller(taken + all[|rest|..]) == front + (rest + NonFiller(all[|rest|..]))
    ensures HasBegin(rest + NonFiller(all[|rest|..])) == HasBegin(all)
  {
    hide NonFiller, HasBegin;
    var scanned := all[|rest|..];
    assert all == rest + scanned;
    NonFillerConcat(taken, scanned);
    BeginConcat(rest, scanned);
    BeginConcat(rest, NonFiller(scanned));
    BeginInSome(scanned);
  }

  // ----- the DEFINER clause that the parser reads -----

  lemma ShortDefiner(ts: seq<Token>)
    requires |ts| < 4
    ensures DefinerSize(ts) == 0
  {
  }

  /** What was taken for the user of a DEFINER clause is what the tokens behind DEFINER = tell. */
  predicate UserTaken(tokens: seq<Token>, keyword: seq<Token>, accepted: bool, rest: seq<Token>, clause: seq<Token>) {
    Spaceless(tokens) ==>
      && accepted == (UserSize(tokens) > 0)
      && (accepted ==> clause == keyword + tokens[..UserSize(tokens)] && rest == tokens[UserSize(tokens)..])
  }

  lemma UserRead(tokens: seq<Token>, keyword: seq<Token>, user: seq<Token>, rest: seq<Token>)
    requires user + rest == tokens
    requires var n := LongestJoin(Window(tokens, MaxLength(CURRENT_USER)), CURRENT_USER); n > |tokens| || n == |user|
    ensures |user| > 0 ==> UserTaken(tokens, keyword, true, rest, keyword + user)
    ensures |user| == 0 ==>
              if |rest| >= 4 && rest[1].typ == Symbol && rest[1].val == "@"
              then UserTaken(tokens, keyword, true, rest[3..], keyword + rest[..3])
              else UserTaken(tokens, keyword, false, rest, [])
  {
    hide LongestJoin, Window, MaxLength, Spaceless;
    assert |user| == 0 ==> user + rest == rest;
    assert tokens[..|user|] == user && tokens[|user|..] == rest;
    if Spaceless(tokens) {
      UserJoined(tokens);
    }
  }

  lemma DefinerRead(grown: seq<Token>, keyword: seq<Token>, rest: seq<Token>)
    requires keyword + rest == grown && |grown| >= 4
    requires var n := LongestJoin(Window(grown, MaxLength(DEFINER)), DEFINER); n > |grown| || n == |keyword|
    ensures Spaceless(grown) && |keyword| != 2 ==> DefinerSize(grown) == 0
    ensures Spaceless(grown) && |keyword| == 2 ==>
              DefinerSize(grown) == if UserSize(rest) == 0 then 0 else 2 + UserSize(rest)
    ensures Spaceless(grown) ==> Spaceless(rest)
  {
    hide LongestJoin, Window, MaxLength, Spaceless, Matches, UserSize, DefinerSize;
    if Spaceless(grown) {
      DefinerJoined(grown);
      DefinerUnfold(grown);
      assert |keyword| == 2 ==> grown[2..] == rest;
      SpacelessTail(keyword, rest);
    }
  }

  lemma DefinerUnfold(ts: seq<Token>)
    requires |ts| >= 4
    ensures !Matches(ts, ["definer", "="]) ==> DefinerSize(ts) == 0
    ensures Matches(ts, ["definer", "="]) ==>
              DefinerSize(ts) == if UserSize(ts[2..]) == 0 then 0 else 2 + UserSize(ts[2..])
  {
    hide Matches, UserSize;
  }

  lemma SpacelessTail(a: seq<Token>, b: seq<Token>)
    requires Spaceless(a + b)
    ensures Spaceless(b)
  {
    hide Separate;
    assert forall i :: 0 <= i < |b| ==> b[i] == (a + b)[|a| + i];
  }

  lemma ClauseRead(grown: seq<Token>, keyword: seq<Token>, behind: seq<Token>, accepted: bool, rest: seq<Token>,
      clause: seq<Token>)
    requires keyword + behind == grown && |keyword| == 2 && UserTaken(behind, keyword, accepted, rest, clause)
    requires Spaceless(grown) ==>
               Spaceless(behind) && DefinerSize(grown) == if UserSize(behind) == 0 then 0 else 2 + UserSize(behind)
    ensures Spaceless(grown) ==> accepted == (DefinerSize(grown) > 0)
    ensures Spaceless(grown) && accepted ==> clause == grown[..DefinerSize(grown)] && rest == grown[|clause|..]
  {
    hide Spaceless, DefinerSize, UserSize;
    var n := UserSize(behind);
    assert keyword + behind[..n] == grown[..2 + n] && behind[n..] == grown[2 + n..];
  }

  lemma LongestUser()
    ensures MaxLength(CURRENT_USER) == 3 && MaxLength(DEFINER) == 2
  {
    var more := CURRENT_USER[1..];
    assert more == [["current_user", "(", ")"]] && more[1..] == [] && DEFINER[1..] == [];
    assert MaxLength(more[1..]) == 0 && MaxLength(more) == 3 && MaxLength(DEFINER[1..]) == 0;
  }

  // ----- the whole statement, from the tokens that were read ahead -----

  lemma LaterIs(a: seq<Token>, b: seq<Token>, head: seq<Token>, grown: seq<Token>, n: nat, cut: bool)
    requires a <= b && (cut ==> a == b) && NonFiller(a) == head + grown && UpToDelimiter(grown)
    requires |grown| >= n || cut || EndsInDelimiter(grown)
    ensures head <= NonFiller(b) && Sees(grown, n, NonFiller(b)[|head|..])
  {
    hide NonFiller, UpToDelimiter, EndsInDelimiter;
    NonFillerPrefix(a, b);
    assert (head + grown)[|head|..] == grown;
  }

  lemma ObjectTold(s: Stmt, ts: seq<Token>, head: seq<Token>, clauses: seq<seq<Token>>, keyword: Token,
      skipped: seq<Token>, named: seq<Token>, behind: seq<Token>)
    requires Laid(s, ts, head, clauses, keyword, skipped, named) && Shown(ts, head, keyword, skipped, named)
    requires Continues(ts, head, keyword, skipped, named, behind) && ObjectOf(keyword) != NoObject
    requires s.objectType == (if s.objectName == "" then NoObject else ObjectOf(keyword))
    requires s.kind == (if s.objectName == "" then UnknownKind else Create)
    requires s.compound == (ObjectOf(keyword) in {Procedure, Function} && HasBegin(behind))
    ensures head <= ts && (Undisturbed(ts) ==> Told(s, ts[|head|..]))
  {
    hide NameIn, NameSize, Shown, Undisturbed, HasBegin, ObjectOf, Defined, IsOption, Told;
    ShownBehind(ts, head, keyword, skipped, named);
    assert head <= ts;
    if Undisturbed(ts) {
      UndisturbedTail(ts, |head|, |ts|);
      assert ts[|head|..|ts|] == ts[|head|..];
      ContinuesBehind(ts, head, keyword, skipped, named, behind);
      ShapeTold(s, ts[|head|..], keyword, skipped, named);
    }
  }

  lemma ContinuesBehind(ts: seq<Token>, head: seq<Token>, keyword: Token, skipped: seq<Token>, named: seq<Token>,
      behind: seq<Token>)
    requires Continues(ts, head, keyword, skipped, named, behind)
    ensures 1 + |skipped| + NameSize(named) <= |ts[|head|..]|
    ensures ts[|head|..][1 + |skipped| + NameSize(named)..] == behind
  {
    hide NameSize;
  }

  lemma OtherTold(s: Stmt, a: seq<Token>, b: seq<Token>, head: seq<Token>, tokens: seq<Token>)
    requires a <= b && NonFiller(a) == head + tokens && Unrecognized(s)
    requires |tokens| > 0 ==>
               ObjectOf(tokens[0]) == NoObject && (tokens[0].typ != Word || ToLower(tokens[0].val) != "definer")
    ensures head <= NonFiller(b) && (tokens != [] ==> Told(s, NonFiller(b)[|head|..]))
  {
    hide NonFiller, Told, ObjectOf, ToLower;
    NonFillerPrefix(a, b);
    if tokens != [] {
      assert NonFiller(b)[|head|..][0] == tokens[0];
      UntoldOther(s, NonFiller(b)[|head|..]);
    }
  }

  lemma ShortTold(s: Stmt, a: seq<Token>, b: seq<Token>, head: seq<Token>, tokens: seq<Token>, cut: bool)
    requires a <= b && (cut ==> a == b) && NonFiller(a) == head + tokens && UpToDelimiter(tokens) && Unrecognized(s)
    requires |tokens| < 2 && (cut || EndsInDelimiter(tokens))
    ensures head <= NonFiller(b) && Told(s, NonFiller(b)[|head|..])
  {
    hide NonFiller, Told;
    LaterIs(a, b, head, tokens, 2, cut);
    var ts := NonFiller(b)[|head|..];
    SeesVisible(tokens, 2, ts);
    UntoldShort(s, ts);
  }

  lemma WithoutDefiner(s: Stmt, a: seq<Token>, b: seq<Token>, head: seq<Token>, grown: seq<Token>, cut: bool)
    requires a <= b && (cut ==> a == b) && NonFiller(a) == head + grown && UpToDelimiter(grown) && Unrecognized(s)
    requires |grown| >= 6 || cut || EndsInDelimiter(grown)
    requires |grown| > 0 && grown[0].typ == Word && ObjectOf(grown[0]) == NoObject
    requires Spaceless(grown) ==> DefinerSize(grown) == 0
    ensures head <= NonFiller(b) && (Undisturbed(NonFiller(b)) ==> Told(s, NonFiller(b)[|head|..]))
  {
    hide NonFiller, Told, DefinerSize, ObjectOf, Undisturbed, Spaceless;
    LaterIs(a, b, head, grown, 6, cut);
    if Undisturbed(NonFiller(b)) {
      var ts := NonFiller(b)[|head|..];
      GrownSpaceless(NonFiller(b), head, grown);
      SeesVisible(grown, 6, ts);
      DefinerSeen(grown, Visible(ts));
      UntoldBehindDefiner(s, ts);
    }
  }

  lemma GrownSpaceless(ts: seq<Token>, head: seq<Token>, grown: seq<Token>)
    requires Undisturbed(ts) && head <= ts && grown <= ts[|head|..]
    ensures Spaceless(grown)
  {
    hide Undisturbed;
    UndisturbedSpaceless(ts, |head|, |head| + |grown|);
    assert ts[|head|..|head| + |grown|] == grown;
  }

  lemma BehindDefiner(s: Stmt, a: seq<Token>, b: seq<Token>, head: seq<Token>, clause: seq<Token>, grown: seq<Token>,
      rest: seq<Token>, cut: bool)
    requires a <= b && (cut ==> a == b) && NonFiller(a) == head + grown && UpToDelimiter(grown)
    requires |grown| >= 6 || cut || EndsInDelimiter(grown)
    requires |grown| > 0 && grown[0].typ == Word && ObjectOf(grown[0]) == NoObject
    requires Spaceless(grown) ==>
               DefinerSize(grown) > 0 && clause == grown[..DefinerSize(grown)] && rest == grown[|clause|..]
    requires if rest == [] then Unrecognized(s)
             else head + clause <= NonFiller(b)
                  && (Undisturbed(NonFiller(b)) ==> Told(s, NonFiller(b)[|head + clause|..]))
    ensures head <= NonFiller(b) && (Undisturbed(NonFiller(b)) ==> Told(s, NonFiller(b)[|head|..]))
  {
    hide NonFiller, Told, DefinerSize, ObjectOf, Undisturbed, Spaceless;
    LaterIs(a, b, head, grown, 6, cut);
    if Undisturbed(NonFiller(b)) {
      var ts := NonFiller(b)[|head|..];
      GrownSpaceless(NonFiller(b), head, grown);
      SeesVisible(grown, 6, ts);
      DefinerSeen(grown, Visible(ts));
      if rest == [] {
        UntoldBehindDefiner(s, ts);
      } else {
        assert ts[|clause|..] == NonFiller(b)[|head + clause|..];
        ToldBehindDefiner(s, ts, |clause|);
      }
    }
  }

  lemma FirstHead(t: Token)
    requires Keyword(t).CreateWord?
    ensures Head([t], []) == [t]
  {
    assert NonFiller([t]) == [t] by { assert [t][..0] == []; }
  }

  lemma {:induction false} FirstOfGroup(t: Token, g: seq<Token>)
    requires |g| > 0 && g[0] == t && t.typ != Filler
    ensures [t] <= NonFiller(g)
  {
    if |g| > 1 {
      FirstOfGroup(t, g[..|g| - 1]);
    } else {
      assert g == [] + [t];
      NonFillerMore([], t);
    }
  }

  lemma BomTold(s: Stmt)
    ensures s.kind == Noop ==> ToldByTokens(s, [BOM_TOKEN])
    ensures !Declares([BOM_TOKEN])
  {
  }

  // ----- names -----

  /** A name is a word, or a quoted identifier, which stands for what was quoted. Nothing else is a name, but in double
      quotes. */
  lemma NameOfIs(t: Token, name: string)
    ensures t.typ == Word ==> NameOf(t) == t.val
    ensures t.typ == Ident && t.val == Q.EscapeIdentifier(name) ==> NameOf(t) == name
    ensures t.typ in {Symbol, Numeric, Delimiter, Filler} ==> NameOf(t) == ""
    ensures t.typ == Str && !HasPrefix(t.val, "\"") ==> NameOf(t) == ""
    ensures t.typ == Str && t.val == "\"" + name + "\"" && '"' !in name && '\\' !in name ==> NameOf(t) == name
  {
    hide Q.EscapeIdentifier, Q.StripBackticks, Collapse;
    Q.StripEscaped(name);
    assert HasPrefix(t.val, "\"") <==> |t.val| > 0 && t.val[0] == '"' by {
      assert |t.val| > 0 ==> t.val[..1] == [t.val[0]];
    }
    if t.val == "\"" + name + "\"" {
      assert t.val[1..|t.val| - 1] == name;
      if '"' !in name && '\\' !in name {
        CollapsePlain(name, '"', '"', '"');
        CollapsePlain(name, '\\', '"', '"');
      }
    }
  }

  lemma {:induction false} CollapsePlain(s: string, a: char, b: char, one: char)
    requires a !in s
    ensures Collapse(s, a, b, one) == s
  {
    if |s| > 0 {
      CollapsePlain(s[1..], a, b, one);
    }
  }

  /** A name is qualified exactly if a period follows the first token and another one that. */
  lemma QualifiedIs(a: Token, point: Token, c: Token, more: seq<Token>)
    requires point.typ == Symbol && HasPrefix(point.val, ".") && NameOf(a) != "" && NameOf(c) != ""
    ensures NameIn([a, point, c] + more) == (NameOf(a), NameOf(c)) && NameSize([a, point, c] + more) == 3
  {
    hide NameOf, HasPrefix;
  }

  /** Without a period behind it, the first token alone is the name. */
  lemma UnqualifiedIs(a: Token, more: seq<Token>)
    requires NameOf(a) != "" && (|more| > 0 ==> more[0].typ != Symbol || !HasPrefix(more[0].val, "."))
    ensures NameIn([a] + more) == ("", NameOf(a)) && NameSize([a] + more) == 1
  {
    hide NameOf, HasPrefix;
  }

  // ----- CREATE statements as they are written -----

  /** A DEFINER clause as it is written: for the current user, or for another user@host. */
  predicate WritesDefiner(clause: seq<Token>) {
    && |clause| >= 3 && clause[0].typ == Word && Matches(clause, ["definer", "="])
    && match |clause|
       case 3 => ToLower(clause[2].val) == "current_user"
       case 5 =>
         || Matches(clause[2..], ["current_user", "(", ")"])
         || (ToLower(clause[2].val) != "current_user" && clause[3].typ == Symbol && clause[3].val == "@")
       case _ => false
  }

  function Chained(clauses: seq<seq<Token>>): seq<Token> {
    if |clauses| == 0 then [] else clauses[0] + Chained(clauses[1..])
  }

  /** The word for a kind of object. */
  function WordOf(objectType: ObjectType): string {
    match objectType
    case NoObject => ""
    case Table => "table"
    case Procedure => "procedure"
    case Function => "function"
  }

  /** The token is that word of small letters, in letters of any case. */
  predicate Spells(t: Token, word: string) {
    && t.typ == Word && |t.val| == |word|
    && forall i :: 0 <= i < |word| ==>
        t.val[i] == word[i] || ('a' <= word[i] <= 'z' && t.val[i] as int == word[i] as int - 32)
  }

  lemma SpellsIff(t: Token, word: string)
    requires forall i :: 0 <= i < |word| ==> 'a' <= word[i] <= 'z'
    ensures Spells(t, word) <==> t.typ == Word && ToLower(t.val) == word
  {
    var lower := ToLower(t.val);
    if ToLower(t.val) == word {
      assert forall i :: 0 <= i < |word| ==> lower[i] == word[i];
    }
  }

  /** DEFINER clauses, the word for a kind of object, and an optional IF NOT EXISTS. */
  predicate WritesFront(clauses: seq<seq<Token>>, keyword: Token, objectType: ObjectType, option: seq<Token>) {
    && (forall i :: 0 <= i < |clauses| ==> WritesDefiner(clauses[i]))
    && objectType != NoObject && Spells(keyword, WordOf(objectType))
    && (option == [] || (|option| == 3 && Matches(option, ["if", "not", "exists"])))
  }

  predicate Undelimited(ts: seq<Token>) {
    forall i :: 0 <= i < |ts| ==> ts[i].typ != Delimiter
  }

  lemma NameVisible(named: seq<Token>)
    ensures NameIn(Visible(named)) == NameIn(named) && NameSize(Visible(named)) == NameSize(named)
    ensures OptionSize(named) == 0 ==> OptionSize(Visible(named)) == 0
  {
    hide NameOf, HasPrefix, ToLower;
    FirstThree(named);
    if |named| > 0 {
      DelimiterIsNoName(named[0]);
    }
  }

  lemma DelimiterIsNoName(t: Token)
    ensures t.typ == Delimiter ==> NameOf(t) == ""
  {
  }

  lemma FirstThree(ts: seq<Token>)
    ensures |ts| > 0 ==> |Visible(ts)| > 0
    ensures |ts| > 1 && ts[0].typ != Delimiter ==> |Visible(ts)| > 1
    ensures |ts| > 2 && ts[0].typ != Delimiter && ts[1].typ != Delimiter ==> |Visible(ts)| > 2
    ensures |ts| > 0 && ts[0].typ == Delimiter ==> |Visible(ts)| == 1
    ensures |ts| > 1 && ts[0].typ != Delimiter && ts[1].typ == Delimiter ==> |Visible(ts)| == 2
  {
    if |ts| > 1 && ts[0].typ != Delimiter {
      assert Visible(ts) == [ts[0]] + Visible(ts[1..]);
      if ts[1].typ != Delimiter {
        assert Visible(ts[1..]) == [ts[1]] + Visible(ts[1..][1..]);
      }
    }
  }

  lemma WordIsObject(keyword: Token, objectType: ObjectType)
    requires objectType != NoObject && Spells(keyword, WordOf(objectType))
    ensures keyword.typ == Word && ObjectOf(keyword) == objectType && ToLower(keyword.val) != "("
  {
    hide ToLower, Spells;
    SpellsIff(keyword, WordOf(objectType));
  }

  lemma KeywordShape(keyword: Token, objectType: ObjectType, option: seq<Token>, named: seq<Token>)
    requires WritesFront([], keyword, objectType, option) && Undelimited(option)
    requires option == [] ==> OptionSize(named) == 0
    ensures ShapeOf(Visible([keyword] + option + named))
            == Shape(objectType, 1 + |option| + NameSize(named), NameIn(named).0, NameIn(named).1)
  {
    hide NameIn, NameSize, ObjectOf, Visible, ToLower, WordOf, Spells;
    WordIsObject(keyword, objectType);
    VisibleFrom([keyword] + option, named);
    NameVisible(named);
    var v := Visible(named);
    if option == [] {
      assert option + v == v;
    } else {
      MatchesSeen(option, option + v, ["if", "not", "exists"]);
    }
    ShapeOfParts(Visible([keyword] + option + named), keyword, option, v);
  }

  lemma ClauseSize(clause: seq<Token>, v: seq<Token>)
    requires WritesDefiner(clause) && |v| > 0 && ToLower(v[0].val) != "("
    ensures DefinerSize(clause + v) == |clause|
  {
    hide ToLower;
    var all := clause + v;
    MatchesSeen(clause, all, ["definer", "="]);
    assert all[2..] == clause[2..] + v;
    if |clause| == 3 {
      assert all[2] == clause[2] && all[3] == v[0];
    } else if Matches(clause[2..], ["current_user", "(", ")"]) {
      MatchesSeen(clause[2..], all[2..], ["current_user", "(", ")"]);
    } else {
      assert all[2] == clause[2] && all[3] == clause[3];
    }
  }

  lemma NoParenthesis(clauses: seq<seq<Token>>, keyword: Token, objectType: ObjectType, more: seq<Token>)
    requires WritesFront(clauses, keyword, objectType, [])
    ensures var ts := Chained(clauses) + ([keyword] + more); |ts| > 0 && ToLower(ts[0].val) != "("
  {
    hide ToLower, WordOf, Spells;
    WordIsObject(keyword, objectType);
    if |clauses| > 0 {
      assert WritesDefiner(clauses[0]);
      assert ToLower(clauses[0][0].val) == "definer";
      assert (Chained(clauses) + ([keyword] + more))[0] == clauses[0][0];
    }
  }

  /** What the layout of a statement tells. */
  lemma {:induction false} LayoutShape(clauses: seq<seq<Token>>, keyword: Token, objectType: ObjectType,
      option: seq<Token>, named: seq<Token>)
    requires WritesFront(clauses, keyword, objectType, option) && Undelimited(Chained(clauses)) && Undelimited(option)
    requires option == [] ==> OptionSize(named) == 0
    ensures ShapeOf(Visible(Chained(clauses) + ([keyword] + option + named)))
            == Shape(objectType, |Chained(clauses)| + 1 + |option| + NameSize(named), NameIn(named).0,
                NameIn(named).1)
  {
    hide NameIn, NameSize, ObjectOf, Visible, ToLower, OptionSize, ShapeOf, DefinerSize, Matches, WordOf, Spells;
    var tail := [keyword] + option + named;
    if |clauses| == 0 {
      KeywordShape(keyword, objectType, option, named);
      assert Chained(clauses) + tail == tail;
    } else {
      var clause, rest := clauses[0], Chained(clauses[1..]) + tail;
      var ts := Chained(clauses) + tail;
      assert ts == clause + rest;
      ChainedUndelimited(clauses);
      LayoutShape(clauses[1..], keyword, objectType, option, named);
      NoParenthesis(clauses[1..], keyword, objectType, option + named);
      assert [keyword] + (option + named) == tail;
      VisibleFrom(clause, rest);
      FirstVisible(rest);
      ClauseSize(clause, Visible(rest));
      assert ts[|clause|..] == rest && ts[0] == clause[0];
      ShapeBehindDefiner(ts, |clause|);
    }
  }

  lemma FirstVisible(ts: seq<Token>)
    requires |ts| > 0
    ensures |Visible(ts)| > 0 && Visible(ts)[0] == ts[0]
  {
  }

  lemma ChainedUndelimited(clauses: seq<seq<Token>>)
    requires |clauses| > 0 && Undelimited(Chained(clauses))
    ensures Undelimited(clauses[0]) && Undelimited(Chained(clauses[1..]))
  {
    hide Undelimited;
    UndelimitedParts(clauses[0], Chained(clauses[1..]));
  }

  lemma UndelimitedParts(a: seq<Token>, b: seq<Token>)
    requires Undelimited(a + b)
    ensures Undelimited(a) && Undelimited(b)
  {
    assert forall i :: 0 <= i < |a| ==> (a + b)[i] == a[i];
    assert forall i :: 0 <= i < |b| ==> (a + b)[|a| + i] == b[i];
  }

  /** A statement that is written as CREATE, DEFINER clauses, TABLE, PROCEDURE or FUNCTION, an optional IF NOT EXISTS,
      and tokens that give a name, is recognized as such: with that kind of object, name and qualifier. A routine is
      compound exactly if BEGIN is behind its name, and a table never is. */
  lemma WrittenIsTold(s: Stmt, g: seq<Token>, create: Token, clauses: seq<seq<Token>>, keyword: Token,
      objectType: ObjectType, option: seq<Token>, named: seq<Token>)
    requires |g| > 0 && ToldByTokens(s, g) && Undisturbed(NonFiller(g)) && g[0] == create
    requires Spells(create, "create")
    requires NonFiller(g) == [create] + (Chained(clauses) + ([keyword] + option + named))
    requires WritesFront(clauses, keyword, objectType, option) && Undelimited(Chained(clauses)) && Undelimited(option)
    requires option == [] ==> OptionSize(named) == 0
    ensures (s.qualifier, s.objectName) == NameIn(named)
    ensures if s.objectName == "" then s.kind == UnknownKind && s.objectType == NoObject
            else s.kind == Create && s.objectType == objectType
    ensures s.compound == (objectType in {Procedure, Function} && HasBegin(named[NameSize(named)..]))
  {
    hide NonFiller, Undisturbed, ObjectOf, NameIn, NameSize, HasBegin, WritesFront, Undelimited, OptionSize, Visible,
         ShapeOf, Chained, Spells, ToLower;
    assert NonFiller(g)[1..] == Chained(clauses) + ([keyword] + option + named);
    SpellsIff(create, "create");
    LayoutShape(clauses, keyword, objectType, option, named);
    BehindFront(Chained(clauses), [keyword], option, named, NameSize(named));
  }

  lemma BehindFront<T>(a: seq<T>, b: seq<T>, c: seq<T>, d: seq<T>, n: nat)
    requires n <= |d|
    ensures (a + (b + c + d))[|a| + |b| + |c| + n..] == d[n..]
  {
  }
}
