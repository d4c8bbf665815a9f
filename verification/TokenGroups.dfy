// How the tokens of an input are grouped into statements, and what the parser keeps
// about tokens while it reads (internal/tengo/parser.go).

module TokenGroups {
  import opened Text
  import opened LexSpec
  import opened Utf8
  import opened Statements
  import opened ParsedStatements
  import opened ParserTokens
  import L = Lexer
  import T = ParserTokens
  import P = Positions
  import X = LexSpec

  // ----- grouping the tokens of the whole-input lexer -----

  /** The position of the first delimiter, or the number of tokens. */
  function FirstDelimiter(ts: seq<X.Token>): (n: nat)
    ensures n <= |ts| && (n < |ts| ==> ts[n].typ == Delimiter) && forall i :: 0 <= i < n ==> ts[i].typ != Delimiter
  {
    if |ts| == 0 || ts[0].typ == Delimiter then 0 else 1 + FirstDelimiter(ts[1..])
  }

  predicate Loose(t: X.Token) {
    t.typ == Filler || t.typ == Delimiter
  }

  /** The number of tokens of the first statement: filler or a delimiter of its own, or
      everything up to and including the next delimiter. */
  function FirstGroup(ts: seq<X.Token>): (n: nat)
    requires |ts| > 0
    ensures 0 < n <= |ts|
  {
    if Loose(ts[0]) then 1
    else
      var n := FirstDelimiter(ts);
      if n < |ts| then n + 1 else n
  }

  function Grouped(ts: seq<X.Token>): seq<seq<X.Token>> {
    if |ts| == 0 then [] else [ts[..FirstGroup(ts)]] + Grouped(ts[FirstGroup(ts)..])
  }

  function Size(ts: seq<X.Token>): nat {
    if |ts| == 0 then 0 else Size(ts[..|ts| - 1]) + ts[|ts| - 1].size
  }

  function Sizes(groups: seq<seq<X.Token>>): (r: seq<nat>)
    ensures |r| == |groups| && forall i :: 0 <= i < |r| ==> r[i] == Size(groups[i])
  {
    seq(|groups|, i requires 0 <= i < |groups| => Size(groups[i]))
  }

  function Lengths(stmts: seq<Stmt>): (r: seq<nat>)
    ensures |r| == |stmts| && forall i :: 0 <= i < |r| ==> r[i] == |stmts[i].text|
  {
    seq(|stmts|, i requires 0 <= i < |stmts| => |stmts[i].text|)
  }

  // ----- statements that are no-ops -----

  /** Two tokens of filler never follow each other. */
  lemma {:induction false} FillersNeverMeet(s: string, afterFiller: bool, delimiter: string)
    requires |delimiter| > 0
    ensures var ts := L.Tokens(s, afterFiller, delimiter).0;
            && (afterFiller && |ts| > 0 ==> ts[0].typ != Filler)
            && forall i :: 0 <= i < |ts| - 1 ==> ts[i].typ != Filler || ts[i + 1].typ != Filler
    decreases |s|
  {
    hide X.NextToken, L.Tokens;
    L.TokensUnfold(s, afterFiller, delimiter);
    if |s| > 0 {
      var t := X.NextToken(s, afterFiller, delimiter);
      X.FillersApart(s, afterFiller, delimiter);
      if !t.malformed {
        FillersNeverMeet(s[t.size..], t.typ == Filler, delimiter);
      }
    }
  }

  /** The groups that consist of filler or a delimiter alone. */
  predicate Noops(a: seq<X.Token>, b: seq<X.Token>) {
    |a| > 0 && |b| > 0 && Loose(a[0]) && Loose(b[0])
  }

  predicate Apart(ts: seq<X.Token>) {
    forall i :: 0 <= i < |ts| - 1 ==> ts[i].typ != Filler || ts[i + 1].typ != Filler
  }

  lemma {:induction false} GroupedNoops(ts: seq<X.Token>)
    requires Apart(ts)
    ensures forall i :: 0 <= i < |Grouped(ts)| ==> |Grouped(ts)[i]| > 0
    ensures forall i :: 0 <= i < |Grouped(ts)| - 1 && Noops(Grouped(ts)[i], Grouped(ts)[i + 1]) ==>
              Grouped(ts)[i][0].typ == Delimiter || Grouped(ts)[i + 1][0].typ == Delimiter
    decreases |ts|
  {
    if |ts| > 0 {
      var n := FirstGroup(ts);
      var rest := ts[n..];
      assert forall i :: 0 <= i < |rest| ==> rest[i] == ts[n + i];
      GroupedNoops(rest);
      assert Grouped(ts) == [ts[..n]] + Grouped(rest);
      if |rest| > 0 {
        assert Grouped(rest)[0][0] == rest[0];
      }
    }
  }

  /** Two no-op statements in a row are not both filler: one of them is a delimiter of its own. */
  lemma NoopsMeetAtDelimiters(input: string, i: nat)
    requires i + 1 < |Grouped(L.Tokens(input, false, ";").0)|
    ensures var gs := Grouped(L.Tokens(input, false, ";").0);
            Noops(gs[i], gs[i + 1]) ==> gs[i][0].typ == Delimiter || gs[i + 1][0].typ == Delimiter
  {
    hide Grouped, L.Tokens;
    FillersNeverMeet(input, false, ";");
    GroupedNoops(L.Tokens(input, false, ";").0);
  }

  /** Two statements in a row may both be no-ops: here, two delimiters. */
  lemma TwoNoops()
    ensures var gs := Grouped(L.Tokens(";;", false, ";").0);
            |gs| == 2 && Noops(gs[0], gs[1]) && gs[0][0].typ == gs[1][0].typ == Delimiter
  {
    var d := X.Token(1, Delimiter, false);
    var two := ";;";
    assert two[..1] == ";" && two[1..] == ";" && ";"[1..] == "" && ";"[..1] == ";";
    assert X.NextToken(";;", false, ";") == d && X.NextToken(";", false, ";") == d;
    L.TokensUnfold("", false, ";");
    L.TokensUnfold(";", false, ";");
    L.TokensUnfold(";;", false, ";");
    var ts := L.Tokens(";;", false, ";").0;
    assert ts == [d, d];
    assert ts[1..] == [d] && [d][1..] == [];
    assert Grouped([d]) == [[d]];
    assert Grouped(ts) == [[d]] + Grouped(ts[1..]);
  }

  // ----- the parser's tokens -----

  /** The tokens of the lexer, if none of them is malformed. */
  function Lexemes(ts: seq<T.Token>): (r: seq<X.Token>)
    ensures |r| == |ts| && forall i :: 0 <= i < |r| ==> r[i] == X.Token(|ts[i].val|, ts[i].typ, false)
  {
    seq(|ts|, i requires 0 <= i < |ts| => X.Token(|ts[i].val|, ts[i].typ, false))
  }

  function Flat(groups: seq<seq<T.Token>>): seq<T.Token> {
    if |groups| == 0 then [] else Flat(groups[..|groups| - 1]) + groups[|groups| - 1]
  }

  lemma FlatMore(groups: seq<seq<T.Token>>, g: seq<T.Token>)
    ensures Flat(groups + [g]) == Flat(groups) + g
  {
    assert (groups + [g])[..|groups|] == groups;
  }

  lemma {:induction false} ValsSize(ts: seq<T.Token>)
    ensures |Vals(ts)| == Size(Lexemes(ts))
  {
    if |ts| > 0 {
      ValsSize(ts[..|ts| - 1]);
      assert Lexemes(ts)[..|ts| - 1] == Lexemes(ts[..|ts| - 1]);
    }
  }

  /** The tokens of a statement that is complete: filler or a delimiter of its own, or
      tokens up to and including the first delimiter. */
  predicate Whole(g: seq<T.Token>) {
    |g| > 0 && if Keyword(g[0]).FillerOrDelimiter? then |g| == 1 else UpToDelimiter(g) && EndsInDelimiter(g)
  }

  /** The tokens of the last statement of an input, if that has no delimiter. */
  predicate Unended(g: seq<T.Token>) {
    |g| > 0 && !Keyword(g[0]).FillerOrDelimiter? && UpToDelimiter(g) && !EndsInDelimiter(g)
  }

  lemma WholeGroup(g: seq<T.Token>, more: seq<X.Token>)
    requires Whole(g)
    ensures Grouped(Lexemes(g) + more) == [Lexemes(g)] + Grouped(more)
  {
    var ts := Lexemes(g) + more;
    assert forall i :: 0 <= i < |g| ==> ts[i] == Lexemes(g)[i];
    assert FirstGroup(ts) == |g|;
    assert ts[..|g|] == Lexemes(g) && ts[|g|..] == more;
  }

  lemma UnendedGroup(g: seq<T.Token>)
    requires Unended(g)
    ensures Grouped(Lexemes(g)) == [Lexemes(g)]
  {
    var ts := Lexemes(g);
    assert FirstGroup(ts) == |g|;
    assert ts[..|g|] == ts && ts[|g|..] == [];
  }

  function AllLexemes(groups: seq<seq<T.Token>>): (r: seq<seq<X.Token>>)
    ensures |r| == |groups| && forall i :: 0 <= i < |r| ==> r[i] == Lexemes(groups[i])
  {
    seq(|groups|, i requires 0 <= i < |groups| => Lexemes(groups[i]))
  }

  /** Complete statements are the groups of their tokens, whatever follows. */
  lemma {:induction false} GroupsOf(groups: seq<seq<T.Token>>, more: seq<X.Token>)
    requires forall i :: 0 <= i < |groups| ==> Whole(groups[i])
    ensures Grouped(Lexemes(Flat(groups)) + more) == AllLexemes(groups) + Grouped(more)
  {
    hide Whole, Grouped, Lexemes, Flat, AllLexemes;
    if |groups| == 0 {
      NoGroupsOf(groups, more);
    } else {
      var init, last := groups[..|groups| - 1], groups[|groups| - 1];
      assert groups == init + [last];
      LastGroup(init, last, more);
      GroupsOf(init, Lexemes(last) + more);
      WholeGroup(last, more);
      AllLexemesMore(init, last);
      Regroup(AllLexemes(init), [Lexemes(last)], Grouped(more));
    }
  }

  lemma NoGroupsOf(groups: seq<seq<T.Token>>, more: seq<X.Token>)
    requires groups == []
    ensures Lexemes(Flat(groups)) + more == more && AllLexemes(groups) + Grouped(more) == Grouped(more)
  {
    hide Grouped;
  }

  lemma LastGroup(init: seq<seq<T.Token>>, last: seq<T.Token>, more: seq<X.Token>)
    ensures Lexemes(Flat(init + [last])) + more == Lexemes(Flat(init)) + (Lexemes(last) + more)
  {
    hide Flat;
    FlatMore(init, last);
    LexemesConcat(Flat(init), last);
    Regroup(Lexemes(Flat(init)), Lexemes(last), more);
  }

  lemma Regroup<T>(a: seq<T>, b: seq<T>, c: seq<T>)
    ensures a + b + c == a + (b + c)
  {
  }

  lemma LexemesConcat(a: seq<T.Token>, b: seq<T.Token>)
    ensures Lexemes(a + b) == Lexemes(a) + Lexemes(b)
  {
  }

  lemma AllLexemesMore(groups: seq<seq<T.Token>>, g: seq<T.Token>)
    ensures AllLexemes(groups + [g]) == AllLexemes(groups) + [Lexemes(g)]
  {
  }

  // ----- client commands -----

  predicate StartsCommand(g: seq<T.Token>) {
    |g| > 0 && (Keyword(g[0]).UseWord? || Keyword(g[0]).DelimiterWord?)
  }

  /** No statement is a client command. */
  predicate NoCommands(groups: seq<seq<T.Token>>) {
    forall i :: 0 <= i < |groups| ==> !StartsCommand(groups[i])
  }

  lemma NoCommandsMore(groups: seq<seq<T.Token>>, g: seq<T.Token>)
    requires !StartsCommand(g)
    ensures NoCommands(groups + [g]) == NoCommands(groups)
  {
    assert forall i :: 0 <= i < |groups| ==> (groups + [g])[i] == groups[i];
  }

  lemma LastGroupPlain(groups: seq<seq<T.Token>>, g: seq<T.Token>)
    ensures NoCommands(groups + [g]) == (NoCommands(groups) && !StartsCommand(g))
  {
    assert forall i :: 0 <= i < |groups| ==> (groups + [g])[i] == groups[i];
    assert (groups + [g])[|groups|] == g;
  }

  lemma GroupFinished(groups: seq<seq<T.Token>>, g: seq<T.Token>)
    ensures Flat(groups) + g == Flat(groups + [g]) + []
    ensures NoCommands(groups) && !StartsCommand(g) ==> NoCommands(groups + [g])
    ensures forall i :: 0 <= i < |groups| ==> (groups + [g])[i] == groups[i]
  {
    FlatMore(groups, g);
    LastGroupPlain(groups, g);
  }

  lemma CommandFound(groups: seq<seq<T.Token>>, g: seq<T.Token>)
    requires StartsCommand(g)
    ensures !NoCommands(groups + [g])
  {
    assert (groups + [g])[|groups|] == g;
  }

  lemma StartsKept(start: seq<T.Token>, more: seq<T.Token>)
    requires |start| > 0
    ensures StartsCommand(start + more) == StartsCommand(start)
  {
  }

  // ----- what is kept while tokens are read -----

  /** The tokens so far and those of the remaining input are the tokens of the whole input. */
  ghost predicate Exact(input: string, all: seq<T.Token>, rest: string, afterFiller: bool) {
    var more := L.Tokens(rest, afterFiller, ";");
    L.Tokens(input, false, ";") == (Lexemes(all) + more.0, more.1)
  }

  lemma ExactStart(input: string)
    ensures Exact(input, [], input, false)
  {
    var more := L.Tokens(input, false, ";");
    assert Lexemes([]) + more.0 == more.0;
    assert more == (more.0, more.1);
  }

  lemma ExactMore(input: string, all: seq<T.Token>, rest: string, afterFiller: bool, t: T.Token, left: string,
      malformed: bool)
    requires Exact(input, all, rest, afterFiller) && rest == t.val + left && |rest| > 0
    requires X.Token(|t.val|, t.typ, malformed) == X.NextToken(rest, afterFiller, ";")
    ensures if malformed then L.Tokens(input, false, ";").1 else Exact(input, all + [t], left, t.typ == Filler)
  {
    hide X.NextToken, L.Tokens;
    L.TokensUnfold(rest, afterFiller, ";");
    assert rest[|t.val|..] == left;
    if !malformed {
      var more := L.Tokens(left, t.typ == Filler, ";").0;
      assert Lexemes(all + [t]) == Lexemes(all) + Lexemes([t]);
      assert Lexemes(all) + ([X.NextToken(rest, afterFiller, ";")] + more) == Lexemes(all + [t]) + more;
    }
  }

  lemma ExactEnd(input: string, all: seq<T.Token>, afterFiller: bool)
    requires Exact(input, all, "", afterFiller)
    ensures L.Tokens(input, false, ";") == (Lexemes(all), false)
  {
    assert Lexemes(all) + [] == Lexemes(all);
  }

  /** In a valid input, the rest is valid and every statement starts with a rune. */
  ghost predicate RunesKept(input: string, rest: string, delimiter: string, b: string, finished: seq<Stmt>) {
    ValidUtf8(input) ==> ValidUtf8(rest) && ValidUtf8(delimiter) && RuneAt(b, 0) && StartWithRunes(finished)
  }

  lemma RunesMore(input: string, rest: string, delimiter: string, b: string, finished: seq<Stmt>, data: string,
      left: string)
    requires RunesKept(input, rest, delimiter, b, finished) && rest == data + left
    requires ValidUtf8(delimiter) ==> L.CutsRunes(rest, |data|)
    ensures RunesKept(input, left, delimiter, b + data, finished) && (ValidUtf8(input) ==> ValidUtf8(data))
  {
    hide ValidUtf8;
    if ValidUtf8(input) {
      CutValid(rest, |data|);
      assert rest[..|data|] == data && rest[|data|..] == left;
      StartsRune(data);
    }
  }

  lemma RunesFinished(input: string, rest: string, delimiter: string, b: string, finished: seq<Stmt>, s: Stmt)
    requires RunesKept(input, rest, delimiter, b, finished) && s.text == b
    ensures RunesKept(input, rest, delimiter, "", finished + [s])
  {
    hide ValidUtf8;
  }

  /** A token that is a delimiter under ";" starts like one. */
  predicate Typed(t: T.Token) {
    t.typ == Delimiter ==> |t.val| > 0 && t.val[0] == ';'
  }

  function NonFiller(ts: seq<T.Token>): seq<T.Token> {
    if |ts| == 0 then []
    else if ts[|ts| - 1].typ == Filler then NonFiller(ts[..|ts| - 1])
    else NonFiller(ts[..|ts| - 1]) + [ts[|ts| - 1]]
  }

  predicate IsSuffix<T(==)>(a: seq<T>, b: seq<T>) {
    |a| <= |b| && b[|b| - |a|..] == a
  }

  /** `tokens` were read ahead: they are the last ones of `taken`, the tokens of the statement so far, but
      for filler. Without client commands, `taken` has no delimiter that is not waiting in `tokens`. */
  ghost predicate Ahead(tokens: seq<T.Token>, taken: seq<T.Token>, b: string, plain: bool) {
    && Listed(tokens, b) && IsSuffix(tokens, NonFiller(taken)) && UpToDelimiter(tokens)
    && (plain ==>
          && UpToDelimiter(taken) && (forall t :: t in taken ==> Typed(t))
          && (EndsInDelimiter(taken) ==> EndsInDelimiter(tokens)) && |taken| > 0 && !StartsCommand(taken))
  }

  lemma {:induction false} NonFillerIn(ts: seq<T.Token>)
    ensures forall t :: t in NonFiller(ts) ==> t in ts && t.typ != Filler
  {
    if |ts| > 0 {
      NonFillerIn(ts[..|ts| - 1]);
    }
  }

  lemma NonFillerMore(ts: seq<T.Token>, t: T.Token)
    ensures NonFiller(ts + [t]) == NonFiller(ts) + if t.typ == Filler then [] else [t]
  {
    assert (ts + [t])[..|ts|] == ts;
  }

  /** One more token was read. */
  lemma AheadMore(tokens: seq<T.Token>, taken: seq<T.Token>, b: string, plain: bool, t: T.Token)
    requires Ahead(tokens, taken, b, plain) && t.offset == |b| && !EndsInDelimiter(tokens) && (plain ==> Typed(t))
    ensures Ahead(if t.typ == Filler then tokens else tokens + [t], taken + [t], b + t.val, plain)
  {
    hide Listed, StartsCommand, Typed, NonFiller, IsSuffix;
    ListedLonger(tokens, b, t.val);
    ListedMore(tokens, b, t);
    NonFillerMore(taken, t);
    SuffixMore(tokens, NonFiller(taken), t);
    if plain {
      StartKept(taken, t);
    }
  }

  /** What was used up of the tokens of the statement, but for filler, while `tokens` were read ahead. */
  function Head(taken: seq<T.Token>, tokens: seq<T.Token>): seq<T.Token> {
    var nf := NonFiller(taken);
    if |tokens| <= |nf| then nf[..|nf| - |tokens|] else []
  }

  lemma HeadMore(tokens: seq<T.Token>, taken: seq<T.Token>, t: T.Token)
    requires IsSuffix(tokens, NonFiller(taken))
    ensures Head(taken + [t], if t.typ == Filler then tokens else tokens + [t]) == Head(taken, tokens)
  {
    hide NonFiller;
    NonFillerMore(taken, t);
  }

  lemma AheadHead(tokens: seq<T.Token>, taken: seq<T.Token>, b: string, plain: bool, t: T.Token)
    requires Ahead(tokens, taken, b, plain)
    ensures Head(taken + [t], if t.typ == Filler then tokens else tokens + [t]) == Head(taken, tokens)
  {
    HeadMore(tokens, taken, t);
  }

  lemma HeadDrop(tokens: seq<T.Token>, taken: seq<T.Token>, b: string, plain: bool, n: nat)
    requires Ahead(tokens, taken, b, plain) && n <= |tokens|
    ensures Head(taken, tokens[n..]) == Head(taken, tokens) + tokens[..n]
    ensures NonFiller(taken) == Head(taken, tokens) + tokens
  {
    hide NonFiller, Listed, StartsCommand, Typed;
  }

  lemma {:induction false} NonFillerPrefix(a: seq<T.Token>, b: seq<T.Token>)
    requires a <= b
    ensures NonFiller(a) <= NonFiller(b)
    decreases |b|
  {
    if |a| < |b| {
      NonFillerPrefix(a, b[..|b| - 1]);
    } else {
      assert a == b;
    }
  }

  lemma SuffixMore<T>(a: seq<T>, b: seq<T>, t: T)
    requires IsSuffix(a, b)
    ensures IsSuffix(a + [t], b + [t]) && b + [] == b
  {
  }

  lemma StartKept(taken: seq<T.Token>, t: T.Token)
    requires |taken| > 0
    ensures StartsCommand(taken + [t]) == StartsCommand(taken)
  {
  }

  /** The first tokens that were read ahead are used up. */
  lemma AheadDrop(tokens: seq<T.Token>, taken: seq<T.Token>, b: string, plain: bool, n: nat)
    requires Ahead(tokens, taken, b, plain) && n <= |tokens|
    requires plain ==> forall i :: 0 <= i < n ==> tokens[i].typ != Delimiter
    ensures Ahead(tokens[n..], taken, b, plain)
  {
    hide Listed, StartsCommand, Typed;
    Suffixes(tokens, b);
  }

  lemma AheadNothing(taken: seq<T.Token>, b: string, plain: bool)
    requires |taken| > 0
    requires plain ==> UpToDelimiter(taken) && !EndsInDelimiter(taken) && !StartsCommand(taken)
    requires plain ==> forall t :: t in taken ==> Typed(t)
    ensures Ahead([], taken, b, plain)
  {
    hide StartsCommand, Typed;
  }

  /** No token has an unquoted space in it. */
  predicate AllSeparate(ts: seq<T.Token>) {
    forall i :: 0 <= i < |ts| && ts[i].typ != Filler ==> Separate(ts[i].val)
  }

  lemma AheadSeparate(tokens: seq<T.Token>, taken: seq<T.Token>, b: string, plain: bool)
    requires Ahead(tokens, taken, b, plain) && AllSeparate(taken)
    ensures forall i :: 0 <= i < |tokens| ==> Separate(tokens[i].val)
  {
    hide Listed, StartsCommand, Typed, Separate;
    NonFillerIn(taken);
    var nf := NonFiller(taken);
    forall i | 0 <= i < |tokens| ensures Separate(tokens[i].val) {
      assert tokens[i] == nf[|nf| - |tokens| + i];
      assert tokens[i] in taken;
    }
  }

  /** The number of tokens that matchNextSequence takes. Only a delimiter with a space in it makes that more than
      there are; without one, no delimiter ";" is taken. */
  lemma MatchedAhead(tokens: seq<T.Token>, taken: seq<T.Token>, b: string, plain: bool, wants: seq<seq<string>>,
      delimiter: string)
    requires Ahead(tokens, taken, b, plain) && Wordy(wants)
    requires ' ' !in delimiter ==> AllSeparate(taken)
    requires plain ==> delimiter == ";"
    ensures var n := LongestJoin(Window(tokens, MaxLength(wants)), wants);
            if n > |tokens| then ' ' in delimiter
            else Ahead(tokens[n..], taken, b, plain) && (n > 0 ==> IsOneOf(tokens[..n], wants))
  {
    hide Listed, StartsCommand, Wordy, Separate, IsOneOf, Ahead, AllSeparate, Typed;
    var window := Window(tokens, MaxLength(wants));
    var n := LongestJoin(window, wants);
    LongestBound(window, wants);
    if ' ' !in delimiter {
      AheadSeparate(tokens, taken, b, plain);
      MatchedWords(window, wants);
    }
    if n <= |tokens| {
      LongestIsOneOf(window, wants);
      assert window[..n] == tokens[..n];
      if plain {
        AheadDelimiter(tokens, taken, b, plain);
        NoneDelimits(tokens, n);
      }
      AheadDrop(tokens, taken, b, plain, n);
    }
  }

  lemma NoneDelimits(tokens: seq<T.Token>, n: nat)
    requires n <= |tokens| && (forall t :: t in tokens ==> Typed(t))
    requires forall i :: 0 <= i < n ==> |tokens[i].val| > 0 && tokens[i].val[0] != ';'
    ensures forall i :: 0 <= i < n ==> tokens[i].typ != Delimiter
  {
    assert forall i :: 0 <= i < n ==> Typed(tokens[i]);
  }

  lemma AheadListed(tokens: seq<T.Token>, taken: seq<T.Token>, b: string, plain: bool)
    requires Ahead(tokens, taken, b, plain)
    ensures Listed(tokens, b)
  {
  }

  lemma AheadUpTo(tokens: seq<T.Token>, taken: seq<T.Token>, b: string, plain: bool)
    requires Ahead(tokens, taken, b, plain)
    ensures UpToDelimiter(tokens)
  {
  }

  /** A delimiter is no name. */
  lemma AheadNames(tokens: seq<T.Token>, taken: seq<T.Token>, b: string, plain: bool, n: nat)
    requires Ahead(tokens, taken, b, plain) && n <= |tokens|
    requires forall i :: 0 <= i < n ==> NameOf(tokens[i]) != "" || tokens[i].typ == Symbol
    ensures Ahead(tokens[n..], taken, b, plain)
  {
    hide Ahead;
    AheadDrop(tokens, taken, b, plain, n);
  }

  lemma AheadMentions(tokens: seq<T.Token>, taken: seq<T.Token>, b: string, plain: bool)
    requires Ahead(tokens, taken, b, plain) && |tokens| > 0
    ensures Mentions(taken, ToLower(tokens[0].val))
  {
    hide Listed, StartsCommand, Typed, ToLower;
    NonFillerIn(taken);
    var nf := NonFiller(taken);
    assert tokens[0] == nf[|nf| - |tokens|];
    assert tokens[0] in taken;
    var i :| 0 <= i < |taken| && taken[i] == tokens[0];
  }

  /** A delimiter that was read ahead is the last token read. */
  lemma AheadDelimiter(tokens: seq<T.Token>, taken: seq<T.Token>, b: string, plain: bool)
    requires Ahead(tokens, taken, b, plain) && plain
    ensures EndsInDelimiter(tokens) == EndsInDelimiter(taken) && UpToDelimiter(tokens)
    ensures forall t :: t in tokens ==> t in taken && Typed(t)
  {
    hide Listed, StartsCommand, Typed;
    NonFillerIn(taken);
    var nf := NonFiller(taken);
    assert forall i :: 0 <= i < |tokens| ==> tokens[i] == nf[|nf| - |tokens| + i];
    forall i | 0 <= i < |tokens| && tokens[i].typ == Delimiter ensures EndsInDelimiter(taken) {
      assert tokens[i] in taken;
      var k :| 0 <= k < |taken| && taken[k] == tokens[i];
    }
    NonFillerUpTo(taken);
  }

  lemma {:induction false} NonFillerUpTo(ts: seq<T.Token>)
    requires UpToDelimiter(ts)
    ensures UpToDelimiter(NonFiller(ts))
  {
    if |ts| > 0 {
      var init := ts[..|ts| - 1];
      NonFillerIn(init);
      NonFillerUpTo(init);
      forall t | t in NonFiller(init) ensures t.typ != Delimiter {
        assert t in init;
      }
    }
  }

  // ----- what a CREATE statement starts with -----

  /** CREATE, and any number of DEFINER clauses. */
  ghost predicate Defined(head: seq<T.Token>, clauses: seq<seq<T.Token>>) {
    && |head| > 0 && ToLower(head[0].val) == "create" && head == head[..1] + Flat(clauses)
    && forall i :: 0 <= i < |clauses| ==> DefinesUser(clauses[i])
  }

  lemma DefinedMore(head: seq<T.Token>, clauses: seq<seq<T.Token>>, clause: seq<T.Token>)
    requires Defined(head, clauses) && DefinesUser(clause)
    ensures Defined(head + clause, clauses + [clause])
  {
    hide DefinesUser, ToLower;
    FlatMore(clauses, clause);
    assert head[..1] + Flat(clauses) + clause == head[..1] + (Flat(clauses) + clause);
    assert (head + clause)[..1] == head[..1];
  }

  /** The kind of object that a keyword stands for. */
  function ObjectOf(t: T.Token): ObjectType {
    var word := if t.typ == Word then ToLower(t.val) else "";
    if word == "table" then Table else if word == "procedure" then Procedure else if word == "function" then Function
    else NoObject
  }

  /** The tokens of a statement, without filler: CREATE with its DEFINER clauses, a keyword, an optional
      IF NOT EXISTS, and the tokens that give the name. */
  ghost predicate Laid(s: Stmt, ts: seq<T.Token>, head: seq<T.Token>, clauses: seq<seq<T.Token>>, keyword: T.Token,
      skipped: seq<T.Token>, named: seq<T.Token>)
  {
    && Defined(head, clauses) && IsOption(skipped) && head + [keyword] + skipped + named <= ts
    && (s.qualifier, s.objectName) == NameIn(named)
  }

  /** The statement was recognized by its tokens. */
  ghost predicate IsCreate(s: Stmt, g: seq<T.Token>) {
    exists head, clauses, keyword, skipped, named ::
      Laid(s, NonFiller(g), head, clauses, keyword, skipped, named) && ObjectOf(keyword) == s.objectType
  }

  lemma LaidLonger(s: Stmt, t: Stmt, a: seq<T.Token>, b: seq<T.Token>, head: seq<T.Token>,
      clauses: seq<seq<T.Token>>, keyword: T.Token, skipped: seq<T.Token>, named: seq<T.Token>)
    requires Laid(s, NonFiller(a), head, clauses, keyword, skipped, named) && a <= b
    requires t.objectName == s.objectName && t.qualifier == s.qualifier
    ensures Laid(t, NonFiller(b), head, clauses, keyword, skipped, named)
  {
    hide NonFiller, Defined, NameIn, IsOption;
    NonFillerPrefix(a, b);
  }

  lemma CreateLonger(s: Stmt, t: Stmt, a: seq<T.Token>, b: seq<T.Token>)
    requires IsCreate(s, a) && a <= b && t.objectName == s.objectName && t.qualifier == s.qualifier
    requires t.objectType == s.objectType
    ensures IsCreate(t, b)
  {
    hide Laid, ObjectOf, NonFiller;
    var head, clauses, keyword, skipped, named :|
      Laid(s, NonFiller(a), head, clauses, keyword, skipped, named) && ObjectOf(keyword) == s.objectType;
    LaidLonger(s, t, a, b, head, clauses, keyword, skipped, named);
  }

  lemma CreateKept(s: Stmt, t: Stmt, a: seq<T.Token>, b: seq<T.Token>)
    requires (s.kind == Create ==> IsCreate(s, a)) && a <= b && t.kind == s.kind
    requires t.objectName == s.objectName && t.qualifier == s.qualifier && t.objectType == s.objectType
    ensures t.kind == Create ==> IsCreate(t, b)
  {
    hide IsCreate;
    if s.kind == Create {
      CreateLonger(s, t, a, b);
    }
  }

  lemma CreateBy(s: Stmt, t: Stmt, g: seq<T.Token>, head: seq<T.Token>, clauses: seq<seq<T.Token>>, keyword: T.Token,
      skipped: seq<T.Token>, named: seq<T.Token>)
    requires Laid(s, NonFiller(g), head, clauses, keyword, skipped, named) && ObjectOf(keyword) == t.objectType
    requires t.objectName == s.objectName && t.qualifier == s.qualifier
    ensures IsCreate(t, g)
  {
    hide ObjectOf, NonFiller;
    LaidLonger(s, t, g, g, head, clauses, keyword, skipped, named);
  }

  /** A CREATE TABLE statement with no SELECT behind its name. */
  ghost predicate Clean(s: Stmt, g: seq<T.Token>) {
    s.kind == Create && s.objectType == Table ==>
      exists head, clauses, keyword, skipped, named, behind ::
        && Laid(s, NonFiller(g), head, clauses, keyword, skipped, named)
        && Continues(NonFiller(g), head, keyword, skipped, named, behind) && !HasWord(behind, "select")
  }

  /** What follows the name. */
  predicate Continues(ts: seq<T.Token>, head: seq<T.Token>, keyword: T.Token, skipped: seq<T.Token>,
      named: seq<T.Token>, behind: seq<T.Token>)
  {
    ts == head + [keyword] + skipped + named[..NameSize(named)] + behind
  }

  lemma CleanOther(s: Stmt, g: seq<T.Token>)
    requires s.kind != Create
    ensures Clean(s, g)
  {
  }

  lemma TableJudged(s: Stmt, g: seq<T.Token>, head: seq<T.Token>, clauses: seq<seq<T.Token>>, keyword: T.Token,
      skipped: seq<T.Token>, named: seq<T.Token>, behind: seq<T.Token>)
    requires Laid(s, NonFiller(g), head, clauses, keyword, skipped, named) && ObjectOf(keyword) == Table
    requires Continues(NonFiller(g), head, keyword, skipped, named, behind)
    requires s.kind == Create ==> s.objectType == Table
    ensures s.kind == Create ==> IsCreate(s, g)
    ensures HasWord(behind, "select") || Clean(s, g)
  {
    hide Laid, NonFiller, HasWord, Continues, ObjectOf;
  }

  lemma RoutineJudged(s: Stmt, g: seq<T.Token>, head: seq<T.Token>, clauses: seq<seq<T.Token>>, keyword: T.Token,
      skipped: seq<T.Token>, named: seq<T.Token>)
    requires Laid(s, NonFiller(g), head, clauses, keyword, skipped, named) && s.objectType != Table
    requires s.kind == Create ==> s.objectType == ObjectOf(keyword)
    ensures (s.kind == Create ==> IsCreate(s, g)) && Clean(s, g)
  {
    hide Laid, NonFiller, ObjectOf;
  }

  lemma FirstDefined(t: T.Token)
    requires Keyword(t).CreateWord?
    ensures Defined(Head([t], []), [])
  {
    assert [t][..0] == [] && NonFiller([t]) == [t];
    assert [t] + [] == [t];
  }

  /** The name is taken from the tokens behind IF NOT EXISTS. */
  lemma NameLaid(ts: seq<T.Token>, front: seq<T.Token>, named: seq<T.Token>, rest: seq<T.Token>)
    requires ts == front + named[..NameSize(named)] + rest && rest == named[NameSize(named)..]
    ensures front + named <= ts
  {
    hide NameSize;
    assert named == named[..NameSize(named)] + rest;
  }

  lemma Regrouped(front: seq<T.Token>, seen: seq<T.Token>, rest: seq<T.Token>)
    ensures front + seen + rest == front + (seen + rest)
  {
  }

  /** One of the tokens, which is no delimiter, is that word. */
  predicate HasWord(ts: seq<T.Token>, word: string) {
    exists i :: 0 <= i < |ts| && ts[i].typ != Delimiter && ToLower(ts[i].val) == word
  }

  lemma WordSeen(ts: seq<T.Token>, t: T.Token, word: string)
    requires !HasWord(ts, word) && t.typ != Delimiter
    ensures HasWord(ts + [t], word) <==> ToLower(t.val) == word
  {
    hide ToLower;
    var longer := ts + [t];
    assert longer[|ts|] == t;
    assert forall i :: 0 <= i < |ts| ==> longer[i] == ts[i];
  }

  lemma WordInFront(ts: seq<T.Token>, rest: seq<T.Token>, word: string)
    requires HasWord(ts, word) || rest == [] || (|rest| == 1 && rest[0].typ == Delimiter)
    ensures HasWord(ts + rest, word) == HasWord(ts, word)
  {
    hide ToLower;
    var longer := ts + rest;
    assert forall i :: 0 <= i < |ts| ==> longer[i] == ts[i];
    assert forall i :: |ts| <= i < |longer| ==> longer[i] == rest[i - |ts|];
    if HasWord(ts, word) {
      var i :| 0 <= i < |ts| && ts[i].typ != Delimiter && ToLower(ts[i].val) == word;
      assert longer[i] == ts[i];
    }
  }

  /** Nothing is read ahead behind a delimiter. */
  lemma AheadOnly(tokens: seq<T.Token>, taken: seq<T.Token>, b: string, plain: bool)
    requires Ahead(tokens, taken, b, plain)
    ensures |tokens| > 0 && tokens[0].typ == Delimiter ==> |tokens| == 1
  {
    hide Listed, StartsCommand, Typed, NonFiller;
  }

  // ----- a statement that was cut off -----

  /** Without client commands, a statement ends with its first delimiter; only a compound
      one goes on to the end of the input. */
  predicate CutRight(g: seq<T.Token>, compound: bool, failed: bool) {
    if compound then failed else UpToDelimiter(g) && (failed || EndsInDelimiter(g))
  }

  ghost predicate Cut(before: seq<seq<T.Token>>, start: seq<T.Token>, groups: seq<seq<T.Token>>, compound: bool,
      failed: bool, plain: bool) {
    && |groups| == |before| + 1 && groups[..|before|] == before && start <= groups[|before|]
    && (plain ==> CutRight(groups[|before|], compound, failed))
  }

  /** The statement ends with the delimiter read ahead, or with the first one read from here on. */
  lemma CutAtDelimiter(tokens: seq<T.Token>, taken: seq<T.Token>, b: string, plain: bool, more: seq<T.Token>,
      failed: bool)
    requires Ahead(tokens, taken, b, plain) && UpToDelimiter(more)
    requires if EndsInDelimiter(tokens) then more == [] && !failed else failed == !EndsInDelimiter(more)
    ensures plain ==> CutRight(taken + more, false, failed)
  {
    if plain {
      AheadDelimiter(tokens, taken, b, plain);
      hide Listed, StartsCommand, Typed;
      assert taken + [] == taken;
    }
  }

  /** The same for a stored program, whose tokens are `all`. */
  lemma CutProgram(tokens: seq<T.Token>, taken: seq<T.Token>, b: string, plain: bool, all: seq<T.Token>,
      g: seq<T.Token>, failed: bool)
    requires Ahead(tokens, taken, b, plain)
    requires if tokens <= all then g == taken + all[|tokens|..] else all <= tokens && g == taken
    requires plain ==> failed == !(EndsInDelimiter(all) && !HasBegin(all))
    requires failed ==> tokens <= all
    requires plain ==> forall i :: 0 <= i < |all| - 1 && all[i].typ == Delimiter ==> HasBegin(all[..i])
    ensures plain ==> CutRight(g, HasBegin(all), failed)
  {
    if plain && !HasBegin(all) {
      forall i | 0 <= i < |all| - 1 ensures all[i].typ != Delimiter {
        BeginGrows(all, i);
      }
      AheadDelimiter(tokens, taken, b, plain);
      hide Listed, StartsCommand, Typed, IsBegin, HasBegin;
      if tokens <= all {
        assert all == tokens + all[|tokens|..];
        assert taken + [] == taken;
        assert |all| > |tokens| ==> !EndsInDelimiter(tokens);
      }
    }
  }

  /** What holds of the tokens `all` of a stored program: a delimiter is passed over only behind BEGIN and
      without any DELIMITER command; `over` means that the program ends here, `failed` that the input does. */
  predicate BodySoFar(all: seq<T.Token>, compound: bool, explicit: bool, over: bool, failed: bool) {
    && compound == HasBegin(all)
    && (if over then failed == !(EndsInDelimiter(all) && (explicit || !compound))
        else !failed && (EndsInDelimiter(all) ==> !explicit && compound))
    && forall i :: 0 <= i < |all| - (if over then 1 else 0) && all[i].typ == Delimiter ==>
        !explicit && HasBegin(all[..i])
  }

  lemma BodyStart(explicit: bool)
    ensures BodySoFar([], false, explicit, false, false)
  {
  }

  lemma BodyMore(all: seq<T.Token>, compound: bool, explicit: bool, t: T.Token)
    requires BodySoFar(all, compound, explicit, false, false)
    ensures var over := t.typ == Delimiter && (explicit || !compound);
            BodySoFar(all + [t], compound || (!over && IsBegin(t)), explicit, over, false)
  {
    hide IsBegin, HasBegin;
    BeginMore(all, t);
  }

  lemma BodyCut(all: seq<T.Token>, compound: bool, explicit: bool)
    requires BodySoFar(all, compound, explicit, false, false)
    ensures BodySoFar(all, compound, explicit, true, true)
  {
    hide HasBegin;
  }

  lemma BodyOver(all: seq<T.Token>, compound: bool, explicit: bool, failed: bool)
    requires BodySoFar(all, compound, explicit, true, failed)
    ensures compound == HasBegin(all) && failed == !(EndsInDelimiter(all) && (explicit || !compound))
    ensures forall i :: 0 <= i < |all| - 1 && all[i].typ == Delimiter ==> !explicit && HasBegin(all[..i])
  {
    hide HasBegin;
  }

  lemma BeginGrows(ts: seq<T.Token>, i: nat)
    requires i <= |ts|
    ensures HasBegin(ts[..i]) ==> HasBegin(ts)
  {
    if HasBegin(ts[..i]) {
      var j :| 0 <= j < i && IsBegin(ts[..i][j]);
      assert IsBegin(ts[j]);
    }
  }

  // ----- the parser between two tokens -----

  predicate Mentions(ts: seq<T.Token>, word: string) {
    exists i :: 0 <= i < |ts| && ToLower(ts[i].val) == word
  }

  /** The number of byte-order marks that an input starts with: each of them becomes a statement. */
  function Marks(s: string): nat {
    if HasPrefix(s, L.BOM) then 1 + Marks(s[|L.BOM|..]) else 0
  }

  /** The input behind them. */
  function Bare(s: string): string {
    if HasPrefix(s, L.BOM) then Bare(s[|L.BOM|..]) else s
  }

  /** The fields of the parser that say how far the input was read, and those of its lexer. The first `marks`
      statements are byte-order marks, and `bare` is the input behind them. */
  datatype Reading = Reading(
    input: string, lex: L.State, b: string, err: ParseError, finished: seq<Stmt>, explicitDelimiter: bool,
    taken: seq<T.Token>, groups: seq<seq<T.Token>>, plain: bool, marks: nat, bare: string)
  {
    /** The tokens of each statement make up its text. */
    ghost predicate Recorded() {
      && Vals(taken) == b && |groups| == |finished|
      && forall i :: 0 <= i < |groups| ==> |groups[i]| > 0 && Vals(groups[i]) == finished[i].text
    }

    /** Without client commands, the tokens so far are those of the whole input. */
    ghost predicate Plain() {
      && lex.delimiter == ";" && !lex.commandMode && !explicitDelimiter && lex.Fits() && NoCommands(groups)
      && marks <= |groups|
      && (if lex.err.Malformed? then L.Tokens(bare, false, ";").1
          else Exact(bare, Flat(groups[marks..]) + taken, lex.rest, lex.afterFiller))
    }

    /** Nothing but byte-order marks was read so far. */
    predicate AtStart() {
      |finished| == marks && b == ""
    }

    /** The parser is at its first position exactly in front of the input behind the byte-order marks. */
    ghost predicate Away() {
      && marks <= |finished| && (PosOf(finished) == P.START <==> |finished| == marks)
      && Marks(input) == marks + Marks(bare) && Bare(input) == Bare(bare)
      && if AtStart() then lex.rest == bare && !lex.err.Malformed? && !lex.afterFiller else !HasPrefix(bare, L.BOM)
    }

    /** A statement may start here: if it is the first one, not with a byte-order mark. */
    predicate Settled() {
      AtStart() ==> !HasPrefix(lex.rest, L.BOM)
    }

    /** Under a delimiter without a space, no token has an unquoted space in it. */
    ghost predicate Joinable() {
      ' ' !in lex.delimiter && !StartsCommand(taken) ==> AllSeparate(taken)
    }

    /** Each error has a reason. */
    ghost predicate Blamed() {
      match err
      case NoError => true
      case Eof => !lex.err.Malformed?
      case Malformed => lex.err.Malformed?
      case SelectUnsupported => Mentions(taken, "select") || exists i ::
          0 <= i < |groups| && Mentions(groups[i], "select")
      case Panicked => (' ' in lex.delimiter && |taken| > 0 && !StartsCommand(taken)) || exists i ::
          0 <= i < |finished| && ' ' in finished[i].delimiter
    }

    /** Nothing of the input is lost: it consists of the finished statements, the text
        under construction, and what the lexer still has. */
    ghost predicate Lossless() {
      input == Texts(finished) + b + lex.rest && (err.Eof? ==> lex.rest == "")
    }

    ghost predicate Kept() {
      && Lossless()
      && (!lex.err.Malformed? ==> RunesKept(input, lex.rest, lex.delimiter, b, finished))
      && Recorded() && (plain ==> Plain()) && Away() && Blamed() && Joinable()
    }

    /** What scanning the token `t` does. */
    ghost predicate Takes(t: T.Token, next: Reading) {
      && L.Scans(lex, t.val, t.typ, next.lex) && |t.val| > 0 && err.NoError? && Settled()
      && next == this.(lex := next.lex, b := b + t.val, taken := taken + [t])
    }

    lemma KeptToken(t: T.Token, next: Reading)
      requires Kept() && Takes(t, next)
      ensures next.Kept() && (plain ==> Typed(t)) && (ValidUtf8(input) && !next.lex.err.Malformed? ==> ValidUtf8(t.val))
    {
      hide ValidUtf8, L.CutsRunes, HasPrefix, X.NextToken, RunesKept, PosOf, Texts, Plain, Typed, Mentions, Joinable,
           Marks, Bare;
      TakesRunes(t, next);
      TakesPlain(t, next);
      TakesJoinable(t, next);
      assert Texts(finished) + b + lex.rest == Texts(finished) + (b + t.val) + next.lex.rest;
      ValsMore(taken, t);
    }

    lemma TakesRunes(t: T.Token, next: Reading)
      requires Takes(t, next) && (!lex.err.Malformed? ==> RunesKept(input, lex.rest, lex.delimiter, b, finished))
      ensures !next.lex.err.Malformed? ==>
                RunesKept(input, next.lex.rest, next.lex.delimiter, next.b, finished)
                    && (ValidUtf8(input) ==> ValidUtf8(t.val))
    {
      hide ValidUtf8, L.CutsRunes, HasPrefix, X.NextToken, RunesKept;
      if !next.lex.err.Malformed? {
        RunesMore(input, lex.rest, lex.delimiter, b, finished, t.val, next.lex.rest);
      }
    }

    lemma TakesJoinable(t: T.Token, next: Reading)
      requires Takes(t, next) && Joinable()
      ensures next.Joinable()
    {
      hide ValidUtf8, L.CutsRunes, HasPrefix, X.NextToken, Separate, Keyword;
    }

    lemma TakesPlain(t: T.Token, next: Reading)
      requires Takes(t, next) && (plain ==> Plain())
      ensures plain ==> next.Plain() && Typed(t)
    {
      hide ValidUtf8, L.CutsRunes, HasPrefix, X.NextToken, L.Tokens, Exact, NoCommands, Flat;
      if plain {
        assert t.typ == Delimiter ==> Typed(t) by { FirstOfPrefix(t.val); }
        if !lex.err.Malformed? {
          var all := Flat(groups[marks..]);
          ExactMore(bare, all + taken, lex.rest, lex.afterFiller, t, next.lex.rest, next.lex.err.Malformed?);
          assert all + taken + [t] == all + next.taken;
        }
      }
    }

    /** The input is over, or unreadable behind a malformed token. */
    lemma KeptAtEnd(e: L.LexError)
      requires Kept() && err.NoError? && !e.NoError?
               && (if lex.err.Malformed? then e.Malformed? else e.Eof? && lex.rest == "")
      ensures this.(lex := lex.(err := e), err := FromLexer(e)).Kept()
    {
      hide L.Tokens, Exact, NoCommands, RunesKept, PosOf, Marks, Bare, HasPrefix, AllSeparate, StartsCommand;
    }

    lemma KeptDelimiter()
      requires Kept()
      ensures ValidUtf8(input) && !lex.err.Malformed? ==> ValidUtf8(lex.delimiter)
    {
    }

    lemma KeptPlain()
      requires Kept()
      ensures plain ==> !explicitDelimiter && NoCommands(groups) && lex.delimiter == ";"
      ensures ' ' !in lex.delimiter && !StartsCommand(taken) ==> AllSeparate(taken)
    {
    }

    /** The statement `s` is finished. */
    lemma KeptFinished(s: Stmt)
      requires Kept() && b != "" && s.text == b && !IsBom(s) && (plain ==> !StartsCommand(taken))
      requires StartsCommand(taken) || s.delimiter == lex.delimiter
      ensures this.(b := "", finished := finished + [s], taken := [], groups := groups + [taken]).Kept()
    {
      hide L.Tokens, Exact, RunesKept, PosOf, StartsCommand, Mentions, Texts, NoCommands, HasPrefix, Blamed, Away;
      if !lex.err.Malformed? {
        RunesFinished(input, lex.rest, lex.delimiter, b, finished, s);
      }
      TextsMore(finished, s);
      assert Texts(finished) + b + lex.rest == Texts(finished + [s]) + "" + lex.rest;
      FinishedPlain();
      FinishedAway(s);
      BlameKept(taken, s, this.(b := "", finished := finished + [s], taken := [], groups := groups + [taken]));
    }

    lemma FinishedPlain()
      requires plain ==> Plain() && !StartsCommand(taken)
      ensures plain ==> this.(b := "", taken := [], groups := groups + [taken]).Plain()
      ensures forall i :: 0 <= i < |groups| ==> (groups + [taken])[i] == groups[i]
    {
      hide L.Tokens, Exact, StartsCommand, NoCommands, Flat;
      if plain {
        GroupFinished(groups[marks..], taken);
        LastGroupPlain(groups, taken);
        assert (groups + [taken])[marks..] == groups[marks..] + [taken];
      }
    }

    lemma FinishedAway(s: Stmt)
      requires b != "" && s.text == b && !IsBom(s) && Away()
      ensures this.(b := "", finished := finished + [s], taken := [], groups := groups + [taken]).Away()
    {
      hide PosOf, Marks, Bare, HasPrefix;
      PosMore(finished, s);
      PositionsPositive(finished);
      P.NeverBack(PosOf(finished), b);
    }

    lemma BlameKept(g: seq<T.Token>, s: Stmt, next: Reading)
      requires Blamed() && (g == taken || taken == [])
      requires taken == [] || StartsCommand(taken) || s.delimiter == lex.delimiter
      requires next.taken == [] && next.groups == groups + [g] && next.err == err && next.finished == finished + [s]
      requires next.lex.err.Malformed? <==> lex.err.Malformed?
      ensures next.Blamed()
    {
      hide StartsCommand;
      var longer := groups + [g];
      assert forall i :: 0 <= i < |finished| ==> next.finished[i] == finished[i];
      assert next.finished[|finished|] == s;
      if err.SelectUnsupported? {
        if Mentions(taken, "select") {
          assert Mentions(longer[|groups|], "select");
        } else {
          var i :| 0 <= i < |groups| && Mentions(groups[i], "select");
          assert Mentions(longer[i], "select");
        }
      }
    }

    /** No byte-order mark was found. */
    lemma KeptNoBom(e: L.LexError)
      requires Kept() && b == "" && PosOf(finished) == P.START && !e.Malformed?
      ensures this.(lex := lex.(err := e)).Kept()
    {
      hide L.Tokens, Exact, NoCommands, RunesKept, PosOf, Marks, Bare, HasPrefix, AllSeparate, StartsCommand;
    }

    /** A byte-order mark was found. */
    lemma KeptBom(s: Stmt, left: string, e: L.LexError)
      requires Kept() && b == "" && taken == [] && PosOf(finished) == P.START && !e.Malformed?
      requires lex.rest == L.BOM + left && s.text == L.BOM && IsBom(s) && s.delimiter == lex.delimiter
      ensures BehindBom(s, left, e).Kept()
    {
      hide L.Tokens, Exact, RunesKept, PosOf, Mentions, ValidUtf8, Texts, HasPrefix, Marks, Bare, Plain, Away;
      var next := BehindBom(s, left, e);
      BomIsValid();
      ReadableAtStart();
      assert HasPrefix(lex.rest, L.BOM) by { MarkAhead(left); }
      assert L.CutsRunes(lex.rest, |L.BOM|) by {
        if ValidUtf8(lex.rest) { AfterPrefix(lex.rest, L.BOM); }
      }
      RunesMore(input, lex.rest, lex.delimiter, "", finished, L.BOM, left);
      RunesFinished(input, left, lex.delimiter, "" + L.BOM, finished, s);
      BomAway(s, left, e);
      BomPlainly(s, left, e);
      TextsMore(finished, s);
      assert Texts(finished) + b + lex.rest == Texts(finished + [s]) + "" + left;
      assert Vals([BOM_TOKEN]) == L.BOM by { ValsMore([], BOM_TOKEN); assert [] + [BOM_TOKEN] == [BOM_TOKEN]; }
      BlameKept([BOM_TOKEN], s, next);
    }

    lemma ReadableAtStart()
      requires Away() && b == "" && PosOf(finished) == P.START
      ensures !lex.err.Malformed?
    {
      hide PosOf, Marks, Bare, HasPrefix;
    }

    /** The state behind the byte-order mark `s`. */
    function BehindBom(s: Stmt, left: string, e: L.LexError): Reading {
      this.(lex := lex.(rest := left, err := e), finished := finished + [s], groups := groups + [[BOM_TOKEN]],
            marks := marks + 1, bare := left)
    }

    static lemma MarkAhead(left: string)
      ensures HasPrefix(L.BOM + left, L.BOM) && (L.BOM + left)[|L.BOM|..] == left
      ensures Marks(L.BOM + left) == 1 + Marks(left) && Bare(L.BOM + left) == Bare(left)
    {
      assert HasPrefix(L.BOM + left, L.BOM);
    }

    lemma BomAway(s: Stmt, left: string, e: L.LexError)
      requires Away() && b == "" && PosOf(finished) == P.START && !e.Malformed? && lex.rest == L.BOM + left && IsBom(s)
      ensures BehindBom(s, left, e).Away()
    {
      hide PosOf, Marks, Bare, HasPrefix;
      MarkAhead(left);
      PosMore(finished, s);
    }

    lemma BomPlainly(s: Stmt, left: string, e: L.LexError)
      requires (plain ==> Plain()) && Away() && b == "" && taken == [] && PosOf(finished) == P.START && !e.Malformed?
      requires |groups| == |finished|
      ensures plain ==> BehindBom(s, left, e).Plain()
    {
      hide L.Tokens, Exact, PosOf, Marks, Bare, HasPrefix, NoCommands;
      BomPlain(groups);
      assert (groups + [[BOM_TOKEN]])[marks + 1..] == [];
      assert Flat([]) + [] == [];
      ExactStart(left);
    }

    /** A client command: the tokens of the whole input do not matter any more. */
    lemma KeptCommand(mode: bool, d: string, explicit: bool)
      requires Kept() && (ValidUtf8(input) && !lex.err.Malformed? ==> ValidUtf8(d)) && StartsCommand(taken)
      ensures this.(plain := false, lex := lex.(commandMode := mode, delimiter := d),
              explicitDelimiter := explicit).Kept()
    {
      hide L.Tokens, Exact, NoCommands, ValidUtf8, PosOf, StartWithRunes, Marks, Bare, HasPrefix, AllSeparate,
           StartsCommand;
    }

    /** The parser has come to its end. */
    lemma KeptResult()
      requires Kept() && taken == [] && b == ""
      requires plain ==> forall i :: 0 <= i < |groups| - 1 ==> Whole(groups[i])
      requires plain && |groups| > 0 ==>
               Whole(groups[|groups| - 1]) || Ended(groups[|groups| - 1], finished[|groups| - 1].compound, true)
      ensures input == Texts(finished) + lex.rest && (err.Eof? ==> lex.rest == "")
      ensures |groups| == |finished| && forall i :: 0 <= i < |groups| ==>
              |groups[i]| > 0 && Vals(groups[i]) == finished[i].text
      ensures err.Eof? && ValidUtf8(input) ==> StartWithRunes(finished)
      ensures err.SelectUnsupported? ==> exists i :: 0 <= i < |groups| && Mentions(groups[i], "select")
      ensures err.Panicked? ==> exists i :: 0 <= i < |finished| && ' ' in finished[i].delimiter
      ensures plain ==> Behind(finished, input, err)
    {
      hide Exact, PosOf, AreGroups, Whole, Ended, ValidUtf8, NoCommands, L.Tokens, StartWithRunes, Texts, Marks, Bare,
           HasPrefix;
      assert Texts(finished) + "" + lex.rest == Texts(finished) + lex.rest;
      if plain && err.Eof? {
        ResultBehind();
      } else if plain && err.Malformed? {
        BareAtEnd();
      }
    }

    /** The input is over. */
    lemma ResultBehind()
      requires Plain() && Away() && Recorded() && taken == [] && b == ""
      requires err.Eof? && lex.rest == "" && !lex.err.Malformed?
      requires forall i :: 0 <= i < |groups| - 1 ==> Whole(groups[i])
      requires |groups| > 0 ==>
               Whole(groups[|groups| - 1]) || Ended(groups[|groups| - 1], finished[|groups| - 1].compound, true)
      ensures Behind(finished, input, err)
    {
      hide Exact, PosOf, AreGroups, Whole, Ended, NoCommands, L.Tokens, Marks, Bare, HasPrefix, Vals;
      BareAtEnd();
      var theirs, ours := groups[marks..], finished[marks..];
      assert Flat(theirs) + [] == Flat(theirs);
      ExactEnd(bare, Flat(theirs), lex.afterFiller);
      assert forall i :: 0 <= i < |theirs| ==> theirs[i] == groups[marks + i] && ours[i] == finished[marks + i];
      ResultGroups(theirs, ours);
    }

    /** No byte-order mark is left where the input is over or unreadable. */
    lemma BareAtEnd()
      requires Away() && b == "" && (lex.rest == "" || lex.err.Malformed?)
      ensures Marks(input) == marks && Bare(input) == bare
    {
      hide PosOf;
    }

    /** A sequence of tokens with too few of them was matched. */
    lemma KeptPanic()
      requires Kept() && ' ' in lex.delimiter && |taken| > 0 && !StartsCommand(taken)
      ensures this.(err := Panicked).Kept()
    {
      hide L.Tokens, Exact, NoCommands, RunesKept, PosOf, Marks, Bare, HasPrefix, AllSeparate, StartsCommand;
    }

    lemma KeptSelect()
      requires Kept() && Mentions(taken, "select")
      ensures this.(err := SelectUnsupported).Kept()
    {
      hide L.Tokens, Exact, NoCommands, RunesKept, PosOf, Marks, Bare, HasPrefix, AllSeparate, StartsCommand;
    }

    // ----- with delimiters and positions -----

    /** `force` and `dbs` are the delimiters and default databases of the statements so far, and `p` is the position
        behind them. */
    ghost predicate Placed(force: seq<string>, dbs: seq<string>, p: P.Pos) {
      && Kept() && Tracked(finished, force) && AllObey(finished, groups, force, dbs) && lex.delimiter != ""
          && p == PosOf(finished)
    }

    lemma PlacedToken(t: T.Token, next: Reading, force: seq<string>, dbs: seq<string>, p: P.Pos)
      requires Placed(force, dbs, p) && Takes(t, next)
      ensures next.Placed(force, dbs, p) && next.Settled() && (plain ==> Typed(t))
              && (ValidUtf8(input) && !next.lex.err.Malformed? ==> ValidUtf8(t.val))
    {
      hide Kept, Takes, Tracked, AllObey, PosOf, Typed, ValidUtf8;
      KeptToken(t, next);
      TakesKeeps(t, next);
      hide Settled;
    }

    lemma TakesKeeps(t: T.Token, next: Reading)
      requires Takes(t, next)
      ensures next.finished == finished && next.groups == groups && next.lex.delimiter == lex.delimiter
      ensures next.Settled()
    {
    }

    lemma PlacedAtEnd(e: L.LexError, force: seq<string>, dbs: seq<string>, p: P.Pos)
      requires Placed(force, dbs, p) && err.NoError? && !e.NoError?
               && (if lex.err.Malformed? then e.Malformed? else e.Eof? && lex.rest == "")
      ensures this.(lex := lex.(err := e), err := FromLexer(e)).Placed(force, dbs, p)
      ensures this.(lex := lex.(err := e), err := FromLexer(e)).Settled() == Settled()
    {
      hide Kept, Tracked, PosOf, AllObey;
      KeptAtEnd(e);
    }

    lemma PlacedFinished(s: Stmt, force: seq<string>, dbs: seq<string>, db: string, p: P.Pos)
      requires Placed(force, dbs, p) && b != "" && s.text == b && (plain ==> !StartsCommand(taken))
      requires P.Pos(s.line, s.char_) == p && s.char_ > 0
      requires Obeys(s, taken, force[|finished|], lex.delimiter, dbs[|finished|], db)
      ensures this.(b := "", finished := finished + [s], taken := [], groups := groups + [taken])
                  .Placed(force + [lex.delimiter], dbs + [db], P.AfterText(p, b))
    {
      hide Kept, Tracked, PosOf, AllObey, StartsCommand, P.AfterText, AllObey;
      AllObeySizes(finished, groups, force, dbs);
      ObeysDelimiter(s, taken, force[|finished|], lex.delimiter, dbs[|finished|], db);
      KeptFinished(s);
      ObeysTracks(s, taken, force[|finished|], lex.delimiter, dbs[|finished|], db);
      TrackedMore(finished, force, s, lex.delimiter);
      AllObeyMore(finished, groups, force, dbs, s, taken, lex.delimiter, db);
    }

    lemma PlacedNoBom(e: L.LexError, force: seq<string>, dbs: seq<string>, p: P.Pos)
      requires Placed(force, dbs, p) && b == "" && p == P.START && !e.Malformed?
      ensures this.(lex := lex.(err := e)).Placed(force, dbs, p)
    {
      hide Kept, Tracked, PosOf, AllObey;
      KeptNoBom(e);
    }

    lemma PlacedBom(s: Stmt, left: string, e: L.LexError, force: seq<string>, dbs: seq<string>)
      requires Placed(force, dbs, P.START) && b == "" && taken == [] && !e.Malformed? && lex.rest == L.BOM + left
      requires s.text == L.BOM && s.char_ == 0 && s.line == 1 && s.kind == Noop
      requires s.delimiter == force[|finished|] == lex.delimiter && s.defaultDatabase == dbs[|finished|]
      ensures BehindBom(s, left, e).Placed(force + [lex.delimiter], dbs + [s.defaultDatabase], P.START)
    {
      hide Kept, Tracked, PosOf, AllObey, Obeys;
      KeptBom(s, left, e);
      AllObeySizes(finished, groups, force, dbs);
      TrackedMore(finished, force, s, lex.delimiter);
      BomObeys(s);
      AllObeyMore(finished, groups, force, dbs, s, [BOM_TOKEN], lex.delimiter, s.defaultDatabase);
    }

    lemma PlacedCommand(mode: bool, d: string, explicit: bool, force: seq<string>, dbs: seq<string>, p: P.Pos)
      requires Placed(force, dbs, p) && d != "" && (ValidUtf8(input) && !lex.err.Malformed? ==> ValidUtf8(d))
      requires StartsCommand(taken)
      ensures this.(plain := false, lex := lex.(commandMode := mode, delimiter := d),
              explicitDelimiter := explicit).Placed(force, dbs, p)
      ensures this.(plain := false, lex := lex.(commandMode := mode, delimiter := d),
              explicitDelimiter := explicit).Settled() == Settled()
    {
      hide Kept, Tracked, PosOf, AllObey, ValidUtf8;
      KeptCommand(mode, d, explicit);
    }

    lemma PlacedSelect(force: seq<string>, dbs: seq<string>, p: P.Pos)
      requires Placed(force, dbs, p) && Mentions(taken, "select")
      ensures this.(err := SelectUnsupported).Placed(force, dbs, p)
      ensures this.(err := SelectUnsupported).Settled() == Settled()
    {
      hide Kept, Tracked, PosOf, AllObey, Mentions;
      KeptSelect();
    }

    lemma PlacedPanic(force: seq<string>, dbs: seq<string>, p: P.Pos)
      requires Placed(force, dbs, p) && ' ' in lex.delimiter && |taken| > 0 && !StartsCommand(taken)
      ensures this.(err := Panicked).Placed(force, dbs, p) && this.(err := Panicked).Settled() == Settled()
    {
      hide Kept, Tracked, PosOf, AllObey, StartsCommand;
      KeptPanic();
    }

    lemma PlacedDelimiter(force: seq<string>, dbs: seq<string>, p: P.Pos)
      requires Placed(force, dbs, p)
      ensures lex.delimiter != "" && (ValidUtf8(input) && !lex.err.Malformed? ==> ValidUtf8(lex.delimiter))
    {
      hide Kept, Tracked, PosOf, AllObey, ValidUtf8;
      KeptDelimiter();
    }

    lemma PlacedSizes(force: seq<string>, dbs: seq<string>, p: P.Pos)
      requires Placed(force, dbs, p)
      ensures |force| == |finished| + 1 && |dbs| == |finished| + 1 && |groups| == |finished|
    {
      hide Kept, Tracked, PosOf, Obeys;
    }

    lemma PlacedPlain(force: seq<string>, dbs: seq<string>, p: P.Pos)
      requires Placed(force, dbs, p)
      ensures plain ==> !explicitDelimiter && lex.delimiter == ";"
      ensures ' ' !in lex.delimiter && !StartsCommand(taken) ==> AllSeparate(taken)
    {
      hide Kept, Tracked, PosOf, AllObey;
      KeptPlain();
    }

    lemma PlacedResult(force: seq<string>, dbs: seq<string>, p: P.Pos)
      requires Placed(force, dbs, p) && taken == [] && b == ""
      requires plain ==> forall i :: 0 <= i < |groups| - 1 ==> Whole(groups[i])
      requires plain && |groups| > 0 ==>
               Whole(groups[|groups| - 1]) || Ended(groups[|groups| - 1], finished[|groups| - 1].compound, true)
      ensures AllObey(finished, groups, force, dbs)
      ensures ParsedStatements.Placed(finished) && Delimited(finished, force) && forall i :: 0 <= i < |finished| ==>
              finished[i].text != ""
      ensures input == Texts(finished) + lex.rest && (err.Eof? ==> lex.rest == "")
      ensures |groups| == |finished| && forall i :: 0 <= i < |groups| ==>
              |groups[i]| > 0 && Vals(groups[i]) == finished[i].text
      ensures err.Eof? && ValidUtf8(input) ==> StartWithRunes(finished)
      ensures err.SelectUnsupported? ==> exists i :: 0 <= i < |groups| && Mentions(groups[i], "select")
      ensures err.Panicked? ==> exists i :: 0 <= i < |finished| && ' ' in finished[i].delimiter
      ensures plain ==> Behind(finished, input, err)
    {
      hide Kept, Behind, PosOf, Whole, Ended, StartWithRunes, AreGroups, L.Tokens, HasPrefix, ValidUtf8, Texts,
           ParsedStatements.Placed, Delimited;
      KeptResult();
    }
  }

  /** Statements whose tokens are known: complete ones are the groups of the tokens. */
  lemma ResultSizes(groups: seq<seq<T.Token>>, stmts: seq<Stmt>, more: seq<X.Token>)
    requires |groups| <= |stmts| && forall i :: 0 <= i < |groups| ==>
             Whole(groups[i]) && Vals(groups[i]) == stmts[i].text
    ensures Sizes(Grouped(Lexemes(Flat(groups)) + more)) == Lengths(stmts[..|groups|]) + Sizes(Grouped(more))
  {
    hide Grouped, Vals, Lexemes, Flat, Size, Whole;
    GroupsOf(groups, more);
    forall i | 0 <= i < |groups| ensures Size(AllLexemes(groups)[i]) == |stmts[i].text| {
      ValsSize(groups[i]);
    }
  }

  /** The statements are the groups of all tokens, but for a last one that is compound. */
  ghost predicate AreGroups(stmts: seq<Stmt>, tokens: seq<X.Token>) {
    |stmts| > 0 ==>
      && Lengths(stmts[..|stmts| - 1]) <= Sizes(Grouped(tokens))
      && (!stmts[|stmts| - 1].compound ==> Lengths(stmts) == Sizes(Grouped(tokens)))
  }

  /** Behind the byte-order marks, the statements are the groups of the tokens of the rest of the input; it is
      malformed exactly if the parser says so. */
  ghost predicate Behind(stmts: seq<Stmt>, input: string, err: ParseError) {
    var (tokens, malformed) := L.Tokens(Bare(input), false, ";");
    && (err.Eof? ==> Marks(input) <= |stmts| && !malformed && AreGroups(stmts[Marks(input)..], tokens))
    && (err.Malformed? ==> malformed)
  }

  lemma ResultGroups(groups: seq<seq<T.Token>>, stmts: seq<Stmt>)
    requires |groups| == |stmts| && forall i :: 0 <= i < |groups| ==>
             |groups[i]| > 0 && Vals(groups[i]) == stmts[i].text
    requires forall i :: 0 <= i < |groups| - 1 ==> Whole(groups[i])
    requires |groups| > 0 ==>
             Whole(groups[|groups| - 1]) || Ended(groups[|groups| - 1], stmts[|stmts| - 1].compound, true)
    ensures AreGroups(stmts, Lexemes(Flat(groups)))
  {
    hide Grouped, Vals, Lexemes, Flat, Whole, Ended, Lengths, Sizes;
    if |groups| > 0 {
      var init, last := groups[..|groups| - 1], groups[|groups| - 1];
      var n := |stmts| - 1;
      assert groups == init + [last];
      LastAlone(init, last);
      ResultSizes(init, stmts, Lexemes(last));
      if Whole(last) || !stmts[n].compound {
        LastSize(last, stmts[n]);
        LengthsMore(stmts[..n], stmts[n]);
        assert stmts[..n] + [stmts[n]] == stmts;
      }
    }
  }

  lemma LastAlone(init: seq<seq<T.Token>>, last: seq<T.Token>)
    ensures Lexemes(Flat(init + [last])) == Lexemes(Flat(init)) + Lexemes(last)
  {
    hide Flat;
    FlatMore(init, last);
    LexemesConcat(Flat(init), last);
  }

  lemma LastSize(g: seq<T.Token>, s: Stmt)
    requires Vals(g) == s.text && (Whole(g) || (Ended(g, s.compound, true) && !s.compound))
    ensures Sizes(Grouped(Lexemes(g))) == [|s.text|]
  {
    hide Grouped, Vals, Lexemes, Size;
    if Whole(g) {
      WholeGroup(g, []);
      assert Lexemes(g) + [] == Lexemes(g) && Grouped([]) == [] by { NoGroups(); }
    } else {
      UnendedGroup(g);
    }
    ValsSize(g);
  }

  lemma NoGroups()
    ensures Grouped([]) == []
  {
  }

  lemma LengthsMore(stmts: seq<Stmt>, s: Stmt)
    ensures Lengths(stmts + [s]) == Lengths(stmts) + [|s.text|]
  {
  }

  const BOM_TOKEN := T.Token.Token(L.BOM, Filler, 0)

  lemma BomIsValid()
    ensures ValidUtf8(L.BOM)
  {
    assert L.BOM[3..] == "";
  }

  lemma PlacedStart(r: Reading)
    requires r.Kept() && r.finished == [] && r.groups == [] && r.lex.delimiter == ";"
    ensures r.Placed([";"], [""], P.START)
  {
    hide Reading.Kept;
  }

  /** Nothing was read yet. */
  lemma KeptStart(r: Reading)
    requires r == Reading(r.input, L.State(r.input, ";", false, false, L.NoError, r.lex.look), "", NoError, [], false,
             [], [], true, 0, r.input) && r.lex.Fits()
    ensures r.Kept()
  {
    hide Marks, Bare, HasPrefix;
    ExactStart(r.input);
    assert Flat([]) + [] == [];
    assert ";"[1..] == "";
    assert "" + "" + r.input == r.input;
  }

  /** A list of statements followed by the mark. */
  lemma BomPlain(groups: seq<seq<T.Token>>)
    ensures NoCommands(groups + [[BOM_TOKEN]]) == NoCommands(groups)
  {
    NoCommandsMore(groups, [BOM_TOKEN]);
  }

  lemma FirstOfPrefix(s: string)
    ensures HasPrefix(s, ";") ==> |s| > 0 && s[0] == ';'
  {
  }

  // ----- what client commands do -----

  /** A client command changes the delimiter or the default database to its argument, if it has one; every other
      statement records both and leaves them as they are. */
  ghost predicate Obeys(s: Stmt, g: seq<T.Token>, d0: string, d1: string, db0: string, db1: string) {
    && |g| > 0 && s.defaultDatabase == db0
    && match Keyword(g[0])
       case DelimiterWord =>
         var d := ArgumentOf(g[1..], DelimiterArg).text;
         IsDelimiterCommand(s) && db1 == db0 && d1 == if d == "" then d0 else d
       case UseWord =>
         var db := ArgumentOf(g[1..], UseArg).text;
         && s.delimiter == d0 == d1 && db1 == (if db == "" then db0 else db)
         && s.kind == (if db == "" then UnknownKind else Command)
       case _ =>
         && s.delimiter == d0 == d1 && db1 == db0 && s.kind != Command && (s.kind == Create ==> IsCreate(s, g))
         && (' ' !in s.delimiter ==> AllSeparate(g))
  }

  /** `force` and `dbs` are the delimiters and default databases in front of each statement, and behind the last one. */
  ghost predicate AllObey(stmts: seq<Stmt>, groups: seq<seq<T.Token>>, force: seq<string>, dbs: seq<string>) {
    && |groups| == |stmts| && |force| == |stmts| + 1 && |dbs| == |stmts| + 1 && force[0] == ";" && dbs[0] == ""
    && forall i :: 0 <= i < |stmts| ==> Obeys(stmts[i], groups[i], force[i], force[i + 1], dbs[i], dbs[i + 1])
  }

  lemma AllObeyMore(stmts: seq<Stmt>, groups: seq<seq<T.Token>>, force: seq<string>, dbs: seq<string>,
                    s: Stmt, g: seq<T.Token>, d: string, db: string)
    requires AllObey(stmts, groups, force, dbs) && Obeys(s, g, force[|stmts|], d, dbs[|stmts|], db)
    ensures AllObey(stmts + [s], groups + [g], force + [d], dbs + [db])
  {
    hide Obeys;
  }

  /** What was recognized was recognized by its tokens. */
  lemma AllCreated(stmts: seq<Stmt>, groups: seq<seq<T.Token>>, force: seq<string>, dbs: seq<string>)
    requires AllObey(stmts, groups, force, dbs)
    ensures forall i :: 0 <= i < |stmts| && stmts[i].kind == Create ==> IsCreate(stmts[i], groups[i])
  {
    hide IsCreate, Obeys;
    forall i | 0 <= i < |stmts| && stmts[i].kind == Create ensures IsCreate(stmts[i], groups[i]) {
      ObeysCreated(stmts[i], groups[i], force[i], force[i + 1], dbs[i], dbs[i + 1]);
    }
  }

  lemma ObeysCreated(s: Stmt, g: seq<T.Token>, d0: string, d1: string, db0: string, db1: string)
    requires Obeys(s, g, d0, d1, db0, db1) && s.kind == Create
    ensures IsCreate(s, g)
  {
    hide IsCreate, ArgumentOf;
  }

  lemma AllObeySizes(stmts: seq<Stmt>, groups: seq<seq<T.Token>>, force: seq<string>, dbs: seq<string>)
    requires AllObey(stmts, groups, force, dbs)
    ensures |groups| == |stmts| && |force| == |stmts| + 1 && |dbs| == |stmts| + 1
  {
  }

  lemma ObeysTracks(s: Stmt, g: seq<T.Token>, d0: string, d1: string, db0: string, db1: string)
    requires Obeys(s, g, d0, d1, db0, db1)
    ensures IsDelimiterCommand(s) || (s.delimiter == d0 && d1 == d0)
  {
  }

  lemma ObeysDelimiter(s: Stmt, g: seq<T.Token>, d0: string, d1: string, db0: string, db1: string)
    requires Obeys(s, g, d0, d1, db0, db1)
    ensures StartsCommand(g) || s.delimiter == d1
  {
  }

  lemma BomObeys(s: Stmt)
    requires s.kind != Command && s.kind != Create
    ensures Obeys(s, [BOM_TOKEN], s.delimiter, s.delimiter, s.defaultDatabase, s.defaultDatabase)
  {
  }

  /** The text plays no part. */
  lemma ObeysText(s: Stmt, text: string, g: seq<T.Token>, d0: string, d1: string, db0: string, db1: string)
    ensures Obeys(s.(text := text), g, d0, d1, db0, db1) == Obeys(s, g, d0, d1, db0, db1)
  {
    hide IsCreate, ArgumentOf, Keyword;
    CreateSameText(s, text, g);
  }

  lemma CreateSameText(s: Stmt, text: string, g: seq<T.Token>)
    ensures IsCreate(s.(text := text), g) <==> IsCreate(s, g)
  {
    hide IsCreate;
    if IsCreate(s, g) {
      CreateLonger(s, s.(text := text), g, g);
    }
    if IsCreate(s.(text := text), g) {
      CreateLonger(s.(text := text), s, g, g);
    }
  }

  lemma UseObeys(s: Stmt, t: T.Token, more: seq<T.Token>, db0: string, db1: string)
    requires Keyword(t).UseWord? && s.defaultDatabase == db0
    requires var db := ArgumentOf(more, UseArg).text;
             db1 == (if db == "" then db0 else db) && s.kind == (if db == "" then UnknownKind else Command)
    ensures Obeys(s, [t] + more, s.delimiter, s.delimiter, db0, db1) && StartsCommand([t] + more)
  {
    assert ([t] + more)[1..] == more;
  }

  lemma DelimiterObeys(s: Stmt, t: T.Token, more: seq<T.Token>, d0: string, d1: string, db: string)
    requires Keyword(t).DelimiterWord? && IsDelimiterCommand(s) && s.defaultDatabase == db
    requires var d := ArgumentOf(more, DelimiterArg).text; d1 == if d == "" then d0 else d
    ensures Obeys(s, [t] + more, d0, d1, db, db) && StartsCommand([t] + more)
  {
    assert ([t] + more)[1..] == more;
  }

  lemma ObeysPlain(s: Stmt, g: seq<T.Token>)
    requires |g| > 0 && !StartsCommand(g) && s.kind != Command && (s.kind == Create ==> IsCreate(s, g))
    requires ' ' !in s.delimiter ==> AllSeparate(g)
    ensures Obeys(s, g, s.delimiter, s.delimiter, s.defaultDatabase, s.defaultDatabase)
  {
  }

  // ----- complete statements -----

  /** A statement of its own or one that is cut right. */
  predicate Ended(g: seq<T.Token>, compound: bool, failed: bool) {
    |g| > 0 && if Keyword(g[0]).FillerOrDelimiter? then |g| == 1 && !compound else CutRight(g, compound, failed)
  }

  lemma EndedAlone(t: T.Token)
    requires Keyword(t).FillerOrDelimiter?
    ensures Ended([t], false, false)
  {
  }

  lemma BomEnded()
    ensures Ended([BOM_TOKEN], false, false)
  {
  }

  lemma EndedCut(before: seq<seq<T.Token>>, t: T.Token, groups: seq<seq<T.Token>>, compound: bool, failed: bool,
      plain: bool)
    requires Cut(before, [t], groups, compound, failed, plain) && !Keyword(t).FillerOrDelimiter?
    ensures |groups| == |before| + 1 && groups[..|before|] == before
            && (plain ==> Ended(groups[|before|], compound, failed))
  {
    assert groups[|before|][0] == t;
  }

  /** If no error stopped it, a statement that is cut right is complete. */
  lemma EndedWhole(groups: seq<seq<T.Token>>, before: seq<seq<T.Token>>, compound: bool)
    requires |groups| == |before| + 1 && groups[..|before|] == before
    ensures Ended(groups[|before|], compound, false) ==> Whole(groups[|before|])
    ensures NoCommands(groups) ==> NoCommands(before)
    ensures forall i :: 0 <= i < |before| ==> groups[i] == before[i]
  {
  }

  lemma CutStarts(before: seq<seq<T.Token>>, start: seq<T.Token>, longer: seq<T.Token>, groups: seq<seq<T.Token>>,
      compound: bool, failed: bool, plain: bool)
    requires Cut(before, longer, groups, compound, failed, plain) && start <= longer
    ensures Cut(before, start, groups, compound, failed, plain)
  {
  }

  lemma StartsLonger(start: seq<T.Token>, longer: seq<T.Token>)
    requires start <= longer && |start| > 0
    ensures StartsCommand(longer) == StartsCommand(start) && |longer| > 0
  {
  }

  lemma FirstStarts(t: T.Token)
    ensures StartsCommand([t]) <==> Keyword(t).UseWord? || Keyword(t).DelimiterWord?
    ensures UpToDelimiter([t]) && EndsInDelimiter([t]) == (t.typ == Delimiter)
  {
  }

  /** Only the last of the tokens read ahead may be a delimiter. */
  lemma AheadInner(tokens: seq<T.Token>, taken: seq<T.Token>, b: string, plain: bool, n: nat)
    requires Ahead(tokens, taken, b, plain) && n < |tokens|
    ensures Ahead(tokens[n..], taken, b, plain)
  {
    if plain {
      AheadDelimiter(tokens, taken, b, plain);
    }
    AheadDrop(tokens, taken, b, plain, n);
  }
}
