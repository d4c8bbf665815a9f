// The statement splitter (internal/tengo/parser.go): a lossless partition of the
// input into statements, with positions and delimiters.

module Parser {
  import opened Wrappers
  import opened Text
  import opened LexSpec
  import opened Utf8
  import opened Positions
  import opened Statements
  import opened ParsedStatements
  import opened ParserTokens
  import opened TokenGroups
  import opened CreateShapes
  import L = Lexer
  import T = ParserTokens

  type Token = T.Token

  class Parser {
    const lexer: L.Lexer
    /** Whether a statement is being built, and its fields so far. */
    var open: bool
    var stmt: Stmt
    /** The text of the statement being built. */
    var b: string
    var err: ParseError
    var defaultDatabase: string
    var explicitDelimiter: bool
    var lineNumber: nat
    var colNumber: nat
    /** The statements finished so far. */
    var finished: seq<Stmt>
    ghost var input: string
    /** The delimiter in force at the start of each statement, and behind the last one. */
    ghost var force: seq<string>
    /** The same for the default database. */
    ghost var dbs: seq<string>
    /** The tokens of the statement being built, and of those finished. */
    ghost var taken: seq<Token>
    ghost var groups: seq<seq<Token>>
    /** No client command was met. */
    ghost var plain: bool
    /** The number of byte-order marks, and the input behind them. */
    ghost var marks: nat
    ghost var bare: string

    /** The fields that say how far the input was read. */
    ghost function Now(): Reading
      reads this`input, this`b, this`err, this`finished, this`taken, this`groups, this`plain, this`explicitDelimiter,
          this`marks, this`bare, lexer
    {
      Reading(input, lexer.Now(), b, err, finished, explicitDelimiter, taken, groups, plain, marks, bare)
    }

    /** Nothing is lost of the input and its tokens, and the position is right. */
    ghost predicate Lossless()
      reads this`input, this`b, this`err, this`finished, this`taken, this`groups, this`plain, this`explicitDelimiter,
          this`marks, this`bare, lexer, this`force, this`dbs, this`lineNumber, this`colNumber
    {
      lexer.Valid() && Now().Placed(force, dbs, Pos(lineNumber, colNumber))
    }

    /** Between two statements. */
    ghost predicate Closed()
      reads this, lexer
    {
      && Lossless() && !open && b == "" && taken == [] && (plain <==> NoCommands(groups))
      && |force| == |finished| + 1 == |dbs| && lexer.delimiter == force[|finished|]
          && defaultDatabase == dbs[|finished|]
    }

    /** A statement is about to be read: where it starts. */
    ghost predicate Opening()
      reads this, lexer
    {
      && Lossless() && |force| == |finished| + 1 == |dbs| && open
      && stmt.char_ > 0 && stmt.line == lineNumber && stmt.char_ == colNumber
    }

    /** While a statement is being built. */
    ghost predicate Open()
      reads this, lexer
    {
      Opening() && Now().Settled()
    }

    /** The statement records the delimiter and the default database that are in force. */
    ghost predicate Ordinary()
      reads this, lexer
    {
      && |force| == |finished| + 1 == |dbs| && stmt.kind != Command
      && stmt.delimiter == force[|finished|] == lexer.delimiter
      && stmt.defaultDatabase == dbs[|finished|] == defaultDatabase
    }

    constructor (input: string, look: nat)
      requires look > L.MIN_LOOK
      ensures Closed() && this.input == input && finished == [] && err.NoError? && fresh(lexer) && groups == []
      ensures !explicitDelimiter
    {
      lexer := new L.Lexer(input, ";", look);
      open, b, err, defaultDatabase, explicitDelimiter, lineNumber, colNumber := false, "", NoError, "", false, 1, 1;
      stmt := Stmt(1, 1, "", UnknownKind, NoObject, "", "", ";", "", false, "");
      finished := [];
      this.input := input;
      force, dbs := [";"], [""];
      taken, groups, plain := [], [], true;
      marks, bare := 0, input;
      new;
      assert "" + "" + input == input;
      KeptStart(Now());
      PlacedStart(Now());
    }

    // ----- tokens -----

    /** The first error stays, and comes from the lexer. */
    static predicate ReadOn(before: ParseError, after: ParseError) {
      after == before || (before.NoError? && (after.Eof? || after.Malformed?))
    }

    /** nextToken: appends the next token to the text under construction. */
    method NextToken() returns (t: Option<Token>)
      requires Open()
      modifies this`b, this`err, this`taken, lexer
      ensures Open() && lexer.delimiter == old(lexer.delimiter)
      ensures t.None? ==> !err.NoError? && lexer.rest == old(lexer.rest) && b == old(b) && taken == old(taken)
      ensures (!old(err).NoError? ==> t.None?) && ReadOn(old(err), err)
      ensures t.Some? ==>
              err == old(err) == NoError && b == old(b) + t.value.val && |t.value.val| > 0
              && |lexer.rest| < |old(lexer.rest)|
      ensures t.Some? ==> t.value.offset == |old(b)| && taken == old(taken) + [t.value] && (plain ==> Typed(t.value))
      ensures t.Some? && ValidUtf8(input) && !lexer.err.Malformed? ==> ValidUtf8(t.value.val)
      ensures old(lexer.err).Malformed? ==> lexer.err.Malformed?
      ensures t.Some? && !old(lexer.commandMode) && !old(lexer.err).Malformed? && lexer.Fits() ==>
                LexSpec.Token(|t.value.val|, t.value.typ, lexer.err.Malformed?)
                == LexSpec.NextToken(old(lexer.rest), old(lexer.prevTokenFiller), lexer.delimiter)
    {
      hide Reading.Placed, Reading.Settled, L.Scans, HasPrefix, ValidUtf8, ArgumentOf, Separate, L.CutsRunes,
           LexSpec.NextToken, L.Tokens, Typed, StartsCommand, NonFiller;
      if !err.NoError? {
        return None;
      }
      ghost var before := Now();
      DelimiterIsValid();
      var r := lexer.Scan();
      match r
      case End(e) =>
        err := FromLexer(e);
        before.PlacedAtEnd(e, force, dbs, Pos(lineNumber, colNumber));
        return None;
      case Got(data, typ) =>
        var token := Take(data, typ);
        t := Some(token);
        before.PlacedToken(t.value, Now(), force, dbs, Pos(lineNumber, colNumber));
    }

    /** Appends a token to the text. */
    method Take(data: string, typ: TokenType) returns (t: Token)
      modifies this`b, this`taken
      ensures t == T.Token.Token(data, typ, |old(b)|) && b == old(b) + data && taken == old(taken) + [t]
      ensures Now() == old(Now()).(b := b, taken := taken)
    {
      t := T.Token.Token(data, typ, |b|);
      b := b + data;
      taken := taken + [t];
    }

    /** `tokens` were read ahead. */
    ghost predicate Buffered(tokens: seq<Token>)
      reads this`b, this`taken, this`plain
    {
      Ahead(tokens, taken, b, plain)
    }

    /** nextTokens: grows the list to `n` tokens, leaving out filler, but not beyond a delimiter or an error. */
    method NextTokens(tokens: seq<Token>, n: nat) returns (r: seq<Token>)
      requires Open() && Buffered(tokens)
      modifies this`b, this`err, this`taken, lexer
      ensures Open() && lexer.delimiter == old(lexer.delimiter) && Buffered(r) && old(taken) <= taken
      ensures tokens <= r && |r| + |lexer.rest| <= |tokens| + |old(lexer.rest)|
      ensures |old(b)| <= |b| && |lexer.rest| <= |old(lexer.rest)|
      ensures forall i :: |tokens| <= i < |r| ==> r[i].typ != Filler
      ensures |r| >= n || !err.NoError? || (|r| > 0 && r[|r| - 1].typ == Delimiter)
      ensures |tokens| >= n || EndsInDelimiter(tokens) || !old(err).NoError? ==> r == tokens && taken == old(taken)
      ensures Head(taken, r) == Head(old(taken), tokens) && ReadOn(old(err), err)
    {
      hide Lossless, Reading.Settled, Ahead, ArgumentOf, ClientCommand.Unquote, ClientCommand.Quoted, HasPrefix,
           ValidUtf8, L.CutsRunes, LexSpec.NextToken, L.Tokens, Head, Separate;
      r := tokens;
      while err.NoError? && |r| < n && (|r| == 0 || r[|r| - 1].typ != Delimiter)
        invariant Open() && lexer.delimiter == old(lexer.delimiter) && Buffered(r) && old(taken) <= taken
        invariant tokens <= r && |r| + |lexer.rest| <= |tokens| + |old(lexer.rest)|
        invariant |old(b)| <= |b| && |lexer.rest| <= |old(lexer.rest)|
        invariant forall i :: |tokens| <= i < |r| ==> r[i].typ != Filler
        invariant |tokens| >= n || EndsInDelimiter(tokens) || !old(err).NoError? ==> r == tokens && taken == old(taken)
        invariant Head(taken, r) == Head(old(taken), tokens) && ReadOn(old(err), err)
        decreases err.NoError?, |lexer.rest|
      {
        ghost var text, before := b, taken;
        var t := NextToken();
        if t.Some? {
          AheadMore(r, before, text, plain, t.value);
          AheadHead(r, before, text, plain, t.value);
          if t.value.typ != Filler {
            r := r + [t.value];
          }
        }
      }
    }

    /** matchNextSequence: the longest wanted sequence whose text the tokens start with. If that has more words than
        there are tokens, the code slices the tokens out of range. */
    method MatchNextSequence(tokens: seq<Token>, wants: seq<seq<string>>)
        returns (matched: seq<Token>, leftovers: seq<Token>)
      requires Open() && Buffered(tokens) && Wordy(wants) && |taken| > 0 && !StartsCommand(taken)
      modifies this`b, this`err, this`taken, lexer
      ensures Open() && lexer.delimiter == old(lexer.delimiter) && Buffered(leftovers) && old(taken) <= taken
      ensures |matched| + |leftovers| + |lexer.rest| <= |tokens| + |old(lexer.rest)|
      ensures |old(b)| <= |b| && |lexer.rest| <= |old(lexer.rest)|
      ensures tokens <= matched + leftovers && Head(taken, leftovers) == Head(old(taken), tokens) + matched
      ensures var n := LongestJoin(Window(matched + leftovers, MaxLength(wants)), wants);
              if n > |matched + leftovers| then matched == [] && err.Panicked? && ' ' in lexer.delimiter
              else |matched| == n && (n > 0 ==> IsOneOf(matched, wants))
      ensures ReadOn(old(err), err) || err.Panicked?
      ensures |tokens| >= MaxLength(wants) || EndsInDelimiter(tokens) || !old(err).NoError? ==>
                matched + leftovers == tokens && taken == old(taken)
      ensures |matched + leftovers| >= MaxLength(wants) || !err.NoError? || EndsInDelimiter(matched + leftovers)
      ensures UpToDelimiter(matched + leftovers)
    {
      hide Lossless, Reading.Settled, Ahead, Head, IsOneOf, StartsCommand, Wordy, Separate, AllSeparate,
           UpToDelimiter, MaxLength, LongestJoin, Window, EndsInDelimiter;
      ghost var start := taken;
      var grown := NextTokens(tokens, MaxLength(wants));
      StartsLonger(start, taken);
      ParsedSoFar();
      var n := LongestJoin(Window(grown, MaxLength(wants)), wants);
      MatchedAhead(grown, taken, b, plain, wants, lexer.delimiter);
      AheadUpTo(grown, taken, b, plain);
      Enough(grown, MaxLength(wants));
      if n > |grown| {
        matched, leftovers := [], grown;
        assert matched + leftovers == grown;
        Panic();
      } else {
        HeadDrop(grown, taken, b, plain, n);
        matched, leftovers := grown[..n], grown[n..];
        assert matched + leftovers == grown;
      }
    }

    /** Nothing more is read to have `n` tokens. */
    static predicate Complete(tokens: seq<Token>, n: nat, err: ParseError) {
      |tokens| >= n || EndsInDelimiter(tokens) || !err.NoError?
    }

    lemma Enough(tokens: seq<Token>, n: nat)
      requires |tokens| >= n || !err.NoError? || (|tokens| > 0 && tokens[|tokens| - 1].typ == Delimiter)
      ensures |tokens| >= n || !err.NoError? || EndsInDelimiter(tokens)
    {
    }

    /** A slice out of range. Nothing more is read. */
    method Panic()
      requires Open() && ' ' in lexer.delimiter && |taken| > 0 && !StartsCommand(taken)
      modifies this`err
      ensures Open() && err.Panicked?
    {
      hide Reading.Placed, Reading.Settled, StartsCommand;
      Now().PlacedPanic(force, dbs, Pos(lineNumber, colNumber));
      err := Panicked;
    }

    lemma ParsedSoFar()
      requires Lossless()
      ensures plain ==> !explicitDelimiter && lexer.delimiter == ";"
      ensures ' ' !in lexer.delimiter && !StartsCommand(taken) ==> AllSeparate(taken)
    {
      hide Reading.Placed, Reading.Settled, StartsCommand, AllSeparate;
      Now().PlacedPlain(force, dbs, Pos(lineNumber, colNumber));
    }

    /** skipUntilSequence for a single word. `seen` are the tokens up to and including it. */
    method SkipUntilWord(tokens: seq<Token>, word: string)
        returns (found: bool, leftovers: seq<Token>, ghost seen: seq<Token>)
      requires Open() && Buffered(tokens)
      modifies this`b, this`err, this`taken, lexer
      ensures Open() && lexer.delimiter == old(lexer.delimiter) && Buffered(leftovers) && old(taken) <= taken
      ensures |leftovers| + |lexer.rest| <= |tokens| + |old(lexer.rest)|
      ensures |old(b)| <= |b| && |lexer.rest| <= |old(lexer.rest)|
      ensures found == HasWord(seen, word) && (found ==> Mentions(taken, word))
      ensures !found ==> if leftovers == [] then !err.NoError? else |leftovers| == 1 && leftovers[0].typ == Delimiter
      ensures Head(taken, leftovers) == Head(old(taken), tokens) + seen && ReadOn(old(err), err)
      ensures !old(err).NoError? ==> taken == old(taken)
    {
      hide Lossless, Reading.Settled, Ahead, Head, ToLower, Mentions;
      found, seen := false, [];
      leftovers := NextTokens(tokens, 5);
      while |leftovers| > 0 && leftovers[0].typ != Delimiter
        invariant Open() && lexer.delimiter == old(lexer.delimiter) && Buffered(leftovers) && old(taken) <= taken
        invariant |leftovers| + |lexer.rest| <= |tokens| + |old(lexer.rest)|
        invariant |old(b)| <= |b| && |lexer.rest| <= |old(lexer.rest)|
        invariant !HasWord(seen, word) && (leftovers == [] ==> !err.NoError?)
        invariant Head(taken, leftovers) == Head(old(taken), tokens) + seen && ReadOn(old(err), err)
        invariant !old(err).NoError? ==> taken == old(taken)
        decreases |leftovers| + |lexer.rest|
      {
        AheadDrop(leftovers, taken, b, plain, 1);
        HeadDrop(leftovers, taken, b, plain, 1);
        WordSeen(seen, leftovers[0], word);
        assert leftovers[..1] == [leftovers[0]];
        seen := seen + [leftovers[0]];
        if ToLower(leftovers[0].val) == word {
          AheadMentions(leftovers, taken, b, plain);
          return true, leftovers[1..], seen;
        }
        leftovers := NextTokens(leftovers[1..], 1);
      }
      AheadOnly(leftovers, taken, b, plain);
    }

    /** parseObjectNameClause. `grown` are the tokens it looked at. */
    method ParseObjectNameClause(tokens: seq<Token>) returns (leftovers: seq<Token>, ghost grown: seq<Token>)
      requires Open() && Buffered(tokens)
      modifies this`b, this`err, this`stmt, this`taken, lexer
      ensures Open() && lexer.delimiter == old(lexer.delimiter) && Buffered(leftovers) && old(taken) <= taken
      ensures |leftovers| + |lexer.rest| <= |tokens| + |old(lexer.rest)|
      ensures |old(b)| <= |b| && |lexer.rest| <= |old(lexer.rest)|
      ensures tokens <= grown && Listed(grown, b) && stmt == WithName(old(stmt), grown, b)
      ensures (|grown| >= 3 || !err.NoError? || EndsInDelimiter(grown)) && ReadOn(old(err), err)
      ensures |tokens| >= 3 || EndsInDelimiter(tokens) || !old(err).NoError? ==> grown == tokens && taken == old(taken)
      ensures UpToDelimiter(grown) && NonFiller(taken) == Head(old(taken), tokens) + grown
      ensures leftovers == grown[NameSize(grown)..]
      ensures Head(taken, leftovers) == Head(old(taken), tokens) + grown[..NameSize(grown)]
      ensures stmt == old(stmt) || Contains(b, stmt.nameClause)
      ensures stmt ==
              old(stmt).(qualifier := stmt.qualifier, objectName := stmt.objectName, nameClause := stmt.nameClause)
    {
      hide Lossless, Reading.Settled, Listed, Ahead, Head, NameSize, WithName, Contains, UpToDelimiter;
      var all := NextTokens(tokens, 3);
      AheadUpTo(all, taken, b, plain);
      HeadDrop(all, taken, b, plain, NameSize(all));
      AheadListed(all, taken, b, plain);
      leftovers := TakeName(all);
      grown := all;
    }

    /** Records the name that the tokens start with. */
    method TakeName(all: seq<Token>) returns (leftovers: seq<Token>)
      requires Open() && Buffered(all) && Listed(all, b)
      modifies this`stmt
      ensures Open() && Buffered(leftovers) && stmt == WithName(old(stmt), all, b) && leftovers == all[NameSize(all)..]
      ensures stmt == old(stmt) || Contains(b, stmt.nameClause)
      ensures stmt ==
              old(stmt).(qualifier := stmt.qualifier, objectName := stmt.objectName, nameClause := stmt.nameClause)
    {
      hide Lossless, Reading.Settled, NameOf, HasPrefix, Listed, Ahead;
      if |all| < 1 {
        return all;
      }
      if |all| >= 3 && all[1].typ == Symbol && HasPrefix(all[1].val, ".") {
        var schemaName, objectName := NameOf(all[0]), NameOf(all[2]);
        if schemaName != "" && objectName != "" {
          Bounds(all, b, 0, 2);
          SliceIn(b, all[0].offset, all[2].offset + |all[2].val|);
          AheadNames(all, taken, b, plain, 3);
          stmt := stmt.(qualifier := schemaName, objectName := objectName,
              nameClause := b[all[0].offset..all[2].offset + |all[2].val|]);
          return all[3..];
        }
        return all;
      }
      var objectName := NameOf(all[0]);
      if objectName != "" {
        Bounds(all, b, 0, 0);
        SliceIn(b, all[0].offset, all[0].offset + |all[0].val|);
        AheadNames(all, taken, b, plain, 1);
        stmt := stmt.(objectName := objectName, nameClause := b[all[0].offset..all[0].offset + |all[0].val|]);
        return all[1..];
      }
      leftovers := all;
    }

    // ----- finishing a statement -----

    /** finishStatement. */
    method FinishStatement() returns (s: Stmt)
      requires Open() && b != "" && plain == NoCommands(groups + [taken])
      requires Obeys(stmt, taken, force[|finished|], lexer.delimiter, dbs[|finished|], defaultDatabase)
      modifies this
      ensures Closed() && finished == old(finished) + [s] && s.text == old(b) && input == old(input)
      ensures err == old(err) && s == old(stmt).(text := old(b))
      ensures defaultDatabase == old(defaultDatabase) && explicitDelimiter == old(explicitDelimiter)
      ensures groups == old(groups) + [old(taken)] && plain == old(plain)
    {
      hide Reading.Placed, Reading.Settled, NoCommands, StartsCommand, Obeys;
      s := stmt.(text := b);
      LastGroupPlain(groups, taken);
      ObeysText(stmt, b, taken, force[|finished|], lexer.delimiter, dbs[|finished|], defaultDatabase);
      Now().PlacedFinished(s, force, dbs, defaultDatabase, Pos(lineNumber, colNumber));
      Conclude(s);
    }

    /** Moves on behind the text and hands out the statement. */
    method Conclude(s: Stmt)
      modifies this`open, this`lineNumber, this`colNumber, this`force, this`dbs, this`b, this`finished, this`taken,
          this`groups
      ensures Now() == old(Now()).(b := "", finished := old(finished) + [s], taken := [],
                                   groups := old(groups) + [old(taken)])
      ensures b == "" && finished == old(finished) + [s] && taken == [] && groups == old(groups) + [old(taken)]
      ensures !open && force == old(force) + [lexer.delimiter] && dbs == old(dbs) + [defaultDatabase]
      ensures Pos(lineNumber, colNumber) == AfterText(old(Pos(lineNumber, colNumber)), old(b))
    {
      hide AfterText;
      MoveOn();
      HandOut(s);
    }

    /** The position behind the text; the delimiter and the default database stay in force. */
    method MoveOn()
      modifies this`open, this`lineNumber, this`colNumber, this`force, this`dbs
      ensures !open && force == old(force) + [lexer.delimiter] && dbs == old(dbs) + [defaultDatabase]
      ensures Pos(lineNumber, colNumber) == AfterText(old(Pos(lineNumber, colNumber)), b)
    {
      hide AfterText;
      var q := PositionAfter(Pos(lineNumber, colNumber), b);
      lineNumber, colNumber := q.line, q.col;
      force, dbs := force + [lexer.delimiter], dbs + [defaultDatabase];
      open := false;
    }

    method HandOut(s: Stmt)
      modifies this`b, this`finished, this`taken, this`groups
      ensures Now() == old(Now()).(b := "", finished := old(finished) + [s], taken := [],
                                   groups := old(groups) + [old(taken)])
      ensures b == "" && finished == old(finished) + [s] && taken == [] && groups == old(groups) + [old(taken)]
    {
      finished := finished + [s];
      groups := groups + [taken];
      b, taken := "", [];
    }

    // ----- the statement processors -----

    /** A statement is being built, as any other but a client command. */
    ghost predicate Building(tokens: seq<Token>)
      reads this, lexer
    {
      && Open() && Ordinary() && b != "" && Buffered(tokens)
      && plain == NoCommands(groups) && |taken| > 0 && !StartsCommand(taken)
      && (stmt.kind == Create ==> IsCreate(stmt, taken))
    }

    /** processUntilDelimiter. `more` are the tokens scanned: up to and including the
        next delimiter, unless a delimiter was scanned before or the input ends. */
    method UntilDelimiter(tokens: seq<Token>) returns (s: Stmt, failed: bool, ghost more: seq<Token>)
      requires Building(tokens)
      modifies this, lexer
      ensures Closed() && finished == old(finished) + [s] && input == old(input) && (failed ==> !err.NoError?)
      ensures |lexer.rest| <= |old(lexer.rest)|
      ensures s == old(stmt).(text := old(b) + Vals(more)) && UpToDelimiter(more)
      ensures if EndsInDelimiter(tokens) then more == [] && !failed else failed == !EndsInDelimiter(more)
      ensures Cut(old(groups), old(taken), groups, false, failed, plain) && groups == old(groups) + [old(taken) + more]
      ensures !old(err).NoError? || EndsInDelimiter(tokens) ==> more == [] && err == old(err)
      ensures ReadOn(old(err), err)
      ensures s.kind == Create ==> IsCreate(s, old(taken) + more)
      ensures explicitDelimiter == old(explicitDelimiter)
    {
      hide Lossless, Reading.Settled, Ahead, StartsCommand, NoCommands, Vals, Typed, IsCreate, UpToDelimiter,
           EndsInDelimiter;
      ghost var start, text, before := taken, b, stmt;
      failed, more := ToDelimiter(tokens);
      CutAtDelimiter(tokens, start, text, plain, more, failed);
      StartsKept(start, more);
      CreateKept(stmt, stmt, start, taken);
      s := FinishOrdinary(stmt.compound);
      assert before.(text := s.text, compound := before.compound) == before.(text := s.text);
    }

    /** The loop of processUntilDelimiter. */
    method ToDelimiter(tokens: seq<Token>) returns (failed: bool, ghost more: seq<Token>)
      requires Open() && Ordinary() && b != ""
      modifies this`b, this`err, this`taken, lexer
      ensures Open() && Ordinary() && b != "" && |lexer.rest| <= |old(lexer.rest)|
      ensures (failed ==> !err.NoError?) && ReadOn(old(err), err)
      ensures b == old(b) + Vals(more) && taken == old(taken) + more && UpToDelimiter(more)
      ensures if EndsInDelimiter(tokens) then more == [] && !failed else failed == !EndsInDelimiter(more)
      ensures !old(err).NoError? || EndsInDelimiter(tokens) ==> more == [] && err == old(err)
    {
      hide Lossless, Reading.Settled, Vals, Typed;
      failed, more := false, [];
      NoVals();
      assert b + "" == b && taken + more == taken;
      if |tokens| == 0 || tokens[|tokens| - 1].typ != Delimiter {
        var over := false;
        while !over
          invariant Open() && Ordinary() && b != "" && |lexer.rest| <= |old(lexer.rest)|
          invariant failed ==> !err.NoError?
          invariant (!old(err).NoError? ==> more == []) && ReadOn(old(err), err)
          invariant b == old(b) + Vals(more) && taken == old(taken) + more
          invariant if over then UpToDelimiter(more) && failed == !EndsInDelimiter(more)
                    else forall i :: 0 <= i < |more| ==> more[i].typ != Delimiter
          decreases !over, |lexer.rest|
        {
          var t := NextToken();
          failed := t.None?;
          over := t.None? || t.value.typ == Delimiter;
          if t.Some? {
            ValsMore(more, t.value);
            more := more + [t.value];
          }
        }
      }
    }

    /** Finishes a statement that is no client command. */
    method FinishOrdinary(compound: bool) returns (s: Stmt)
      requires Open() && Ordinary() && b != "" && |taken| > 0 && !StartsCommand(taken) && plain == NoCommands(groups)
      requires stmt.kind == Create ==> IsCreate(stmt, taken)
      modifies this
      ensures Closed() && finished == old(finished) + [s] && input == old(input) && err == old(err)
      ensures s == old(stmt).(text := old(b), compound := compound) && explicitDelimiter == old(explicitDelimiter)
      ensures groups == old(groups) + [old(taken)] && plain == old(plain)
      ensures s.kind == Create ==> IsCreate(s, old(taken))
    {
      hide Lossless, Reading.Settled, StartsCommand, NoCommands, IsCreate, Obeys;
      NoCommandsMore(groups, taken);
      CreateKept(stmt, stmt.(compound := compound), taken, taken);
      CreateKept(stmt, stmt.(compound := compound, text := b), taken, taken);
      stmt := stmt.(compound := compound);
      ParsedSoFar();
      ObeysPlain(stmt, taken);
      s := FinishStatement();
    }

    /** The loop of both client commands: reads the argument up to the end of the line or
        the next delimiter. `more` are the tokens scanned. */
    method ReadArgument(c: ClientCommand) returns (arg: string, failed: bool, ghost more: seq<Token>)
      requires Open()
      modifies this`b, this`err, this`taken, lexer
      ensures Open() && lexer.delimiter == old(lexer.delimiter) && (failed ==> !err.NoError?)
      ensures |lexer.rest| <= |old(lexer.rest)| && taken == old(taken) + more
      ensures b == old(b) + Vals(more) && UpToDelimiter(more) && failed == !EndsInDelimiter(more)
      ensures arg == ArgumentOf(more, c).text
      ensures ValidUtf8(input) && !lexer.err.Malformed? ==> ValidUtf8(arg)
      ensures old(lexer.err).Malformed? ==> lexer.err.Malformed?
    {
      hide Lossless, Reading.Settled, ArgumentOf, ClientCommand.Unquote, ClientCommand.Quoted, ValidUtf8, Vals,
           HasPrefix, L.CutsRunes, LexSpec.NextToken, L.Tokens;
      var ignoreRestOfLine, over := false, false;
      arg, failed, more := "", false, [];
      NoVals();
      assert b + "" == b && taken + more == taken;
      NoArgument(c);
      NothingValid();
      while !over
        invariant Open() && lexer.delimiter == old(lexer.delimiter) && |lexer.rest| <= |old(lexer.rest)|
        invariant failed ==> !err.NoError?
        invariant ValidUtf8(input) && !lexer.err.Malformed? ==> ValidUtf8(arg)
        invariant old(lexer.err).Malformed? ==> lexer.err.Malformed?
        invariant b == old(b) + Vals(more) && taken == old(taken) + more
                  && ArgumentOf(more, c) == Argument(arg, ignoreRestOfLine)
        invariant if over then UpToDelimiter(more) && failed == !EndsInDelimiter(more)
                  else forall i :: 0 <= i < |more| ==> more[i].typ != Delimiter
        decreases !over, |lexer.rest|
      {
        var t := NextToken();
        failed := t.None?;
        over := t.None? || t.value.typ == Delimiter;
        if t.Some? {
          ValsMore(more, t.value);
          ArgumentMore(more, t.value, c);
          more := more + [t.value];
        }
        if !over {
          if t.value.typ == Filler {
            ignoreRestOfLine := |arg| > 0;
          } else if !ignoreRestOfLine {
            ArgumentValid(arg, t.value, c);
            arg := arg + c.Unquote(t.value);
            ignoreRestOfLine := c.Quoted(t.value);
          }
        }
      }
    }

    lemma DelimiterIsValid()
      requires Lossless()
      ensures lexer.delimiter != "" && (ValidUtf8(input) && !lexer.err.Malformed? ==> ValidUtf8(lexer.delimiter))
    {
      hide Reading.Placed;
      Now().PlacedDelimiter(force, dbs, Pos(lineNumber, colNumber));
    }

    lemma StartOfStatement()
      requires Lossless()
      ensures lineNumber > 0 && colNumber > 0 && PosOf(finished) == Pos(lineNumber, colNumber)
    {
      hide Reading.Kept;
      PositionsPositive(finished);
    }

    lemma PlainIsLax()
      requires Lossless()
      ensures plain ==> !explicitDelimiter
    {
      hide Reading.Placed;
      Now().PlacedPlain(force, dbs, Pos(lineNumber, colNumber));
    }

    /** The first token of a statement was read, and is a client command. */
    ghost predicate Commanding(t: Token)
      reads this, lexer
    {
      Open() && Ordinary() && b != "" && taken == [t] && stmt.kind == UnknownKind && StartsCommand(taken)
    }

    /** processUseCommand. */
    method UseCommand(ghost t: Token) returns (s: Stmt, failed: bool, ghost more: seq<Token>)
      requires Commanding(t) && Keyword(t).UseWord?
      modifies this, lexer
      ensures Closed() && finished == old(finished) + [s] && input == old(input) && (failed ==> !err.NoError?)
      ensures |lexer.rest| <= |old(lexer.rest)| && groups == old(groups) + [[t] + more] && !plain
      ensures s.text == old(b) + Vals(more) && UpToDelimiter(more) && failed == !EndsInDelimiter(more)
      ensures var db := ArgumentOf(more, UseArg).text;
              if db == "" then s.kind == old(stmt).kind && defaultDatabase == old(defaultDatabase)
              else s.kind == Command && defaultDatabase == db
      ensures s.compound == old(stmt).compound
      ensures explicitDelimiter == old(explicitDelimiter)
    {
      hide Lossless, Reading.Settled, NoCommands, Vals, ArgumentOf, UpToDelimiter, EndsInDelimiter, StartsCommand,
           Obeys, Keyword;
      failed, more := ReadUse();
      UseObeys(stmt, t, more, dbs[|finished|], defaultDatabase);
      CommandFound(groups, taken);
      s := FinishStatement();
    }

    /** Reads the database up to the end of the line, or the delimiter. */
    method ReadUse() returns (failed: bool, ghost more: seq<Token>)
      requires Open() && Ordinary() && StartsCommand(taken)
      modifies this`b, this`err, this`stmt, this`taken, this`plain, this`defaultDatabase, lexer
      ensures Open() && lexer.delimiter == old(lexer.delimiter) && !plain
      ensures |lexer.rest| <= |old(lexer.rest)| && (failed ==> !err.NoError?)
      ensures b == old(b) + Vals(more) && taken == old(taken) + more && UpToDelimiter(more)
      ensures failed == !EndsInDelimiter(more)
      ensures var db := ArgumentOf(more, UseArg).text;
              if db == "" then stmt == old(stmt) && defaultDatabase == old(defaultDatabase)
              else stmt == old(stmt).(kind := Command) && defaultDatabase == db
    {
      hide Lossless, Reading.Settled, ValidUtf8, Vals, ArgumentOf, UpToDelimiter, EndsInDelimiter, StartsCommand;
      DelimiterIsValid();
      EnterCommand(lexer.delimiter);
      var db;
      db, failed, more := ReadArgument(UseArg);
      if db != "" {
        stmt := stmt.(kind := Command);
        defaultDatabase := db;
      }
    }

    /** Client commands end with the line; `d` is the delimiter while the command is read. */
    method EnterCommand(d: string)
      requires Open() && d != "" && (ValidUtf8(input) && !lexer.err.Malformed? ==> ValidUtf8(d)) && StartsCommand(taken)
      modifies this`plain, lexer`commandMode, lexer`delimiter
      ensures Open() && lexer.commandMode && lexer.delimiter == d && !plain
    {
      hide Reading.Placed, Reading.Settled, ValidUtf8, HasPrefix, StartsCommand;
      ghost var before := Now();
      plain := false;
      lexer.commandMode := true;
      lexer.ChangeDelimiter(d);
      before.PlacedCommand(true, d, explicitDelimiter, force, dbs, Pos(lineNumber, colNumber));
    }

    /** The delimiter that a DELIMITER command sets; the parser is strict about compound statements from here on. */
    method SetDelimiter(d: string)
      requires Open() && d != "" && (ValidUtf8(input) && !lexer.err.Malformed? ==> ValidUtf8(d)) && !plain
      requires StartsCommand(taken)
      modifies this`explicitDelimiter, lexer`delimiter
      ensures Open() && lexer.delimiter == d && explicitDelimiter
    {
      hide Reading.Placed, Reading.Settled, ValidUtf8, HasPrefix, StartsCommand;
      ghost var before := Now();
      lexer.ChangeDelimiter(d);
      explicitDelimiter := true;
      before.PlacedCommand(lexer.commandMode, d, true, force, dbs, Pos(lineNumber, colNumber));
    }

    /** processDelimiterCommand. */
    method DelimiterCommand(ghost t: Token) returns (s: Stmt, failed: bool, ghost more: seq<Token>)
      requires Commanding(t) && Keyword(t).DelimiterWord?
      modifies this, lexer
      ensures Closed() && finished == old(finished) + [s] && input == old(input) && (failed ==> !err.NoError?)
      ensures |lexer.rest| <= |old(lexer.rest)| && groups == old(groups) + [[t] + more] && !plain
      ensures IsDelimiterCommand(s) && explicitDelimiter && defaultDatabase == old(defaultDatabase)
      ensures s.compound == old(stmt).compound
      ensures s.text == old(b) + Vals(more) && UpToDelimiter(more) && failed == !EndsInDelimiter(more)
      ensures var d := ArgumentOf(more, DelimiterArg).text; lexer.delimiter == if d == "" then old(lexer.delimiter)
              else d
    {
      hide Lossless, Reading.Settled, Vals, ArgumentOf, UpToDelimiter, EndsInDelimiter, Obeys, Keyword;
      failed, more := ReadDelimiter();
      DelimiterObeys(stmt, t, more, force[|finished|], lexer.delimiter, defaultDatabase);
      CommandFound(groups, taken);
      s := FinishStatement();
    }

    /** While the command is read, no delimiter can match it. */
    method ReadDelimiter() returns (failed: bool, ghost more: seq<Token>)
      requires Open() && Ordinary() && |taken| > 0 && StartsCommand(taken)
      modifies this`b, this`err, this`stmt, this`taken, this`plain, this`explicitDelimiter, lexer
      ensures Open() && stmt == old(stmt).(kind := Command, delimiter := NO_DELIMITER) && explicitDelimiter && !plain
      ensures |lexer.rest| <= |old(lexer.rest)| && (failed ==> !err.NoError?)
      ensures b == old(b) + Vals(more) && taken == old(taken) + more && UpToDelimiter(more)
              && failed == !EndsInDelimiter(more)
      ensures var d := ArgumentOf(more, DelimiterArg).text; lexer.delimiter == if d == "" then old(lexer.delimiter)
              else d
    {
      hide Lossless, Reading.Settled, Vals, UpToDelimiter, EndsInDelimiter, StartsCommand, ArgumentOf;
      ghost var start := taken;
      var oldDelim := lexer.delimiter;
      DelimiterIsValid();
      NulIsValid();
      EnterCommand(NO_DELIMITER);
      stmt := stmt.(delimiter := NO_DELIMITER);
      var newDelim;
      newDelim, failed, more := ReadArgument(DelimiterArg);
      StartsKept(start, more);
      if newDelim == "" {
        newDelim := oldDelim;
      }
      stmt := stmt.(kind := Command);
      SetDelimiter(newDelim);
    }

    /** processStoredProgram; `all` are the buffered tokens and those scanned. Without an explicit DELIMITER
        command, a program with a BEGIN keyword extends to the end of the input. */
    method StoredProgram(tokens: seq<Token>) returns (s: Stmt, failed: bool, ghost all: seq<Token>)
      requires Building(tokens)
      modifies this, lexer
      ensures Closed() && finished == old(finished) + [s] && input == old(input) && (failed ==> !err.NoError?)
      ensures |lexer.rest| <= |old(lexer.rest)|
      ensures tokens <= all && s == old(stmt).(text := s.text, compound := HasBegin(all))
      ensures failed == !(EndsInDelimiter(all) && (explicitDelimiter || !s.compound))
      ensures forall i :: 0 <= i < |all| - 1 && all[i].typ == Delimiter ==> !explicitDelimiter && HasBegin(all[..i])
      ensures Cut(old(groups), old(taken), groups, s.compound, failed, plain)
      ensures groups == old(groups) + [old(taken) + all[|tokens|..]] && (!old(err).NoError? ==> all == tokens)
      ensures explicitDelimiter == old(explicitDelimiter)
      ensures s.kind == Create ==> IsCreate(s, groups[|old(groups)|])
    {
      hide Lossless, Reading.Settled, HasBegin, StartsCommand, NoCommands, EndsInDelimiter, IsCreate, Obeys,
           UpToDelimiter, Ahead;
      ghost var start, text := taken, b;
      var compound;
      AheadUpTo(tokens, taken, b, plain);
      compound, failed, all := ProgramTokens(tokens);
      PlainIsLax();
      CutProgram(tokens, start, text, plain, all, taken, failed);
      StartsKept(start, all[|tokens|..]);
      CreateKept(stmt, stmt, start, taken);
      s := FinishOrdinary(compound);
    }

    /** The loop of processStoredProgram. */
    method ProgramTokens(tokens: seq<Token>) returns (compound: bool, failed: bool, ghost all: seq<Token>)
      requires Open() && UpToDelimiter(tokens)
      modifies this`b, this`err, this`taken, lexer
      ensures Open() && lexer.delimiter == old(lexer.delimiter) && |lexer.rest| <= |old(lexer.rest)|
      ensures |old(b)| <= |b| && (failed ==> !err.NoError?)
      ensures tokens <= all && taken == old(taken) + all[|tokens|..] && (!old(err).NoError? ==> all == tokens)
      ensures compound == HasBegin(all) && failed == !(EndsInDelimiter(all) && (explicitDelimiter || !compound))
      ensures forall i :: 0 <= i < |all| - 1 && all[i].typ == Delimiter ==> !explicitDelimiter && HasBegin(all[..i])
    {
      hide Lossless, Reading.Settled, ToLower, Listed, BodySoFar;
      var n, over := 0, false;
      compound, failed, all := false, false, [];
      BodyStart(explicitDelimiter);
      assert |tokens| == 0 ==> tokens <= all && taken + all[|tokens|..] == taken;
      while !over
        invariant Open() && lexer.delimiter == old(lexer.delimiter) && |lexer.rest| <= |old(lexer.rest)|
                  && n <= |tokens|
        invariant |old(b)| <= |b| && (failed ==> !err.NoError? && over) && (over ==> n == |tokens|)
        invariant !old(err).NoError? ==> !err.NoError? && all == tokens[..n]
        invariant if n < |tokens| then all == tokens[..n] && taken == old(taken)
                  else tokens <= all && taken == old(taken) + all[|tokens|..]
        invariant BodySoFar(all, compound, explicitDelimiter, over, failed)
        decreases !over, |tokens| - n, |lexer.rest|
      {
        var t := None;
        if n < |tokens| {
          assert tokens[..n + 1] == tokens[..n] + [tokens[n]];
          t := Some(tokens[n]);
          n := n + 1;
        } else {
          t := NextToken();
          failed := t.None?;
        }
        if t.None? {
          BodyCut(all, compound, explicitDelimiter);
        } else {
          BodyMore(all, compound, explicitDelimiter, t.value);
          all := all + [t.value];
        }
        if t.None? || (t.value.typ == Delimiter && (explicitDelimiter || !compound)) {
          over := true;
        } else if !compound && t.value.typ == Word && ToLower(t.value.val) == "begin" {
          compound := true;
        }
      }
      BodyOver(all, compound, explicitDelimiter, failed);
    }

    // ----- CREATE statements -----

    /** What a CREATE statement can turn out to be. */
    static predicate Recognized(before: Stmt, s: Stmt) {
      && SameStart(before, s)
      && (s.kind == Create <==> s.objectName != "" && s.objectType != NoObject)
      && s.kind in {Create, UnknownKind} && (s.objectType == NoObject ==> s.kind == UnknownKind)
      && (s.compound ==> s.objectType != Table)
    }

    lemma NotRecognized(before: Stmt, s: Stmt)
      requires Unrecognized(s) && SameStart(before, s)
      ensures Recognized(before, s)
    {
    }

    /** A statement of which CREATE and DEFINER clauses were read. */
    ghost predicate Creating(tokens: seq<Token>, clauses: seq<seq<Token>>)
      reads this, lexer
    {
      Building(tokens) && Unrecognized(stmt) && Defined(Head(taken, tokens), clauses)
    }

    /** A keyword, an optional IF NOT EXISTS and the tokens of which the name is taken were read; enough of them. */
    ghost predicate Read(head: seq<Token>, keyword: Token, skipped: seq<Token>, named: seq<Token>)
      reads this`taken, this`err
    {
      && NonFiller(taken) == head + [keyword] + skipped + named && UpToDelimiter(skipped) && UpToDelimiter(named)
      && (|named| >= 3 || !err.NoError? || EndsInDelimiter(named))
      && (Spaceless(skipped + named) ==> |skipped| == OptionSize(skipped + named))
    }

    /** The kind of statement and object, which are known if the name is. */
    static predicate Named(s: Stmt, objectType: ObjectType) {
      if s.objectName == "" then s.kind == UnknownKind && s.objectType == NoObject
      else s.kind == Create && s.objectType == objectType
    }

    /** An optional IF NOT EXISTS, and the name. `skipped` and `named` are the tokens of the two. */
    method NameAfterOption(tokens: seq<Token>, ghost head: seq<Token>, ghost clauses: seq<seq<Token>>,
                           ghost keyword: Token)
        returns (rest: seq<Token>, ghost skipped: seq<Token>, ghost named: seq<Token>)
      requires Building(tokens) && Unrecognized(stmt)
      requires Defined(head, clauses) && Head(taken, tokens) == head + [keyword]
      modifies this`b, this`err, this`stmt, this`taken, lexer
      ensures Building(rest) && old(taken) <= taken
      ensures |lexer.rest| <= |old(lexer.rest)|
      ensures stmt ==
              old(stmt).(qualifier := stmt.qualifier, objectName := stmt.objectName, nameClause := stmt.nameClause)
      ensures Laid(stmt, NonFiller(taken), head, clauses, keyword, skipped, named)
      ensures Read(head, keyword, skipped, named)
      ensures !old(err).NoError? ==> !err.NoError? && taken == old(taken)
      ensures Head(taken, rest) == head + [keyword] + skipped + named[..NameSize(named)]
      ensures ReadOn(old(err), err) || err.Panicked?
    {
      hide Lossless, Reading.Settled, WithName, NameOf, Ahead, StartsCommand, NoCommands, Mentions, Typed, Head,
           NonFiller, IsOneOf, Defined, NameIn, NameSize, LongestJoin, IsCreate, IsOption, Window, Spaceless,
           OptionSize, UpToDelimiter;
      KnownWords();
      ghost var start := taken;
      skipped, rest := MatchNextSequence(tokens, IF_NOT_EXISTS);
      OptionOrNothing(skipped);
      UpToPrefix(skipped, rest);
      ghost var was, ahead, cut := stmt, rest, !err.NoError?;
      rest, named := ParseObjectNameClause(rest);
      OptionTaken(skipped, ahead, named, cut);
      NameOnly(was, named, b);
      StartsLonger(start, taken);
      HeadDrop(rest, taken, b, plain, 0);
      NameLaid(NonFiller(taken), head + [keyword] + skipped, named, rest);
    }

    /** processCreateTable. `behind` are the tokens behind the name. */
    method CreateTable(tokens: seq<Token>, ghost clauses: seq<seq<Token>>)
        returns (s: Stmt, failed: bool, ghost skipped: seq<Token>, ghost named: seq<Token>, ghost behind: seq<Token>)
      requires Creating(tokens, clauses) && |tokens| > 0 && ObjectOf(tokens[0]) == Table
      modifies this, lexer
      ensures Closed() && finished == old(finished) + [s] && input == old(input) && (failed ==> !err.NoError?)
      ensures |lexer.rest| <= |old(lexer.rest)|
      ensures Recognized(old(stmt), s) && !s.compound && Named(s, Table)
      ensures Cut(old(groups), old(taken), groups, s.compound, failed, plain)
      ensures var ts, head := NonFiller(groups[|old(groups)|]), Head(old(taken), tokens);
              && Laid(s, ts, head, clauses, tokens[0], skipped, named)
              && Shown(ts, head, tokens[0], skipped, named)
              && Continues(ts, head, tokens[0], skipped, named, behind)
      ensures HasWord(behind, "select") ==> err.SelectUnsupported? || err.Panicked?
      ensures err.SelectUnsupported? && !old(err).SelectUnsupported? ==> HasWord(behind, "select")
      ensures Frozen(old(groups), old(taken), old(err))
      ensures explicitDelimiter == old(explicitDelimiter)
    {
      hide Lossless, Reading.Settled, Ahead, StartsCommand, NoCommands, Head, NonFiller, Laid, Defined, IsCreate,
           HasWord, NameSize, Vals, ObjectOf, UpToDelimiter, Shown, Spaceless, OptionSize;
      ghost var start, before, head := taken, groups, Head(taken, tokens);
      var rest;
      rest, skipped, named := TableName(tokens, clauses);
      ghost var recognized, ahead, front, cut := stmt, taken, Head(taken, rest), !err.NoError?;
      ghost var seen, more;
      rest, seen := RejectSelect(rest);
      behind := seen + rest;
      HeadDrop(rest, taken, b, plain, 0);
      ghost var longer := taken;
      s, failed, more := UntilDelimiter(rest);
      assert longer + [] == longer;
      CutStarts(before, start, longer, groups, false, failed, plain);
      LaidLonger(recognized, s, ahead, longer, head, clauses, tokens[0], skipped, named);
      ShownLater(ahead, longer + more, head, tokens[0], skipped, named, cut);
      Regrouped(front, seen, rest);
    }

    /** The word TABLE, and the name. */
    method TableName(tokens: seq<Token>, ghost clauses: seq<seq<Token>>)
        returns (rest: seq<Token>, ghost skipped: seq<Token>, ghost named: seq<Token>)
      requires Creating(tokens, clauses) && |tokens| > 0 && ObjectOf(tokens[0]) == Table
      modifies this`b, this`err, this`stmt, this`taken, lexer
      ensures Building(rest) && old(taken) <= taken && |lexer.rest| <= |old(lexer.rest)| && !stmt.compound
      ensures Recognized(old(stmt), stmt) && Named(stmt, Table)
      ensures Read(Head(old(taken), tokens), tokens[0], skipped, named)
      ensures !old(err).NoError? ==> !err.NoError? && taken == old(taken)
      ensures Laid(stmt, NonFiller(taken), Head(old(taken), tokens), clauses, tokens[0], skipped, named)
      ensures Head(taken, rest) == Head(old(taken), tokens) + [tokens[0]] + skipped + named[..NameSize(named)]
      ensures ReadOn(old(err), err) || err.Panicked?
    {
      hide Lossless, Reading.Settled, Ahead, StartsCommand, NoCommands, Head, NonFiller, Laid, Defined, IsCreate,
           NameSize, ToLower, Spaceless, OptionSize, UpToDelimiter;
      ghost var head := Head(taken, tokens);
      AheadDrop(tokens, taken, b, plain, 1);
      HeadDrop(tokens, taken, b, plain, 1);
      assert tokens[..1] == [tokens[0]];
      rest, skipped, named := NameAfterOption(tokens[1..], head, clauses, tokens[0]);
      Recognize(rest, Table, head, clauses, tokens[0], skipped, named);
    }

    /** If a name was found, so was the kind of object. */
    method Recognize(ghost rest: seq<Token>, objectType: ObjectType, ghost head: seq<Token>,
                     ghost clauses: seq<seq<Token>>, ghost keyword: Token, ghost skipped: seq<Token>,
                     ghost named: seq<Token>)
      requires Building(rest) && stmt.kind == UnknownKind
      requires Laid(stmt, NonFiller(taken), head, clauses, keyword, skipped, named) && ObjectOf(keyword) == objectType
      modifies this`stmt
      ensures Building(rest) && Laid(stmt, NonFiller(taken), head, clauses, keyword, skipped, named)
      ensures stmt == if old(stmt).objectName == "" then old(stmt)
                      else old(stmt).(kind := Create, objectType := objectType)
    {
      hide Lossless, Reading.Settled, Ahead, StartsCommand, NoCommands, NonFiller, Laid, IsCreate, ObjectOf;
      if stmt.objectName != "" {
        ghost var s := stmt.(kind := Create, objectType := objectType);
        CreateBy(stmt, s, taken, head, clauses, keyword, skipped, named);
        LaidLonger(stmt, s, taken, taken, head, clauses, keyword, skipped, named);
        stmt := stmt.(kind := Create, objectType := objectType);
      }
    }

    /** CREATE TABLE ... SELECT is an error: nothing more is read, so that a statement whose delimiter was not
        read ahead ends here. */
    method RejectSelect(tokens: seq<Token>) returns (rest: seq<Token>, ghost seen: seq<Token>)
      requires Building(tokens)
      modifies this`b, this`err, this`taken, lexer
      ensures Building(rest) && old(taken) <= taken && |lexer.rest| <= |old(lexer.rest)|
      ensures Head(taken, rest) == Head(old(taken), tokens) + seen
      ensures HasWord(seen + rest, "select") ==> err.SelectUnsupported? || err.Panicked?
      ensures err.SelectUnsupported? && !old(err).SelectUnsupported? ==> HasWord(seen + rest, "select")
      ensures !err.NoError? || EndsInDelimiter(rest)
      ensures !old(err).NoError? ==> !err.NoError? && taken == old(taken)
    {
      hide Reading.Placed, Reading.Settled, Ahead, StartsCommand, NoCommands, Head, HasWord, IsCreate;
      ghost var start := taken;
      var found;
      found, rest, seen := SkipUntilWord(tokens, "select");
      StartsLonger(start, taken);
      CreateKept(stmt, stmt, start, taken);
      WordInFront(seen, rest, "select");
      if found && !err.Panicked? {
        ghost var before := Now();
        before.PlacedSelect(force, dbs, Pos(lineNumber, colNumber));
        err := SelectUnsupported;
      }
    }

    /** processCreateRoutine. `behind` are the tokens behind the name. */
    method CreateRoutine(tokens: seq<Token>, ghost clauses: seq<seq<Token>>)
        returns (s: Stmt, failed: bool, ghost skipped: seq<Token>, ghost named: seq<Token>, ghost behind: seq<Token>)
      requires Creating(tokens, clauses) && |tokens| > 0 && ObjectOf(tokens[0]) in {Procedure, Function}
      modifies this, lexer
      ensures Closed() && finished == old(finished) + [s] && input == old(input) && (failed ==> !err.NoError?)
      ensures |lexer.rest| <= |old(lexer.rest)|
      ensures Recognized(old(stmt), s) && Named(s, ObjectOf(tokens[0]))
      ensures Cut(old(groups), old(taken), groups, s.compound, failed, plain)
      ensures var ts, head := NonFiller(groups[|old(groups)|]), Head(old(taken), tokens);
              && Laid(s, ts, head, clauses, tokens[0], skipped, named)
              && Shown(ts, head, tokens[0], skipped, named)
              && Continues(ts, head, tokens[0], skipped, named, behind)
      ensures s.compound == HasBegin(behind) && (s.compound && !explicitDelimiter ==> failed)
      ensures Frozen(old(groups), old(taken), old(err))
      ensures explicitDelimiter == old(explicitDelimiter)
    {
      hide Lossless, Reading.Settled, Ahead, StartsCommand, NoCommands, NonFiller, Laid, Head, Defined, IsCreate,
           ObjectOf, Shown, HasBegin, Spaceless, OptionSize, NameSize, UpToDelimiter, EndsInDelimiter;
      ghost var start, before, head := taken, groups, Head(taken, tokens);
      var rest;
      rest, skipped, named := RoutineName(tokens, clauses);
      ghost var recognized, longer, front, cut := stmt, taken, Head(taken, rest), !err.NoError?;
      HeadDrop(rest, taken, b, plain, 0);
      ghost var all;
      s, failed, all := StoredProgram(rest);
      behind := rest + NonFiller(all[|rest|..]);
      ProgramBehind(longer, front, rest, all);
      LaidLonger(recognized, s, longer, groups[|before|], head, clauses, tokens[0], skipped, named);
      ShownLater(longer, groups[|before|], head, tokens[0], skipped, named, cut);
      CutStarts(before, start, longer, groups, s.compound, failed, plain);
    }

    /** The keyword that was seen by the caller, and the name. */
    method RoutineName(tokens: seq<Token>, ghost clauses: seq<seq<Token>>)
        returns (rest: seq<Token>, ghost skipped: seq<Token>, ghost named: seq<Token>)
      requires Creating(tokens, clauses) && |tokens| > 0 && ObjectOf(tokens[0]) in {Procedure, Function}
      modifies this`b, this`err, this`stmt, this`taken, lexer
      ensures Building(rest) && old(taken) <= taken && |lexer.rest| <= |old(lexer.rest)| && !stmt.compound
      ensures Recognized(old(stmt), stmt) && Named(stmt, ObjectOf(tokens[0]))
      ensures Read(Head(old(taken), tokens), tokens[0], skipped, named)
      ensures !old(err).NoError? ==> !err.NoError? && taken == old(taken)
      ensures Laid(stmt, NonFiller(taken), Head(old(taken), tokens), clauses, tokens[0], skipped, named)
      ensures Head(taken, rest) == Head(old(taken), tokens) + [tokens[0]] + skipped + named[..NameSize(named)]
      ensures ReadOn(old(err), err) || err.Panicked?
    {
      hide Lossless, Reading.Settled, Ahead, StartsCommand, NoCommands, LongestJoin, Vals, PosOf, AfterText, ToLower,
           HasPrefix, Head, NonFiller, Laid, Defined, IsCreate, IsOneOf, Window, MaxLength, Spaceless, OptionSize,
           UpToDelimiter, NameSize;
      ghost var start, head := taken, Head(taken, tokens);
      KnownWords();
      var routine, rest0;
      routine, rest0 := MatchNextSequence(tokens, ROUTINE);
      StartsLonger(start, taken);
      RoutineMatches(routine + rest0);
      assert routine == [tokens[0]];
      rest, skipped, named := NameAfterOption(rest0, head, clauses, tokens[0]);
      var objectType := if ToLower(routine[0].val) == "procedure" then Procedure else Function;
      Recognize(rest, objectType, head, clauses, tokens[0], skipped, named);
    }

    /** The statement `s`, which was just finished, is what its tokens behind `head` tell, unless its delimiter is in
        the way. */
    ghost predicate Tells(before: seq<seq<Token>>, head: seq<Token>, s: Stmt)
      reads this`groups
    {
      && |groups| == |before| + 1
      && var ts := NonFiller(groups[|before|]); head <= ts && (Undisturbed(ts) ==> Told(s, ts[|head|..]))
    }

    /** Behind an error, nothing is added to the statement. */
    ghost predicate Frozen(before: seq<seq<Token>>, start: seq<Token>, err: ParseError)
      reads this`groups
    {
      !err.NoError? ==> groups == before + [start]
    }

    /** processCreateWithDefiner. */
    method CreateWithDefiner(tokens: seq<Token>, ghost clauses: seq<seq<Token>>) returns (s: Stmt, failed: bool)
      requires Creating(tokens, clauses)
      requires |tokens| > 0 && tokens[0].typ == Word && ObjectOf(tokens[0]) == NoObject
      modifies this, lexer
      ensures Closed() && finished == old(finished) + [s] && input == old(input) && (failed ==> !err.NoError?)
      ensures |lexer.rest| <= |old(lexer.rest)|
      ensures Recognized(old(stmt), s) && Judged(old(groups), s)
      ensures Cut(old(groups), old(taken), groups, s.compound, failed, plain)
      ensures Tells(old(groups), Head(old(taken), tokens), s) && Frozen(old(groups), old(taken), old(err))
      ensures s.compound && !explicitDelimiter ==> failed
      decreases |tokens| + |lexer.rest|, 0
      ensures explicitDelimiter == old(explicitDelimiter)
    {
      hide Lossless, Reading.Settled, Ahead, Head, Defined, DefinesUser, IsCreate, Clean, Vals, NonFiller,
           Undisturbed, Told, DefinerSize, Spaceless, UpToDelimiter, EndsInDelimiter, ObjectOf;
      ghost var start, before, head := taken, groups, Head(taken, tokens);
      ghost var clause, grown;
      var accepted, rest;
      accepted, rest, clause, grown := DefinerClause(tokens);
      ghost var longer, cut := taken, !err.NoError?;
      if accepted {
        DefinedMore(head, clauses, clause);
        s, failed := Dispatch(rest, clauses + [clause]);
        BehindDefiner(s, longer, groups[|before|], head, clause, grown, rest, cut);
      } else {
        ghost var more;
        s, failed, more := UntilDelimiter(rest);
        CleanOther(s, groups[|before|]);
        WithoutDefiner(s, longer, groups[|before|], head, grown, cut);
      }
      CutStarts(before, start, longer, groups, s.compound, failed, plain);
    }

    /** What is known of the statement `s`, which was just finished: if it was recognized, its tokens say so; and if
        it creates a table, there is no SELECT behind its name, or that was reported. */
    ghost predicate Judged(before: seq<seq<Token>>, s: Stmt)
      reads this`groups, this`err
    {
      && |groups| == |before| + 1 && (s.kind == Create ==> IsCreate(s, groups[|before|]))
      && (err.SelectUnsupported? || err.Panicked? || Clean(s, groups[|before|]))
    }

    /** nextTokens, while a statement is being built. */
    method MoreTokens(tokens: seq<Token>, n: nat) returns (grown: seq<Token>)
      requires Building(tokens) && Unrecognized(stmt)
      modifies this`b, this`err, this`taken, lexer
      ensures Building(grown) && old(taken) <= taken && |grown| + |lexer.rest| <= |tokens| + |old(lexer.rest)|
      ensures |lexer.rest| <= |old(lexer.rest)| && Head(taken, grown) == Head(old(taken), tokens)
      ensures tokens <= grown && NonFiller(taken) == Head(old(taken), tokens) + grown && UpToDelimiter(grown)
      ensures |grown| >= n || !err.NoError? || EndsInDelimiter(grown)
      ensures !old(err).NoError? ==> !err.NoError? && taken == old(taken)
    {
      hide Lossless, Reading.Settled, Ahead, StartsCommand, NoCommands, Head, IsCreate, UpToDelimiter, NonFiller,
           EndsInDelimiter;
      ghost var start := taken;
      grown := NextTokens(tokens, n);
      Enough(grown, n);
      AheadUpTo(grown, taken, b, plain);
      HeadDrop(grown, taken, b, plain, 0);
      StartsLonger(start, taken);
    }

    /** The DEFINER clause: the tokens behind it if it could be read. `grown` are the tokens it looked at. */
    method DefinerClause(tokens: seq<Token>)
        returns (accepted: bool, rest: seq<Token>, ghost clause: seq<Token>, ghost grown: seq<Token>)
      requires Building(tokens) && Unrecognized(stmt)
      modifies this`b, this`err, this`taken, lexer
      ensures Building(rest) && old(taken) <= taken && |lexer.rest| <= |old(lexer.rest)|
      ensures accepted ==> |rest| + |lexer.rest| < |tokens| + |old(lexer.rest)|
      ensures accepted ==> DefinesUser(clause) && Head(taken, rest) == Head(old(taken), tokens) + clause
      ensures tokens <= grown && NonFiller(taken) == Head(old(taken), tokens) + grown && UpToDelimiter(grown)
      ensures |grown| >= 6 || !err.NoError? || EndsInDelimiter(grown)
      ensures Spaceless(grown) ==> accepted == (DefinerSize(grown) > 0)
      ensures Spaceless(grown) && accepted ==> clause == grown[..DefinerSize(grown)] && rest == grown[|clause|..]
      ensures !old(err).NoError? ==> !err.NoError? && taken == old(taken)
    {
      hide Lossless, Reading.Settled, LongestJoin, Ahead, StartsCommand, NoCommands, ToLower, Listed, Head, IsOneOf,
           JoinsTo, DefinesUser, Window, MaxLength, IsCreate, UpToDelimiter, NonFiller, Spaceless, DefinerSize,
           UserSize, UserTaken;
      KnownWords();
      ghost var start := taken;
      clause := [];
      rest := MoreTokens(tokens, 6);
      grown := rest;
      if |rest| < 4 {
        ShortDefiner(grown);
        return false, rest, [], grown;
      }
      var keyword;
      keyword, rest := MatchNextSequence(rest, DEFINER);
      StartsLonger(start, taken);
      assert MaxLength(DEFINER) == 2 by { LongestUser(); }
      assert keyword + rest == grown;
      DefinerRead(grown, keyword, rest);
      if |keyword| != 2 {
        return false, rest, [], grown;
      }
      ghost var behind := rest;
      accepted, rest, clause := DefinerUser(rest, keyword);
      ClauseRead(grown, keyword, behind, accepted, rest, clause);
    }

    /** The value of a DEFINER clause. */
    method DefinerUser(tokens: seq<Token>, ghost keyword: seq<Token>)
        returns (accepted: bool, rest: seq<Token>, ghost clause: seq<Token>)
      requires Building(tokens) && Unrecognized(stmt) && |keyword| == 2 && IsOneOf(keyword, DEFINER)
      modifies this`b, this`err, this`taken, lexer
      ensures Building(rest) && old(taken) <= taken && |lexer.rest| <= |old(lexer.rest)|
      ensures |rest| + |lexer.rest| <= |tokens| + |old(lexer.rest)|
      ensures accepted ==> DefinesUser(clause) && keyword <= clause
                           && Head(taken, rest) == Head(old(taken), tokens) + clause[2..]
      ensures Complete(tokens, 3, old(err)) ==> taken == old(taken) && (!old(err).NoError? ==> !err.NoError?)
      ensures Complete(tokens, 3, old(err)) ==> UserTaken(tokens, keyword, accepted, rest, clause)
    {
      hide Lossless, Reading.Settled, LongestJoin, Ahead, StartsCommand, NoCommands, ToLower, Listed, Head, IsOneOf,
           JoinsTo, DefinesUser, Window, MaxLength, IsCreate, UpToDelimiter, NonFiller, UserTaken;
      KnownWords();
      ghost var start := taken;
      var user;
      user, rest := MatchNextSequence(tokens, CURRENT_USER);
      StartsLonger(start, taken);
      UserMatched(keyword, user);
      UserRead(user + rest, keyword, user, rest);
      LongestUser();
      if |user| > 0 {
        assert (keyword + user)[2..] == user;
        return true, rest, keyword + user;
      }
      if |rest| < 4 || rest[1].typ != Symbol || rest[1].val != "@" {
        return false, rest, [];
      }
      AheadInner(rest, taken, b, plain, 3);
      HeadDrop(rest, taken, b, plain, 3);
      UserAtHost(keyword, rest);
      assert (keyword + rest[..3])[2..] == rest[..3];
      return true, rest[3..], keyword + rest[..3];
    }

    /** Delegates to the processor for the kind of object that the next token names. */
    method Dispatch(tokens: seq<Token>, ghost clauses: seq<seq<Token>>) returns (s: Stmt, failed: bool)
      requires Creating(tokens, clauses)
      modifies this, lexer
      ensures Closed() && finished == old(finished) + [s] && input == old(input) && (failed ==> !err.NoError?)
      ensures |lexer.rest| <= |old(lexer.rest)|
      ensures Recognized(old(stmt), s) && Judged(old(groups), s)
      ensures Cut(old(groups), old(taken), groups, s.compound, failed, plain)
      ensures if tokens == [] then Unrecognized(s) else Tells(old(groups), Head(old(taken), tokens), s)
      ensures Frozen(old(groups), old(taken), old(err)) && (s.compound && !explicitDelimiter ==> failed)
      decreases |tokens| + |lexer.rest|, 1
      ensures explicitDelimiter == old(explicitDelimiter)
    {
      hide Lossless, Reading.Settled, Ahead, StartsCommand, NoCommands, Vals, NameOf, Mentions, WithName, Typed, Head,
           Defined, IsCreate, Clean, Laid, NonFiller, Continues, HasWord, Told, Undisturbed, Shown, HasBegin,
           Recognized;
      ghost var more, skipped, named, behind := [], [], [], [];
      ghost var before, start, head := groups, taken, Head(taken, tokens);
      HeadDrop(tokens, taken, b, plain, 0);
      var word := if |tokens| > 0 && tokens[0].typ == Word then ToLower(tokens[0].val) else "";
      if word == "table" {
        s, failed, skipped, named, behind := CreateTable(tokens, clauses);
        TableJudged(s, groups[|before|], head, clauses, tokens[0], skipped, named, behind);
        ObjectTold(s, NonFiller(groups[|before|]), head, clauses, tokens[0], skipped, named, behind);
      } else if word == "function" || word == "procedure" {
        s, failed, skipped, named, behind := CreateRoutine(tokens, clauses);
        RoutineJudged(s, groups[|before|], head, clauses, tokens[0], skipped, named);
        ObjectTold(s, NonFiller(groups[|before|]), head, clauses, tokens[0], skipped, named, behind);
      } else if word == "definer" {
        s, failed := CreateWithDefiner(tokens, clauses);
      } else {
        s, failed, more := UntilDelimiter(tokens);
        CleanOther(s, groups[|before|]);
        assert start + [] == start;
        OtherTold(s, start, groups[|before|], head, tokens);
        NotRecognized(old(stmt), s);
      }
    }

    /** processCreateStatement. */
    method CreateStatement(ghost t: Token) returns (s: Stmt, failed: bool)
      requires Building([]) && Unrecognized(stmt) && taken == [t] && Keyword(t).CreateWord?
      modifies this, lexer
      ensures Closed() && finished == old(finished) + [s] && input == old(input) && (failed ==> !err.NoError?)
      ensures |lexer.rest| <= |old(lexer.rest)|
      ensures Recognized(old(stmt), s) && Judged(old(groups), s)
      ensures Cut(old(groups), old(taken), groups, s.compound, failed, plain)
      ensures Tells(old(groups), [t], s) && (s.compound && !explicitDelimiter ==> failed)
      ensures explicitDelimiter == old(explicitDelimiter)
    {
      hide Lossless, Reading.Settled, StartsCommand, NoCommands, Head, Defined, IsCreate, Clean, Keyword, NonFiller,
           Told, Undisturbed, UpToDelimiter, EndsInDelimiter, Ahead, Recognized;
      ghost var start, before, more := taken, groups, [];
      var tokens := FirstTokens(t);
      ghost var longer, cut := taken, !err.NoError?;
      if |tokens| >= 2 {
        s, failed := Dispatch(tokens, []);
      } else {
        s, failed, more := UntilDelimiter(tokens);
        CleanOther(s, groups[|before|]);
        ShortTold(s, longer, groups[|before|], [t], tokens, cut);
        NotRecognized(old(stmt), s);
      }
      CutStarts(before, start, longer, groups, s.compound, failed, plain);
    }

    /** The tokens behind CREATE, as many as the longest clause needs. */
    method FirstTokens(ghost t: Token) returns (tokens: seq<Token>)
      requires Building([]) && Unrecognized(stmt) && taken == [t] && Keyword(t).CreateWord?
      modifies this`b, this`err, this`taken, lexer
      ensures Creating(tokens, []) && old(taken) <= taken && |lexer.rest| <= |old(lexer.rest)|
      ensures Head(taken, tokens) == [t] && NonFiller(taken) == [t] + tokens && UpToDelimiter(tokens)
      ensures |tokens| >= 20 || !err.NoError? || EndsInDelimiter(tokens)
    {
      hide Lossless, Reading.Settled, StartsCommand, NoCommands, Head, Defined, IsCreate, Keyword, NonFiller,
           UpToDelimiter, EndsInDelimiter, Ahead;
      FirstDefined(t);
      FirstHead(t);
      tokens := MoreTokens([], 20);
    }

    // ----- the next statement -----

    /** nextStatement. Without a statement, the input is over or could not be read. */
    method NextStatement() returns (s: Option<Stmt>, failed: bool)
      requires Closed()
      modifies this, lexer
      ensures input == old(input) && (failed ==> !err.NoError?)
      ensures s.Some? ==> Closed() && finished == old(finished) + [s.value] && |lexer.rest| < |old(lexer.rest)|
      ensures s.Some? ==> |groups| == |old(groups)| + 1 && groups[..|old(groups)|] == old(groups)
      ensures s.Some? && plain ==> Ended(groups[|old(groups)|], s.value.compound, failed)
      ensures s.Some? ==> err.SelectUnsupported? || err.Panicked? || Clean(s.value, groups[|old(groups)|])
      ensures s.Some? ==> ToldByTokens(s.value, groups[|old(groups)|])
      ensures s.Some? && s.value.compound && !old(explicitDelimiter) ==> failed
      ensures s.Some? ==> explicitDelimiter == (old(explicitDelimiter) || Declares(groups[|old(groups)|]))
      ensures !old(err).NoError? ==> err == old(err)
      ensures s.None? ==> failed && Lossless() && b == "" && taken == [] && finished == old(finished)
      ensures s.None? ==> groups == old(groups) && plain == NoCommands(groups)
      ensures plain ==> old(plain)
    {
      hide Lossless, Reading.Settled, NoCommands, StartsCommand, Ended, Ahead, Vals, Keyword, IsDelimiterCommand,
           Typed, AfterText, PosOf, IsCreate, Clean, Recognized, ToldByTokens;
      var bom := BeginOrBom();
      if bom.Some? {
        EndedWhole(groups, old(groups), false);
        CleanOther(bom.value, groups[|old(groups)|]);
        BomTold(bom.value);
        return bom, false;
      }
      var t := NextToken();
      if t.None? {
        return None, true;
      }
      assert old(taken) + [t.value] == [t.value];
      var r;
      ghost var before := groups;
      r, failed := Process(t.value);
      EndedWhole(groups, before, false);
      s := Some(r);
    }

    /** The start of a statement, or all of it if it is a byte-order mark. */
    method BeginOrBom() returns (bom: Option<Stmt>)
      requires Closed()
      modifies this, lexer
      ensures input == old(input) && err == old(err)
      ensures bom.Some? ==> Closed() && finished == old(finished) + [bom.value] && |lexer.rest| < |old(lexer.rest)|
      ensures bom.Some? ==>
              groups == old(groups) + [[BOM_TOKEN]] && (plain ==> Ended([BOM_TOKEN], bom.value.compound, false))
              && bom.value.kind == Noop && !bom.value.compound
      ensures bom.None? ==> Open() && Ordinary() && Unrecognized(stmt) && b == "" && taken == []
      ensures bom.None? ==> finished == old(finished) && groups == old(groups) && plain == NoCommands(groups)
                            && lexer.rest == old(lexer.rest)
      ensures explicitDelimiter == old(explicitDelimiter)
    {
      hide Lossless, NoCommands, Ended, Recognized, PosOf;
      bom := None;
      Begin();
      AwayFromStart();
      if lineNumber == 1 && colNumber == 1 {
        bom := TryBom();
      }
    }

    /** Where reading has stopped. */
    lemma Outcome()
      requires Lossless() && b == "" && taken == []
      requires plain ==> forall i :: 0 <= i < |groups| - 1 ==> Whole(groups[i])
      requires plain && |groups| > 0 && |groups| == |finished| ==>
               Whole(groups[|groups| - 1]) || Ended(groups[|groups| - 1], finished[|groups| - 1].compound, true)
      ensures input == Texts(finished) + lexer.rest && (err.Eof? ==> lexer.rest == "")
      ensures Placed(finished) && Delimited(finished, force) && AllObey(finished, groups, force, dbs)
      ensures forall i :: 0 <= i < |finished| ==> finished[i].text != ""
      ensures err.Eof? && ValidUtf8(input) ==> Absolute(finished)
      ensures |groups| == |finished| && forall i :: 0 <= i < |groups| ==>
              |groups[i]| > 0 && Vals(groups[i]) == finished[i].text
      ensures forall i :: 0 <= i < |finished| && finished[i].kind == Create ==> IsCreate(finished[i], groups[i])
      ensures err.SelectUnsupported? ==> exists i :: 0 <= i < |groups| && Mentions(groups[i], "select")
      ensures err.Panicked? ==> exists i :: 0 <= i < |finished| && ' ' in finished[i].delimiter
      ensures plain ==> Behind(finished, input, err)
    {
      hide ParsedStatements.Placed, Delimited, Texts, PosOf, Behind, Absolute, ValidUtf8, Mentions, Ended, Whole,
           Reading.Placed, IsCreate, Obeys, AllObey;
      Now().PlacedSizes(force, dbs, Pos(lineNumber, colNumber));
      Now().PlacedResult(force, dbs, Pos(lineNumber, colNumber));
      AllCreated(finished, groups, force, dbs);
      if err.Eof? && ValidUtf8(input) {
        PositionsAreAbsolute(finished);
      }
    }

    /** A new statement, of which nothing is known yet. */
    method Begin()
      requires Closed()
      modifies this`open, this`stmt
      ensures Opening() && Ordinary() && Unrecognized(stmt)
    {
      hide Lossless, Reading.Settled, PosOf;
      StartOfStatement();
      stmt := Stmt(lineNumber, colNumber, "", UnknownKind, NoObject, "", "", lexer.delimiter, defaultDatabase, false,
          "");
      open := true;
    }

    lemma AwayFromStart()
      requires Lossless()
      ensures Pos(lineNumber, colNumber) != Positions.START ==> Now().Settled()
    {
      hide PosOf, Marks, Bare, HasPrefix;
    }

    /** Filler, or a delimiter of its own. */
    method NoopStatement(t: Token) returns (s: Stmt)
      requires Open() && Ordinary() && b != "" && taken == [t] && plain == NoCommands(groups) && Unrecognized(stmt)
      requires Keyword(t).FillerOrDelimiter?
      modifies this
      ensures Closed() && finished == old(finished) + [s] && input == old(input) && err == old(err)
      ensures s.kind == Noop && s.text == old(b) && !s.compound && groups == old(groups) + [[t]]
      ensures plain ==> Ended([t], false, false)
      ensures explicitDelimiter == old(explicitDelimiter)
    {
      hide Lossless, Reading.Settled, NoCommands, Ended;
      stmt := stmt.(kind := Noop);
      NoCommandsMore(groups, [t]);
      ParsedSoFar();
      ObeysPlain(stmt, [t]);
      s := FinishStatement();
      EndedAlone(t);
    }

    /** Picks the processor for the first token of a statement. */
    method Process(t: Token) returns (s: Stmt, failed: bool)
      requires Open() && Ordinary() && b != "" && taken == [t] && (plain ==> Typed(t)) && plain == NoCommands(groups)
               && Unrecognized(stmt)
      modifies this, lexer
      ensures Closed() && finished == old(finished) + [s] && input == old(input) && (failed ==> !err.NoError?)
      ensures |lexer.rest| <= |old(lexer.rest)|
      ensures |groups| == |old(groups)| + 1 && groups[..|old(groups)|] == old(groups)
      ensures err.SelectUnsupported? || err.Panicked? || Clean(s, groups[|old(groups)|])
      ensures ToldByTokens(s, groups[|old(groups)|]) && (s.compound && !old(explicitDelimiter) ==> failed)
      ensures explicitDelimiter == (old(explicitDelimiter) || Keyword(t).DelimiterWord?)
      ensures |groups[|old(groups)|]| > 0 && groups[|old(groups)|][0] == t
      ensures match Keyword(t)
              case FillerOrDelimiter => s.kind == Noop && s.text == old(b) && !failed
              case CreateWord => Recognized(old(stmt), s) && (s.kind == Create ==> IsCreate(s, groups[|old(groups)|]))
              case UseWord => s.kind == Command || (s.kind == UnknownKind && defaultDatabase == old(defaultDatabase))
              case DelimiterWord => IsDelimiterCommand(s)
              case Other => Unrecognized(s) && s.delimiter == old(stmt).delimiter
      ensures plain ==> Ended(groups[|old(groups)|], s.compound, failed)
    {
      hide Lossless, Reading.Settled, NoCommands, Ended, StartsCommand, IsCreate, Clean, Ahead, Told, Undisturbed,
           NonFiller;
      ghost var before := groups;
      FirstStarts(t);
      if t.typ == Filler || t.typ == Delimiter {
        s := NoopStatement(t);
        CleanOther(s, groups[|before|]);
        return s, false;
      }
      var word := if t.typ == Word then ToLower(t.val) else "";
      if word == "use" {
        ghost var more;
        s, failed, more := UseCommand(t);
        CleanOther(s, groups[|before|]);
      } else if word == "delimiter" {
        ghost var more;
        s, failed, more := DelimiterCommand(t);
        CleanOther(s, groups[|before|]);
      } else {
        s, failed := ProcessStatement(t, word == "create");
      }
    }

    /** A statement that is no client command. */
    method ProcessStatement(t: Token, create: bool) returns (s: Stmt, failed: bool)
      requires Open() && Ordinary() && b != "" && taken == [t] && (plain ==> Typed(t)) && plain == NoCommands(groups)
               && Unrecognized(stmt)
      requires if create then Keyword(t).CreateWord? else Keyword(t).Other?
      modifies this, lexer
      ensures Closed() && finished == old(finished) + [s] && input == old(input) && (failed ==> !err.NoError?)
      ensures |lexer.rest| <= |old(lexer.rest)|
      ensures |groups| == |old(groups)| + 1 && groups[..|old(groups)|] == old(groups)
      ensures |groups[|old(groups)|]| > 0 && groups[|old(groups)|][0] == t
      ensures err.SelectUnsupported? || err.Panicked? || Clean(s, groups[|old(groups)|])
      ensures ToldByTokens(s, groups[|old(groups)|]) && (s.compound && !explicitDelimiter ==> failed)
      ensures if create then Recognized(old(stmt), s) && (s.kind == Create ==> IsCreate(s, groups[|old(groups)|]))
              else Unrecognized(s) && s.delimiter == old(stmt).delimiter
      ensures plain ==> Ended(groups[|old(groups)|], s.compound, failed)
      ensures explicitDelimiter == old(explicitDelimiter)
    {
      hide Lossless, Reading.Settled, NoCommands, Ended, StartsCommand, IsCreate, Clean, Ahead, Told, Undisturbed,
           NonFiller;
      ghost var more, before := [], groups;
      FirstStarts(t);
      AheadNothing([t], b, plain);
      if create {
        s, failed := CreateStatement(t);
      } else {
        s, failed, more := UntilDelimiter([]);
        CleanOther(s, groups[|before|]);
      }
      EndedCut(before, t, groups, s.compound, failed, plain);
      FirstOfGroup(t, groups[|before|]);
    }

    /** The check for a byte-order mark at the start. */
    method TryBom() returns (bom: Option<Stmt>)
      requires Opening() && Ordinary() && b == "" && taken == [] && plain == NoCommands(groups) && !stmt.compound
      requires stmt.kind == UnknownKind
      requires Pos(lineNumber, colNumber) == Positions.START
      modifies this, lexer
      ensures input == old(input) && err == old(err)
      ensures bom.Some? ==> Closed() && finished == old(finished) + [bom.value] && |lexer.rest| < |old(lexer.rest)|
      ensures bom.Some? ==>
              groups == old(groups) + [[BOM_TOKEN]] && (plain ==> Ended([BOM_TOKEN], bom.value.compound, false))
              && bom.value.kind == Noop && !bom.value.compound
      ensures bom.None? ==>
              Open() && Ordinary() && b == "" && taken == [] && finished == old(finished)
              && lexer.rest == old(lexer.rest)
      ensures bom.None? ==> stmt == old(stmt) && groups == old(groups) && plain == NoCommands(groups)
      ensures bom.None? ==> force == old(force) && dbs == old(dbs) && defaultDatabase == old(defaultDatabase)
      ensures explicitDelimiter == old(explicitDelimiter)
    {
      hide Reading.Placed;
      ghost var before := Now();
      var found := lexer.ScanBOM();
      assert before.lex.rest == old(lexer.rest);
      if !found {
        before.PlacedNoBom(lexer.err, force, dbs, Pos(lineNumber, colNumber));
        return None;
      }
      assert L.BOM + lexer.rest == old(lexer.rest) by { PrefixSplit(old(lexer.rest), L.BOM); }
      var s := FinishBom(before);
      BomEnded();
      bom := Some(s);
    }

    /** The byte-order mark as a statement of its own, at character 0. */
    method FinishBom(ghost before: Reading) returns (s: Stmt)
      requires lexer.Valid() && before.Placed(force, dbs, Positions.START) && before.lex.rest == L.BOM + lexer.rest
               && !lexer.err.Malformed?
      requires Now() == before.(lex := before.lex.(rest := lexer.rest, err := lexer.err)) && b == "" && taken == []
               && plain == NoCommands(groups)
      requires Pos(lineNumber, colNumber) == Positions.START && stmt.line == 1 && Ordinary()
      modifies this
      ensures Closed() && finished == old(finished) + [s] && input == old(input) && err == old(err)
              && s.compound == old(stmt).compound && s.kind == Noop
      ensures groups == old(groups) + [[BOM_TOKEN]]
      ensures explicitDelimiter == old(explicitDelimiter)
    {
      hide Reading.Placed, Reading.Settled, AfterText, NoCommands;
      s := TakeBom();
      before.PlacedBom(s, lexer.rest, lexer.err, force, dbs);
      BomPlain(groups);
      BomIsOneRune();
      Conclude(s);
    }

    method TakeBom() returns (s: Stmt)
      requires colNumber > 0
      modifies this`b, this`taken, this`stmt, this`colNumber, this`marks, this`bare
      ensures Now() == old(Now()).(b := L.BOM, taken := [BOM_TOKEN], marks := old(marks) + 1, bare := lexer.rest)
      ensures b == L.BOM && taken == [BOM_TOKEN]
      ensures colNumber == old(colNumber) - 1 && s == old(stmt).(char_ := 0, kind := Noop, text := L.BOM)
    {
      b, taken := L.BOM, [BOM_TOKEN];
      marks, bare := marks + 1, lexer.rest;
      stmt := stmt.(char_ := 0, kind := Noop);
      colNumber := colNumber - 1;
      s := stmt.(text := b);
    }
  }

  lemma PrefixSplit(s: string, prefix: string)
    requires HasPrefix(s, prefix)
    ensures prefix + s[|prefix|..] == s
  {
  }

  lemma BomIsOneRune()
    ensures AfterText(Pos(1, 0), L.BOM) == Positions.START
  {
    var s := L.BOM;
    var s1 := s[1..];
    var s2 := s1[1..];
    assert s2[1..] == "" && LineLength(s2) == 1;
    assert LineLength(s1) == 2;
    assert LineLength(s) == 3;
    assert RuneSize(s) == 3 && s[3..] == "" && RuneCount(s) == 1;
  }

  /** ParseStatements. `look` is the look-ahead of the reader. In any case the statements are a
      partition of what was read without error, in the order and at the positions of the input;
      on success, of the whole input. If that is valid UTF-8, the positions are those in the whole
      text. Without client commands, the statements behind any byte-order marks are the groups of tokens
      of the rest of the input, whatever the refills: each ends with the first delimiter, and only the
      last one, if it is compound, goes on to the end. */
  method ParseStatements(input: string, look: nat)
    returns (result: seq<Stmt>, err: ParseError, ghost unread: string, ghost groups: seq<seq<Token>>,
             ghost force: seq<string>, ghost dbs: seq<string>)
    requires look > L.MIN_LOOK
    ensures !err.NoError? && input == Texts(result) + unread && (err.Eof? ==> unread == "")
    ensures Placed(result) && Delimited(result, force) && AllObey(result, groups, force, dbs)
    ensures forall i :: 0 <= i < |result| ==> result[i].text != ""
    ensures err.Eof? && ValidUtf8(input) ==> Absolute(result)
    ensures |groups| == |result| && forall i :: 0 <= i < |groups| ==>
            |groups[i]| > 0 && Vals(groups[i]) == result[i].text
    ensures forall i :: 0 <= i < |result| && result[i].kind == Create ==> IsCreate(result[i], groups[i])
    ensures err.SelectUnsupported? ==> exists i :: 0 <= i < |groups| && Mentions(groups[i], "select")
    ensures err.Eof? || err.Malformed? ==> forall i :: 0 <= i < |result| ==> Clean(result[i], groups[i])
    ensures err.Panicked? ==> exists i :: 0 <= i < |result| && ' ' in result[i].delimiter
    ensures NoCommands(groups) ==> Behind(result, input, err)
    ensures AllTold(result, groups) && Declared(result, groups, |result| - 1)
  {
    hide Placed, Delimited, Texts, PosOf, NoCommands, Behind, Absolute, L.Tokens, HasPrefix, ValidUtf8, Mentions,
         Ended, Whole, Reading.Placed, IsCreate, Clean, Obeys, ToldByTokens, Declares, AllTold, Declared, DeclaredBy;
    var p := new Parser(input, look);
    result := [];
    NothingTold(result, p.groups);
    while true
      invariant fresh(p) && fresh(p.lexer) && p.Closed() && p.input == input && result == p.finished
      invariant p.plain ==> forall i :: 0 <= i < |p.groups| ==> Whole(p.groups[i])
      invariant |p.groups| == |result|
      invariant p.err.SelectUnsupported? || p.err.Panicked? || forall i :: 0 <= i < |result| ==>
                  Clean(result[i], p.groups[i])
      invariant AllTold(result, p.groups) && Declared(result, p.groups, |result|)
      invariant p.explicitDelimiter ==> DeclaredBy(p.groups, |result|)
      decreases |p.lexer.rest|
    {
      ghost var before := p.groups;
      var s, failed := p.NextStatement();
      DeclaredFewer(result, before, |result|);
      if s.Some? {
        ToldMore(result, before, s.value, p.groups);
        result := result + [s.value];
      }
      if failed {
        err, unread, groups, force, dbs := p.err, p.lexer.rest, p.groups, p.force, p.dbs;
        if s.Some? {
          EndedWhole(p.groups, before, false);
        }
        p.Outcome();
        return;
      }
      EndedWhole(p.groups, before, s.value.compound);
    }
  }

  /** Nothing changed but what the parser found out about the kind of statement and its names. */
  predicate SameStart(a: Stmt, s: Stmt) {
    a.line == s.line && a.char_ == s.char_ && a.delimiter == s.delimiter && a.defaultDatabase == s.defaultDatabase
  }
}
