// Any sequence of edits keeps a SQL file consistent (internal/fs/sqlfile.go).

module SqlFileEdits {
  import opened Text
  import opened Statements
  import opened SqlFile

  // ----- reading a DELIMITER command back -----

  predicate NoBlanks(s: string) {
    forall i :: 0 <= i < |s| ==> !IsBlank(s[i])
  }

  predicate StartsBlank(s: string) {
    |s| == 0 || IsBlank(s[0])
  }

  lemma {:induction false} WordEnds(w: string, rest: string)
    requires NoBlanks(w) && StartsBlank(rest)
    ensures SkipWord(w + rest) == rest && Word(w + rest) == w
  {
    if |w| == 0 {
      assert w + rest == rest;
    } else {
      assert (w + rest)[1..] == w[1..] + rest;
      WordEnds(w[1..], rest);
      assert [w[0]] + w[1..] == w;
    }
  }

  lemma LowerDelimiter()
    ensures ToLower("DELIMITER") == "delimiter"
  {
  }

  lemma CommandSets(s: Session, delimiter: string, database: string)
    requires delimiter != "" && NoBlanks(delimiter) && Unquoted(delimiter) == delimiter
    ensures Advance(s, DelimiterCommand(delimiter, database)) == s.(delimiter := delimiter)
  {
    hide SkipWord, Word, ToLower;
    var rest := " " + delimiter + "\n";
    LowerDelimiter();
    assert "DELIMITER " + delimiter + "\n" == "DELIMITER" + rest;
    WordEnds("DELIMITER", rest);
    assert rest[1..] == delimiter + "\n";
    assert SkipBlanks(rest) == delimiter + "\n";
    WordEnds(delimiter, "\n");
  }

  // ----- folding over a file -----

  lemma {:induction false} Concat(s: Session, a: seq<Snap>, b: seq<Snap>)
    ensures After(s, a + b) == After(After(s, a), b)
    ensures ConsistentFrom(s, a + b) <==> ConsistentFrom(s, a) && ConsistentFrom(After(s, a), b)
    decreases |a|
  {
    if |a| == 0 {
      assert a + b == b;
    } else {
      assert (a + b)[1..] == a[1..] + b;
      hide Advance;
      Concat(Advance(s, a[0]), a[1..], b);
    }
  }

  lemma Single(s: Session, x: Snap)
    ensures After(s, [x]) == Advance(s, x)
    ensures ConsistentFrom(s, [x]) <==> x.IsCommand() || (x.delimiter == s.delimiter && x.defaultDatabase == s.database)
  {
    assert [x][1..] == [];
  }

  /** A file around one of its statements. */
  lemma Around(s: seq<Snap>, i: nat)
    requires i < |s| && Consistent(s)
    ensures ConsistentFrom(START, s[..i]) && ConsistentFrom(Advance(After(START, s[..i]), s[i]), s[i + 1..])
    ensures !s[i].IsCommand() ==> After(START, s[..i]) == Session(s[i].delimiter, s[i].defaultDatabase)
  {
    hide Advance, ConsistentFrom;
    assert s == s[..i] + ([s[i]] + s[i + 1..]);
    Concat(START, s[..i], [s[i]] + s[i + 1..]);
    Concat(After(START, s[..i]), [s[i]], s[i + 1..]);
    Single(After(START, s[..i]), s[i]);
  }

  // ----- one edit -----

  lemma NormalizeLastKeeps(s: seq<Snap>)
    requires Consistent(s) && (|s| > 0 ==> !s[|s| - 1].IsCommand())
    ensures Consistent(NormalizeLast(s)) && After(START, NormalizeLast(s)) == Ending(s)
  {
    hide Normalized, ConsistentFrom, Advance;
    if |s| > 0 {
      var init, last := s[..|s| - 1], s[|s| - 1];
      Around(s, |s| - 1);
      Concat(START, init, [Normalize(last)]);
      Single(After(START, init), Normalize(last));
      Unchanged(After(START, init), Normalize(last));
    } else {
      Nothing();
    }
  }

  lemma Nothing()
    ensures Consistent([]) && After(START, []) == START
  {
  }

  lemma Unchanged(s: Session, x: Snap)
    requires !x.IsCommand()
    ensures Advance(s, x) == s
  {
  }

  lemma AppendedKeeps(x: Snap, end: Session)
    requires !x.IsCommand()
    ensures ConsistentFrom(end, Appended(x, end))
    ensures forall y :: y in Appended(x, end) && y.compound ==> y.delimiter != ";"
    ensures After(end, Appended(x, end)).delimiter == ";"
  {
    hide Normalized, ConsistentFrom, Advance;
    var delimiter := DelimiterFor(x.compound, end.delimiter);
    var pre := if delimiter != end.delimiter then [DelimiterCommand(delimiter, end.database)] else [];
    var y := Normalize(x.(delimiter := delimiter, defaultDatabase := end.database));
    var post := if delimiter != ";" then [DelimiterCommand(";", end.database)] else [];
    var mid := end.(delimiter := delimiter);
    Concat(end, pre + [y], post);
    Concat(end, pre, [y]);
    Empty(end);
    assert delimiter != end.delimiter ==> delimiter in {"//", ";"};
    if delimiter != end.delimiter {
      CommandSets(end, delimiter, end.database);
      Single(end, DelimiterCommand(delimiter, end.database));
    }
    Single(mid, y);
    Unchanged(mid, y);
    Empty(mid);
    if delimiter != ";" {
      CommandSets(mid, ";", end.database);
      Single(mid, DelimiterCommand(";", end.database));
    }
  }

  lemma Empty(s: Session)
    ensures After(s, []) == s && ConsistentFrom(s, [])
  {
  }

  lemma {:induction false} PruneKeeps(s: seq<Snap>)
    requires Consistent(s)
    ensures Consistent(Prune(s))
  {
    hide ConsistentFrom, Prune;
    var p := Prune(s);
    assert s == p + s[|p|..];
    Concat(START, p, s[|p|..]);
  }

  lemma AddKeeps(s: seq<Snap>, x: Snap)
    requires Consistent(s) && !x.IsCommand()
    ensures Consistent(Added(s, x))
    ensures CompoundsDelimited(s) ==> CompoundsDelimited(Added(s, x))
  {
    hide Appended, ConsistentFrom, Normalized, Prune;
    var pruned := Prune(s);
    PruneKeeps(s);
    NormalizeLastKeeps(pruned);
    AppendedKeeps(x, Ending(pruned));
    Concat(START, NormalizeLast(pruned), Appended(x, Ending(pruned)));
    if CompoundsDelimited(s) {
      forall i | 0 <= i < |Added(s, x)| && Added(s, x)[i].compound ensures Added(s, x)[i].delimiter != ";" {
        if i >= |pruned| {
          assert Added(s, x)[i] in Appended(x, Ending(pruned));
        }
      }
    }
  }

  lemma EditKeeps(s: seq<Snap>, i: nat, newText: string, compound: bool)
    requires Consistent(s) && i < |s| && !s[i].IsCommand()
    ensures Consistent(Edited(s, i, newText, compound))
    ensures CompoundsDelimited(s) ==> CompoundsDelimited(Edited(s, i, newText, compound))
  {
    hide ConsistentFrom, Advance, TrailerOf, BodyOf;
    var x, before := s[i], After(START, s[..i]);
    Around(s, i);
    Unchanged(before, x);
    if x.delimiter != ";" || !compound {
      var y := x.(text := newText + TrailerOf(x.text, x.delimiter), compound := compound);
      assert Edited(s, i, newText, compound) == s[..i] + ([y] + s[i + 1..]);
      Concat(START, s[..i], [y] + s[i + 1..]);
      Concat(before, [y], s[i + 1..]);
      Single(before, y);
      Unchanged(before, y);
    } else {
      WrapKeeps(s, i, newText, compound);
    }
  }

  lemma WrapKeeps(s: seq<Snap>, i: nat, newText: string, compound: bool)
    requires Consistent(s) && i < |s| && !s[i].IsCommand() && s[i].delimiter == ";" && compound
    ensures Consistent(Edited(s, i, newText, compound))
    ensures CompoundsDelimited(s) ==> CompoundsDelimited(Edited(s, i, newText, compound))
  {
    hide ConsistentFrom, Advance, Edited;
    var x, before := s[i], After(START, s[..i]);
    Around(s, i);
    Unchanged(before, x);
    EditedWraps(s, i, newText, compound);
    var open, y, close := DelimiterCommand("//", x.defaultDatabase),
        x.(delimiter := "//", text := newText + "//\n", compound := compound), DelimiterCommand(";", x.defaultDatabase);
    var inside := before.(delimiter := "//");
    assert s[..i] + [open, y, close] + s[i + 1..] == s[..i] + ([open] + ([y] + ([close] + s[i + 1..])));
    Concat(START, s[..i], [open] + ([y] + ([close] + s[i + 1..])));
    Concat(before, [open], [y] + ([close] + s[i + 1..]));
    Concat(inside, [y], [close] + s[i + 1..]);
    Concat(inside, [close], s[i + 1..]);
    Single(before, open);
    Single(inside, y);
    Single(inside, close);
    Unchanged(inside, y);
    CommandSets(before, "//", x.defaultDatabase);
    CommandSets(inside, ";", x.defaultDatabase);
  }

  lemma RemoveKeeps(s: seq<Snap>, i: nat)
    requires Consistent(s) && i < |s| && !s[i].IsCommand()
    ensures Consistent(Removed(s, i))
    ensures CompoundsDelimited(s) ==> CompoundsDelimited(Removed(s, i))
  {
    hide ConsistentFrom, Advance;
    Around(s, i);
    Unchanged(After(START, s[..i]), s[i]);
    Concat(START, s[..i], s[i + 1..]);
  }

  // ----- sequences of edits -----

  datatype Edit = Add(added: Snap) | Change(i: nat, newText: string, compound: bool) | Remove(i: nat)

  /** The edit concerns a statement of the file that is not a command, or adds one. */
  predicate Permitted(s: seq<Snap>, e: Edit) {
    match e
    case Add(x) => !x.IsCommand()
    case Change(i, _, _) => i < |s| && !s[i].IsCommand()
    case Remove(i) => i < |s| && !s[i].IsCommand()
  }

  function Apply(s: seq<Snap>, e: Edit): seq<Snap>
    requires Permitted(s, e)
  {
    match e
    case Add(x) => Added(s, x)
    case Change(i, newText, compound) => Edited(s, i, newText, compound)
    case Remove(i) => Removed(s, i)
  }

  predicate AllPermitted(s: seq<Snap>, edits: seq<Edit>)
    decreases |edits|
  {
    |edits| == 0 || (Permitted(s, edits[0]) && AllPermitted(Apply(s, edits[0]), edits[1..]))
  }

  function ApplyAll(s: seq<Snap>, edits: seq<Edit>): seq<Snap>
    requires AllPermitted(s, edits)
    decreases |edits|
  {
    if |edits| == 0 then s else ApplyAll(Apply(s, edits[0]), edits[1..])
  }

  /** Whatever sequence of edits is made, each statement that is not a command stays
      under the delimiter and the database it records, and no compound statement
      ends up under ";" unless the file already had one there. */
  lemma {:induction false} EditsKeepConsistency(s: seq<Snap>, edits: seq<Edit>)
    requires Consistent(s) && AllPermitted(s, edits)
    ensures Consistent(ApplyAll(s, edits))
    ensures CompoundsDelimited(s) ==> CompoundsDelimited(ApplyAll(s, edits))
    decreases |edits|
  {
    if |edits| > 0 {
      hide Added, Edited, Removed, Consistent, CompoundsDelimited;
      match edits[0] {
        case Add(x) => AddKeeps(s, x);
        case Change(i, newText, compound) => EditKeeps(s, i, newText, compound);
        case Remove(i) => RemoveKeeps(s, i);
      }
      EditsKeepConsistency(Apply(s, edits[0]), edits[1..]);
    }
  }

  /** A statement that becomes compound moves away from ";", also in a file that had compound statements there. */
  lemma EditedCompoundIsDelimited(s: seq<Snap>, i: nat, newText: string)
    requires i < |s| && s[i].delimiter == ";"
    ensures var r := Edited(s, i, newText, true);
            |r| == |s| + 2 && r[i + 1].compound && r[i + 1].delimiter == "//" && r[i + 1].text == newText + "//\n"
    ensures forall j :: 0 <= j < |s| && j != i ==> s[j] in Edited(s, i, newText, true)
  {
    hide DelimiterCommand;
    var r := Edited(s, i, newText, true);
    forall j | 0 <= j < |s| && j != i ensures s[j] in r {
      assert s[j] == if j < i then r[j] else r[j + 2];
    }
  }

  // ----- generated commands in the text of the file -----

  /** A client that wants its commands at the start of a line finds this one. */
  predicate StartsLine(s: seq<Snap>, k: nat)
    requires k <= |s|
  {
    k == 0 || EndsLine(s[k - 1].text)
  }

  predicate Usual(delimiter: string) {
    delimiter != "" && !EndsInBlank(delimiter) && '\n' !in delimiter
  }

  /** The trailer of `x` has no line end but in front of its delimiter. */
  predicate LineEndsEarly(x: Snap) {
    !EndsLine(x.text) && '\n' in TrailerOf(x.text, x.delimiter)
  }

  /** The DELIMITER commands around an added statement start a line, unless the statement in front of them has its
      delimiter on a line of its own and no line end behind that. */
  lemma AddedCommandsStartLines(s: seq<Snap>, x: Snap)
    requires Usual(Ending(Prune(s)).delimiter)
    ensures var r, n, end := Added(s, x), |Prune(s)|, Ending(Prune(s));
            var d := DelimiterFor(x.compound, end.delimiter);
            && (d != end.delimiter ==>
                  && |r| > n && r[n] == DelimiterCommand(d, end.database)
                  && (StartsLine(r, n) <==> n == 0 || !LineEndsEarly(s[n - 1])))
            && (d != ";" ==>
                  && |r| > 1 && r[|r| - 1] == DelimiterCommand(";", end.database)
                  && (StartsLine(r, |r| - 1) <==> !LineEndsEarly(x.(delimiter := d))))
  {
    hide Normalized, EndsLine, TrailerOf, EndsInBlank, Prune;
    var p, end := Prune(s), Ending(Prune(s));
    var r, n, d := Added(s, x), |p|, DelimiterFor(x.compound, end.delimiter);
    assert Usual(d) by { UsualDelimiters(); }
    if n > 0 {
      assert r[n - 1] == Normalize(p[n - 1]);
      NormalizedEndsLine(p[n - 1].text, p[n - 1].kind, p[n - 1].delimiter);
    }
    if d != ";" {
      assert r[|r| - 2] == Normalize(x.(delimiter := d, defaultDatabase := end.database));
      NormalizedEndsLine(x.text, x.kind, d);
    }
  }

  lemma UsualDelimiters()
    ensures Usual(";") && Usual("//")
  {
  }

  /** Around an edited statement, the command behind it starts a line; the one in front does if the statement did. */
  lemma EditedCommandsStartLines(s: seq<Snap>, i: nat, newText: string)
    requires i < |s| && s[i].delimiter == ";"
    ensures var r := Edited(s, i, newText, true);
            && |r| == |s| + 2 && r[i].IsCommand() && r[i + 2].IsCommand()
            && (StartsLine(r, i) <==> StartsLine(s, i)) && StartsLine(r, i + 2)
  {
    hide EndsLine;
    EndsWithLine(newText + "//");
    assert newText + "//" + "\n" == newText + "//\n";
  }

  lemma EndsWithLine(text: string)
    requires text != "" && !EndsInBlank(text)
    ensures EndsLine(text + "\n")
  {
    TrimmedIs(text, "\n");
  }
}
