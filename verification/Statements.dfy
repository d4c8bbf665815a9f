// The text of a statement and its trailer (internal/tengo/statement.go).

module Statements {
  import opened Text

  /** tengo.StatementType. */
  datatype Kind = UnknownKind | Noop | Command | Create | Alter

  /** The delimiter recorded for a DELIMITER command itself. */
  const NO_DELIMITER := "\0"

  predicate IsBlank(c: char) {
    c == '\n' || c == '\r' || c == '\t' || c == ' '
  }

  /** strings.TrimRight(s, "\n\r\t "). */
  function TrimRight(s: string): (r: string)
    ensures |r| <= |s| && r == s[..|r|]
  {
    if |s| > 0 && IsBlank(s[|s| - 1]) then TrimRight(s[..|s| - 1]) else s
  }

  function TrimSuffix(s: string, suffix: string): (r: string)
    ensures |r| <= |s| && r == s[..|r|]
  {
    if HasSuffix(s, suffix) then s[..|s| - |suffix|] else s
  }

  /** The first part of SplitTextBody; the second part is the rest of the text. */
  function BodyOf(text: string, delimiter: string): (r: string)
    ensures |r| <= |text| && r == text[..|r|]
  {
    var body := TrimRight(text);
    if delimiter != "" && delimiter != NO_DELIMITER then TrimRight(TrimSuffix(body, delimiter)) else body
  }

  function TrailerOf(text: string, delimiter: string): string
  {
    text[|BodyOf(text, delimiter)|..]
  }

  predicate NeedsDelimiter(kind: Kind, delimiter: string) {
    delimiter != "" && delimiter != NO_DELIMITER && kind != UnknownKind && kind != Noop
  }

  function WithNewline(text: string, trailer: string): string {
    if Contains(trailer, "\n") then text else text + "\n"
  }

  /** The text after NormalizeTrailer. */
  function Normalized(text: string, kind: Kind, delimiter: string): string {
    var trailer := TrailerOf(text, delimiter);
    if NeedsDelimiter(kind, delimiter) && !Contains(trailer, delimiter)
    then WithNewline(BodyOf(text, delimiter) + delimiter + trailer, trailer)
    else WithNewline(text, trailer)
  }

  class Statement {
    var text: string
    var kind: Kind
    var delimiter: string
    var compound: bool
    var defaultDatabase: string

    constructor (text: string, kind: Kind, delimiter: string, compound: bool, defaultDatabase: string)
      ensures this.text == text && this.kind == kind && this.delimiter == delimiter
      ensures this.compound == compound && this.defaultDatabase == defaultDatabase
    {
      this.text, this.kind, this.delimiter, this.compound, this.defaultDatabase := text, kind, delimiter, compound,
          defaultDatabase;
    }

    method SplitTextBody() returns (body: string, suffix: string)
      ensures body == BodyOf(text, delimiter) && body + suffix == text
    {
      body := TrimRight(text);
      if delimiter != "" && delimiter != NO_DELIMITER {
        body := TrimSuffix(body, delimiter);
        body := TrimRight(body);
      }
      suffix := text[|body|..];
    }

    method NormalizeTrailer()
      modifies this`text
      ensures text == Normalized(old(text), kind, delimiter)
    {
      var body, trailer := SplitTextBody();
      assert trailer == TrailerOf(text, delimiter);
      if delimiter == "" || delimiter == NO_DELIMITER || kind == UnknownKind || kind == Noop {
        if !Contains(trailer, "\n") {
          text := text + "\n";
        }
        return;
      }
      if !Contains(trailer, delimiter) {
        text := body + delimiter + trailer;
      }
      if !Contains(trailer, "\n") {
        text := text + "\n";
      }
    }
  }

  // ----- facts about substrings -----

  lemma {:induction false} ContainsAt(s: string, needle: string, i: nat)
    requires i + |needle| <= |s| && s[i..i + |needle|] == needle
    ensures Contains(s, needle)
  {
    if i > 0 {
      assert s[1..][i - 1..i - 1 + |needle|] == s[i..i + |needle|];
      ContainsAt(s[1..], needle, i - 1);
    }
  }

  lemma {:induction false} Where(s: string, needle: string) returns (i: nat)
    requires Contains(s, needle)
    ensures i + |needle| <= |s| && s[i..i + |needle|] == needle
  {
    if HasPrefix(s, needle) {
      i := 0;
    } else {
      var k := Where(s[1..], needle);
      i := k + 1;
      assert s[1..][k..k + |needle|] == s[i..i + |needle|];
    }
  }

  lemma ContainsChar(s: string, c: char)
    ensures Contains(s, [c]) <==> c in s
  {
    if c in s {
      var i :| 0 <= i < |s| && s[i] == c;
      ContainsAt(s, [c], i);
    }
    if Contains(s, [c]) {
      var i := Where(s, [c]);
      assert s[i..i + 1][0] == c;
    }
  }

  // ----- the parts of a text -----

  predicate EndsInBlank(s: string) {
    |s| > 0 && IsBlank(s[|s| - 1])
  }

  predicate AllBlank(s: string) {
    forall i :: 0 <= i < |s| ==> IsBlank(s[i])
  }

  lemma {:induction false} Trimmed(s: string)
    ensures !EndsInBlank(TrimRight(s)) && AllBlank(s[|TrimRight(s)|..]) && s == TrimRight(s) + s[|TrimRight(s)|..]
  {
    if EndsInBlank(s) {
      var init := s[..|s| - 1];
      Trimmed(init);
      assert s[|TrimRight(s)|..] == init[|TrimRight(init)|..] + [s[|s| - 1]];
    }
  }

  lemma {:induction false} TrimmedIs(body: string, blanks: string)
    requires !EndsInBlank(body) && AllBlank(blanks)
    ensures TrimRight(body + blanks) == body
  {
    if |blanks| == 0 {
      assert body + blanks == body;
    } else {
      assert (body + blanks)[..|body + blanks| - 1] == body + blanks[..|blanks| - 1];
      TrimmedIs(body, blanks[..|blanks| - 1]);
    }
  }

  predicate RealDelimiter(delimiter: string) {
    delimiter != "" && delimiter != NO_DELIMITER
  }

  /** A text is a body, blanks, possibly the delimiter, and more blanks. */
  datatype Parts = Parts(body: string, gap: string, found: bool, blanks: string) {
    predicate Valid(delimiter: string) {
      !EndsInBlank(body) && AllBlank(gap) && AllBlank(blanks) && (if found then !EndsInBlank(delimiter) else gap == "")
    }

    function Trailer(delimiter: string): string {
      gap + (if found then delimiter else "") + blanks
    }
  }

  lemma Dissect(text: string, delimiter: string) returns (p: Parts)
    requires RealDelimiter(delimiter)
    ensures p.Valid(delimiter) && p.body == BodyOf(text, delimiter)
            && p.Trailer(delimiter) == TrailerOf(text, delimiter)
    ensures text == p.body + p.Trailer(delimiter)
    ensures p.found == HasSuffix(TrimRight(text), delimiter) && p.blanks == text[|TrimRight(text)|..]
  {
    hide TrimRight;
    var bare := TrimRight(text);
    Trimmed(text);
    var blanks := text[|bare|..];
    if HasSuffix(bare, delimiter) {
      var cut := bare[..|bare| - |delimiter|];
      Trimmed(cut);
      var body := TrimRight(cut);
      p := Parts(body, cut[|body|..], true, blanks);
      assert bare == cut + delimiter;
      assert bare[|bare| - 1] == delimiter[|delimiter| - 1];
      assert text == body + (cut[|body|..] + delimiter + blanks);
    } else {
      Trimmed(bare);
      assert TrimRight(bare) == bare by { assert bare + "" == bare; TrimmedIs(bare, ""); }
      p := Parts(bare, "", false, blanks);
      assert "" + "" + blanks == blanks;
    }
  }

  lemma SuffixCut(a: string, suffix: string)
    ensures HasSuffix(a + suffix, suffix) && TrimSuffix(a + suffix, suffix) == a
  {
    assert (a + suffix)[|a|..] == suffix && (a + suffix)[..|a|] == a;
  }

  lemma SuffixEnd(s: string, suffix: string)
    requires HasSuffix(s, suffix) && suffix != ""
    ensures EndsInBlank(s) == EndsInBlank(suffix)
  {
    assert s[|s| - 1] == s[|s| - |suffix|..][|suffix| - 1];
  }

  lemma DissectedFound(body: string, gap: string, delimiter: string, blanks: string)
    requires RealDelimiter(delimiter) && !EndsInBlank(delimiter)
    requires !EndsInBlank(body) && AllBlank(gap) && AllBlank(blanks)
    ensures BodyOf(body + gap + delimiter + blanks, delimiter) == body
    ensures TrimRight(body + gap + delimiter + blanks) == body + gap + delimiter
  {
    hide TrimRight, IsBlank, TrimSuffix, AllBlank, HasSuffix;
    SuffixCut(body + gap, delimiter);
    SuffixEnd(body + gap + delimiter, delimiter);
    TrimmedIs(body + gap + delimiter, blanks);
    TrimmedIs(body, gap);
  }

  lemma DissectedBlank(body: string, delimiter: string, blanks: string)
    requires RealDelimiter(delimiter) && EndsInBlank(delimiter) && !EndsInBlank(body) && AllBlank(blanks)
    ensures BodyOf(body + blanks, delimiter) == body
  {
    hide TrimRight, IsBlank, HasSuffix;
    TrimmedIs(body, blanks);
    assert TrimRight(body) == body by { assert body + "" == body; TrimmedIs(body, ""); }
    assert !HasSuffix(body, delimiter) by {
      if HasSuffix(body, delimiter) {
        SuffixEnd(body, delimiter);
      }
    }
  }

  // ----- facts about Contains -----

  lemma BlanksContain(blanks: string, needle: string)
    requires AllBlank(blanks) && Contains(blanks, needle)
    ensures AllBlank(needle)
  {
    var i := Where(blanks, needle);
    forall k | 0 <= k < |needle| ensures IsBlank(needle[k]) {
      assert blanks[i..i + |needle|][k] == blanks[i + k];
    }
  }

  lemma ContainsMore(a: string, s: string, b: string, needle: string)
    requires Contains(s, needle)
    ensures Contains(a + s + b, needle)
  {
    hide Contains;
    var i := Where(s, needle);
    assert (a + s + b)[|a| + i..|a| + i + |needle|] == s[i..i + |needle|];
    ContainsAt(a + s + b, needle, |a| + i);
  }

  lemma ContainsItself(a: string, needle: string, b: string)
    ensures Contains(a + needle + b, needle)
  {
    hide Contains;
    assert (a + needle + b)[|a|..|a| + |needle|] == needle;
    ContainsAt(a + needle + b, needle, |a|);
  }

  // ----- idempotence -----

  /** The delimiters after which a trailer can be recognized again. */
  predicate Recognizable(delimiter: string) {
    !EndsInBlank(delimiter) || AllBlank(delimiter)
  }

  /** What NormalizeTrailer makes of the trailer. */
  function NewTrailer(trailer: string, delimiter: string): string {
    WithNewline(if Contains(trailer, delimiter) then trailer else delimiter + trailer, trailer)
  }

  lemma NormalizedIs(text: string, kind: Kind, delimiter: string)
    requires NeedsDelimiter(kind, delimiter)
    ensures Normalized(text, kind, delimiter)
            == BodyOf(text, delimiter) + NewTrailer(TrailerOf(text, delimiter), delimiter)
  {
    hide Contains, BodyOf;
    var body, trailer := BodyOf(text, delimiter), TrailerOf(text, delimiter);
    assert text == body + trailer;
    assert body + delimiter + trailer == body + (delimiter + trailer);
    assert body + trailer + "\n" == body + (trailer + "\n");
    assert body + delimiter + trailer + "\n" == body + (delimiter + trailer + "\n");
  }

  lemma NewTrailerComplete(trailer: string, delimiter: string)
    ensures Contains(NewTrailer(trailer, delimiter), delimiter) && Contains(NewTrailer(trailer, delimiter), "\n")
  {
    hide Contains;
    var front := if Contains(trailer, delimiter) then "" else delimiter;
    var back := if Contains(trailer, "\n") then "" else "\n";
    assert NewTrailer(trailer, delimiter) == front + trailer + back;
    if front == "" && Contains(trailer, delimiter) {
      ContainsMore(front, trailer, back, delimiter);
    } else {
      ContainsItself("", delimiter, trailer + back);
      assert "" + delimiter + (trailer + back) == front + trailer + back;
    }
    if back == "" {
      ContainsMore(front, trailer, back, "\n");
    } else {
      ContainsItself(front + trailer, "\n", "");
      assert front + trailer + "\n" + "" == front + trailer + back;
    }
  }

  lemma BlankMore(blanks: string)
    requires AllBlank(blanks)
    ensures AllBlank(blanks + "\n")
  {
  }

  /** The blanks at the very end after normalizing. */
  function MoreBlanks(p: Parts, delimiter: string): string {
    if Contains(p.Trailer(delimiter), "\n") then p.blanks else p.blanks + "\n"
  }

  /** What NormalizeTrailer makes of a dissected text. */
  lemma NormalizedParts(text: string, kind: Kind, delimiter: string) returns (p: Parts)
    requires NeedsDelimiter(kind, delimiter) && Recognizable(delimiter)
    ensures p.Valid(delimiter) && p.body == BodyOf(text, delimiter)
            && p.Trailer(delimiter) == TrailerOf(text, delimiter)
    ensures p.found == HasSuffix(TrimRight(text), delimiter) && p.blanks == text[|TrimRight(text)|..]
    ensures AllBlank(MoreBlanks(p, delimiter))
    ensures Normalized(text, kind, delimiter)
            == if !p.found && AllBlank(delimiter) && Contains(p.blanks, delimiter)
                then p.body + MoreBlanks(p, delimiter)
               else p.body + p.gap + delimiter + MoreBlanks(p, delimiter)
    ensures !p.found && !AllBlank(delimiter) ==> !Contains(p.blanks, delimiter)
  {
    hide Contains, BodyOf, TrailerOf, Normalized, IsBlank, AllBlank, TrimRight, HasSuffix;
    p := Dissect(text, delimiter);
    NormalizedIs(text, kind, delimiter);
    BlankMore(p.blanks);
    if p.found {
      FoundTrailer(p, delimiter);
    } else {
      MissingTrailer(p, delimiter);
    }
  }

  lemma FoundTrailer(p: Parts, delimiter: string)
    requires p.found
    ensures p.body + NewTrailer(p.Trailer(delimiter), delimiter)
            == p.body + p.gap + delimiter + MoreBlanks(p, delimiter)
  {
    hide Contains;
    ContainsItself(p.gap, delimiter, p.blanks);
    Grouped(p.body, p.gap, delimiter, p.blanks);
  }

  lemma MissingTrailer(p: Parts, delimiter: string)
    requires !p.found && p.Valid(delimiter) && Recognizable(delimiter)
    ensures p.body + NewTrailer(p.Trailer(delimiter), delimiter)
            == if AllBlank(delimiter) && Contains(p.blanks, delimiter) then p.body + MoreBlanks(p, delimiter)
               else p.body + p.gap + delimiter + MoreBlanks(p, delimiter)
    ensures !AllBlank(delimiter) ==> !Contains(p.blanks, delimiter)
  {
    hide Contains, AllBlank, IsBlank;
    assert p.gap == "" && p.Trailer(delimiter) == p.blanks;
    if Contains(p.blanks, delimiter) {
      BlanksContain(p.blanks, delimiter);
    } else {
      Grouped(p.body, "", delimiter, p.blanks);
      assert "" + delimiter + p.blanks == delimiter + p.blanks && p.body + "" == p.body;
    }
  }

  lemma NotAllBlank(s: string)
    requires s != "" && !EndsInBlank(s)
    ensures !AllBlank(s)
  {
    assert !IsBlank(s[|s| - 1]);
  }

  lemma Grouped(a: string, b: string, c: string, d: string)
    ensures a + (b + c + d) == a + b + c + d
    ensures a + (b + c + d + "\n") == a + b + c + (d + "\n")
  {
  }

  /** With a recognizable delimiter, normalizing changes the trailer only. */
  lemma NormalizedBody(text: string, kind: Kind, delimiter: string)
    requires NeedsDelimiter(kind, delimiter) && Recognizable(delimiter)
    ensures BodyOf(Normalized(text, kind, delimiter), delimiter) == BodyOf(text, delimiter)
  {
    hide Contains, BodyOf, TrailerOf, Normalized, IsBlank, TrimRight, HasSuffix, MoreBlanks;
    var p := NormalizedParts(text, kind, delimiter);
    var more := MoreBlanks(p, delimiter);
    if !EndsInBlank(delimiter) {
      DissectedFound(p.body, p.gap, delimiter, more);
      NotAllBlank(delimiter);
    } else {
      DissectedBlank(p.body, delimiter, more);
      DissectedBlank(p.body, delimiter, delimiter + more);
      assert p.gap == "";
      assert p.body + "" + delimiter + more == p.body + (delimiter + more);
    }
  }

  lemma StableIff(r: string, kind: Kind, delimiter: string)
    requires NeedsDelimiter(kind, delimiter)
    ensures Normalized(r, kind, delimiter) == r <==>
            Contains(TrailerOf(r, delimiter), delimiter) && Contains(TrailerOf(r, delimiter), "\n")
  {
    hide Contains, BodyOf;
    assert |r| == |BodyOf(r, delimiter)| + |TrailerOf(r, delimiter)|;
  }

  /** NormalizeTrailer is idempotent exactly for the delimiters that do not end in
      a blank, or consist of blanks only; with any other delimiter every further
      call appends the delimiter once more. */
  lemma NormalizeIdempotentIff(text: string, kind: Kind, delimiter: string)
    requires NeedsDelimiter(kind, delimiter)
    ensures Normalized(Normalized(text, kind, delimiter), kind, delimiter) == Normalized(text, kind, delimiter) <==>
            Recognizable(delimiter)
  {
    hide Normalized, Recognizable, NewTrailer, BodyOf, Contains;
    var r := Normalized(text, kind, delimiter);
    StableIff(r, kind, delimiter);
    if Recognizable(delimiter) {
      NormalizedIs(text, kind, delimiter);
      NewTrailerComplete(TrailerOf(text, delimiter), delimiter);
      NormalizedBody(text, kind, delimiter);
      assert r[|BodyOf(text, delimiter)|..] == NewTrailer(TrailerOf(text, delimiter), delimiter);
    } else {
      NeverRecognized(r, delimiter);
    }
  }

  lemma NeverRecognized(text: string, delimiter: string)
    requires RealDelimiter(delimiter) && !Recognizable(delimiter)
    ensures !Contains(TrailerOf(text, delimiter), delimiter)
  {
    hide Contains, BodyOf, TrailerOf;
    var p := Dissect(text, delimiter);
    assert p.Trailer(delimiter) == p.blanks;
    if Contains(p.blanks, delimiter) {
      BlanksContain(p.blanks, delimiter);
    }
  }

  // ----- does a normalized statement end its line? -----

  /** A line end follows the text and its delimiter. */
  predicate EndsLine(text: string) {
    '\n' in text[|TrimRight(text)|..]
  }

  /** After NormalizeTrailer the delimiter is followed by a line end, except when the
      text already had its delimiter on a line of its own without a line end behind
      it: the line end before the delimiter is mistaken for it. */
  lemma NormalizedEndsLineIff(text: string, kind: Kind, delimiter: string)
    requires NeedsDelimiter(kind, delimiter) && !EndsInBlank(delimiter) && '\n' !in delimiter
    ensures EndsLine(Normalized(text, kind, delimiter))
            <==> !(HasSuffix(TrimRight(text), delimiter) && !EndsLine(text) && '\n' in TrailerOf(text, delimiter))
  {
    hide Contains, BodyOf, TrailerOf, Normalized, IsBlank, TrimRight, HasSuffix;
    var p := NormalizedParts(text, kind, delimiter);
    var more := MoreBlanks(p, delimiter);
    NotAllBlank(delimiter);
    DissectedFound(p.body, p.gap, delimiter, more);
    var front := p.body + p.gap + delimiter;
    assert Normalized(text, kind, delimiter) == front + more;
    assert (front + more)[|front|..] == more;
    ContainsChar(p.Trailer(delimiter), '\n');
    assert !p.found ==> p.Trailer(delimiter) == p.blanks;
  }

  /** For statements of every kind: a line end follows, except when the only one in the trailer stands in front of the
      delimiter. */
  lemma NormalizedEndsLine(text: string, kind: Kind, delimiter: string)
    requires NeedsDelimiter(kind, delimiter) ==> !EndsInBlank(delimiter) && '\n' !in delimiter
    ensures EndsLine(Normalized(text, kind, delimiter)) <==> EndsLine(text) || '\n' !in TrailerOf(text, delimiter)
  {
    hide Contains, BodyOf, TrailerOf, IsBlank, TrimRight, HasSuffix;
    if NeedsDelimiter(kind, delimiter) {
      hide Normalized;
      NormalizedEndsLineIff(text, kind, delimiter);
      var p := Dissect(text, delimiter);
      assert !p.found ==> p.Trailer(delimiter) == p.blanks;
    } else {
      ContainsChar(TrailerOf(text, delimiter), '\n');
      Trimmed(text);
      var bare, blanks := TrimRight(text), text[|TrimRight(text)|..];
      BlankMore(blanks);
      TrimmedIs(bare, blanks + "\n");
      assert bare + (blanks + "\n") == text + "\n";
      assert (text + "\n")[|bare|..] == blanks + "\n";
    }
  }
}
