// The create options of a table and the clause that changes them
// (internal/tengo/alterclause.go, ChangeCreateOptions).

module CreateOptions {

  /** The value of Table.CreateOptions as strings.Split(s, " ") cuts it: the pieces
      between the spaces; none of them for the empty string. */
  type Options = seq<string>

  // ----- one option -----

  /** The name of an option: what stands in front of the first '='. */
  function NameOf(piece: string): (name: string)
    ensures |name| <= |piece| && piece[..|name|] == name && '=' !in name
    ensures |name| < |piece| ==> piece[|name|] == '='
  {
    if |piece| == 0 || piece[0] == '=' then "" else [piece[0]] + NameOf(piece[1..])
  }

  /** What stands behind the first '='. */
  function ValueOf(piece: string): string {
    if |NameOf(piece)| < |piece| then piece[|NameOf(piece)| + 1..] else ""
  }

  /** strings.Split(piece, "=") has two parts. */
  predicate Visible(piece: string) {
    |NameOf(piece)| < |piece| && '=' !in ValueOf(piece)
  }

  function Setting(name: string, value: string): string {
    name + "=" + value
  }

  lemma {:induction false} SettingParts(name: string, value: string)
    requires '=' !in name
    ensures NameOf(Setting(name, value)) == name && ValueOf(Setting(name, value)) == value
  {
    var s := Setting(name, value);
    if |name| > 0 {
      assert s[1..] == Setting(name[1..], value);
      SettingParts(name[1..], value);
    }
  }

  lemma VisibleIsSetting(piece: string)
    requires Visible(piece)
    ensures piece == Setting(NameOf(piece), ValueOf(piece))
  {
  }

  // ----- all options -----

  /** splitOpts, for the first `n` pieces: options with no or several '=' are left out. */
  function SplitOpts(o: Options, n: nat): map<string, string>
    requires n <= |o|
  {
    if n == 0 then map[]
    else if Visible(o[n - 1]) then SplitOpts(o, n - 1)[NameOf(o[n - 1]) := ValueOf(o[n - 1])]
    else SplitOpts(o, n - 1)
  }

  /** What the server knows of a table: its options by name. */
  function Settings(o: Options): map<string, string> {
    if |o| == 0 then map[] else Settings(o[..|o| - 1])[NameOf(o[|o| - 1]) := o[|o| - 1]]
  }

  ghost predicate Distinct(o: Options) {
    forall i, j :: 0 <= i < j < |o| ==> NameOf(o[i]) != NameOf(o[j])
  }

  ghost predicate Lists(o: Options, settings: map<string, string>) {
    Distinct(o) && Settings(o) == settings
  }

  /** How the server lists options: in a fixed order, whatever it is. */
  ghost function Listing(settings: map<string, string>): Options {
    if exists o: Options :: Lists(o, settings) then
      var o: Options :| Lists(o, settings);
      o
    else []
  }

  /** The value that makes an option disappear from SHOW CREATE TABLE. */
  function KnownDefault(option: string): string {
    if option in {"MIN_ROWS", "MAX_ROWS", "AVG_ROW_LENGTH", "CHECKSUM", "DELAY_KEY_WRITE", "KEY_BLOCK_SIZE"} then "0"
    else if option == "COMPRESSION" then "''"
    else "DEFAULT"
  }

  /** Options as a server reports them: in its order, without any default. */
  ghost predicate Reported(o: Options) {
    && Distinct(o) && o == Listing(Settings(o))
    && forall i :: 0 <= i < |o| ==> o[i] != Setting(NameOf(o[i]), KnownDefault(NameOf(o[i])))
  }

  // ----- the clause -----

  /** The subclauses of ChangeCreateOptions, as a map: Go emits them in any order. */
  function Changes(oldOpts: map<string, string>, newOpts: map<string, string>): map<string, string> {
    map k | k in oldOpts.Keys + newOpts.Keys && !(k in oldOpts && k in newOpts && oldOpts[k] == newOpts[k]) ::
      if k in newOpts then newOpts[k] else KnownDefault(k)
  }

  function OptionChanges(oldOptions: Options, newOptions: Options): map<string, string> {
    Changes(SplitOpts(oldOptions, |oldOptions|), SplitOpts(newOptions, |newOptions|))
  }

  /** What the server makes of option settings: a default value removes the option. */
  function SetOptions(settings: map<string, string>, changes: map<string, string>): map<string, string> {
    map k | k in settings.Keys + changes.Keys && !(k in changes && changes[k] == KnownDefault(k)) ::
      if k in changes then Setting(k, changes[k]) else settings[k]
  }

  /** The options that running the clause leaves; an empty clause does nothing. */
  ghost function Landed(oldOptions: Options, newOptions: Options): Options {
    var changes := OptionChanges(oldOptions, newOptions);
    if changes == map[] then oldOptions else Listing(SetOptions(Settings(oldOptions), changes))
  }

  datatype Subclause = Subclause(name: string, value: string)

  /** What a list of subclauses sets. */
  function AsMap(subclauses: seq<Subclause>): map<string, string> {
    if |subclauses| == 0 then map[]
    else AsMap(subclauses[..|subclauses| - 1])[subclauses[|subclauses| - 1].name := subclauses[|subclauses| - 1].value]
  }

  lemma AsMapMore(subclauses: seq<Subclause>, s: Subclause)
    ensures AsMap(subclauses + [s]) == AsMap(subclauses)[s.name := s.value]
  {
    assert (subclauses + [s])[..|subclauses|] == subclauses;
  }

  /** The closure splitOpts. */
  method SplitOptions(full: Options) returns (result: map<string, string>)
    ensures result == SplitOpts(full, |full|)
  {
    hide NameOf, ValueOf, Visible;
    result := map[];
    for n := 0 to |full|
      invariant result == SplitOpts(full, n)
    {
      if Visible(full[n]) {
        result := result[NameOf(full[n]) := ValueOf(full[n])];
      }
    }
  }

  /** The changes among the names in `done`, each exactly once. */
  ghost predicate Emitted(subclauses: seq<Subclause>, changes: map<string, string>, done: set<string>) {
    && |subclauses| == |AsMap(subclauses)|
    && AsMap(subclauses) == map k | k in changes && k in done :: changes[k]
  }

  lemma EmitOne(subclauses: seq<Subclause>, changes: map<string, string>, done: set<string>, s: Subclause)
    requires Emitted(subclauses, changes, done) && s.name !in done && s.name in changes && changes[s.name] == s.value
    ensures Emitted(subclauses + [s], changes, done + {s.name})
  {
    AsMapMore(subclauses, s);
    assert AsMap(subclauses + [s]).Keys == AsMap(subclauses).Keys + {s.name};
  }

  lemma EmitNone(subclauses: seq<Subclause>, changes: map<string, string>, done: set<string>, k: string)
    requires Emitted(subclauses, changes, done) && k !in changes
    ensures Emitted(subclauses, changes, done + {k})
  {
  }

  lemma EmittedAll(subclauses: seq<Subclause>, changes: map<string, string>, done: set<string>)
    requires Emitted(subclauses, changes, done) && changes.Keys <= done
    ensures AsMap(subclauses) == changes && |subclauses| == |changes|
  {
  }

  /** ChangeCreateOptions.Clause: each change is emitted exactly once. */
  method Clause(oldOptions: Options, newOptions: Options) returns (subclauses: seq<Subclause>)
    ensures AsMap(subclauses) == OptionChanges(oldOptions, newOptions)
    ensures |subclauses| == |OptionChanges(oldOptions, newOptions)|
  {
    hide Changes, SplitOpts;
    var oldOpts := SplitOptions(oldOptions);
    var newOpts := SplitOptions(newOptions);
    subclauses := ChangedOrGone(oldOpts, newOpts);
    subclauses := Added(oldOpts, newOpts, subclauses);
    assert Changes(oldOpts, newOpts).Keys <= oldOpts.Keys + newOpts.Keys by { ChangeKeys(oldOpts, newOpts); }
    EmittedAll(subclauses, Changes(oldOpts, newOpts), oldOpts.Keys + newOpts.Keys);
  }

  lemma ChangeKeys(oldOpts: map<string, string>, newOpts: map<string, string>)
    ensures Changes(oldOpts, newOpts).Keys <= oldOpts.Keys + newOpts.Keys
  {
  }

  lemma ChangeOf(oldOpts: map<string, string>, newOpts: map<string, string>, k: string)
    ensures k in Changes(oldOpts, newOpts) <==>
            (k in oldOpts && (k !in newOpts || newOpts[k] != oldOpts[k])) || (k !in oldOpts && k in newOpts)
    ensures k in Changes(oldOpts, newOpts) ==>
              Changes(oldOpts, newOpts)[k] == if k in newOpts then newOpts[k] else KnownDefault(k)
  {
  }

  /** The subclause for an old option, if any. */
  function ForOld(oldOpts: map<string, string>, newOpts: map<string, string>, k: string): seq<Subclause>
    requires k in oldOpts
  {
    if k !in newOpts then [Subclause(k, KnownDefault(k))]
    else if newOpts[k] != oldOpts[k] then [Subclause(k, newOpts[k])]
    else []
  }

  lemma EmitOld(oldOpts: map<string, string>, newOpts: map<string, string>, subclauses: seq<Subclause>,
      done: set<string>, k: string)
    requires Emitted(subclauses, Changes(oldOpts, newOpts), done) && k in oldOpts && k !in done
    ensures Emitted(subclauses + ForOld(oldOpts, newOpts, k), Changes(oldOpts, newOpts), done + {k})
  {
    hide Emitted, Changes, KnownDefault;
    ChangeOf(oldOpts, newOpts, k);
    if |ForOld(oldOpts, newOpts, k)| == 0 {
      assert subclauses + [] == subclauses;
      EmitNone(subclauses, Changes(oldOpts, newOpts), done, k);
    } else {
      EmitOne(subclauses, Changes(oldOpts, newOpts), done, ForOld(oldOpts, newOpts, k)[0]);
    }
  }

  /** All old options were looked at, and all new ones but `todo`. */
  ghost predicate AddedBut(subclauses: seq<Subclause>, oldOpts: map<string, string>, newOpts: map<string, string>,
      todo: set<string>) {
    Emitted(subclauses, Changes(oldOpts, newOpts), oldOpts.Keys + (newOpts.Keys - todo))
  }

  lemma EmitNew(subclauses: seq<Subclause>, oldOpts: map<string, string>, newOpts: map<string, string>,
      todo: set<string>, k: string)
    requires AddedBut(subclauses, oldOpts, newOpts, todo) && k in newOpts && k in todo
    ensures AddedBut(if k in oldOpts then subclauses else subclauses + [Subclause(k, newOpts[k])], oldOpts, newOpts,
            todo - {k})
  {
    hide Emitted, Changes;
    ChangeOf(oldOpts, newOpts, k);
    var done := oldOpts.Keys + (newOpts.Keys - todo);
    assert oldOpts.Keys + (newOpts.Keys - (todo - {k})) == done + {k};
    if k in oldOpts {
      assert done + {k} == done;
    } else {
      EmitOne(subclauses, Changes(oldOpts, newOpts), done, Subclause(k, newOpts[k]));
    }
  }

  lemma AddedStart(subclauses: seq<Subclause>, oldOpts: map<string, string>, newOpts: map<string, string>)
    ensures AddedBut(subclauses, oldOpts, newOpts, newOpts.Keys) <==>
            Emitted(subclauses, Changes(oldOpts, newOpts), oldOpts.Keys)
    ensures AddedBut(subclauses, oldOpts, newOpts, {}) <==>
            Emitted(subclauses, Changes(oldOpts, newOpts), oldOpts.Keys + newOpts.Keys)
  {
    hide Emitted, Changes;
    assert oldOpts.Keys + (newOpts.Keys - newOpts.Keys) == oldOpts.Keys;
    assert newOpts.Keys - {} == newOpts.Keys;
  }

  /** The loop over the old options. */
  method ChangedOrGone(oldOpts: map<string, string>, newOpts: map<string, string>) returns (subclauses: seq<Subclause>)
    ensures Emitted(subclauses, Changes(oldOpts, newOpts), oldOpts.Keys)
  {
    hide Emitted, Changes, KnownDefault, ForOld;
    subclauses := [];
    var todo := oldOpts.Keys;
    ghost var done: set<string> := {};
    NothingEmitted(Changes(oldOpts, newOpts));
    while todo != {}
      invariant todo !! done && todo + done == oldOpts.Keys && Emitted(subclauses, Changes(oldOpts, newOpts), done)
      decreases |todo|
    {
      var k :| k in todo;
      EmitOld(oldOpts, newOpts, subclauses, done, k);
      subclauses := subclauses + ForOld(oldOpts, newOpts, k);
      todo, done := todo - {k}, done + {k};
    }
  }

  /** The loop over the new options. */
  method Added(oldOpts: map<string, string>, newOpts: map<string, string>, before: seq<Subclause>)
    returns (subclauses: seq<Subclause>)
    requires Emitted(before, Changes(oldOpts, newOpts), oldOpts.Keys)
    ensures Emitted(subclauses, Changes(oldOpts, newOpts), oldOpts.Keys + newOpts.Keys)
  {
    hide Emitted, Changes, KnownDefault, AddedBut;
    subclauses := before;
    var todo := newOpts.Keys;
    AddedStart(subclauses, oldOpts, newOpts);
    while todo != {}
      invariant todo <= newOpts.Keys && AddedBut(subclauses, oldOpts, newOpts, todo)
      decreases |todo|
    {
      var k :| k in todo;
      EmitNew(subclauses, oldOpts, newOpts, todo, k);
      if k !in oldOpts {
        subclauses := subclauses + [Subclause(k, newOpts[k])];
      }
      todo := todo - {k};
    }
    AddedStart(subclauses, oldOpts, newOpts);
  }

  lemma NothingEmitted(changes: map<string, string>)
    ensures Emitted([], changes, {})
  {
    assert AsMap([]) == map[];
  }

  // ----- what splitOpts sees -----

  /** The options that splitOpts leaves out. */
  function Hidden(o: Options): map<string, string> {
    var s := Settings(o);
    map k | k in s && !Visible(s[k]) :: s[k]
  }

  lemma {:induction false} SettingsNamed(o: Options)
    ensures forall k :: k in Settings(o) ==> NameOf(Settings(o)[k]) == k
  {
    if |o| > 0 {
      hide NameOf;
      SettingsNamed(o[..|o| - 1]);
    }
  }

  lemma {:induction false} SettingOf(o: Options, k: string) returns (i: nat)
    requires k in Settings(o)
    ensures i < |o| && o[i] == Settings(o)[k] && NameOf(o[i]) == k
  {
    hide NameOf;
    if k == NameOf(o[|o| - 1]) {
      return |o| - 1;
    }
    i := SettingOf(o[..|o| - 1], k);
  }

  lemma FreshName(o: Options, piece: string)
    requires forall i :: 0 <= i < |o| ==> NameOf(o[i]) != NameOf(piece)
    ensures NameOf(piece) !in Settings(o)
  {
    if NameOf(piece) in Settings(o) {
      var i := SettingOf(o, NameOf(piece));
    }
  }

  /** splitOpts sees exactly the options with a single '='. */
  lemma {:induction false} SplitOptsSees(o: Options, n: nat)
    requires Distinct(o) && n <= |o|
    ensures var s := Settings(o[..n]);
            && (forall k :: k in SplitOpts(o, n) <==> k in s && Visible(s[k]))
            && (forall k :: k in SplitOpts(o, n) ==> SplitOpts(o, n)[k] == ValueOf(s[k]))
  {
    if n > 0 {
      hide NameOf, ValueOf, Visible;
      SplitOptsSees(o, n - 1);
      assert o[..n][..n - 1] == o[..n - 1];
      FreshName(o[..n - 1], o[n - 1]);
    }
  }

  lemma Seen(o: Options)
    requires Distinct(o)
    ensures var s, v := Settings(o), SplitOpts(o, |o|);
            && (forall k :: k in v <==> k in s && k !in Hidden(o))
            && (forall k :: k in v ==> s[k] == Setting(k, v[k]))
  {
    SplitOptsSees(o, |o|);
    assert o[..|o|] == o;
    SettingsNamed(o);
    forall k | k in SplitOpts(o, |o|) ensures Settings(o)[k] == Setting(k, SplitOpts(o, |o|)[k]) {
      VisibleIsSetting(Settings(o)[k]);
    }
  }

  lemma {:induction false} NameSet(o: Options, i: nat)
    requires i < |o|
    ensures NameOf(o[i]) in Settings(o)
  {
    if i < |o| - 1 {
      NameSet(o[..|o| - 1], i);
    }
  }

  /** Any set of named options can be listed. */
  lemma {:induction false} ListingExists(settings: map<string, string>)
    requires forall k :: k in settings ==> NameOf(settings[k]) == k
    ensures Lists(Listing(settings), settings)
    decreases |settings|
  {
    hide NameOf, Lists;
    if settings == map[] {
      NothingListed();
    } else {
      var k :| k in settings;
      var fewer := settings - {k};
      ListingExists(fewer);
      OneMoreListed(Listing(fewer), fewer, settings[k]);
      assert fewer[k := settings[k]] == settings;
      assert Lists(Listing(fewer) + [settings[k]], settings);
    }
  }

  lemma NothingListed()
    ensures Lists([], map[])
  {
  }

  lemma OneMoreListed(o: Options, settings: map<string, string>, piece: string)
    requires Lists(o, settings) && NameOf(piece) !in settings
    ensures Lists(o + [piece], settings[NameOf(piece) := piece])
  {
    hide NameOf, Distinct;
    assert (o + [piece])[..|o|] == o;
    DistinctMore(o, piece);
  }

  lemma DistinctMore(o: Options, piece: string)
    requires Distinct(o) && NameOf(piece) !in Settings(o)
    ensures Distinct(o + [piece])
  {
    hide NameOf, Settings;
    forall i | 0 <= i < |o| ensures NameOf(o[i]) != NameOf(piece) {
      NameSet(o, i);
    }
  }

  // ----- what the clause achieves -----

  lemma {:induction false} ReportedValue(o: Options, k: string)
    requires Reported(o) && k in SplitOpts(o, |o|)
    ensures SplitOpts(o, |o|)[k] != KnownDefault(k)
  {
    Seen(o);
    var i := SettingOf(o, k);
  }

  /** What a list of new settings and the changes towards it amount to; `os` are the old settings. */
  lemma SetChanges(os: map<string, string>, oldOpts: map<string, string>, newOpts: map<string, string>)
    requires oldOpts.Keys <= os.Keys && forall k :: k in newOpts ==> newOpts[k] != KnownDefault(k)
    requires forall k :: k in oldOpts ==> os[k] == Setting(k, oldOpts[k])
    ensures var r := SetOptions(os, Changes(oldOpts, newOpts));
            && (forall k :: k in r <==> k in newOpts || (k in os && k !in oldOpts))
            && (forall k :: k in newOpts ==> r[k] == Setting(k, newOpts[k]))
            && (forall k :: k in r && k !in newOpts ==> r[k] == os[k])
  {
    hide KnownDefault, Setting;
  }

  /** What is set after a clause that is not empty. */
  lemma AfterChanges(oldOptions: Options, newOptions: Options)
    requires Reported(oldOptions) && Reported(newOptions)
    ensures var r := SetOptions(Settings(oldOptions), OptionChanges(oldOptions, newOptions));
            && Lists(Listing(r), r)
            && (forall k :: k in r <==> k in SplitOpts(newOptions, |newOptions|) || k in Hidden(oldOptions))
            && (forall k :: k in SplitOpts(newOptions, |newOptions|) ==>
                              k in r && k in Settings(newOptions) && r[k] == Settings(newOptions)[k])
            && (forall k :: k in r && k !in SplitOpts(newOptions, |newOptions|) ==>
                              k in Hidden(oldOptions) && r[k] == Hidden(oldOptions)[k])
  {
    hide NameOf, ValueOf, Visible, KnownDefault, Setting, Listing, Settings, SplitOpts, Hidden, SetOptions, Changes,
         Lists, Reported;
    var os, nv := Settings(oldOptions), SplitOpts(newOptions, |newOptions|);
    var r := SetOptions(os, OptionChanges(oldOptions, newOptions));
    ReportedDistinct(oldOptions);
    ReportedDistinct(newOptions);
    Seen(oldOptions);
    Seen(newOptions);
    SettingsNamed(oldOptions);
    SettingsNamed(newOptions);
    HiddenSome(oldOptions);
    forall k | k in nv ensures nv[k] != KnownDefault(k) {
      ReportedValue(newOptions, k);
    }
    SetChanges(os, SplitOpts(oldOptions, |oldOptions|), nv);
    ListingExists(r);
  }

  lemma ReportedDistinct(o: Options)
    requires Reported(o)
    ensures Distinct(o) && o == Listing(Settings(o))
  {
  }

  lemma HiddenSome(o: Options)
    ensures forall k :: k in Hidden(o) ==> k in Settings(o) && Hidden(o)[k] == Settings(o)[k]
  {
  }

  /** The options that the clause cannot touch are the same, or are replaced by ones that it can set. */
  predicate HiddenAgree(oldOptions: Options, newOptions: Options) {
    && (forall k :: k in Hidden(newOptions) ==>
        k in Hidden(oldOptions) && Hidden(oldOptions)[k] == Hidden(newOptions)[k])
    && (forall k :: k in Hidden(oldOptions) ==> k in Settings(newOptions))
  }

  /** ChangeCreateOptions reaches the target if and only if the options with no or
      several '=' need not be changed. */
  lemma OptionsConverge(oldOptions: Options, newOptions: Options)
    requires Reported(oldOptions) && Reported(newOptions)
    ensures Landed(oldOptions, newOptions) == newOptions <==> HiddenAgree(oldOptions, newOptions)
  {
    hide NameOf, ValueOf, Visible, KnownDefault, Setting, Listing, Settings, SplitOpts, Hidden, SetOptions;
    var os, ns := Settings(oldOptions), Settings(newOptions);
    var nv := SplitOpts(newOptions, |newOptions|);
    var changes := OptionChanges(oldOptions, newOptions);
    var r := SetOptions(os, changes);
    Seen(oldOptions);
    Seen(newOptions);
    HiddenSome(oldOptions);
    HiddenSome(newOptions);
    AfterChanges(oldOptions, newOptions);
    if changes == map[] {
      SetNothing(os);
    }
    assert Landed(oldOptions, newOptions) == Listing(r);
    if HiddenAgree(oldOptions, newOptions) {
      assert r == ns;
    }
    if Listing(r) == newOptions {
      assert r == ns;
    }
  }

  lemma SetNothing(settings: map<string, string>)
    ensures SetOptions(settings, map[]) == settings
  {
    assert SetOptions(settings, map[]).Keys == settings.Keys;
  }

  /** The clause is empty exactly when splitOpts sees no difference. */
  lemma EmptyIff(oldOptions: Options, newOptions: Options)
    ensures OptionChanges(oldOptions, newOptions) == map[]
            <==> SplitOpts(oldOptions, |oldOptions|) == SplitOpts(newOptions, |newOptions|)
  {
    hide SplitOpts;
    var o, n := SplitOpts(oldOptions, |oldOptions|), SplitOpts(newOptions, |newOptions|);
    var changes := Changes(o, n);
    if changes == map[] {
      forall k ensures k in o <==> k in n {
        assert k !in changes;
      }
      forall k | k in o ensures o[k] == n[k] {
        assert k !in changes;
      }
    }
  }

  /** Whether or not the target is reached, a second clause is empty. */
  lemma SecondIsEmpty(oldOptions: Options, newOptions: Options)
    requires Reported(oldOptions) && Reported(newOptions)
    ensures OptionChanges(Landed(oldOptions, newOptions), newOptions) == map[]
  {
    hide NameOf, ValueOf, Visible, KnownDefault, Setting, Listing, Settings, SplitOpts, Hidden, SetOptions,
         OptionChanges;
    var landed := Landed(oldOptions, newOptions);
    if OptionChanges(oldOptions, newOptions) != map[] {
      AfterChanges(oldOptions, newOptions);
      Seen(landed);
      Seen(newOptions);
      SeenSame(oldOptions, newOptions, landed);
      EmptyIff(landed, newOptions);
    }
  }

  lemma SeenSame(oldOptions: Options, newOptions: Options, landed: Options)
    requires Reported(oldOptions) && Reported(newOptions) && Distinct(landed)
    requires Settings(landed) == SetOptions(Settings(oldOptions), OptionChanges(oldOptions, newOptions))
    ensures SplitOpts(landed, |landed|) == SplitOpts(newOptions, |newOptions|)
  {
    hide SplitOpts, SetOptions, OptionChanges, Settings, Reported, Distinct;
    var v, nv := SplitOpts(landed, |landed|), SplitOpts(newOptions, |newOptions|);
    forall k ensures k in v <==> k in nv
      ensures k in v && k in nv ==> v[k] == nv[k]
    {
      SeenSameAt(oldOptions, newOptions, landed, k);
    }
  }

  lemma SeenSameAt(oldOptions: Options, newOptions: Options, landed: Options, k: string)
    requires Reported(oldOptions) && Reported(newOptions) && Distinct(landed)
    requires Settings(landed) == SetOptions(Settings(oldOptions), OptionChanges(oldOptions, newOptions))
    ensures var v, nv := SplitOpts(landed, |landed|), SplitOpts(newOptions, |newOptions|);
            (k in v <==> k in nv) && (k in v && k in nv ==> v[k] == nv[k])
  {
    hide NameOf, ValueOf, Visible, KnownDefault, Listing, SplitOpts, SetOptions, OptionChanges, Settings, Reported,
         Setting, Hidden, Distinct;
    ReportedDistinct(newOptions);
    ReportedDistinct(oldOptions);
    AfterChangesAt(oldOptions, newOptions, k);
    SeenAt(landed, k);
    SeenAt(newOptions, k);
    HiddenIff(landed, k);
    HiddenIff(newOptions, k);
    HiddenIff(oldOptions, k);
    var v, nv := SplitOpts(landed, |landed|), SplitOpts(newOptions, |newOptions|);
    if k in v && k in nv {
      SameSetting(k, v[k], nv[k]);
    }
  }

  lemma SeenAt(o: Options, k: string)
    requires Distinct(o)
    ensures var s, v := Settings(o), SplitOpts(o, |o|);
            (k in v <==> k in s && k !in Hidden(o)) && (k in v ==> s[k] == Setting(k, v[k]))
  {
    hide NameOf, ValueOf, Visible, SplitOpts, Settings, Setting, Hidden, Distinct;
    Seen(o);
  }

  lemma AfterChangesAt(oldOptions: Options, newOptions: Options, k: string)
    requires Reported(oldOptions) && Reported(newOptions)
    ensures var r := SetOptions(Settings(oldOptions), OptionChanges(oldOptions, newOptions));
            var nv := SplitOpts(newOptions, |newOptions|);
            && (k in r <==> k in nv || k in Hidden(oldOptions))
            && (k in nv ==> k in r && k in Settings(newOptions) && r[k] == Settings(newOptions)[k])
            && (k in r && k !in nv ==> k in Hidden(oldOptions) && r[k] == Hidden(oldOptions)[k])
  {
    hide NameOf, ValueOf, Visible, KnownDefault, Listing, SplitOpts, SetOptions, OptionChanges, Settings, Reported,
         Setting, Hidden, Distinct;
    AfterChanges(oldOptions, newOptions);
  }

  lemma HiddenIff(o: Options, k: string)
    ensures k in Hidden(o) <==> k in Settings(o) && !Visible(Settings(o)[k])
    ensures k in Hidden(o) ==> Hidden(o)[k] == Settings(o)[k]
  {
  }

  lemma SameSetting(k: string, a: string, b: string)
    requires Setting(k, a) == Setting(k, b)
    ensures a == b
  {
    assert Setting(k, a)[|k| + 1..] == a && Setting(k, b)[|k| + 1..] == b;
  }

  /** An option whose value contains a '=', as engine-defined options of MariaDB may,
      is never set: the clause is empty. A server does report it. */
  lemma ValueWithEqualsIsNeverSet()
    ensures var o, n: Options := [], ["`x`='a=b'"];
            && Reported(o) && Reported(n) && Settings(o) != Settings(n)
            && OptionChanges(o, n) == map[] && Landed(o, n) == o && !HiddenAgree(o, n)
  {
    var n: Options := ["`x`='a=b'"];
    hide NameOf, ValueOf, Visible, Listing, Reported;
    NotVisible();
    OneHidden(n[0]);
    NothingReported();
    NotDefault();
    OneReported(n[0]);
    assert [n[0]] == n;
    EmptyIff([], n);
    assert Hidden([]) == map[];
  }

  lemma SomeSettings(o: Options)
    ensures |o| > 0 ==> Settings(o) != map[]
    ensures |o| > 1 && Distinct(o) ==> NameOf(o[0]) != NameOf(o[1])
  {
    if |o| > 0 {
      assert NameOf(o[|o| - 1]) in Settings(o);
    }
  }

  lemma NothingReported()
    ensures Reported([])
  {
    ListingExists(map[]);
    SomeSettings(Listing(map[]));
  }

  /** A server that knows a single option lists just that. */
  lemma OneReported(p: string)
    requires p != Setting(NameOf(p), KnownDefault(NameOf(p)))
    ensures Reported([p])
  {
    hide NameOf, Listing, KnownDefault, Setting, Settings;
    var settings := map[NameOf(p) := p];
    OneSetting(p);
    ListingExists(settings);
    var o := Listing(settings);
    forall i | 0 <= i < |o| ensures NameOf(o[i]) == NameOf(p) {
      NameSet(o, i);
    }
    SomeSettings(o);
    assert NameOf(p) in settings;
    assert Settings(o) == settings;
    NoSettings();
    assert o == [] ==> settings == map[];
    assert o == [o[0]];
    OneSetting(o[0]);
    assert map[NameOf(p) := o[0]][NameOf(p)] == p;
  }

  lemma NoSettings()
    ensures Settings([]) == map[]
  {
  }

  lemma OneSetting(p: string)
    ensures Settings([p]) == map[NameOf(p) := p]
  {
    hide NameOf;
    assert [p][..0] == [];
  }

  lemma NotDefault()
    ensures "`x`='a=b'" != Setting(NameOf("`x`='a=b'"), KnownDefault(NameOf("`x`='a=b'")))
  {
    hide NameOf;
    assert "`x`='a=b'" == Setting("`x`", "'a=b'");
    SettingParts("`x`", "'a=b'");
    assert "`x`=DEFAULT"[4] == 'D' && "`x`='a=b'"[4] == '\'';
  }

  lemma NotVisible()
    ensures !Visible("`x`='a=b'")
  {
    assert "`x`='a=b'" == Setting("`x`", "'a=b'");
    SettingParts("`x`", "'a=b'");
    assert "'a=b'"[2] == '=';
  }

  /** An option that splitOpts leaves out, on its own. */
  lemma OneHidden(p: string)
    requires !Visible(p)
    ensures Settings([p]) == map[NameOf(p) := p] && SplitOpts([p], 1) == map[] && NameOf(p) in Hidden([p])
    ensures SplitOpts([], 0) == map[] && Settings([]) == map[]
  {
    hide NameOf, ValueOf, Visible;
    assert [p][..0] == [];
  }
}
