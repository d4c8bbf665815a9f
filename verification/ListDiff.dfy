// Reordering a list by dropping and re-adding elements: the common part of how
// Table.Diff handles secondary indexes and check constraints
// (internal/tengo/table.go).

module ListDiff {
  import opened Wrappers
  import opened NamedLists

  /** What holds of a list after the first `n` elements of the target were handled.
      Once `reorder` is set, every later element is dropped and re-added, provided
      that order matters (`strict`). */
  ghost predicate Progress<T(!new)>(strict: bool, reorder: bool, from: seq<Named<T>>, to: seq<Named<T>>, n: nat,
      l: seq<Named<T>>)
    requires n <= |to|
  {
    && Unique(l)
    && Names(l) == Names(to[..n]) + Names(from) * Names(to)
    && (forall i :: 0 <= i < n ==> Has(l, to[i].name) && Get(l, to[i].name) == to[i])
    && (forall i :: n <= i < |to| && Has(from, to[i].name) ==>
        Has(l, to[i].name) && Get(l, to[i].name) == Get(from, to[i].name))
    && (strict ==> Only(l, Names(to[..n])) == to[..n])
    && (strict && !reorder ==> n <= |Only(from, Names(to))| && l == to[..n] + Only(from, Names(to))[n..])
  }

  /** If the first elements of the target all existed before, then so does one at position `n` of the survivors:
      the loops over indexes and checks, which read that list until something is reordered, stay in range. */
  lemma StillInRange<T>(from: seq<Named<T>>, to: seq<Named<T>>, n: nat)
    requires Unique(from) && Unique(to) && n < |to|
    requires forall i :: 0 <= i <= n ==> Has(from, to[i].name)
    ensures n < |Only(from, Names(to))|
  {
    hide Unique, Only, Names, IndexOf;
    var still, mine := Only(from, Names(to)), to[..n + 1];
    OnlyNames(from, Names(to));
    assert to == mine + to[n + 1..];
    Concat(mine, to[n + 1..]);
    NameCount(mine);
    NameCount(still);
    forall m | m in Names(mine) ensures m in Names(from) {
      assert mine[IndexOf(mine, m)].name == m;
    }
    SubsetSize(Names(mine), Names(still));
  }

  lemma TakeName<T>(to: seq<Named<T>>, n: nat)
    requires Unique(to) && n < |to|
    ensures to[..n + 1] == to[..n] + [to[n]]
    ensures Names(to[..n + 1]) == Names(to[..n]) + {to[n].name}
    ensures to[n].name !in Names(to[..n]) && Names(to[..n + 1]) <= Names(to)
    ensures forall i :: 0 <= i < |to| && i != n ==> to[i].name != to[n].name
  {
    hide Unique, Names, IndexOf;
    assert to == to[..n] + [to[n]] + to[n + 1..];
    Around(to[..n], to[n], to[n + 1..]);
    Concat(to[..n], [to[n]]);
    One(to[n], {});
    forall i | 0 <= i < |to| && i != n ensures to[i].name != to[n].name {
      NameAt(to, i);
      NameAt(to, n);
    }
  }

  /** A new element is appended. */
  lemma AddProgress<T(!new)>(strict: bool, reorder: bool, from: seq<Named<T>>, to: seq<Named<T>>, n: nat,
      l: seq<Named<T>>)
    requires Unique(from) && Unique(to) && n < |to| && Progress(strict, reorder, from, to, n, l)
    requires !Has(from, to[n].name)
    ensures !Has(l, to[n].name) && Progress(strict, true, from, to, n + 1, l + [to[n]])
  {
    hide Unique, Names, Only, IndexOf, Get;
    TakeName(to, n);
    Appended(l, to[n], Names(to[..n]));
    assert forall i :: 0 <= i < |to| && Has(l, to[i].name) ==> Get(l + [to[n]], to[i].name) == Get(l, to[i].name);
  }

  /** An element is dropped and re-added at the end. */
  lemma ReAddProgress<T(!new)>(strict: bool, reorder: bool, from: seq<Named<T>>, to: seq<Named<T>>, n: nat,
      l: seq<Named<T>>)
    requires Unique(from) && Unique(to) && n < |to| && Progress(strict, reorder, from, to, n, l)
    requires Has(from, to[n].name)
    ensures Has(l, to[n].name) && !Has(Without(l, to[n].name), to[n].name)
    ensures Progress(strict, true, from, to, n + 1, Without(l, to[n].name) + [to[n]])
  {
    hide Unique, Names, Only, IndexOf, Get, Without;
    var t := to[n];
    TakeName(to, n);
    NameAt(to, n);
    Removed(l, t.name, Names(to[..n]));
    var rest := Without(l, t.name);
    Appended(rest, t, Names(to[..n]));
    forall i | 0 <= i < |to| && i != n && Has(l, to[i].name)
      ensures Has(rest + [t], to[i].name) && Get(rest + [t], to[i].name) == Get(l, to[i].name) {
      assert to[i].name in Names(rest);
    }
  }

  lemma SelectedInPlace<T>(to: seq<Named<T>>, u: seq<Named<T>>, t: Named<T>, v: seq<Named<T>>)
    requires Unique(to + u + [t] + v)
    ensures Only(to + u + [t] + v, Names(to) + {t.name}) == to + [t]
  {
    hide Unique, Names, Only;
    var keep := Names(to) + {t.name};
    Around(to + u, t, v);
    Concat(to + u, v);
    Concat(to, u);
    OnlyConcat(to + u + [t], v, keep);
    OnlyConcat(to + u, [t], keep);
    OnlyConcat(to, u, keep);
    One(t, keep);
    OnlyAll(to, keep);
    OnlyNone(u, keep);
    OnlyNone(v, keep);
    assert to + [] + [t] + [] == to + [t];
  }

  /** An element stays where it is and takes its new definition. */
  lemma StayProgress<T(!new)>(strict: bool, reorder: bool, after: bool, from: seq<Named<T>>, to: seq<Named<T>>, n: nat,
      l: seq<Named<T>>)
    requires Unique(from) && Unique(to) && n < |to| && Progress(strict, reorder, from, to, n, l)
    requires Has(from, to[n].name)
    requires strict ==>
             !reorder && n < |Only(from, Names(to))| && (after || Only(from, Names(to))[n].name == to[n].name)
    ensures Has(l, to[n].name) && Progress(strict, after, from, to, n + 1, Replace(l, to[n]))
  {
    hide Unique, Names, Only, IndexOf, Get, Replace;
    var t := to[n];
    TakeName(to, n);
    NameAt(to, n);
    Replaced(l, t);
    forall i | 0 <= i < |to| && i != n && Has(l, to[i].name)
      ensures Has(Replace(l, t), to[i].name) && Get(Replace(l, t), to[i].name) == Get(l, to[i].name) {
    }
    if strict {
      StayInOrder(from, to, n, l);
    }
  }

  lemma StayInOrder<T>(from: seq<Named<T>>, to: seq<Named<T>>, n: nat, l: seq<Named<T>>)
    requires Unique(from) && Unique(to) && n < |to| && Unique(l)
    requires Has(from, to[n].name) && Has(l, to[n].name)
    requires var still := Only(from, Names(to)); n < |still| && l == to[..n] + still[n..]
    ensures var still := Only(from, Names(to));
            && Only(Replace(l, to[n]), Names(to[..n + 1])) == to[..n + 1]
            && (still[n].name == to[n].name ==> Replace(l, to[n]) == to[..n + 1] + still[n + 1..])
  {
    hide Unique, Names, Only;
    var t, rest, i := to[n], Only(from, Names(to))[n..], IndexOf(l, to[n].name);
    TakeName(to, n);
    Replaced(l, t);
    var u, v := rest[..i - n], rest[i - n + 1..];
    assert Replace(l, t) == to[..n] + u + [t] + v;
    SelectedInPlace(to[..n], u, t, v);
    if rest[0].name == t.name {
      NameAt(l, n);
      assert l[n] == rest[0];
      assert i == n && u == [];
      assert to[..n] + [] + [t] + v == to[..n + 1] + v;
      assert v == Only(from, Names(to))[n + 1..];
    }
  }

  lemma SelectedLookup<T>(from: seq<Named<T>>, to: seq<Named<T>>, i: nat)
    requires i < |to| && Has(from, to[i].name)
    ensures var still := Only(from, Names(to));
            Has(still, to[i].name) && Get(still, to[i].name) == Get(from, to[i].name)
  {
    NameAt(to, i);
    OnlyGet(from, Names(to), to[i].name);
  }

  lemma StartProgress<T(!new)>(strict: bool, reorder: bool, from: seq<Named<T>>, to: seq<Named<T>>)
    requires Unique(from) && Unique(to)
    ensures Progress(strict, reorder, from, to, 0, Only(from, Names(to)))
  {
    hide Unique, Names, Only, Get, Has;
    var still := Only(from, Names(to));
    StartNames(from, to);
    assert to[..0] == [] && [] + still[0..] == still;
    forall i | 0 <= i < |to| && Has(from, to[i].name)
      ensures Has(still, to[i].name) && Get(still, to[i].name) == Get(from, to[i].name)
    {
      SelectedLookup(from, to, i);
    }
  }

  lemma StartNames<T>(from: seq<Named<T>>, to: seq<Named<T>>)
    requires Unique(from)
    ensures var still := Only(from, Names(to));
            Unique(still) && Names(still) == Names(to[..0]) + Names(from) * Names(to)
                && Only(still, Names(to[..0])) == []
  {
    hide Unique, Only;
    OnlyNames(from, Names(to));
    assert Names(to[..0]) == {};
    OnlyNone(Only(from, Names(to)), {});
  }

  lemma Finished<T(!new)>(strict: bool, reorder: bool, from: seq<Named<T>>, to: seq<Named<T>>, l: seq<Named<T>>)
    requires Unique(to) && Progress(strict, reorder, from, to, |to|, l)
    ensures SameElements(l, to) && (strict ==> l == to)
  {
    hide Unique, Names, Only;
    assert to[..|to|] == to;
    assert Names(l) == Names(to);
    forall m | m in Names(to) ensures Get(l, m) == Get(to, m) {
      assert to[IndexOf(to, m)].name == m;
    }
    if strict {
      OnlyAll(l, Names(to));
    }
  }

  lemma ReplaceSelf<T>(l: seq<Named<T>>, n: string)
    requires Has(l, n)
    ensures Replace(l, Get(l, n)) == l
  {
  }
}
