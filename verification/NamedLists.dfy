// Ordered lists of uniquely named table elements: columns, indexes, checks and
// foreign keys are all of this kind (internal/tengo/table.go).

module NamedLists {

  datatype Named<+T> = Named(name: string, def: T)

  function Names<T>(s: seq<Named<T>>): set<string> {
    if |s| == 0 then {} else {s[0].name} + Names(s[1..])
  }

  function NameSeq<T>(s: seq<Named<T>>): (r: seq<string>)
    ensures |r| == |s| && forall i :: 0 <= i < |s| ==> r[i] == s[i].name
  {
    seq(|s|, i requires 0 <= i < |s| => s[i].name)
  }

  ghost predicate Unique<T>(s: seq<Named<T>>) {
    |s| > 0 ==> s[0].name !in Names(s[1..]) && Unique(s[1..])
  }

  predicate Has<T>(s: seq<Named<T>>, n: string) {
    n in Names(s)
  }

  function IndexOf<T>(s: seq<Named<T>>, n: string): (i: nat)
    requires Has(s, n)
    ensures i < |s| && s[i].name == n
  {
    if s[0].name == n then 0 else 1 + IndexOf(s[1..], n)
  }

  /** The element called `n`: what Go's by-name maps return. */
  function Get<T>(s: seq<Named<T>>, n: string): (c: Named<T>)
    requires Has(s, n)
    ensures c.name == n
  {
    s[IndexOf(s, n)]
  }

  function Without<T>(s: seq<Named<T>>, n: string): seq<Named<T>>
    requires Has(s, n)
  {
    s[..IndexOf(s, n)] + s[IndexOf(s, n) + 1..]
  }

  function Replace<T>(s: seq<Named<T>>, c: Named<T>): seq<Named<T>>
    requires Has(s, c.name)
  {
    s[..IndexOf(s, c.name)] + [c] + s[IndexOf(s, c.name) + 1..]
  }

  function InsertAfter<T>(s: seq<Named<T>>, n: string, c: Named<T>): seq<Named<T>>
    requires Has(s, n)
  {
    s[..IndexOf(s, n) + 1] + [c] + s[IndexOf(s, n) + 1..]
  }

  /** The elements whose name is in `keep`, in order. */
  function Only<T>(s: seq<Named<T>>, keep: set<string>): seq<Named<T>> {
    if |s| == 0 then []
    else if s[0].name in keep then [s[0]] + Only(s[1..], keep)
    else Only(s[1..], keep)
  }

  lemma {:induction false} Concat<T>(a: seq<Named<T>>, b: seq<Named<T>>)
    ensures Names(a + b) == Names(a) + Names(b)
    ensures Unique(a + b) <==> Unique(a) && Unique(b) && Names(a) !! Names(b)
  {
    if |a| == 0 {
      assert a + b == b;
    } else {
      assert (a + b)[1..] == a[1..] + b;
      Concat(a[1..], b);
    }
  }

  lemma One<T>(c: Named<T>, keep: set<string>)
    ensures Names([c]) == {c.name} && Unique([c])
    ensures Only([c], keep) == if c.name in keep then [c] else []
    ensures Names<T>([]) == {} && Only<T>([], keep) == []
  {
  }

  lemma Nothing<T>(s: seq<Named<T>>, i: nat, keep: set<string>)
    requires i <= |s|
    ensures Names(s[i..i]) == {} && Only(s[i..i], keep) == [] && Only(s[..0], keep) == []
  {
  }

  lemma {:induction false} OnlyConcat<T>(a: seq<Named<T>>, b: seq<Named<T>>, keep: set<string>)
    ensures Only(a + b, keep) == Only(a, keep) + Only(b, keep)
  {
    if |a| == 0 {
      assert a + b == b;
    } else {
      assert (a + b)[1..] == a[1..] + b;
      OnlyConcat(a[1..], b, keep);
      assert [a[0]] + (Only(a[1..], keep) + Only(b, keep)) == ([a[0]] + Only(a[1..], keep)) + Only(b, keep);
    }
  }

  lemma {:induction false} NameAt<T>(s: seq<Named<T>>, i: nat)
    requires i < |s|
    ensures s[i].name in Names(s)
    ensures Unique(s) ==> IndexOf(s, s[i].name) == i
  {
    if i > 0 {
      NameAt(s[1..], i - 1);
    }
  }

  lemma {:induction false} OnlyNames<T>(s: seq<Named<T>>, keep: set<string>)
    ensures Names(Only(s, keep)) == Names(s) * keep
    ensures Unique(s) ==> Unique(Only(s, keep))
    ensures |Only(s, keep)| <= |s|
  {
    if |s| > 0 {
      OnlyNames(s[1..], keep);
      if s[0].name in keep {
        assert Only(s, keep)[1..] == Only(s[1..], keep);
      }
    }
  }

  lemma {:induction false} OnlyGet<T>(s: seq<Named<T>>, keep: set<string>, n: string)
    requires Has(s, n) && n in keep
    ensures Has(Only(s, keep), n) && Get(Only(s, keep), n) == Get(s, n)
  {
    OnlyNames(s, keep);
    if s[0].name in keep {
      assert Only(s, keep)[1..] == Only(s[1..], keep);
    }
    if s[0].name != n {
      OnlyGet(s[1..], keep, n);
    }
  }

  lemma {:induction false} OnlyAll<T>(s: seq<Named<T>>, keep: set<string>)
    requires Names(s) <= keep
    ensures Only(s, keep) == s
  {
    if |s| > 0 {
      OnlyAll(s[1..], keep);
    }
  }

  lemma {:induction false} OnlyNone<T>(s: seq<Named<T>>, keep: set<string>)
    requires Names(s) !! keep
    ensures Only(s, keep) == []
  {
    if |s| > 0 {
      OnlyNone(s[1..], keep);
    }
  }

  lemma {:induction false} OnlyOnly<T>(s: seq<Named<T>>, k1: set<string>, k2: set<string>)
    ensures Only(Only(s, k1), k2) == Only(s, k1 * k2)
  {
    if |s| > 0 {
      OnlyOnly(s[1..], k1, k2);
    }
  }

  /** Two keep-sets that agree on the names present keep the same elements. */
  lemma {:induction false} OnlySame<T>(s: seq<Named<T>>, k1: set<string>, k2: set<string>)
    requires Names(s) * k1 == Names(s) * k2
    ensures Only(s, k1) == Only(s, k2)
  {
    if |s| > 0 {
      assert s[0].name in Names(s) * k1 <==> s[0].name in k1;
      assert s[0].name in Names(s) * k2 <==> s[0].name in k2;
      forall n | n in Names(s[1..]) ensures n in k1 <==> n in k2 {
        assert n in Names(s) * k1 <==> n in k1;
        assert n in Names(s) * k2 <==> n in k2;
      }
      OnlySame(s[1..], k1, k2);
    }
  }

  /** The parts of a list with unique names around one element. */
  lemma {:induction false} Around<T>(a: seq<Named<T>>, c: Named<T>, b: seq<Named<T>>)
    requires Unique(a + [c] + b)
    ensures Unique(a) && Unique(b) && Names(a) !! Names(b)
    ensures c.name !in Names(a) && c.name !in Names(b)
    ensures Names(a + [c] + b) == Names(a) + {c.name} + Names(b)
    ensures Has(a + [c] + b, c.name) && IndexOf(a + [c] + b, c.name) == |a|
    ensures Without(a + [c] + b, c.name) == a + b
    ensures Get(a + [c] + b, c.name) == c
  {
    Concat(a + [c], b);
    Concat(a, [c]);
    NameAt(a + [c] + b, |a|);
  }

  lemma Found<T>(s: seq<Named<T>>, n: string)
    requires Has(s, n)
    ensures s == s[..IndexOf(s, n)] + [Get(s, n)] + s[IndexOf(s, n) + 1..]
  {
  }

  /** In a list with unique names an element determines what stands before and after it. */
  lemma SplitIsUnique<T>(a: seq<Named<T>>, c: Named<T>, b: seq<Named<T>>, a': seq<Named<T>>, c': Named<T>,
      b': seq<Named<T>>)
    requires a + [c] + b == a' + [c'] + b'
    requires c.name == c'.name
    requires Unique(a + [c] + b)
    ensures a == a' && b == b' && c == c'
  {
    Around(a, c, b);
    Around(a', c', b');
    var s := a + [c] + b;
    assert a == s[..|a|] && b == s[|a| + 1..];
    assert a' == s[..|a|] && b' == s[|a| + 1..];
  }

  lemma {:induction false} NameCount<T>(s: seq<Named<T>>)
    requires Unique(s)
    ensures |Names(s)| == |s|
  {
    if |s| > 0 {
      NameCount(s[1..]);
    }
  }

  // ----- how the list operations act on lookups and on selections -----

  lemma Appended<T>(l: seq<Named<T>>, x: Named<T>, settled: set<string>)
    requires Unique(l) && x.name !in Names(l)
    ensures Unique(l + [x]) && Names(l + [x]) == Names(l) + {x.name}
    ensures Only(l + [x], settled + {x.name}) == Only(l, settled) + [x]
    ensures Get(l + [x], x.name) == x
    ensures forall m :: m in Names(l) ==> Get(l + [x], m) == Get(l, m)
  {
    hide Unique, Names, Only;
    Concat(l, [x]);
    One(x, settled + {x.name});
    OnlyConcat(l, [x], settled + {x.name});
    OnlySame(l, settled, settled + {x.name});
    assert l + [x] + [] == l + [x];
    Around(l, x, []);
    forall m | m in Names(l) ensures Get(l + [x], m) == Get(l, m) {
      Lookup(l + [x], IndexOf(l, m));
    }
  }

  lemma Lookup<T>(l: seq<Named<T>>, i: nat)
    requires Unique(l) && i < |l|
    ensures Has(l, l[i].name) && Get(l, l[i].name) == l[i]
  {
    NameAt(l, i);
  }

  lemma Removed<T>(l: seq<Named<T>>, n: string, settled: set<string>)
    requires Unique(l) && Has(l, n)
    ensures Unique(Without(l, n)) && Names(Without(l, n)) == Names(l) - {n}
    ensures n !in settled ==> Only(Without(l, n), settled) == Only(l, settled)
    ensures forall m :: m in Names(l) && m != n ==> Get(Without(l, n), m) == Get(l, m)
  {
    hide Unique, Names, Only;
    var a, c, b := l[..IndexOf(l, n)], Get(l, n), l[IndexOf(l, n) + 1..];
    Found(l, n);
    Around(a, c, b);
    Concat(a, b);
    OnlyConcat(a, b, settled);
    OnlyConcat(a + [c], b, settled);
    OnlyConcat(a, [c], settled);
    One(c, settled);
    assert n !in settled ==> Only(a, settled) + [] == Only(a, settled);
    forall m | m in Names(l) && m != n ensures Get(Without(l, n), m) == Get(l, m) {
      var i := IndexOf(l, m);
      Lookup(a + b, if i < |a| then i else i - 1);
    }
  }

  lemma Replaced<T>(l: seq<Named<T>>, x: Named<T>)
    requires Unique(l) && Has(l, x.name)
    ensures Unique(Replace(l, x)) && Names(Replace(l, x)) == Names(l)
    ensures Get(Replace(l, x), x.name) == x
    ensures forall m :: m in Names(l) && m != x.name ==> Get(Replace(l, x), m) == Get(l, m)
  {
    hide Unique, Names, Only, IndexOf;
    var a, c, b := l[..IndexOf(l, x.name)], Get(l, x.name), l[IndexOf(l, x.name) + 1..];
    Found(l, x.name);
    Around(a, c, b);
    Concat(a + [x], b);
    Concat(a, [x]);
    One(x, {});
    Around(a, x, b);
    forall m | m in Names(l) && m != x.name ensures Get(Replace(l, x), m) == Get(l, m) {
      Lookup(Replace(l, x), IndexOf(l, m));
    }
  }

  /** Filtering in progress: the first `k` elements are done. */
  function Filtering<T>(s: seq<Named<T>>, keep: set<string>, k: nat): seq<Named<T>>
    requires k <= |s|
  {
    Only(s[..k], keep) + s[k..]
  }

  lemma FilterEnds<T>(s: seq<Named<T>>, keep: set<string>)
    ensures Filtering(s, keep, 0) == s && Filtering(s, keep, |s|) == Only(s, keep)
  {
    Nothing(s, 0, keep);
    assert [] + s[0..] == s && s[..|s|] == s && Only(s, keep) + s[|s|..] == Only(s, keep);
  }

  lemma FilterShape<T>(s: seq<Named<T>>, keep: set<string>, k: nat)
    requires k < |s|
    ensures Filtering(s, keep, k) == Only(s[..k], keep) + [s[k]] + s[k + 1..]
    ensures Filtering(s, keep, k + 1) == Only(s[..k], keep) + (if s[k].name in keep then [s[k]] else []) + s[k + 1..]
  {
    hide Names, Only;
    assert s[k..] == [s[k]] + s[k + 1..] && s[..k + 1] == s[..k] + [s[k]];
    OnlyConcat(s[..k], [s[k]], keep);
    One(s[k], keep);
  }

  lemma FilterStep<T>(s: seq<Named<T>>, keep: set<string>, k: nat)
    requires Unique(s) && k < |s|
    ensures s[k].name in keep ==> Filtering(s, keep, k + 1) == Filtering(s, keep, k)
    ensures s[k].name !in keep ==>
              && Has(Filtering(s, keep, k), s[k].name)
              && Filtering(s, keep, k + 1) == Without(Filtering(s, keep, k), s[k].name)
  {
    hide Names, Unique, Only, Filtering, IndexOf, Without;
    var done, c, rest := Only(s[..k], keep), s[k], s[k + 1..];
    FilterShape(s, keep, k);
    if c.name !in keep {
      FilterUnique(s, keep, k);
      Around(done, c, rest);
      assert done + [] == done;
    }
  }

  lemma FilterUnique<T>(s: seq<Named<T>>, keep: set<string>, k: nat)
    requires Unique(s) && k < |s|
    ensures Unique(Only(s[..k], keep) + [s[k]] + s[k + 1..])
  {
    hide Names, Unique, Only;
    var done, rest := Only(s[..k], keep), [s[k]] + s[k + 1..];
    assert s == s[..k] + rest;
    Concat(s[..k], rest);
    OnlyNames(s[..k], keep);
    Concat(done, rest);
    assert done + rest == done + [s[k]] + s[k + 1..];
  }

  /** Same elements, possibly in a different order. */
  ghost predicate SameElements<T(!new)>(a: seq<Named<T>>, b: seq<Named<T>>) {
    && Unique(a) && Names(a) == Names(b)
    && forall n :: n in Names(b) ==> Get(a, n) == Get(b, n)
  }
}
