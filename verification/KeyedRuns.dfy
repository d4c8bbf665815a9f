// Running changes that each concern one named object of a schema
// (internal/tengo/diff.go): the outcome for a name depends on its own changes only,
// so the order in which Go iterates over its maps does not matter.

module KeyedRuns {
  import opened Wrappers

  function At<K, V>(db: map<K, V>, k: K): Option<V> {
    if k in db then Some(db[k]) else None
  }

  function Store<K, V>(db: map<K, V>, k: K, v: Option<V>): map<K, V> {
    if v.Some? then db[k := v.value] else db - {k}
  }

  /** Runs the changes in order; None as soon as one of them fails. `act` says
      what a change makes of the object it concerns, None meaning no object. */
  function RunAll<K, V, C>(
    db: map<K, V>, cs: seq<C>, key: C -> K, act: (Option<V>, C) -> Option<Option<V>>): Option<map<K, V>>
  {
    if |cs| == 0 then Some(db)
    else match RunAll(db, cs[..|cs| - 1], key, act)
      case None => None
      case Some(mid) =>
        var k := key(cs[|cs| - 1]);
        match act(At(mid, k), cs[|cs| - 1]) case None => None case Some(v) => Some(Store(mid, k, v))
  }

  /** Runs changes that all concern the same object. */
  function RunOne<V, C>(v: Option<V>, cs: seq<C>, act: (Option<V>, C) -> Option<Option<V>>): Option<Option<V>> {
    if |cs| == 0 then Some(v)
    else match RunOne(v, cs[..|cs| - 1], act) case None => None case Some(mid) => act(mid, cs[|cs| - 1])
  }

  /** The changes that concern `k`, in order. */
  function Of<K(==), C>(cs: seq<C>, key: C -> K, k: K): seq<C> {
    if |cs| == 0 then []
    else Of(cs[..|cs| - 1], key, k) + (if key(cs[|cs| - 1]) == k then [cs[|cs| - 1]] else [])
  }

  lemma {:induction false} RunOneConcat<V, C>(
      v: Option<V>, a: seq<C>, b: seq<C>, act: (Option<V>, C) -> Option<Option<V>>)
    ensures RunOne(v, a + b, act) == match RunOne(v, a, act) { case None => None case Some(mid) => RunOne(mid, b, act) }
  {
    if |b| == 0 {
      assert a + b == a;
    } else {
      assert (a + b)[..|a + b| - 1] == a + b[..|b| - 1];
      RunOneConcat(v, a, b[..|b| - 1], act);
    }
  }

  lemma RunOneTwo<V, C>(v: Option<V>, a: C, b: C, act: (Option<V>, C) -> Option<Option<V>>)
    ensures RunOne(v, [], act) == Some(v) && RunOne(v, [a], act) == act(v, a)
    ensures RunOne(v, [a, b], act) == match act(v, a) { case None => None case Some(mid) => act(mid, b) }
  {
    assert [a][..0] == [] && [a, b][..1] == [a];
  }

  lemma {:induction false} OfConcat<K, C>(a: seq<C>, b: seq<C>, key: C -> K, k: K)
    ensures Of(a + b, key, k) == Of(a, key, k) + Of(b, key, k)
  {
    if |b| == 0 {
      assert a + b == a;
    } else {
      assert (a + b)[..|a + b| - 1] == a + b[..|b| - 1];
      OfConcat(a, b[..|b| - 1], key, k);
    }
  }

  /** Changes that all concern `n`. */
  lemma {:induction false} OfSame<K, C>(cs: seq<C>, key: C -> K, n: K, k: K)
    requires forall i :: 0 <= i < |cs| ==> key(cs[i]) == n
    ensures Of(cs, key, k) == if k == n then cs else []
  {
    if |cs| > 0 {
      OfSame(cs[..|cs| - 1], key, n, k);
      assert cs == cs[..|cs| - 1] + [cs[|cs| - 1]];
    }
  }

  lemma {:induction false} RunOneFails<V, C>(v: Option<V>, cs: seq<C>, n: nat, act: (Option<V>, C) -> Option<Option<V>>)
    requires n <= |cs| && RunOne(v, cs[..n], act).None?
    ensures RunOne(v, cs, act).None?
  {
    assert cs == cs[..n] + cs[n..];
    RunOneConcat(v, cs[..n], cs[n..], act);
  }

  /** If the changes of every object succeed on their own, the whole run succeeds
      and leaves each object as its own changes leave it. */
  lemma {:induction false} ObjectsAreIndependent<K(!new), V, C>(
      db: map<K, V>, cs: seq<C>, key: C -> K, act: (Option<V>, C) -> Option<Option<V>>)
    requires forall k: K :: RunOne(At(db, k), Of(cs, key, k), act).Some?
    ensures var r := RunAll(db, cs, key, act);
            r.Some? && forall k: K :: RunOne(At(db, k), Of(cs, key, k), act) == Some(At(r.value, k))
  {
    if |cs| > 0 {
      hide RunOne;
      var init, last := cs[..|cs| - 1], cs[|cs| - 1];
      forall k: K ensures RunOne(At(db, k), Of(init, key, k), act).Some? {
        PrefixSucceeds(db, cs, key, act, k);
      }
      ObjectsAreIndependent(db, init, key, act);
      forall k: K ensures RunOne(At(db, k), Of(cs, key, k), act) == Some(At(RunAll(db, cs, key, act).value, k)) {
        LastStep(db, cs, key, act, key(last));
        LastStep(db, cs, key, act, k);
      }
      LastStep(db, cs, key, act, key(last));
    } else {
      forall k: K ensures RunOne(At(db, k), Of(cs, key, k), act) == Some(At(db, k)) {
      }
    }
  }

  lemma PrefixSucceeds<K(!new), V, C>(
      db: map<K, V>, cs: seq<C>, key: C -> K, act: (Option<V>, C) -> Option<Option<V>>, k: K)
    requires |cs| > 0 && RunOne(At(db, k), Of(cs, key, k), act).Some?
    ensures RunOne(At(db, k), Of(cs[..|cs| - 1], key, k), act).Some?
  {
    var before := Of(cs[..|cs| - 1], key, k);
    assert Of(cs, key, k)[..|before|] == before;
    if RunOne(At(db, k), before, act).None? {
      RunOneFails(At(db, k), Of(cs, key, k), |before|, act);
    }
  }

  lemma LastStep<K(!new), V, C>(db: map<K, V>, cs: seq<C>, key: C -> K, act: (Option<V>, C) -> Option<Option<V>>, k: K)
    requires |cs| > 0
    ensures var v := RunOne(At(db, k), Of(cs[..|cs| - 1], key, k), act);
            RunOne(At(db, k), Of(cs, key, k), act)
            == if key(cs[|cs| - 1]) != k then v
                else match v { case None => None case Some(mid) => act(mid, cs[|cs| - 1]) }
  {
    var before := Of(cs[..|cs| - 1], key, k);
    if key(cs[|cs| - 1]) == k {
      assert Of(cs, key, k)[..|before|] == before;
    } else {
      assert Of(cs, key, k) == before;
    }
  }

  // ----- changes collected object by object -----

  function Join<C>(chunks: seq<seq<C>>): seq<C> {
    if |chunks| == 0 then [] else Join(chunks[..|chunks| - 1]) + chunks[|chunks| - 1]
  }

  lemma JoinStep<C>(chunks: seq<seq<C>>, c: seq<C>)
    ensures Join(chunks + [c]) == Join(chunks) + c
  {
    assert (chunks + [c])[..|chunks|] == chunks;
  }

  lemma {:induction false} JoinElement<C>(chunks: seq<seq<C>>, i: nat) returns (k: nat)
    requires i < |Join(chunks)|
    ensures k < |chunks| && Join(chunks)[i] in chunks[k]
  {
    var init := chunks[..|chunks| - 1];
    if i < |Join(init)| {
      k := JoinElement(init, i);
    } else {
      k := |chunks| - 1;
      assert Join(chunks)[i] == chunks[k][i - |Join(init)|];
    }
  }

  /** Chunk `i` holds changes of `owners[i]` only. */
  ghost predicate Owned<K, C>(chunks: seq<seq<C>>, owners: seq<K>, key: C -> K) {
    && |chunks| == |owners|
    && forall i, j :: 0 <= i < |chunks| && 0 <= j < |chunks[i]| ==> key(chunks[i][j]) == owners[i]
  }

  lemma {:induction false} JoinOfNone<K, C>(chunks: seq<seq<C>>, owners: seq<K>, key: C -> K, n: K)
    requires Owned(chunks, owners, key) && n !in owners
    ensures Of(Join(chunks), key, n) == []
  {
    if |chunks| > 0 {
      var last := |chunks| - 1;
      JoinOfNone(chunks[..last], owners[..last], key, n);
      OfConcat(Join(chunks[..last]), chunks[last], key, n);
      OfSame(chunks[last], key, owners[last], n);
    }
  }

  lemma {:induction false} JoinOfOne<K, C>(chunks: seq<seq<C>>, owners: seq<K>, key: C -> K, k: nat)
    requires Owned(chunks, owners, key) && k < |owners|
    requires forall i, j :: 0 <= i < j < |owners| ==> owners[i] != owners[j]
    ensures Of(Join(chunks), key, owners[k]) == chunks[k]
  {
    hide Of;
    var last := |chunks| - 1;
    OfConcat(Join(chunks[..last]), chunks[last], key, owners[k]);
    OfSame(chunks[last], key, owners[last], owners[k]);
    if k < last {
      JoinOfOne(chunks[..last], owners[..last], key, k);
    } else {
      JoinOfNone(chunks[..last], owners[..last], key, owners[k]);
    }
  }

  // ----- orders in which a map may be iterated -----

  /** `order` lists the elements of `s`, each once. */
  ghost predicate Lists<K>(order: seq<K>, s: set<K>) {
    multiset(order) == multiset(s)
  }

  lemma ListsOnce<K>(order: seq<K>, s: set<K>, n: nat)
    requires Lists(order, s) && n < |order|
    ensures order[n] in s && order[n] !in order[..n] && order[..n + 1] == order[..n] + [order[n]]
  {
    var k := order[n];
    assert order == order[..n] + [k] + order[n + 1..];
    assert multiset(order)[k] == multiset(order[..n])[k] + 1 + multiset(order[n + 1..])[k];
    assert k in multiset(order);
    assert multiset(s)[k] <= 1;
  }

  lemma ListsAll<K(!new)>(order: seq<K>, s: set<K>)
    requires Lists(order, s)
    ensures forall k :: k in order <==> k in s
    ensures order[..|order|] == order
  {
    forall k ensures k in order <==> k in s {
      assert k in order <==> k in multiset(order);
    }
  }

  lemma ListsDistinct<K>(order: seq<K>, s: set<K>)
    requires Lists(order, s)
    ensures forall i, j :: 0 <= i < j < |order| ==> order[i] != order[j]
  {
    forall i, j | 0 <= i < j < |order| ensures order[i] != order[j] {
      ListsOnce(order, s, j);
      assert order[..j][i] == order[i];
    }
  }

  /** One more element was taken out of those still to do. */
  lemma TookOne<K>(order: seq<K>, k: K, todo: set<K>, all: set<K>)
    requires k in todo && multiset(order) + multiset(todo) == multiset(all)
    ensures multiset(order + [k]) + multiset(todo - {k}) == multiset(all)
  {
    assert multiset(todo) == multiset(todo - {k}) + multiset{k};
  }
}
