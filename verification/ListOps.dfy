// Deferring additions: the effect of moving ADD clauses out of an ALTER TABLE
// into a later one (internal/tengo/diff.go, SplitAddForeignKeys and SplitConflicts).

module ListOps {
  import opened Wrappers
  import opened NamedLists

  /** What a clause does to a list of named elements; a clause without text is skipped. */
  datatype Op<!T> =
    | Append(item: Named<T>)
    | Remove(target: string)
    | Modify(target: string, change: T -> T)
    | Skip(target: string)
  {
    function Name(): string {
      if Append? then item.name else target
    }
  }

  function ApplyOp<T>(l: seq<Named<T>>, op: Op<T>): Option<seq<Named<T>>> {
    match op
    case Append(x) => if Has(l, x.name) then None else Some(l + [x])
    case Remove(n) => if Has(l, n) then Some(Without(l, n)) else None
    case Modify(n, f) => if Has(l, n) then Some(Replace(l, Named(n, f(Get(l, n).def)))) else None
    case Skip(_) => Some(l)
  }

  function ApplyOps<T>(l: seq<Named<T>>, ops: seq<Op<T>>): Option<seq<Named<T>>> {
    if |ops| == 0 then Some(l)
    else match ApplyOps(l, ops[..|ops| - 1])
      case None => None
      case Some(mid) => ApplyOp(mid, ops[|ops| - 1])
  }

  lemma {:induction false} ApplyOpsSplit<T>(l: seq<Named<T>>, a: seq<Op<T>>, b: seq<Op<T>>)
    ensures ApplyOps(l, a + b) == match ApplyOps(l, a) { case None => None case Some(mid) => ApplyOps(mid, b) }
  {
    if |b| == 0 {
      assert a + b == a;
    } else {
      assert (a + b)[..|a + b| - 1] == a + b[..|b| - 1];
      ApplyOpsSplit(l, a, b[..|b| - 1]);
    }
  }

  /** The operations that are not deferred, and the deferred items, in order. */
  function Kept<T>(ops: seq<Op<T>>, defer: seq<bool>): seq<Op<T>>
    requires |defer| == |ops|
  {
    Select(ops, defer, false)
  }

  function Late<T>(ops: seq<Op<T>>, defer: seq<bool>): seq<Op<T>>
    requires |defer| == |ops|
  {
    Select(ops, defer, true)
  }

  function Items<T>(ops: seq<Op<T>>): seq<Named<T>> {
    if |ops| == 0 then []
    else Items(ops[..|ops| - 1]) + (if ops[|ops| - 1].Append? then [ops[|ops| - 1].item] else [])
  }

  /** After an element was added, no operation with an effect mentions its name again. */
  ghost predicate AddsLast<T(!new)>(ops: seq<Op<T>>) {
    forall i, j :: 0 <= i < j < |ops| && ops[i].Append? && !ops[j].Skip? ==> ops[i].Name() != ops[j].Name()
  }

  lemma AddsLastConcat<T(!new)>(a: seq<Op<T>>, b: seq<Op<T>>)
    requires AddsLast(a) && AddsLast(b)
    requires forall i, j :: 0 <= i < |a| && 0 <= j < |b| && a[i].Append? && !b[j].Skip? ==> a[i].Name() != b[j].Name()
    ensures AddsLast(a + b)
  {
  }

  /** Only additions are deferred, and nothing later mentions their name. */
  ghost predicate Deferrable<T(!new)>(ops: seq<Op<T>>, defer: seq<bool>) {
    && |defer| == |ops| && AddsLast(ops)
    && (forall i :: 0 <= i < |ops| && defer[i] ==> ops[i].Append? || ops[i].Skip?)
  }

  lemma OpKeepsUnique<T>(l: seq<Named<T>>, op: Op<T>)
    requires Unique(l) && ApplyOp(l, op).Some?
    ensures Unique(ApplyOp(l, op).value)
    ensures Names(ApplyOp(l, op).value) <= Names(l) + {op.Name()}
  {
    hide Unique, Names;
    match op
    case Append(x) => Appended(l, x, {});
    case Remove(n) => Removed(l, n, {});
    case Modify(n, f) => Replaced(l, Named(n, f(Get(l, n).def)));
    case Skip(_) =>
  }

  /** An operation on a selected name commutes with the selection. */
  lemma OpCommutes<T>(l: seq<Named<T>>, op: Op<T>, keep: set<string>)
    requires Unique(l) && (op.Skip? || op.Name() in keep) && ApplyOp(l, op).Some?
    ensures ApplyOp(Only(l, keep), op) == Some(Only(ApplyOp(l, op).value, keep))
  {
    hide Unique, Names, Only, Without, Replace, Get;
    OnlyNames(l, keep);
    if op.Append? {
      OnlyConcat(l, [op.item], keep);
      One(op.item, keep);
    } else if op.Remove? {
      WithoutCommutes(l, op.target, keep);
    } else if op.Modify? {
      OnlyGet(l, keep, op.target);
      ReplaceCommutes(l, Named(op.target, op.change(Get(l, op.target).def)), keep);
    }
  }

  lemma WithoutCommutes<T>(l: seq<Named<T>>, n: string, keep: set<string>)
    requires Unique(l) && Has(l, n) && n in keep
    ensures Has(Only(l, keep), n) && Without(Only(l, keep), n) == Only(Without(l, n), keep)
  {
    hide Unique, Names, Only;
    OnlyNames(l, keep);
    OnlyGet(l, keep, n);
    var a, c, b := l[..IndexOf(l, n)], Get(l, n), l[IndexOf(l, n) + 1..];
    Found(l, n);
    OnlyOfThree(a, c, b, keep);
    OnlyConcat(a, b, keep);
    Around(Only(a, keep), c, Only(b, keep));
  }

  lemma ReplaceCommutes<T>(l: seq<Named<T>>, x: Named<T>, keep: set<string>)
    requires Unique(l) && Has(l, x.name) && x.name in keep
    ensures Has(Only(l, keep), x.name) && Replace(Only(l, keep), x) == Only(Replace(l, x), keep)
  {
    hide Unique, Names, Only;
    var n := x.name;
    OnlyNames(l, keep);
    OnlyGet(l, keep, n);
    var a, c, b := l[..IndexOf(l, n)], Get(l, n), l[IndexOf(l, n) + 1..];
    Found(l, n);
    OnlyOfThree(a, c, b, keep);
    OnlyOfThree(a, x, b, keep);
    var la, lb := Only(a, keep), Only(b, keep);
    Around(la, c, lb);
    assert (la + [c] + lb)[..|la|] == la && (la + [c] + lb)[|la| + 1..] == lb;
  }

  lemma OnlyOfThree<T>(a: seq<Named<T>>, c: Named<T>, b: seq<Named<T>>, keep: set<string>)
    requires c.name in keep
    ensures Only(a + [c] + b, keep) == Only(a, keep) + [c] + Only(b, keep)
  {
    OnlyConcat(a + [c], b, keep);
    OnlyConcat(a, [c], keep);
    One(c, keep);
  }

  function Find<T>(s: seq<Named<T>>, n: string): Option<Named<T>> {
    if Has(s, n) then Some(Get(s, n)) else None
  }

  lemma OpFinds<T>(l: seq<Named<T>>, op: Op<T>, n: string)
    requires Unique(l) && ApplyOp(l, op).Some?
    ensures n != op.Name() ==> Find(ApplyOp(l, op).value, n) == Find(l, n)
    ensures op.Append? ==> Find(ApplyOp(l, op).value, op.item.name) == Some(op.item)
  {
    hide Unique, Names, IndexOf;
    match op
    case Append(x) => Appended(l, x, {});
    case Remove(m) => Removed(l, m, {});
    case Modify(m, f) => Replaced(l, Named(m, f(Get(l, m).def)));
    case Skip(_) =>
  }

  /** `items` are elements of `r`, under distinct names. */
  ghost predicate Within<T(!new)>(items: seq<Named<T>>, r: seq<Named<T>>) {
    && Unique(r) && Unique(items)
    && forall i :: 0 <= i < |items| ==> Find(r, items[i].name) == Some(items[i])
  }

  ghost predicate LateNamed<T(!new)>(ops: seq<Op<T>>, defer: seq<bool>, late: set<string>)
    requires |defer| == |ops|
  {
    forall n :: n in late ==> exists i :: 0 <= i < |ops| && defer[i] && ops[i].Append? && ops[i].Name() == n
  }

  /** Leaving out the deferred additions gives the same list without their items. */
  lemma {:induction false} KeptApplies<T(!new)>(l: seq<Named<T>>, ops: seq<Op<T>>, defer: seq<bool>, all: set<string>)
    requires Unique(l) && Deferrable(ops, defer) && ApplyOps(l, ops).Some?
    requires Names(l) <= all && forall i :: 0 <= i < |ops| ==> ops[i].Name() in all
    ensures var r, items := ApplyOps(l, ops).value, Items(Late(ops, defer));
            && Within(items, r) && Names(r) <= all
            && ApplyOps(l, Kept(ops, defer)) == Some(Only(r, all - Names(items)))
            && LateNamed(ops, defer, Names(items))
  {
    if |ops| == 0 {
      OnlyAll(l, all);
      assert all - {} == all;
    } else {
      hide Unique, Names, Only, Within, LateNamed, Find;
      var ops0, defer0, op := ops[..|ops| - 1], defer[..|ops| - 1], ops[|ops| - 1];
      KeptApplies(l, ops0, defer0, all);
      var r0, items0 := ApplyOps(l, ops0).value, Items(Late(ops0, defer0));
      assert Unique(r0) by { WithinUnique(items0, r0); }
      OpKeepsUnique(r0, op);
      if defer[|ops| - 1] && op.Append? {
        assert Items(Late(ops, defer)) == items0 + [op.item] by {
          assert (Late(ops0, defer0) + [op])[..|Late(ops0, defer0)|] == Late(ops0, defer0);
        }
        assert Kept(ops, defer) == Kept(ops0, defer0) + [] == Kept(ops0, defer0);
        DeferStep(r0, items0, op.item, all);
        LateGrows(ops, defer, Names(items0));
      } else if defer[|ops| - 1] {
        assert Items(Late(ops, defer)) == items0 + [] == items0 by {
          assert (Late(ops0, defer0) + [op])[..|Late(ops0, defer0)|] == Late(ops0, defer0);
        }
        assert Kept(ops, defer) == Kept(ops0, defer0) + [] == Kept(ops0, defer0);
        LateGrows(ops, defer, Names(items0));
      } else {
        assert Late(ops, defer) == Late(ops0, defer0) + [] == Late(ops0, defer0);
        LateGrows(ops, defer, Names(items0));
        NotLate(ops, defer, Names(items0));
        OpCommutes(r0, op, all - Names(items0));
        ApplyOpsSplit(l, Kept(ops0, defer0), [op]);
        ApplyOne(Only(r0, all - Names(items0)), op);
        WithinKept(items0, r0, op);
      }
    }
  }

  lemma WithinUnique<T(!new)>(items: seq<Named<T>>, r: seq<Named<T>>)
    requires Within(items, r)
    ensures Unique(r) && Names(items) <= Names(r)
  {
    forall n | n in Names(items) ensures n in Names(r) {
      assert Find(r, items[IndexOf(items, n)].name) == Some(items[IndexOf(items, n)]);
    }
  }

  lemma ApplyOne<T>(l: seq<Named<T>>, op: Op<T>)
    ensures ApplyOps(l, [op]) == ApplyOp(l, op)
  {
    assert [op][..0] == [];
  }

  lemma DeferStep<T(!new)>(r: seq<Named<T>>, items: seq<Named<T>>, x: Named<T>, all: set<string>)
    requires Within(items, r) && !Has(r, x.name)
    ensures Within(items + [x], r + [x]) && Names(items + [x]) == Names(items) + {x.name}
    ensures Only(r + [x], all - Names(items + [x])) == Only(r, all - Names(items))
  {
    hide Unique, Names, Only, IndexOf;
    WithinUnique(items, r);
    Appended(items, x, {});
    Appended(r, x, {});
    var keep := all - Names(items) - {x.name};
    assert all - Names(items + [x]) == keep;
    OnlyConcat(r, [x], keep);
    One(x, keep);
    OnlySame(r, all - Names(items), keep);
    assert Only(r, keep) + [] == Only(r, keep);
    forall i | 0 <= i < |items + [x]| ensures Find(r + [x], (items + [x])[i].name) == Some((items + [x])[i]) {
      if i < |items| {
        assert Find(r, items[i].name) == Some(items[i]);
      }
    }
  }

  lemma LateGrows<T(!new)>(ops: seq<Op<T>>, defer: seq<bool>, late: set<string>)
    requires |ops| > 0 && |defer| == |ops| && LateNamed(ops[..|ops| - 1], defer[..|ops| - 1], late)
    ensures LateNamed(ops, defer, late)
    ensures defer[|ops| - 1] && ops[|ops| - 1].Append? ==> LateNamed(ops, defer, late + {ops[|ops| - 1].Name()})
  {
    forall n | n in late ensures exists i :: 0 <= i < |ops| && defer[i] && ops[i].Append? && ops[i].Name() == n {
      var i :| 0 <= i < |ops| - 1 && defer[..|ops| - 1][i] && ops[..|ops| - 1][i].Append?
          && ops[..|ops| - 1][i].Name() == n;
      assert defer[i] && ops[i].Append? && ops[i].Name() == n;
    }
  }

  lemma NotLate<T(!new)>(ops: seq<Op<T>>, defer: seq<bool>, late: set<string>)
    requires |ops| > 0 && Deferrable(ops, defer) && !defer[|ops| - 1] && LateNamed(ops, defer, late)
    ensures ops[|ops| - 1].Skip? || ops[|ops| - 1].Name() !in late
  {
    if !ops[|ops| - 1].Skip? && ops[|ops| - 1].Name() in late {
      var i :| 0 <= i < |ops| && defer[i] && ops[i].Append? && ops[i].Name() == ops[|ops| - 1].Name();
    }
  }

  lemma WithinKept<T(!new)>(items: seq<Named<T>>, r: seq<Named<T>>, op: Op<T>)
    requires Within(items, r) && (op.Skip? || op.Name() !in Names(items)) && ApplyOp(r, op).Some?
    ensures Within(items, ApplyOp(r, op).value)
  {
    hide Unique, Names, Find;
    OpKeepsUnique(r, op);
    forall i | 0 <= i < |items| ensures Find(ApplyOp(r, op).value, items[i].name) == Some(items[i]) {
      NameAt(items, i);
      OpFinds(r, op, items[i].name);
    }
  }

  lemma {:induction false} LateApplies<T(!new)>(l: seq<Named<T>>, late: seq<Op<T>>)
    requires Unique(l) && Unique(Items(late)) && Names(l) !! Names(Items(late))
    requires forall i :: 0 <= i < |late| ==> late[i].Append? || late[i].Skip?
    ensures ApplyOps(l, late) == Some(l + Items(late))
  {
    if |late| == 0 {
      assert l + [] == l;
    } else {
      hide Unique, Names;
      var init, op := late[..|late| - 1], late[|late| - 1];
      if op.Append? {
        var x := op.item;
        Concat(Items(init), [x]);
        One(x, {});
        LateApplies(l, init);
        Concat(l, Items(init));
        assert l + (Items(init) + [x]) == l + Items(init) + [x];
      } else {
        assert Items(init) + [] == Items(init);
        LateApplies(l, init);
      }
    }
  }

  /** Running the kept operations first and the deferred additions afterwards
      gives the same elements; the deferred ones move to the end. */
  lemma DeferringPreserves<T(!new)>(l: seq<Named<T>>, ops: seq<Op<T>>, defer: seq<bool>)
    requires Unique(l) && Deferrable(ops, defer) && ApplyOps(l, ops).Some?
    ensures var r, items, d := ApplyOps(l, ops).value, Items(Late(ops, defer)),
            ApplyOps(l, Kept(ops, defer) + Late(ops, defer));
            && d == Some(Only(r, Names(r) - Names(items)) + items)
            && Unique(r) && SameElements(d.value, r)
  {
    hide Unique, Names, Only, Within, LateNamed;
    var all := Names(l) + (set i | 0 <= i < |ops| :: ops[i].Name());
    KeptApplies(l, ops, defer, all);
    var r, late := ApplyOps(l, ops).value, Late(ops, defer);
    var items := Items(late);
    WithinUnique(items, r);
    OnlySame(r, all - Names(items), Names(r) - Names(items));
    var rest := Only(r, Names(r) - Names(items));
    OnlyNames(r, Names(r) - Names(items));
    LateAppends(ops, defer);
    WithinItems(items, r);
    LateApplies(rest, late);
    ApplyOpsSplit(l, Kept(ops, defer), late);
    Concat(rest, items);
    forall n | n in Names(r) ensures Get(rest + items, n) == Get(r, n) {
      MovedGet(r, items, n);
    }
  }

  /** Moving elements to the end does not change what is found under a name. */
  lemma MovedGet<T(!new)>(r: seq<Named<T>>, items: seq<Named<T>>, n: string)
    requires Unique(r) && Within(items, r) && Unique(Only(r, Names(r) - Names(items)) + items) && n in Names(r)
    requires Names(Only(r, Names(r) - Names(items)) + items) == Names(r)
    ensures Has(Only(r, Names(r) - Names(items)) + items, n)
    ensures Get(Only(r, Names(r) - Names(items)) + items, n) == Get(r, n)
  {
    hide Unique, Names, Only, Within, IndexOf;
    var rest := Only(r, Names(r) - Names(items));
    if n in Names(items) {
      var k := IndexOf(items, n);
      Lookup(rest + items, |rest| + k);
      assert (rest + items)[|rest| + k] == items[k];
      FindOf(items, r, k);
    } else {
      OnlyNames(r, Names(r) - Names(items));
      OnlyGet(r, Names(r) - Names(items), n);
      var k := IndexOf(rest, n);
      Lookup(rest + items, k);
      assert (rest + items)[k] == rest[k];
    }
  }

  lemma WithinItems<T(!new)>(items: seq<Named<T>>, r: seq<Named<T>>)
    requires Within(items, r)
    ensures Unique(items)
  {
  }

  lemma FindOf<T(!new)>(items: seq<Named<T>>, r: seq<Named<T>>, k: nat)
    requires Within(items, r) && k < |items|
    ensures Find(r, items[k].name) == Some(items[k])
  {
  }

  lemma LateAppends<T(!new)>(ops: seq<Op<T>>, defer: seq<bool>)
    requires Deferrable(ops, defer)
    ensures forall i :: 0 <= i < |Late(ops, defer)| ==> Late(ops, defer)[i].Append? || Late(ops, defer)[i].Skip?
  {
    SelectElements(ops, defer, true);
    forall i | 0 <= i < |Late(ops, defer)| ensures Late(ops, defer)[i].Append? || Late(ops, defer)[i].Skip? {
      assert Late(ops, defer)[i] in Late(ops, defer);
    }
  }
}
