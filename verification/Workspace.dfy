// The workspace executor (internal/workspace/workspace.go, ExecLogicalSchema): a
// producer, a pool of workers and a collector over two bounded channels, followed
// by a sequential phase. Every interleaving is a sequence of the actions below.

module Workspace {

  /** What the server answers. */
  datatype Answer = Ok | Retryable | Fatal

  /** CREATEs are numbered from 0, ALTERs after them. */
  datatype Config = Config(creates: nat, alters: nat, concurrency: nat) {
    function Workers(): nat {
      if creates < concurrency then creates else concurrency
    }
  }

  datatype Worker = Idle | Executing(stmt: nat) | Sending(stmt: nat, answer: Answer) | Done

  datatype Report = Report(stmt: nat, answer: Answer)

  datatype State = State(
    produced: nat,
    channel: seq<nat>,
    channelClosed: bool,
    workers: seq<Worker>,
    errs: seq<Report>,
    errsClosed: bool,
    /** Whether something was ever sent on the closed `errs` channel. */
    panicked: bool,
    /** The statements that were run in parallel, in order. */
    ran: seq<nat>,
    collected: seq<Report>,
    sequential: seq<nat>,
    next: nat,
    succeeded: seq<nat>,
    failures: seq<nat>)

  datatype Action =
    | Produce | CloseChannel
    | Receive(w: nat) | Execute(w: nat, answer: Answer) | Send(w: nat) | Finish(w: nat)
    | Collect | CloseErrs
    | RunNext(ok: bool)

  function Start(c: Config): State {
    State(0, [], false, seq(c.Workers(), i => Idle), [], false, false, [], [], [], 0, [], [])
  }

  predicate Enabled(c: Config, s: State, a: Action) {
    match a
    case Produce => s.produced < c.creates && |s.channel| < c.concurrency
    case CloseChannel => s.produced == c.creates && !s.channelClosed
    case Receive(w) => w < |s.workers| && s.workers[w].Idle? && |s.channel| > 0
    case Finish(w) => w < |s.workers| && s.workers[w].Idle? && |s.channel| == 0 && s.channelClosed
    case Execute(w, _) => w < |s.workers| && s.workers[w].Executing?
    case Send(w) => w < |s.workers| && s.workers[w].Sending? && (s.errsClosed || |s.errs| < c.concurrency)
    case Collect => |s.collected| < c.creates && |s.errs| > 0
    case CloseErrs => |s.collected| == c.creates && !s.errsClosed
    case RunNext(_) => s.errsClosed && s.next < |s.sequential|
  }

  function Next(c: Config, s: State, a: Action): State
    requires Enabled(c, s, a)
  {
    match a
    case Produce => s.(produced := s.produced + 1, channel := s.channel + [s.produced])
    case CloseChannel => s.(channelClosed := true)
    case Receive(w) => s.(channel := s.channel[1..], workers := s.workers[w := Executing(s.channel[0])])
    case Finish(w) => s.(workers := s.workers[w := Done])
    case Execute(w, answer) =>
      var stmt := s.workers[w].stmt;
      s.(workers := s.workers[w := Sending(stmt, answer)], ran := s.ran + [stmt],
         succeeded := if answer.Ok? then s.succeeded + [stmt] else s.succeeded)
    case Send(w) =>
      if s.errsClosed then s.(panicked := true, workers := s.workers[w := Done])
      else s.(errs := s.errs + [Report(s.workers[w].stmt, s.workers[w].answer)], workers := s.workers[w := Idle])
    case Collect =>
      var r := s.errs[0];
      s.(errs := s.errs[1..], collected := s.collected + [r],
         sequential := if r.answer.Retryable? then s.sequential + [r.stmt] else s.sequential,
         failures := if r.answer.Fatal? then s.failures + [r.stmt] else s.failures)
    case CloseErrs => s.(errsClosed := true, sequential := s.sequential + seq(c.alters, i => c.creates + i))
    case RunNext(ok) =>
      var stmt := s.sequential[s.next];
      if ok then s.(next := s.next + 1, succeeded := s.succeeded + [stmt])
      else s.(next := s.next + 1, failures := s.failures + [stmt])
  }

  // ----- who holds which statement -----

  function B(b: bool): nat {
    if b then 1 else 0
  }

  /** The sum of `of` over the workers. */
  function Sum(workers: seq<Worker>, of: Worker -> nat): nat {
    if |workers| == 0 then 0 else Sum(workers[..|workers| - 1], of) + of(workers[|workers| - 1])
  }

  function Executes(k: nat): Worker -> nat { (w: Worker) => B(w.Executing? && w.stmt == k) }
  function Sends(k: nat): Worker -> nat { (w: Worker) => B(w.Sending? && w.stmt == k) }
  function SendsOk(k: nat): Worker -> nat { (w: Worker) => B(w.Sending? && w.stmt == k && w.answer.Ok?) }
  function AnyExecuting(w: Worker): nat { B(w.Executing?) }
  function AnySending(w: Worker): nat { B(w.Sending?) }
  function Alive(w: Worker): nat { B(!w.Done?) }

  lemma {:induction false} SumUpdate(workers: seq<Worker>, w: nat, x: Worker, of: Worker -> nat)
    requires w < |workers|
    ensures Sum(workers[w := x], of) + of(workers[w]) == Sum(workers, of) + of(x)
  {
    var last := |workers| - 1;
    if w < last {
      SumUpdate(workers[..last], w, x, of);
      assert workers[w := x][..last] == workers[..last][w := x];
    } else {
      assert workers[w := x][..last] == workers[..last];
    }
  }

  lemma {:induction false} SumHas(workers: seq<Worker>, w: nat, of: Worker -> nat)
    requires w < |workers|
    ensures of(workers[w]) <= Sum(workers, of)
  {
    if w < |workers| - 1 {
      SumHas(workers[..|workers| - 1], w, of);
    }
  }

  lemma {:induction false} SumZero(workers: seq<Worker>, of: Worker -> nat)
    requires forall i :: 0 <= i < |workers| ==> of(workers[i]) == 0
    ensures Sum(workers, of) == 0
  {
    if |workers| > 0 {
      SumZero(workers[..|workers| - 1], of);
    }
  }

  /** How often `k` occurs. */
  function Count(s: seq<nat>, k: nat): nat {
    if |s| == 0 then 0 else Count(s[..|s| - 1], k) + B(s[|s| - 1] == k)
  }

  /** How many reports on statement `k` have the given answer. */
  function Reports(rs: seq<Report>, k: nat, answer: Answer): nat {
    if |rs| == 0 then 0 else Reports(rs[..|rs| - 1], k, answer) + B(rs[|rs| - 1] == Report(k, answer))
  }

  function ReportsOn(rs: seq<Report>, k: nat): nat {
    Reports(rs, k, Ok) + Reports(rs, k, Retryable) + Reports(rs, k, Fatal)
  }

  lemma {:induction false} CountConcat(a: seq<nat>, b: seq<nat>, k: nat)
    ensures Count(a + b, k) == Count(a, k) + Count(b, k)
  {
    if |b| == 0 {
      assert a + b == a;
    } else {
      assert (a + b)[..|a + b| - 1] == a + b[..|b| - 1];
      CountConcat(a, b[..|b| - 1], k);
    }
  }

  lemma CountAppend(s: seq<nat>, x: nat, k: nat)
    ensures Count(s + [x], k) == Count(s, k) + B(x == k)
  {
    assert (s + [x])[..|s|] == s;
  }

  lemma CountTail(s: seq<nat>, k: nat)
    requires |s| > 0
    ensures Count(s, k) == B(s[0] == k) + Count(s[1..], k)
  {
    assert s == [s[0]] + s[1..];
    CountConcat([s[0]], s[1..], k);
    assert [s[0]][..0] == [];
  }

  lemma ReportsAppend(rs: seq<Report>, r: Report, k: nat)
    ensures forall answer :: Reports(rs + [r], k, answer) == Reports(rs, k, answer) + B(r == Report(k, answer))
    ensures ReportsOn(rs + [r], k) == ReportsOn(rs, k) + B(r.stmt == k)
  {
    assert (rs + [r])[..|rs|] == rs;
    match r.answer
    case Ok =>
    case Retryable =>
    case Fatal =>
  }

  lemma {:induction false} ReportsTail(rs: seq<Report>, k: nat, answer: Answer)
    requires |rs| > 0
    ensures Reports(rs, k, answer) == B(rs[0] == Report(k, answer)) + Reports(rs[1..], k, answer)
  {
    if |rs| > 1 {
      var init := rs[..|rs| - 1];
      ReportsTail(init, k, answer);
      assert rs[1..][..|rs| - 2] == init[1..];
    } else {
      assert rs[1..] == [] && rs[..0] == [];
    }
  }
}
