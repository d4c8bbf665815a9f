// Safety of the workspace executor over every interleaving
// (internal/workspace/workspace.go, ExecLogicalSchema).

module WorkspaceSafety {
  import opened Wrappers
  import opened Workspace

  /** Bounds on the channels, and what a closed channel or a finished goroutine means. */
  ghost predicate Shape(c: Config, s: State) {
    && |s.workers| == c.Workers()
    && s.produced <= c.creates && |s.channel| <= c.concurrency && |s.errs| <= c.concurrency
        && |s.collected| <= c.creates
    && (s.channelClosed ==> s.produced == c.creates)
    && (forall w :: 0 <= w < |s.workers| && s.workers[w].Done? ==> s.channelClosed && s.channel == [])
    && (s.errsClosed ==> |s.collected| == c.creates)
    && !s.panicked && s.next <= |s.sequential|
  }

  /** Every statement produced so far is in exactly one place. */
  ghost predicate Counted(s: State) {
    && s.produced == |s.channel| + Sum(s.workers, AnyExecuting) + |s.ran|
    && |s.ran| == Sum(s.workers, AnySending) + |s.errs| + |s.collected|
  }

  ghost predicate ConservedFor(s: State, k: nat) {
    && B(k < s.produced) == Count(s.channel, k) + Sum(s.workers, Executes(k)) + Count(s.ran, k)
    && Count(s.ran, k) == Sum(s.workers, Sends(k)) + ReportsOn(s.errs, k) + ReportsOn(s.collected, k)
  }

  /** Success and failure are recorded exactly once per statement. */
  ghost predicate AccountedFor(c: Config, s: State, k: nat)
    requires s.next <= |s.sequential|
  {
    if s.errsClosed then
      Count(s.succeeded, k) + Count(s.failures, k) + Count(s.sequential[s.next..], k) == B(k < c.creates + c.alters)
    else
      && s.next == 0
      && Count(s.sequential, k) == Reports(s.collected, k, Retryable)
      && Count(s.failures, k) == Reports(s.collected, k, Fatal)
      && Count(s.succeeded, k) == Sum(s.workers, SendsOk(k)) + Reports(s.errs, k, Ok) + Reports(s.collected, k, Ok)
  }

  ghost predicate Inv(c: Config, s: State) {
    && Shape(c, s) && Counted(s)
    && forall k: nat :: ConservedFor(s, k) && AccountedFor(c, s, k)
  }

  // ----- consequences of the invariant -----

  /** Once all reports are in, nothing is left anywhere else. */
  lemma AllReported(c: Config, s: State)
    requires Shape(c, s) && Counted(s) && |s.collected| == c.creates
    ensures s.produced == c.creates && s.channel == [] && s.errs == []
    ensures forall w :: 0 <= w < |s.workers| ==> s.workers[w].Idle? || s.workers[w].Done?
  {
    forall w | 0 <= w < |s.workers| ensures s.workers[w].Idle? || s.workers[w].Done? {
      SumHas(s.workers, w, AnyExecuting);
      SumHas(s.workers, w, AnySending);
    }
  }

  /** Nothing is sent on `errs` after it was closed, and nothing is running any more. */
  lemma NoSendAfterClose(c: Config, s: State)
    requires Inv(c, s) && s.errsClosed
    ensures forall w: nat :: !Enabled(c, s, Send(w)) && !Enabled(c, s, Receive(w))
    ensures forall w: nat, answer :: !Enabled(c, s, Execute(w, answer))
    ensures s.errs == []
  {
    hide ConservedFor, AccountedFor;
    AllReported(c, s);
  }

  // ----- the invariant holds initially and is preserved -----

  lemma StartInv(c: Config)
    ensures Inv(c, Start(c))
  {
    var s := Start(c);
    SumZero(s.workers, AnyExecuting);
    SumZero(s.workers, AnySending);
    forall k: nat ensures ConservedFor(s, k) && AccountedFor(c, s, k) {
      SumZero(s.workers, Executes(k));
      SumZero(s.workers, Sends(k));
      SumZero(s.workers, SendsOk(k));
    }
  }

  predicate OfWorker(a: Action) {
    a.Receive? || a.Execute? || a.Send? || a.Finish?
  }

  lemma ShapeStep(c: Config, s: State, a: Action)
    requires Inv(c, s) && Enabled(c, s, a)
    ensures Shape(c, Next(c, s, a))
  {
    hide Counted, ConservedFor, AccountedFor;
    if s.errsClosed {
      NoSendAfterClose(c, s);
    }
    if OfWorker(a) {
      assert forall i :: 0 <= i < |s.workers| && i != a.w ==> Next(c, s, a).workers[i] == s.workers[i];
      hide Config.Workers;
    }
  }

  lemma CountedStep(c: Config, s: State, a: Action)
    requires Inv(c, s) && Enabled(c, s, a)
    ensures Counted(Next(c, s, a))
  {
    hide ConservedFor, AccountedFor, Sum;
    if s.errsClosed {
      NoSendAfterClose(c, s);
    }
    hide Shape;
    if OfWorker(a) {
      SumUpdate(s.workers, a.w, Next(c, s, a).workers[a.w], AnyExecuting);
      SumUpdate(s.workers, a.w, Next(c, s, a).workers[a.w], AnySending);
    }
  }

  lemma ConservedStep(c: Config, s: State, a: Action, k: nat)
    requires Inv(c, s) && Enabled(c, s, a)
    ensures ConservedFor(Next(c, s, a), k)
  {
    hide Sum, Count, Reports, Inv;
    OpenOrQuiet(c, s, a, k);
    if OfWorker(a) {
      WorkerConserves(c, s, a, k);
    } else if a.Produce? {
      CountAppend(s.channel, s.produced, k);
    } else if a.Collect? {
      ReportsTail(s.errs, k, Ok);
      ReportsTail(s.errs, k, Retryable);
      ReportsTail(s.errs, k, Fatal);
      ReportsAppend(s.collected, s.errs[0], k);
    }
  }

  lemma WorkerConserves(c: Config, s: State, a: Action, k: nat)
    requires ConservedFor(s, k) && Enabled(c, s, a) && OfWorker(a) && (s.errsClosed ==> !a.Send?)
    ensures ConservedFor(Next(c, s, a), k)
  {
    hide Sum, Count, Reports, ReportsOn;
    var x := Next(c, s, a).workers[a.w];
    SumUpdate(s.workers, a.w, x, Executes(k));
    SumUpdate(s.workers, a.w, x, Sends(k));
    match a
    case Receive(w) => CountTail(s.channel, k);
    case Execute(w, answer) => CountAppend(s.ran, s.workers[w].stmt, k);
    case Send(w) => ReportsAppend(s.errs, Report(s.workers[w].stmt, s.workers[w].answer), k);
    case Finish(w) =>
  }

  lemma OpenOrQuiet(c: Config, s: State, a: Action, k: nat)
    requires Inv(c, s) && Enabled(c, s, a)
    ensures ConservedFor(s, k) && s.next <= |s.sequential| && AccountedFor(c, s, k)
    ensures s.errsClosed ==> !a.Send? && !a.Receive? && !a.Execute? && !a.Collect?
  {
    if s.errsClosed {
      NoSendAfterClose(c, s);
    }
  }

  lemma AccountedStep(c: Config, s: State, a: Action, k: nat)
    requires Inv(c, s) && Enabled(c, s, a) && Next(c, s, a).next <= |Next(c, s, a).sequential|
    ensures AccountedFor(c, Next(c, s, a), k)
  {
    hide Sum, Count, Reports, Inv;
    var n := Next(c, s, a);
    OpenOrQuiet(c, s, a, k);
    match a
    case Receive(_) => WorkerKeepsAccount(c, s, a, k);
    case Execute(_, _) => WorkerKeepsAccount(c, s, a, k);
    case Send(_) => WorkerKeepsAccount(c, s, a, k);
    case Finish(_) => WorkerKeepsAccount(c, s, a, k);
    case Collect =>
      var r := s.errs[0];
      ReportsTail(s.errs, k, Ok);
      ReportsAppend(s.collected, r, k);
      CountAppend(s.sequential, r.stmt, k);
      CountAppend(s.failures, r.stmt, k);
    case CloseErrs => CloseAccounts(c, s, k);
    case RunNext(ok) =>
      var stmt := s.sequential[s.next];
      CountTail(s.sequential[s.next..], k);
      assert s.sequential[s.next..][1..] == n.sequential[n.next..];
      CountAppend(s.succeeded, stmt, k);
      CountAppend(s.failures, stmt, k);
    case _ =>
  }

  lemma WorkerKeepsAccount(c: Config, s: State, a: Action, k: nat)
    requires Inv(c, s) && Enabled(c, s, a) && OfWorker(a) && Next(c, s, a).next <= |Next(c, s, a).sequential|
    ensures AccountedFor(c, Next(c, s, a), k)
  {
    hide Sum, Count, Reports, Inv;
    OpenOrQuiet(c, s, a, k);
    SumUpdate(s.workers, a.w, Next(c, s, a).workers[a.w], SendsOk(k));
    match a
    case Execute(w, answer) => CountAppend(s.succeeded, s.workers[w].stmt, k);
    case Send(w) => ReportsAppend(s.errs, Report(s.workers[w].stmt, s.workers[w].answer), k);
    case _ =>
  }

  lemma {:induction false} NumberedAlters(creates: nat, alters: nat, k: nat)
    ensures Count(seq(alters, i => creates + i), k) == B(creates <= k < creates + alters)
  {
    if alters > 0 {
      NumberedAlters(creates, alters - 1, k);
      assert seq(alters, i => creates + i)[..alters - 1] == seq(alters - 1, i => creates + i);
    }
  }

  /** When the collector is done, each CREATE was run once, and has one report. */
  lemma EachRanOnce(c: Config, s: State, k: nat)
    requires Inv(c, s) && |s.collected| == c.creates
    ensures Count(s.ran, k) == B(k < c.creates) == ReportsOn(s.collected, k) && Sum(s.workers, SendsOk(k)) == 0
  {
    assert ConservedFor(s, k);
    hide AccountedFor, Count;
    AllReported(c, s);
    SumZero(s.workers, Executes(k));
    SumZero(s.workers, Sends(k));
    SumZero(s.workers, SendsOk(k));
    assert Count(s.channel, k) == 0 by { CountNone(k); }
  }

  lemma CountNone(k: nat)
    ensures Count([], k) == 0
  {
  }

  lemma CloseAccounts(c: Config, s: State, k: nat)
    requires Inv(c, s) && Enabled(c, s, CloseErrs)
    ensures Next(c, s, CloseErrs).next == 0 && AccountedFor(c, Next(c, s, CloseErrs), k)
  {
    hide Sum, Count, Reports, ConservedFor;
    var n, added := Next(c, s, CloseErrs), seq(c.alters, i => c.creates + i);
    assert AccountedFor(c, s, k);
    AllReported(c, s);
    EachRanOnce(c, s, k);
    NumberedAlters(c.creates, c.alters, k);
    CountConcat(s.sequential, added, k);
    assert Reports(s.errs, k, Ok) == 0 by { NoReports(s.errs, k); }
    assert n.sequential[0..] == s.sequential + added;
  }

  lemma NoReports(rs: seq<Report>, k: nat)
    requires rs == []
    ensures Reports(rs, k, Ok) == 0
  {
  }

  lemma StepInv(c: Config, s: State, a: Action)
    requires Inv(c, s) && Enabled(c, s, a)
    ensures Inv(c, Next(c, s, a))
  {
    hide Counted, ConservedFor, AccountedFor, Next, Enabled;
    ShapeStep(c, s, a);
    CountedStep(c, s, a);
    forall k: nat ensures ConservedFor(Next(c, s, a), k) && AccountedFor(c, Next(c, s, a), k) {
      ConservedStep(c, s, a, k);
      AccountedStep(c, s, a, k);
    }
  }

  // ----- progress -----

  /** Everything is over: the caller returned and no goroutine is left. */
  ghost predicate Over(c: Config, s: State) {
    && s.errsClosed && s.next == |s.sequential| && s.channelClosed
    && forall w :: 0 <= w < |s.workers| ==> s.workers[w].Done?
  }

  /** There is a worker, unless there is nothing for it to do. OptionsForDir
      guarantees it, since it refuses less than one thread. */
  predicate Staffed(c: Config) {
    c.concurrency >= 1 || c.creates == 0
  }

  /** As long as not everything is over, some goroutine can move. */
  lemma NoDeadlock(c: Config, s: State) returns (a: Action)
    requires Staffed(c) && Inv(c, s) && !Over(c, s)
    ensures Enabled(c, s, a)
  {
    hide ConservedFor, AccountedFor;
    if w: nat :| w < |s.workers| && s.workers[w].Executing? {
      return Execute(w, Ok);
    }
    if |s.errs| > 0 {
      assert |s.collected| < c.creates by { CountsFit(c, s); }
      return Collect;
    }
    if w: nat :| w < |s.workers| && s.workers[w].Sending? {
      return Send(w);
    }
    if w: nat :| w < |s.workers| && s.workers[w].Idle? {
      a := IdleMoves(c, s, w);
    } else {
      a := AllDoneMoves(c, s);
    }
  }

  lemma CountsFit(c: Config, s: State)
    requires Shape(c, s) && Counted(s)
    ensures |s.errs| + |s.collected| <= c.creates
  {
  }

  lemma IdleMoves(c: Config, s: State, w: nat) returns (a: Action)
    requires Staffed(c) && Shape(c, s) && w < |s.workers| && s.workers[w].Idle?
    ensures Enabled(c, s, a)
  {
    if |s.channel| > 0 {
      return Receive(w);
    } else if s.produced < c.creates {
      return Produce;
    } else if !s.channelClosed {
      return CloseChannel;
    }
    return Finish(w);
  }

  lemma AllDoneMoves(c: Config, s: State) returns (a: Action)
    requires Staffed(c) && Shape(c, s) && Counted(s) && !Over(c, s) && s.errs == []
    requires forall w :: 0 <= w < |s.workers| ==> s.workers[w].Done?
    ensures Enabled(c, s, a)
  {
    SumZero(s.workers, AnyExecuting);
    SumZero(s.workers, AnySending);
    if |s.workers| > 0 {
      assert s.workers[0].Done?;
    }
    if !s.channelClosed {
      return CloseChannel;
    } else if !s.errsClosed {
      return CloseErrs;
    }
    return RunNext(true);
  }

  /** Without a worker, a non-empty list of CREATEs would hang from the start: the first step
      exists if and only if the executor is staffed. */
  lemma StartsIffStaffed(c: Config)
    ensures (exists a :: Enabled(c, Start(c), a)) <==> Staffed(c)
  {
    var s := Start(c);
    if Staffed(c) {
      StartInv(c);
      assert Enabled(c, s, if c.creates == 0 then CloseChannel else Produce);
    }
  }

  /** Decreases with every action, so there are no infinite interleavings. */
  ghost function Measure(c: Config, s: State): nat
    requires Shape(c, s)
  {
    6 * (c.creates - s.produced) + 5 * |s.channel| + 4 * Sum(s.workers, AnyExecuting) + 3 * Sum(s.workers, AnySending)
        + 2 * |s.errs|
    + B(!s.channelClosed) + Sum(s.workers, Alive)
    + (if s.errsClosed then 0 else 1 + c.alters) + (|s.sequential| - s.next)
  }

  lemma MeasureDecreases(c: Config, s: State, a: Action)
    requires Inv(c, s) && Enabled(c, s, a)
    ensures Shape(c, Next(c, s, a)) && Measure(c, Next(c, s, a)) < Measure(c, s)
  {
    hide Sum, Counted, ConservedFor, AccountedFor, Count, Reports;
    ShapeStep(c, s, a);
    OpenOrQuiet(c, s, a, 0);
    hide Inv, Shape;
    if OfWorker(a) {
      WorkerDecreases(c, s, a);
    }
  }

  lemma WorkerDecreases(c: Config, s: State, a: Action)
    requires Shape(c, s) && Enabled(c, s, a) && OfWorker(a) && Shape(c, Next(c, s, a)) && (s.errsClosed ==> a.Finish?)
    ensures Measure(c, Next(c, s, a)) < Measure(c, s)
  {
    hide Sum, Shape, Next, Enabled, AnyExecuting, AnySending, Alive;
    var n := Next(c, s, a);
    WorkerMoves(c, s, a);
    SumUpdate(s.workers, a.w, n.workers[a.w], AnyExecuting);
    SumUpdate(s.workers, a.w, n.workers[a.w], AnySending);
    SumUpdate(s.workers, a.w, n.workers[a.w], Alive);
  }

  /** What one action of a worker does to the parts of the measure. */
  lemma WorkerMoves(c: Config, s: State, a: Action)
    requires Enabled(c, s, a) && OfWorker(a) && (s.errsClosed ==> a.Finish?)
    ensures a.w < |s.workers| == |Next(c, s, a).workers|
    ensures var n, x, y := Next(c, s, a), s.workers[a.w], Next(c, s, a).workers[a.w];
            && 5 * |n.channel| + 4 * AnyExecuting(y) + 3 * AnySending(y) + 2 * |n.errs| + Alive(y)
               < 5 * |s.channel| + 4 * AnyExecuting(x) + 3 * AnySending(x) + 2 * |s.errs| + Alive(x)
            && n.produced == s.produced && n.channelClosed == s.channelClosed && n.errsClosed == s.errsClosed
            && n.sequential == s.sequential && n.next == s.next && n.workers == s.workers[a.w := y]
  {
    match a
    case Receive(w) =>
    case Execute(w, answer) =>
    case Send(w) =>
    case Finish(w) =>
  }

  // ----- whole runs -----

  /** `actions` is an interleaving that leads from `s` to the result. */
  ghost function Outcome(c: Config, s: State, actions: seq<Action>): Option<State>
    decreases |actions|
  {
    if |actions| == 0 then Some(s)
    else if Enabled(c, s, actions[0]) then Outcome(c, Next(c, s, actions[0]), actions[1..])
    else None
  }

  lemma {:induction false} RunKeepsInv(c: Config, s: State, actions: seq<Action>)
    requires Inv(c, s) && Outcome(c, s, actions).Some?
    ensures Inv(c, Outcome(c, s, actions).value)
    ensures |actions| + Measure(c, Outcome(c, s, actions).value) <= Measure(c, s)
    decreases |actions|
  {
    if |actions| > 0 {
      hide Shape, Counted, ConservedFor, AccountedFor, Next, Enabled, Measure;
      StepInv(c, s, actions[0]);
      MeasureDecreases(c, s, actions[0]);
      RunKeepsInv(c, Next(c, s, actions[0]), actions[1..]);
    }
  }

  /** What a finished run achieved. */
  ghost predicate Complete(c: Config, s: State) {
    && !s.panicked
    && (forall k: nat :: Count(s.ran, k) == B(k < c.creates))
    && (forall k: nat :: Count(s.succeeded, k) + Count(s.failures, k) == B(k < c.creates + c.alters))
  }

  lemma OverIsComplete(c: Config, s: State)
    requires Inv(c, s) && Over(c, s)
    ensures Complete(c, s)
  {
    forall k: nat
      ensures Count(s.ran, k) == B(k < c.creates)
      ensures Count(s.succeeded, k) + Count(s.failures, k) == B(k < c.creates + c.alters)
    {
      EachRanOnce(c, s, k);
      assert AccountedFor(c, s, k);
      CountNone(k);
      assert s.sequential[s.next..] == [];
    }
  }

  /** With a worker, or nothing for it to do, every interleaving that cannot be continued is over, and
      it is over after a bounded number of steps: each CREATE was run exactly once in
      the parallel phase, nothing was sent on a closed channel, and every statement
      either succeeded exactly once or appears exactly once among the failures. */
  lemma EveryRunCompletes(c: Config, actions: seq<Action>)
    requires Staffed(c) && Outcome(c, Start(c), actions).Some?
    ensures Inv(c, Start(c)) && |actions| <= Measure(c, Start(c))
    ensures (forall a :: !Enabled(c, Outcome(c, Start(c), actions).value, a))
            ==> Over(c, Outcome(c, Start(c), actions).value) && Complete(c, Outcome(c, Start(c), actions).value)
  {
    hide Shape, Counted, ConservedFor, AccountedFor, Next, Enabled, Measure, Start, Over, Complete;
    StartInv(c);
    RunKeepsInv(c, Start(c), actions);
    var s := Outcome(c, Start(c), actions).value;
    if !Over(c, s) {
      var a := NoDeadlock(c, s);
    } else {
      OverIsComplete(c, s);
    }
  }

  /** A statement is retried exactly if its parallel run had a retryable error; a
      fatal error is final. */
  lemma RetriedIffRetryable(c: Config, s: State, k: nat)
    requires Inv(c, s) && Enabled(c, s, CloseErrs) && k < c.creates
    ensures var n := Next(c, s, CloseErrs);
            && Count(n.sequential, k) == Reports(s.collected, k, Retryable)
            && Count(n.failures, k) == Reports(s.collected, k, Fatal)
            && Reports(s.collected, k, Ok) + Reports(s.collected, k, Retryable) + Reports(s.collected, k, Fatal) == 1
  {
    EachRanOnce(c, s, k);
    assert AccountedFor(c, s, k);
    NumberedAlters(c.creates, c.alters, k);
    CountConcat(s.sequential, seq(c.alters, i => c.creates + i), k);
  }
}
