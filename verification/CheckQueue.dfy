module CheckQueue {

  /**
   The parallel check queue: one master and any number of workers share a stack of checks.

   Every critical section of `CCheckQueue::Loop` is one atomic step; running a check happens outside the lock.
   A run is an arbitrary sequence of steps, so every interleaving (spurious wake-ups included) is covered.
   Thread 0 is the master.  `round` and `answers` are history: the checks added since the last Complete, and
   what each Complete returned.
   */

  import opened Common

  /** `Deciding` is a thread inside its critical section; no other thread ever sees it. */
  datatype Pc = Outside | AtLock | Deciding | Asleep | Working | Stopped

  /** The locals of one call of Loop.  `batch` holds the checks of vChecks that were not run yet. */
  datatype Thread<T, R> = Thread(pc: Pc, nNow: nat, batch: seq<T>, localResult: Option<R>, doWork: bool, notified: bool)

  datatype Answer<T, R> = Answer(round: seq<T>, result: Option<R>)

  datatype State<T, R> = State(
    queue: seq<T>, nIdle: int, nTotal: int, result: Option<R>, nTodo: int, requestStop: bool,
    threads: seq<Thread<T, R>>, round: seq<T>, answers: seq<Answer<T, R>>)

  datatype Config<!T, !R> = Config(batchSize: nat, run: T -> Option<R>)

  datatype Step<T> =
    | Add(checks: seq<T>)   // the master pushes work
    | Enter(t: nat)         // a worker thread starts; the master calls Complete
    | Lock(t: nat)          // the critical section at the top of the do loop
    | Wake(t: nat)          // cond.wait returns, notified or not
    | RunCheck(t: nat)
    | Finish(t: nat)        // the batch is over
    | RequestStop           // the destructor

  const MASTER: nat := 0

  // ----- the steps

  predicate Enabled<T, R>(s: State<T, R>, step: Step<T>) {
    match step
    case Add(_) => MASTER < |s.threads| && s.threads[MASTER].pc.Outside? && !s.requestStop
    case Enter(t) => t < |s.threads| && s.threads[t].pc.Outside? && (t == MASTER ==> !s.requestStop)
    case Lock(t) => t < |s.threads| && s.threads[t].pc.AtLock?
    case Wake(t) => t < |s.threads| && s.threads[t].pc.Asleep?
    case RunCheck(t) => t < |s.threads| && s.threads[t].pc.Working? && s.threads[t].doWork && s.threads[t].batch != []
    case Finish(t) => t < |s.threads| && s.threads[t].pc.Working? && (!s.threads[t].doWork || s.threads[t].batch == [])
    case RequestStop => MASTER < |s.threads| && s.threads[MASTER].pc.Outside? && !s.requestStop
  }

  /** notify_one on the master's condition variable: lost unless the master is waiting. */
  function NotifyMaster<T, R>(threads: seq<Thread<T, R>>): seq<Thread<T, R>>
    requires MASTER < |threads|
  {
    if threads[MASTER].pc.Asleep? then threads[MASTER := threads[MASTER].(notified := true)] else threads
  }

  /** Clean-up of the previous loop run, or joining the pool on the first one. */
  function CleanUp<T, R>(s: State<T, R>, t: nat): State<T, R>
    requires t < |s.threads|
  {
    var th := s.threads[t];
    if th.nNow == 0 then s.(nTotal := s.nTotal + 1, threads := s.threads[t := th.(pc := Deciding)])
    else
      var swap := th.localResult.Some? && s.result.None?;
      var result := if swap then th.localResult else s.result;
      var threads := s.threads[t := th.(pc := Deciding, localResult := if swap then None else th.localResult)];
      s.(result := result, nTodo := s.nTodo - th.nNow,
         threads := if s.nTodo - th.nNow == 0 && t != MASTER then NotifyMaster(threads) else threads)
  }

  function Max(a: int, b: int): int { if a < b then b else a }
  function Min(a: int, b: int): int { if a < b then a else b }

  function BatchLength<T, R>(c: Config<T, R>, s: State<T, R>): (n: int)
    requires s.nTotal + s.nIdle + 1 > 0
    ensures s.queue != [] ==> 1 <= n <= |s.queue|
    ensures n <= Max(1, c.batchSize)
  {
    var share := |s.queue| / (s.nTotal + s.nIdle + 1);
    assert share <= |s.queue| by { DivideShrinks(|s.queue|, s.nTotal + s.nIdle + 1); }
    Max(1, Min(c.batchSize, share))
  }

  /** A batch is as large as leaves a batch of the same size to every thread, but at least 1 and at most the maximum. */
  lemma BatchIsShare<T, R>(c: Config<T, R>, s: State<T, R>, k: nat)
    requires s.nTotal + s.nIdle + 1 > 0
    ensures k <= BatchLength(c, s) <==> k <= 1 || (k <= c.batchSize && k * (s.nTotal + s.nIdle + 1) <= |s.queue|)
  {
    ShareIs(|s.queue|, s.nTotal + s.nIdle + 1, k);
  }

  lemma ShareIs(n: nat, d: nat, k: nat)
    requires d > 0
    ensures k <= n / d <==> k * d <= n
  {
    var q := n / d;
    assert n == q * d + n % d;
    if k <= q { assert k * d <= q * d; } else { assert k * d >= (q + 1) * d == q * d + d; }
  }

  lemma MultiplyGrows(q: nat, d: nat)
    requires d > 0
    ensures q * d >= q
  {
  }

  lemma DivideShrinks(a: nat, d: nat)
    requires d > 0
    ensures a / d <= a
  {
    MultiplyGrows(a / d, d);
    assert a == (a / d) * d + a % d;
  }

  /** The `while (queue.empty())` loop up to its next wait, and what follows it. */
  function Decide<T, R>(c: Config<T, R>, s: State<T, R>, t: nat): State<T, R>
    requires t < |s.threads| && s.nTotal + s.nIdle + 1 > 0
  {
    var th := s.threads[t];
    if s.queue == [] && !s.requestStop then
      if t == MASTER && s.nTodo == 0 then
        s.(nTotal := s.nTotal - 1, result := None, round := [], answers := s.answers + [Answer(s.round, s.result)],
           threads := s.threads[t := Thread(Outside, 0, [], None, false, false)])
      else
        s.(nIdle := s.nIdle + 1, threads := s.threads[t := th.(pc := Asleep, notified := false)])
    else if s.requestStop then
      s.(threads := s.threads[t := th.(pc := Stopped)])
    else
      var n := BatchLength(c, s);
      s.(queue := s.queue[..|s.queue| - n],
         threads := s.threads[t := th.(pc := Working, nNow := n, batch := s.queue[|s.queue| - n..],
                                       doWork := s.result.None?, notified := false)])
  }

  function WakeUp<T, R>(s: State<T, R>, t: nat): State<T, R>
    requires t < |s.threads|
  {
    s.(nIdle := s.nIdle - 1, threads := s.threads[t := s.threads[t].(pc := Deciding)])
  }

  /** The divisor in the batch size is positive; every reachable state satisfies this. */
  predicate Sane<T, R>(s: State<T, R>, step: Step<T>) { s.nTotal >= 0 && s.nIdle >= if step.Wake? then 1 else 0 }

  function Next<T, R>(c: Config<T, R>, s: State<T, R>, step: Step<T>): State<T, R>
    requires Enabled(s, step) && Sane(s, step)
  {
    match step
    case Add(checks) => s.(queue := s.queue + checks, nTodo := s.nTodo + |checks|, round := s.round + checks)
    case Enter(t) => s.(threads := s.threads[t := Thread(AtLock, 0, [], None, false, false)])
    case Lock(t) => Decide(c, CleanUp(s, t), t)
    case Wake(t) => Decide(c, WakeUp(s, t), t)
    case RunCheck(t) =>
      var th := s.threads[t];
      var r := c.run(th.batch[0]);
      s.(threads := s.threads[t := if r.Some? then th.(pc := AtLock, batch := [], localResult := r)
                                   else th.(batch := th.batch[1..], localResult := r)])
    case Finish(t) => s.(threads := s.threads[t := s.threads[t].(pc := AtLock, batch := [])])
    case RequestStop => s.(requestStop := true)
  }

  // ----- sums over threads

  datatype Kind = InFlight | Idle | Total | Work

  predicate HasBatch<T, R>(th: Thread<T, R>) { th.pc.Working? || (th.pc.AtLock? && th.nNow > 0) }
  predicate Joined<T, R>(th: Thread<T, R>)
    { th.pc.Deciding? || th.pc.Asleep? || th.pc.Working? || th.pc.Stopped? || (th.pc.AtLock? && th.nNow > 0) }

  /** Work is how many more steps a thread can take before it has to wait for new checks. */
  function Weigh<T, R>(k: Kind, t: nat, th: Thread<T, R>): nat {
    match k
    case InFlight => if HasBatch(th) then th.nNow else 0
    case Idle => if th.pc.Asleep? then 1 else 0
    case Total => if Joined(th) then 1 else 0
    case Work =>
      match th.pc
      case Outside => if t == MASTER then 0 else 3
      case AtLock => 2
      case Deciding => 0
      case Asleep => if th.notified then 1 else 0
      case Working => 3 + |th.batch|
      case Stopped => 0
  }

  ghost function Sum<T, R>(k: Kind, ts: seq<Thread<T, R>>, n: nat := |ts|): nat
    requires n <= |ts|
  {
    if n == 0 then 0 else Sum(k, ts, n - 1) + Weigh(k, n - 1, ts[n - 1])
  }

  lemma {:induction false} SumUpdate<T, R>(k: Kind, ts: seq<Thread<T, R>>, i: nat, th: Thread<T, R>, n: nat)
    requires i < |ts| && n <= |ts|
    ensures Sum(k, ts[i := th], n) == if i < n then Sum(k, ts, n) - Weigh(k, i, ts[i]) + Weigh(k, i, th) else Sum(k, ts,
            n)
  {
    if n > 0 { SumUpdate(k, ts, i, th, n - 1); }
  }

  lemma {:induction false} SumAtLeast<T, R>(k: Kind, ts: seq<Thread<T, R>>, i: nat, n: nat)
    requires i < n <= |ts|
    ensures Sum(k, ts, n) >= Weigh(k, i, ts[i])
  {
    if i < n - 1 { SumAtLeast(k, ts, i, n - 1); }
  }

  lemma {:induction false} SumPositive<T, R>(k: Kind, ts: seq<Thread<T, R>>, n: nat) returns (i: nat)
    requires n <= |ts| && Sum(k, ts, n) > 0
    ensures i < n && Weigh(k, i, ts[i]) > 0
  {
    if Weigh(k, n - 1, ts[n - 1]) > 0 {
      i := n - 1;
    } else {
      i := SumPositive(k, ts, n - 1);
    }
  }

  // ----- the invariant

  ghost predicate FromRound<T, R>(c: Config<T, R>, round: seq<T>, r: R) {
    exists x :: x in round && c.run(x) == Some(r)
  }

  ghost predicate Covers<T>(round: seq<T>, some: seq<T>) {
    forall x :: x in some ==> x in round
  }

  ghost predicate ThreadOk<T, R>(c: Config<T, R>, round: seq<T>, result: Option<R>, th: Thread<T, R>) {
    && (HasBatch(th) ==> th.nNow > 0 && (!th.doWork ==> result.Some?))
    && (th.pc.Working? ==> |th.batch| <= th.nNow && Covers(round, th.batch))
    && (th.pc.Working? && th.doWork && |th.batch| < th.nNow ==> th.localResult.None?)
    && (th.pc.AtLock? && th.nNow > 0 && th.doWork && th.localResult.Some? ==> FromRound(c, round, th.localResult.value))
  }

  /** A failing check of this round is not forgotten: a thread still has it, or carries a failure. */
  ghost predicate Holds<T, R>(th: Thread<T, R>, x: T) {
    && th.doWork
    && ((th.pc.Working? && x in th.batch) || (th.pc.AtLock? && th.nNow > 0 && th.localResult.Some?))
  }

  ghost predicate Pending<T, R>(s: State<T, R>, x: T) {
    x in s.queue || exists t :: 0 <= t < |s.threads| && Holds(s.threads[t], x)
  }

  ghost predicate Counts<T, R>(s: State<T, R>) {
    && s.nTodo == |s.queue| + Sum(InFlight, s.threads)
    && s.nIdle == Sum(Idle, s.threads)
    && s.nTotal == Sum(Total, s.threads)
  }

  ghost predicate Results<T, R>(c: Config<T, R>, s: State<T, R>) {
    && Covers(s.round, s.queue)
    && (s.result.Some? ==> FromRound(c, s.round, s.result.value))
    && (s.result.None? ==> forall x :: x in s.round && c.run(x).Some? ==> Pending(s, x))
    && (forall t :: 0 <= t < |s.threads| ==> ThreadOk(c, s.round, s.result, s.threads[t]))
  }

  /** The master waits only while a worker still has to report; once told, there is nothing left to do. */
  ghost predicate MasterOk<T, R>(s: State<T, R>) {
    && MASTER < |s.threads|
    && (s.threads[MASTER].pc.Asleep? ==> s.queue == [])
    && (s.threads[MASTER].pc.Asleep? && !s.threads[MASTER].notified ==> s.nTodo > 0)
    && (s.threads[MASTER].pc.Asleep? && s.threads[MASTER].notified ==> s.nTodo == 0)
    && (s.requestStop ==> s.threads[MASTER].pc.Outside?)
    && !s.threads[MASTER].pc.Stopped?
  }

  /** Between steps no thread is inside its critical section. */
  ghost predicate Quiet<T, R>(s: State<T, R>) {
    forall t :: 0 <= t < |s.threads| ==> !s.threads[t].pc.Deciding?
  }

  ghost predicate AnswerOk<T, R>(c: Config<T, R>, a: Answer<T, R>) {
    && (a.result.None? <==> forall x :: x in a.round ==> c.run(x).None?)
    && (a.result.Some? ==> FromRound(c, a.round, a.result.value))
  }

  ghost predicate Answers<T, R>(c: Config<T, R>, s: State<T, R>) {
    forall i :: 0 <= i < |s.answers| ==> AnswerOk(c, s.answers[i])
  }

  ghost predicate Inv<T, R>(c: Config<T, R>, s: State<T, R>) {
    Counts(s) && Results(c, s) && MasterOk(s) && Answers(c, s)
  }

  // ----- every step keeps the invariant

  lemma InvIsSane<T, R>(c: Config<T, R>, s: State<T, R>, step: Step<T>)
    requires Inv(c, s) && Enabled(s, step)
    ensures Sane(s, step)
  {
    if step.Wake? { SumAtLeast(Idle, s.threads, step.t, |s.threads|); }
  }

  lemma SumsUpdate<T, R>(ts: seq<Thread<T, R>>, i: nat, th: Thread<T, R>)
    requires i < |ts|
    ensures forall k :: Sum(k, ts[i := th]) == Sum(k, ts) - Weigh(k, i, ts[i]) + Weigh(k, i, th)
  {
    forall k ensures Sum(k, ts[i := th]) == Sum(k, ts) - Weigh(k, i, ts[i]) + Weigh(k, i, th) {
      SumUpdate(k, ts, i, th, |ts|);
    }
  }

  lemma RoundGrows<T, R>(c: Config<T, R>, round: seq<T>, more: seq<T>, result: Option<R>, th: Thread<T, R>)
    requires ThreadOk(c, round, result, th)
    ensures ThreadOk(c, round + more, result, th)
  {
    if th.localResult.Some? && FromRound(c, round, th.localResult.value) {
      var x :| x in round && c.run(x) == Some(th.localResult.value);
      assert x in round + more;
    }
  }

  lemma AddKeeps<T, R>(c: Config<T, R>, s: State<T, R>, checks: seq<T>)
    requires Inv(c, s) && Enabled(s, Add(checks))
    ensures Inv(c, Next(c, s, Add(checks)))
  {
    var s' := Next(c, s, Add(checks));
    forall t | 0 <= t < |s'.threads| ensures ThreadOk(c, s'.round, s'.result, s'.threads[t]) {
      RoundGrows(c, s.round, checks, s.result, s.threads[t]);
    }
    if s.result.Some? {
      var x :| x in s.round && c.run(x) == s.result;
      assert x in s'.round;
    } else {
      forall x | x in s'.round && c.run(x).Some? ensures Pending(s', x) {
        if x in s.round { assert Pending(s, x); }
      }
    }
  }

  /** One thread changes outside the lock; nothing it had to report gets lost. */
  lemma ThreadMoves<T, R>(c: Config<T, R>, s: State<T, R>, t: nat, th: Thread<T, R>, s': State<T, R>)
    requires Results(c, s) && t < |s.threads|
    requires s' == s.(threads := s.threads[t := th])
    requires ThreadOk(c, s.round, s.result, th)
    requires s.result.None? ==> forall x :: x in s.round && c.run(x).Some? && Holds(s.threads[t], x) ==> Holds(th, x)
    ensures Results(c, s')
  {
    if s.result.None? {
      forall x | x in s'.round && c.run(x).Some? ensures Pending(s', x) {
        assert Pending(s, x);
        if x !in s.queue {
          var i :| 0 <= i < |s.threads| && Holds(s.threads[i], x);
          assert Holds(s'.threads[i], x);
        }
      }
    }
  }

  lemma EnterKeeps<T, R>(c: Config<T, R>, s: State<T, R>, t: nat)
    requires Inv(c, s) && Enabled(s, Step<T>.Enter(t))
    ensures Inv(c, Next(c, s, Enter(t)))
  {
    var th := Thread<T, R>.Thread(AtLock, 0, [], None, false, false);
    SumsUpdate(s.threads, t, th);
    ThreadMoves(c, s, t, th, Next(c, s, Enter(t)));
  }

  lemma FinishKeeps<T, R>(c: Config<T, R>, s: State<T, R>, t: nat)
    requires Inv(c, s) && Enabled(s, Step<T>.Finish(t))
    ensures Inv(c, Next(c, s, Finish(t)))
  {
    var th := s.threads[t].(pc := AtLock, batch := []);
    assert ThreadOk(c, s.round, s.result, s.threads[t]);
    SumsUpdate(s.threads, t, th);
    ThreadMoves(c, s, t, th, Next(c, s, Finish(t)));
  }

  lemma RunCheckKeeps<T, R>(c: Config<T, R>, s: State<T, R>, t: nat)
    requires Inv(c, s) && Enabled(s, Step<T>.RunCheck(t))
    ensures Inv(c, Next(c, s, RunCheck(t)))
  {
    var s' := Next(c, s, RunCheck(t));
    var was, th := s.threads[t], s'.threads[t];
    var x0 := was.batch[0];
    assert ThreadOk(c, s.round, s.result, was);
    assert x0 in was.batch;
    assert was.batch == [x0] + was.batch[1..];
    if c.run(x0).Some? { assert FromRound(c, s.round, c.run(x0).value); }
    SumsUpdate(s.threads, t, th);
    ThreadMoves(c, s, t, th, s');
  }

  lemma NotifyKeeps<T, R>(c: Config<T, R>, s: State<T, R>)
    requires MASTER < |s.threads|
    requires Counts(s) && Results(c, s)
    ensures var s' := s.(threads := NotifyMaster(s.threads)); Counts(s') && Results(c, s')
  {
    if s.threads[MASTER].pc.Asleep? {
      var th := s.threads[MASTER].(notified := true);
      SumsUpdate(s.threads, MASTER, th);
      ThreadMoves(c, s, MASTER, th, s.(threads := NotifyMaster(s.threads)));
    }
  }

  lemma ReportKeeps<T, R>(c: Config<T, R>, s: State<T, R>, t: nat, s': State<T, R>)
    requires Results(c, s) && t < |s.threads| && s.threads[t].pc.AtLock? && s.threads[t].nNow > 0
    requires var th := s.threads[t];
             var swap := th.localResult.Some? && s.result.None?;
             s' == s.(result := if swap then th.localResult else s.result, nTodo := s'.nTodo,
                      threads := s.threads[t := th.(pc := Deciding,
                                                    localResult := if swap then None else th.localResult)])
    ensures Results(c, s')
  {
    var th := s.threads[t];
    assert ThreadOk(c, s.round, s.result, th);
    forall i | 0 <= i < |s'.threads| ensures ThreadOk(c, s'.round, s'.result, s'.threads[i]) {
      assert ThreadOk(c, s.round, s.result, s.threads[i]);
    }
    if s'.result.None? {
      forall x | x in s'.round && c.run(x).Some? ensures Pending(s', x) {
        assert Pending(s, x);
        if x !in s.queue {
          var i :| 0 <= i < |s.threads| && Holds(s.threads[i], x);
          assert Holds(s'.threads[i], x);
        }
      }
    }
  }

  lemma HandInKeeps<T, R>(c: Config<T, R>, s: State<T, R>, t: nat)
    requires Inv(c, s) && Enabled(s, Step<T>.Lock(t)) && s.threads[t].nNow > 0
    ensures Inv(c, CleanUp(s, t))
  {
    var th := s.threads[t];
    var swap := th.localResult.Some? && s.result.None?;
    var done := th.(pc := Deciding, localResult := if swap then None else th.localResult);
    var mid := s.(result := if swap then th.localResult else s.result, nTodo := s.nTodo - th.nNow,
                  threads := s.threads[t := done]);
    assert Counts(mid) by { SumsUpdate(s.threads, t, done); }
    assert s.nTodo > 0 by { SumAtLeast(InFlight, s.threads, t, |s.threads|); }
    ReportKeeps(c, s, t, mid);
    NotifyKeeps(c, mid);
  }

  lemma CleanUpKeeps<T, R>(c: Config<T, R>, s: State<T, R>, t: nat)
    requires Inv(c, s) && Enabled(s, Step<T>.Lock(t))
    ensures Inv(c, CleanUp(s, t))
  {
    var th, s' := s.threads[t], CleanUp(s, t);
    if th.nNow == 0 {
      SumsUpdate(s.threads, t, th.(pc := Deciding));
      ThreadMoves(c, s, t, th.(pc := Deciding), s.(threads := s'.threads));
    } else {
      HandInKeeps(c, s, t);
    }
  }

  lemma WakeUpKeeps<T, R>(c: Config<T, R>, s: State<T, R>, t: nat)
    requires Inv(c, s) && Enabled(s, Step<T>.Wake(t))
    ensures Inv(c, WakeUp(s, t))
  {
    var th := s.threads[t].(pc := Deciding);
    SumsUpdate(s.threads, t, th);
    ThreadMoves(c, s, t, th, s.(threads := WakeUp(s, t).threads));
  }

  /** Nobody is in flight once nothing is left to do. */
  lemma NothingInFlight<T, R>(c: Config<T, R>, s: State<T, R>, t: nat)
    requires Inv(c, s) && s.queue == [] && s.nTodo == 0 && t < |s.threads|
    ensures !HasBatch(s.threads[t])
  {
    assert ThreadOk(c, s.round, s.result, s.threads[t]);
    SumAtLeast(InFlight, s.threads, t, |s.threads|);
  }

  /** Complete returns: the answer is right for exactly the checks of this round. */
  lemma ReturnKeeps<T, R>(c: Config<T, R>, s: State<T, R>)
    requires Inv(c, s) && s.threads[MASTER].pc.Deciding?
    requires s.queue == [] && s.nTodo == 0 && !s.requestStop
    ensures Inv(c, Decide(c, s, MASTER))
    ensures Decide(c, s, MASTER).answers == s.answers + [Answer(s.round, s.result)]
    ensures AnswerOk(c, Answer(s.round, s.result))
  {
    var s' := Decide(c, s, MASTER);
    forall t | 0 <= t < |s.threads| ensures !HasBatch(s.threads[t]) { NothingInFlight(c, s, t); }
    if s.result.None? {
      forall x | x in s.round ensures c.run(x).None? {
        assert c.run(x).Some? ==> Pending(s, x);
      }
    } else {
      var x :| x in s.round && c.run(x) == s.result;
      assert x in s.round && c.run(x).Some?;
    }
    SumsUpdate(s.threads, MASTER, s'.threads[MASTER]);
    assert Results(c, s');
  }

  lemma TakeKeeps<T, R>(c: Config<T, R>, s: State<T, R>, t: nat)
    requires Inv(c, s) && t < |s.threads| && s.threads[t].pc.Deciding?
    requires s.queue != [] && !s.requestStop
    ensures Inv(c, Decide(c, s, t))
  {
    var s' := Decide(c, s, t);
    var th := s'.threads[t];
    var n := BatchLength(c, s);
    assert s.queue == s'.queue + th.batch;
    SumsUpdate(s.threads, t, th);
    forall i | 0 <= i < |s'.threads| ensures ThreadOk(c, s'.round, s'.result, s'.threads[i]) {
      assert ThreadOk(c, s.round, s.result, s.threads[i]);
    }
    if s'.result.None? {
      forall x | x in s'.round && c.run(x).Some? ensures Pending(s', x) {
        assert Pending(s, x);
        if x in s.queue {
          if x !in s'.queue { assert Holds(s'.threads[t], x); }
        } else {
          var i :| 0 <= i < |s.threads| && Holds(s.threads[i], x);
          assert Holds(s'.threads[i], x);
        }
      }
    }
  }

  lemma DecideKeeps<T, R>(c: Config<T, R>, s: State<T, R>, t: nat)
    requires Inv(c, s) && t < |s.threads| && s.threads[t].pc.Deciding?
    ensures Inv(c, Decide(c, s, t))
  {
    if s.queue == [] && !s.requestStop && t == MASTER && s.nTodo == 0 {
      ReturnKeeps(c, s);
    } else if s.queue != [] && !s.requestStop {
      TakeKeeps(c, s, t);
    } else {
      var th := Decide(c, s, t).threads[t];
      SumsUpdate(s.threads, t, th);
      ThreadMoves(c, s, t, th, s.(threads := Decide(c, s, t).threads));
    }
  }

  lemma StepKeeps<T, R>(c: Config<T, R>, s: State<T, R>, step: Step<T>)
    requires Inv(c, s) && Enabled(s, step)
    ensures Sane(s, step) && Inv(c, Next(c, s, step))
  {
    InvIsSane(c, s, step);
    match step
    case Add(checks) => AddKeeps(c, s, checks);
    case Enter(t) => EnterKeeps(c, s, t);
    case Lock(t) => CleanUpKeeps(c, s, t); DecideKeeps(c, CleanUp(s, t), t);
    case Wake(t) => WakeUpKeeps(c, s, t); DecideKeeps(c, WakeUp(s, t), t);
    case RunCheck(t) => RunCheckKeeps(c, s, t);
    case Finish(t) => FinishKeeps(c, s, t);
    case RequestStop =>
  }

  lemma StepIsQuiet<T, R>(c: Config<T, R>, s: State<T, R>, step: Step<T>)
    requires Quiet(s) && MASTER < |s.threads| && Enabled(s, step) && Sane(s, step)
    ensures Quiet(Next(c, s, step))
  {
  }

  // ----- whole runs

  /** A fresh queue with its worker threads not yet running. */
  function Initial<T, R>(workers: nat): State<T, R> {
    State([], 0, 0, None, 0, false, seq(workers + 1, _ => Thread(Outside, 0, [], None, false, false)), [], [])
  }

  lemma {:induction false} SumOutside<T, R>(k: Kind, ts: seq<Thread<T, R>>, n: nat)
    requires n <= |ts| && !k.Work? && forall i :: 0 <= i < |ts| ==> ts[i].pc.Outside?
    ensures Sum(k, ts, n) == 0
  {
    if n > 0 { SumOutside(k, ts, n - 1); }
  }

  lemma InitialOk<T, R>(c: Config<T, R>, workers: nat)
    ensures Inv(c, Initial<T, R>(workers))
  {
    var s := Initial<T, R>(workers);
    SumOutside(InFlight, s.threads, |s.threads|);
    SumOutside(Idle, s.threads, |s.threads|);
    SumOutside(Total, s.threads, |s.threads|);
  }

  ghost predicate Execution<T, R>(c: Config<T, R>, s: State<T, R>, steps: seq<Step<T>>)
    decreases |steps|
  {
    steps == [] ||
    (Enabled(s, steps[0]) && Sane(s, steps[0]) && Execution(c, Next(c, s, steps[0]), steps[1..]))
  }

  ghost function After<T, R>(c: Config<T, R>, s: State<T, R>, steps: seq<Step<T>>): State<T, R>
    requires Execution(c, s, steps)
    decreases |steps|
  {
    if steps == [] then s else After(c, Next(c, s, steps[0]), steps[1..])
  }

  /** The invariant holds after every interleaving. */
  lemma {:induction false} InvAlways<T, R>(c: Config<T, R>, s: State<T, R>, steps: seq<Step<T>>)
    requires Inv(c, s) && Quiet(s) && Execution(c, s, steps)
    ensures Inv(c, After(c, s, steps)) && Quiet(After(c, s, steps))
    decreases |steps|
  {
    if steps != [] {
      StepKeeps(c, s, steps[0]);
      StepIsQuiet(c, s, steps[0]);
      InvAlways(c, Next(c, s, steps[0]), steps[1..]);
    }
  }

  /**
   In every interleaving, each Complete returns nothing exactly when all checks added in its own round pass,
   and otherwise the failure of a check of that round.
   */
  lemma EveryAnswerIsRight<T, R>(c: Config<T, R>, workers: nat, steps: seq<Step<T>>, i: nat)
    requires Execution(c, Initial<T, R>(workers), steps)
    requires i < |After(c, Initial<T, R>(workers), steps).answers|
    ensures AnswerOk(c, After(c, Initial<T, R>(workers), steps).answers[i])
  {
    InitialOk<T, R>(c, workers);
    InvAlways(c, Initial<T, R>(workers), steps);
  }

  // ----- nobody is forgotten, and the work runs out

  /** While the master waits without having been notified, some worker still holds a batch. */
  lemma NoLostWakeup<T, R>(c: Config<T, R>, s: State<T, R>) returns (t: nat)
    requires Inv(c, s) && s.threads[MASTER].pc.Asleep? && !s.threads[MASTER].notified
    ensures t < |s.threads| && t != MASTER && HasBatch(s.threads[t])
  {
    t := SumPositive(InFlight, s.threads, |s.threads|);
  }

  ghost function Measure<T, R>(s: State<T, R>): nat { 5 * |s.queue| + Sum(Work, s.threads) }

  lemma CleanUpWorks<T, R>(s: State<T, R>, t: nat)
    requires MASTER < |s.threads| && Enabled(s, Step<T>.Lock(t))
    ensures Measure(CleanUp(s, t)) < Measure(s)
    ensures CleanUp(s, t).threads[t].pc.Deciding? && CleanUp(s, t).queue == s.queue
  {
    var th, s' := s.threads[t], CleanUp(s, t);
    var swap := th.nNow > 0 && th.localResult.Some? && s.result.None?;
    var done := th.(pc := Deciding, localResult := if swap then None else th.localResult);
    SumsUpdate(s.threads, t, done);
    var ts := s.threads[t := done];
    if ts[MASTER].pc.Asleep? { SumsUpdate(ts, MASTER, ts[MASTER].(notified := true)); }
  }

  lemma DecideWorks<T, R>(c: Config<T, R>, s: State<T, R>, t: nat)
    requires t < |s.threads| && s.nTotal + s.nIdle + 1 > 0 && s.threads[t].pc.Deciding?
    ensures Measure(Decide(c, s, t)) <= Measure(s)
    ensures s.queue != [] && !s.requestStop ==> Measure(Decide(c, s, t)) < Measure(s)
  {
    SumsUpdate(s.threads, t, Decide(c, s, t).threads[t]);
    assert Decide(c, s, t).threads == s.threads[t := Decide(c, s, t).threads[t]];
  }

  /** A wake-up without a notification that finds no work; it is the only step that achieves nothing. */
  ghost predicate Spurious<T, R>(s: State<T, R>, step: Step<T>) {
    step.Wake? && Enabled(s, step) && !s.threads[step.t].notified && (s.queue == [] || s.requestStop)
  }

  /** Once the master is in Complete, no step makes work, and every step but a spurious wake-up uses some up. */
  lemma WorkRunsOut<T, R>(c: Config<T, R>, s: State<T, R>, step: Step<T>)
    requires Inv(c, s) && Enabled(s, step) && Sane(s, step)
    requires !s.threads[MASTER].pc.Outside?
    ensures Measure(Next(c, s, step)) <= Measure(s)
    ensures !Spurious(s, step) ==> Measure(Next(c, s, step)) < Measure(s)
  {
    match step
    case Lock(t) => CleanUpWorks(s, t); CleanUpKeeps(c, s, t); DecideWorks(c, CleanUp(s, t), t);
    case Wake(t) =>
      SumsUpdate(s.threads, t, s.threads[t].(pc := Deciding));
      DecideWorks(c, WakeUp(s, t), t);
    case Enter(t) => SumsUpdate(s.threads, t, Next(c, s, step).threads[t]);
    case RunCheck(t) => SumsUpdate(s.threads, t, Next(c, s, step).threads[t]);
    case Finish(t) => SumsUpdate(s.threads, t, Next(c, s, step).threads[t]);
    case Add(_) => assert false;
    case RequestStop => assert false;
  }

  /** The steps of an execution that are not spurious wake-ups. */
  ghost function Productive<T, R>(c: Config<T, R>, s: State<T, R>, steps: seq<Step<T>>): nat
    requires Execution(c, s, steps)
    decreases |steps|
  {
    if steps == [] then 0
    else (if Spurious(s, steps[0]) then 0 else 1) + Productive(c, Next(c, s, steps[0]), steps[1..])
  }

  ghost predicate StaysInComplete<T, R>(c: Config<T, R>, s: State<T, R>, steps: seq<Step<T>>)
    requires Execution(c, s, steps)
    decreases |steps|
  {
    steps == [] ||
    (MASTER < |s.threads| && !s.threads[MASTER].pc.Outside? && StaysInComplete(c, Next(c, s, steps[0]), steps[1..]))
  }

  /** Complete cannot go on forever: before it returns, at most Measure(s) productive steps are possible. */
  lemma {:induction false} CompleteIsBounded<T, R>(c: Config<T, R>, s: State<T, R>, steps: seq<Step<T>>)
    requires Inv(c, s) && Execution(c, s, steps) && StaysInComplete(c, s, steps)
    ensures Productive(c, s, steps) <= Measure(s)
    decreases |steps|
  {
    if steps != [] {
      StepKeeps(c, s, steps[0]);
      WorkRunsOut(c, s, steps[0]);
      CompleteIsBounded(c, Next(c, s, steps[0]), steps[1..]);
    }
  }

  // ----- infinite runs under a fair scheduler

  /** The step a thread is about to take; only the master outside Complete has a choice. */
  function Turn<T, R>(s: State<T, R>, t: nat): Option<Step<T>>
    requires t < |s.threads|
  {
    var th := s.threads[t];
    match th.pc
    case Outside => if t == MASTER then None else Some(Enter(t))
    case AtLock => Some(Lock(t))
    case Asleep => Some(Wake(t))
    case Working => Some(if th.doWork && th.batch != [] then RunCheck(t) else Finish(t))
    case Deciding => None
    case Stopped => None
  }

  /** Thread t can go on; of the sleeping threads only those that were notified are promised to wake up. */
  ghost predicate Ready<T, R>(s: State<T, R>, t: nat) {
    t < |s.threads| && Turn(s, t).Some? && (s.threads[t].pc.Asleep? ==> s.threads[t].notified)
  }

  predicate MovedBy<T>(step: Option<Step<T>>, t: nat) {
    match step
    case Some(Enter(u)) => u == t
    case Some(Lock(u)) => u == t
    case Some(Wake(u)) => u == t
    case Some(RunCheck(u)) => u == t
    case Some(Finish(u)) => u == t
    case _ => false
  }

  /** An infinite run: the state at every moment, and the step taken there, if any. */
  datatype Schedule<!T, !R> = Schedule(state: nat -> State<T, R>, step: nat -> Option<Step<T>>)

  ghost predicate StepAt<T, R>(c: Config<T, R>, run: Schedule<T, R>, i: nat) {
    var s, step, s' := run.state(i), run.step(i), run.state(i + 1);
    match step
    case None => s' == s
    case Some(a) => Enabled(s, a) && Sane(s, a) && s' == Next(c, s, a)
  }

  ghost predicate Infinite<T, R>(c: Config<T, R>, run: Schedule<T, R>) {
    forall i: nat :: StepAt(c, run, i)
  }

  /** A thread that is ready from moment i on moves at some later moment. */
  ghost predicate FairTo<T, R>(run: Schedule<T, R>, t: nat, i: nat) {
    (forall j: nat :: i <= j ==> Ready(run.state(j), t)) ==> exists j: nat :: i <= j && MovedBy(run.step(j), t)
  }

  ghost predicate Fair<T, R>(run: Schedule<T, R>) {
    forall t: nat, i: nat :: FairTo(run, t, i)
  }

  ghost predicate InComplete<T, R>(s: State<T, R>) { MASTER < |s.threads| && !s.threads[MASTER].pc.Outside? }

  lemma {:induction false} InvAt<T, R>(c: Config<T, R>, run: Schedule<T, R>, i: nat)
    requires Infinite(c, run) && Inv(c, run.state(0)) && Quiet(run.state(0))
    ensures Inv(c, run.state(i)) && Quiet(run.state(i))
  {
    if i > 0 {
      InvAt(c, run, i - 1);
      assert StepAt(c, run, i - 1);
      if run.step(i - 1).Some? {
        StepKeeps(c, run.state(i - 1), run.step(i - 1).value);
        StepIsQuiet(c, run.state(i - 1), run.step(i - 1).value);
      }
    }
  }

  /** While Complete runs, a spurious wake-up changes nothing at all. */
  lemma SpuriousIsIdle<T, R>(c: Config<T, R>, s: State<T, R>, step: Step<T>)
    requires Inv(c, s) && InComplete(s) && Spurious(s, step) && Sane(s, step)
    ensures Next(c, s, step) == s
  {
    assert s.threads[step.t := s.threads[step.t]] == s.threads;
  }

  /** Work is done at moment i. */
  ghost predicate ProductiveAt<T, R>(run: Schedule<T, R>, i: nat) {
    run.step(i).Some? && !Spurious(run.state(i), run.step(i).value)
  }

  lemma {:induction false} Frozen<T, R>(c: Config<T, R>, run: Schedule<T, R>, i: nat, j: nat)
    requires Infinite(c, run) && Inv(c, run.state(i)) && InComplete(run.state(i)) && i <= j
    requires forall k: nat :: i <= k < j ==> !ProductiveAt(run, k)
    ensures run.state(j) == run.state(i)
    decreases j - i
  {
    if i < j {
      Frozen(c, run, i, j - 1);
      assert StepAt(c, run, j - 1) && !ProductiveAt(run, j - 1);
      if run.step(j - 1).Some? { SpuriousIsIdle(c, run.state(j - 1), run.step(j - 1).value); }
    }
  }

  lemma {:induction false} FirstProductive<T, R>(run: Schedule<T, R>, i: nat, j: nat) returns (k: nat)
    requires i <= j && ProductiveAt(run, j)
    ensures i <= k && ProductiveAt(run, k) && forall m: nat :: i <= m < k ==> !ProductiveAt(run, m)
    decreases j - i
  {
    if ProductiveAt(run, i) { k := i; } else { k := FirstProductive(run, i + 1, j); }
  }

  lemma SomebodyIsReady<T, R>(c: Config<T, R>, s: State<T, R>) returns (t: nat)
    requires Inv(c, s) && Quiet(s) && InComplete(s)
    ensures Ready(s, t)
  {
    t := MASTER;
    if s.threads[MASTER].pc.Asleep? && !s.threads[MASTER].notified { t := NoLostWakeup(c, s); }
  }

  /** As long as Complete has not returned, some thread can take a step that uses up work. */
  lemma SomebodyCanMove<T, R>(c: Config<T, R>, s: State<T, R>) returns (step: Step<T>)
    requires Inv(c, s) && Quiet(s) && InComplete(s)
    ensures Enabled(s, step) && !Spurious(s, step) && !step.Add? && !step.RequestStop?
  {
    var t := SomebodyIsReady(c, s);
    step := Turn(s, t).value;
  }

  /** A ready thread that moves does work. */
  lemma ReadyMoves<T, R>(s: State<T, R>, t: nat, step: Step<T>)
    requires Ready(s, t) && Enabled(s, step) && MovedBy(Some(step), t)
    ensures !Spurious(s, step)
  {
  }

  /** If the state has changed, work was done. */
  lemma {:induction false} ChangeIsWork<T, R>(c: Config<T, R>, run: Schedule<T, R>, i: nat, j: nat) returns (k: nat)
    requires Infinite(c, run) && Inv(c, run.state(i)) && InComplete(run.state(i)) && i < j
    requires run.state(j) != run.state(i)
    ensures i <= k < j && ProductiveAt(run, k)
    decreases j - i
  {
    if ProductiveAt(run, i) {
      k := i;
    } else {
      assert StepAt(c, run, i);
      if run.step(i).Some? { SpuriousIsIdle(c, run.state(i), run.step(i).value); }
      k := ChangeIsWork(c, run, i + 1, j);
    }
  }

  /** A thread that stays ready moves, and a thread that is no longer ready shows that something has moved. */
  lemma SomeWork<T, R>(c: Config<T, R>, run: Schedule<T, R>, i: nat, t: nat) returns (k: nat)
    requires Infinite(c, run) && Fair(run) && Inv(c, run.state(i)) && InComplete(run.state(i)) && Ready(run.state(i), t)
    ensures i <= k && ProductiveAt(run, k)
  {
    if forall j: nat :: i <= j ==> Ready(run.state(j), t) {
      assert FairTo(run, t, i);
      k :| i <= k && MovedBy(run.step(k), t);
      assert StepAt(c, run, k);
      ReadyMoves(run.state(k), t, run.step(k).value);
    } else {
      var j: nat :| i <= j && !Ready(run.state(j), t);
      k := ChangeIsWork(c, run, i, j);
    }
  }

  /**
   Under a fair scheduler, work is done at some moment: until then the state, and so the ready thread, stays as it is.
   */
  lemma WorkIsDone<T, R>(c: Config<T, R>, run: Schedule<T, R>, i: nat) returns (k: nat)
    requires Infinite(c, run) && Fair(run) && Inv(c, run.state(i)) && Quiet(run.state(i)) && InComplete(run.state(i))
    ensures i <= k && ProductiveAt(run, k) && run.state(k) == run.state(i)
  {
    var t := SomebodyIsReady(c, run.state(i));
    var j := SomeWork(c, run, i, t);
    k := FirstProductive(run, i, j);
    Frozen(c, run, i, k);
  }

  /** Complete goes on with the same round, or returns its answer. */
  lemma CompleteGoesOn<T, R>(c: Config<T, R>, s: State<T, R>, step: Step<T>)
    requires Inv(c, s) && InComplete(s) && Enabled(s, step) && Sane(s, step)
    ensures var s' := Next(c, s, step);
            if InComplete(s') then s'.round == s.round && s'.answers == s.answers else Returned(c, s, s')
  {
    AnswersGrow(c, s, step);
    assert Answers(c, Next(c, s, step)) by { StepKeeps(c, s, step); }
  }

  lemma AnswersGrow<T, R>(c: Config<T, R>, s: State<T, R>, step: Step<T>)
    requires InComplete(s) && Enabled(s, step) && Sane(s, step)
    ensures var s' := Next(c, s, step);
            if InComplete(s') then s'.round == s.round && s'.answers == s.answers
            else exists r :: s'.answers == s.answers + [Answer(s.round, r)]
  {
    match step
    case Lock(t) => DecideAnswers(c, CleanUp(s, t), t);
    case Wake(t) => DecideAnswers(c, WakeUp(s, t), t);
    case _ =>
  }

  lemma DecideAnswers<T, R>(c: Config<T, R>, s: State<T, R>, t: nat)
    requires t < |s.threads| && s.nTotal + s.nIdle + 1 > 0 && InComplete(s)
    ensures var s' := Decide(c, s, t);
            if InComplete(s') then s'.round == s.round && s'.answers == s.answers
            else s'.answers == s.answers + [Answer(s.round, s.result)]
  {
  }

  /** The next answer was given, and it is right for the round of `s`. */
  ghost predicate Returned<T, R>(c: Config<T, R>, s: State<T, R>, s': State<T, R>) {
    && !InComplete(s')
    && |s'.answers| == |s.answers| + 1 && s'.answers[..|s.answers|] == s.answers
    && s'.answers[|s.answers|].round == s.round && AnswerOk(c, s'.answers[|s.answers|])
  }

  /**
   Complete terminates under every fair scheduler, however many spurious wake-ups there are, and returns the right
   answer for the checks added before it was called.
   */
  lemma {:induction false} CompleteReturns<T, R>(c: Config<T, R>, run: Schedule<T, R>, i: nat) returns (j: nat)
    requires Infinite(c, run) && Fair(run) && Inv(c, run.state(0)) && Quiet(run.state(0)) && InComplete(run.state(i))
    ensures i < j && Returned(c, run.state(i), run.state(j))
    decreases Measure(run.state(i))
  {
    InvAt(c, run, i);
    var k := WorkIsDone(c, run, i);
    var s, step := run.state(k), run.step(k).value;
    assert StepAt(c, run, k);
    CompleteGoesOn(c, s, step);
    WorkRunsOut(c, s, step);
    if InComplete(run.state(k + 1)) {
      j := CompleteReturns(c, run, k + 1);
    } else {
      j := k + 1;
    }
  }

  /** In particular for every run of a new queue. */
  lemma EveryCompleteReturns<T, R>(c: Config<T, R>, workers: nat, run: Schedule<T, R>, i: nat) returns (j: nat)
    requires Infinite(c, run) && Fair(run) && run.state(0) == Initial<T, R>(workers) && InComplete(run.state(i))
    ensures i < j && Returned(c, run.state(i), run.state(j))
  {
    InitialOk<T, R>(c, workers);
    j := CompleteReturns(c, run, i);
  }

  // ----- fair runs exist

  lemma {:induction false} ExecutionGrows<T, R>(c: Config<T, R>, s: State<T, R>, steps: seq<Step<T>>, i: nat)
    requires Execution(c, s, steps) && i < |steps|
    ensures Execution(c, s, steps[..i]) && Execution(c, s, steps[..i + 1])
    ensures var s' := After(c, s, steps[..i]);
            Enabled(s', steps[i]) && Sane(s', steps[i]) && After(c, s, steps[..i + 1]) == Next(c, s', steps[i])
    decreases i
  {
    if i == 0 {
      assert steps[..1][1..] == [];
    } else {
      ExecutionGrows(c, Next(c, s, steps[0]), steps[1..], i - 1);
      assert steps[..i][1..] == steps[1..][..i - 1] && steps[..i + 1][1..] == steps[1..][..i];
    }
  }

  ghost function Upto<T, R>(c: Config<T, R>, s: State<T, R>, steps: seq<Step<T>>, i: nat): State<T, R> {
    var n := if i < |steps| then i else |steps|;
    if Execution(c, s, steps[..n]) then After(c, s, steps[..n]) else s
  }

  /** A finite run after which no thread is ready, followed by rest, is a fair infinite run. */
  lemma RestsForever<T, R>(c: Config<T, R>, s: State<T, R>, steps: seq<Step<T>>) returns (run: Schedule<T, R>)
    requires Execution(c, s, steps) && forall t: nat :: !Ready(After(c, s, steps), t)
    ensures Infinite(c, run) && Fair(run) && run.state(0) == s && run.state(|steps|) == After(c, s, steps)
    ensures forall i: nat :: i < |steps| ==> run.step(i) == Some(steps[i])
  {
    run := Schedule((i: nat) => Upto(c, s, steps, i), (i: nat) => if i < |steps| then Some(steps[i]) else None);
    assert steps[..|steps|] == steps;
    forall i: nat ensures StepAt(c, run, i) {
      if i < |steps| { ExecutionGrows(c, s, steps, i); }
    }
    forall t: nat, i: nat ensures FairTo(run, t, i) {
      assert !Ready(run.state(i + |steps|), t);
    }
  }

  lemma Prepend<T, R>(c: Config<T, R>, s: State<T, R>, step: Step<T>, rest: seq<Step<T>>) returns (steps: seq<Step<T>>)
    requires Enabled(s, step) && Sane(s, step) && Execution(c, Next(c, s, step), rest)
    ensures steps == [step] + rest && Execution(c, s, steps) && After(c, s, steps) == After(c, Next(c, s, step), rest)
  {
    steps := [step] + rest;
    assert steps[1..] == rest;
  }

  function Resting<T, R>(pc: Pc): Thread<T, R> { Thread(pc, 0, [], None, false, false) }

  /** The only worker has run the one check and is about to hand it in; the master waits. */
  function CheckWasRun<T, R>(c: Config<T, R>, x: T): State<T, R> {
    State([], 1, 2, None, 1, false, [Resting(Asleep), Thread(AtLock, 1, [], c.run(x), true, false)], [x], [])
  }

  /** Handing in wakes the master, which returns the answer. */
  lemma HandInReturns<T, R>(c: Config<T, R>, x: T) returns (steps: seq<Step<T>>)
    ensures |steps| == 2 && Execution(c, CheckWasRun(c, x), steps)
    ensures var s := After(c, CheckWasRun(c, x), steps);
            s.answers == [Answer([x], c.run(x))] && forall t: nat :: !Ready(s, t)
  {
    var s0 := CheckWasRun(c, x);
    var s1 := Next(c, s0, Lock(1));
    var s2 := Next(c, s1, Wake(MASTER));
    steps := Prepend(c, s1, Wake(MASTER), []);
    steps := Prepend(c, s0, Lock(1), steps);
  }

  /** The worker sleeps, and the master has added one check and called Complete. */
  function OneCheckAdded<T, R>(x: T): State<T, R> {
    State([x], 1, 1, None, 1, false, [Resting(AtLock), Resting(Asleep)], [x], [])
  }

  /** The worker has taken the check; `master` is what the master does meanwhile. */
  function CheckTaken<T, R>(x: T, idle: nat, master: Pc): State<T, R> {
    State([], idle, 1 + idle, None, 1, false, [Resting(master), Thread(Working, 1, [x], None, true, false)], [x], [])
  }

  lemma WorkerTakes<T, R>(c: Config<T, R>, x: T)
    ensures var s := OneCheckAdded<T, R>(x);
            Enabled(s, Step<T>.Wake(1)) && Sane(s, Step<T>.Wake(1)) && Next(c, s, Wake(1)) == CheckTaken(x, 0, AtLock)
  {
    var s := WakeUp(OneCheckAdded<T, R>(x), 1);
    assert BatchLength(c, s) == 1;
    assert [x][..0] == [] && [x][0..] == [x];
  }

  lemma MasterWaits<T, R>(c: Config<T, R>, x: T)
    ensures var s := CheckTaken<T, R>(x, 0, AtLock);
            Next(c, s, Lock(MASTER)) == CheckTaken(x, 1, Asleep)
  {
  }

  lemma WorkerRuns<T, R>(c: Config<T, R>, x: T, rest: seq<Step<T>>) returns (steps: seq<Step<T>>)
    requires Execution(c, CheckWasRun(c, x), rest)
    ensures Execution(c, CheckTaken<T, R>(x, 1, Asleep), steps)
    ensures After(c, CheckTaken<T, R>(x, 1, Asleep), steps) == After(c, CheckWasRun(c, x), rest)
  {
    var s := CheckTaken<T, R>(x, 1, Asleep);
    var s' := Next(c, s, RunCheck(1));
    steps := rest;
    if c.run(x).None? {
      assert Next(c, s', Finish(1)) == CheckWasRun(c, x);
      steps := Prepend(c, s', Finish(1), steps);
    } else {
      assert s' == CheckWasRun(c, x);
    }
    steps := Prepend(c, s, RunCheck(1), steps);
  }

  lemma CheckIsRun<T, R>(c: Config<T, R>, x: T, rest: seq<Step<T>>) returns (steps: seq<Step<T>>)
    requires Execution(c, CheckWasRun(c, x), rest)
    ensures Execution(c, OneCheckAdded<T, R>(x), steps)
    ensures After(c, OneCheckAdded<T, R>(x), steps) == After(c, CheckWasRun(c, x), rest)
  {
    steps := WorkerRuns(c, x, rest);
    MasterWaits<T, R>(c, x);
    steps := Prepend(c, CheckTaken<T, R>(x, 0, AtLock), Lock(MASTER), steps);
    WorkerTakes<T, R>(c, x);
    steps := Prepend(c, OneCheckAdded<T, R>(x), Wake(1), steps);
  }

  /** Fair infinite runs exist: a worker runs the check that the master waits for, wakes it, and all rest. */
  lemma FairRunExists<T, R>(c: Config<T, R>, x: T) returns (run: Schedule<T, R>, i: nat, j: nat)
    ensures Infinite(c, run) && Fair(run) && run.state(0) == Initial<T, R>(1)
    ensures i < j && InComplete(run.state(i)) && run.state(i).round == [x]
    ensures run.state(j).answers == [Answer([x], c.run(x))]
  {
    var s0 := Initial<T, R>(1);
    var s1 := Next(c, s0, Enter(1));
    var s2 := Next(c, s1, Lock(1));
    var s3 := Next(c, s2, Add([x]));
    var s4 := Next(c, s3, Enter(MASTER));
    assert s4 == OneCheckAdded<T, R>(x);
    var steps := HandInReturns(c, x);
    steps := CheckIsRun(c, x, steps);
    steps := Prepend(c, s3, Enter(MASTER), steps);
    steps := Prepend(c, s2, Add([x]), steps);
    steps := Prepend(c, s1, Lock(1), steps);
    steps := Prepend(c, s0, Enter(1), steps);
    run := RestsForever(c, s0, steps);
    i, j := 4, |steps|;
    assert StepAt(c, run, 0) && StepAt(c, run, 1) && StepAt(c, run, 2) && StepAt(c, run, 3);
    assert run.state(4) == s4;
    assert steps[..|steps|] == steps;
  }
}
