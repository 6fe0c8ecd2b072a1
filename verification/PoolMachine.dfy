/**
 The worker pool of one tenant as a machine of atomic steps. Every interleaving of the
 submitter, the worker goroutines, Start, Resize and Stop is a run of this machine; the
 choice Go's `select` makes between ready cases is the choice of the next event.
 */
module PoolMachine {
  import opened WorkItems
  import opened Wrappers

  /** A goroutine running `worker()`: waiting in its select, working on the item with the
      given ticket (its position in the order of dequeuing) about to make attempt number
      `attempt`, or returned. */
  datatype Worker = Idle | Busy(ticket: nat, attempt: nat) | Exited

  /** Who holds `mu`: nobody; a loop that still has `remaining` goroutines to start and
      will then add `credit` to `workers`; or a scale-down about to store its target. */
  datatype Lock = Free | Spawning(remaining: nat, credit: nat) | Shrinking(target: int)

  /** What has happened so far: the items Submit accepted, those workers took, the results
      of the attempts made on each of the latter, what became of them, and the total by
      which Resize lowered `workers`. */
  datatype History = History(
    accepted: seq<WorkItem>,
    dequeued: seq<WorkItem>,
    tries: seq<seq<bool>>,
    outcomes: map<nat, Outcome>,
    scaledDown: int)

  datatype Pool = Pool(
    capacity: nat,
    maxRetry: int,
    workers: int,
    workChan: seq<WorkItem>,
    done: bool,
    wg: int,
    goroutines: seq<Worker>,
    mu: Lock,
    history: History)

  datatype Refusal = ShuttingDown | QueueFull

  datatype Event =
    | Spawn                                 // one iteration of the loop in Start or Resize
    | Unlock                                // the end of Start or Resize
    | BeginResize(newCount: int)            // Resize takes mu and compares the counts
    | Accept(item: WorkItem)                // Submit: the send goes into the buffer
    | Handoff(item: WorkItem, receiver: nat) // Submit: the send meets a waiting worker
    | Refuse(item: WorkItem, reason: Refusal)
    | Close                                 // Stop: close(doneChan)
    | Exit(worker: nat)                     // worker: the doneChan case
    | Receive(worker: nat)                  // worker: the workChan case
    | Attempt(worker: nat, ok: bool)        // one handleMessage call
    | GiveUp(worker: nat)                   // processWork after the last failure

  /** NewWorkerPool just before the loop of Start: the channel has been made and
      `workers` stored. A negative count makes `make` panic. */
  function Init(workers: nat, maxRetry: int): Pool {
    var n := Max(workers, 1);
    Pool(10 * workers, maxRetry, n, [], false, 0, [], Spawning(n, 0), History([], [], [], map[], 0))
  }

  predicate IsIdle(s: Pool, w: nat) {
    w < |s.goroutines| && s.goroutines[w].Idle?
  }

  predicate IsBusy(s: Pool, w: nat) {
    w < |s.goroutines| && s.goroutines[w].Busy?
  }

  predicate Enabled(s: Pool, e: Event) {
    match e
    case Spawn => s.mu.Spawning? && s.mu.remaining > 0
    case Unlock => s.mu.Shrinking? || (s.mu.Spawning? && s.mu.remaining == 0)
    case BeginResize(_) => s.mu.Free?
    case Accept(_) => |s.workChan| < s.capacity
    case Handoff(_, w) => s.workChan == [] && IsIdle(s, w)
    case Refuse(_, ShuttingDown) => s.done
    case Refuse(_, QueueFull) => !s.done && |s.workChan| >= s.capacity
    case Close => !s.done
    case Exit(w) => s.done && IsIdle(s, w)
    case Receive(w) => s.workChan != [] && IsIdle(s, w)
    case Attempt(w, _) => IsBusy(s, w) && s.goroutines[w].attempt <= s.maxRetry
    case GiveUp(w) => IsBusy(s, w) && s.goroutines[w].attempt > s.maxRetry
  }

  /** processWork tests the count the item was taken with, not the one the retry loop
      advanced in its own copy. */
  function GiveUpOutcome(s: Pool, ticket: nat): Outcome
    requires ticket < |s.history.dequeued|
  {
    if s.history.dequeued[ticket].retryCount >= s.maxRetry then DeadLettered else Dropped
  }

  /** The worker w is done with its ticket, which ends with outcome o. */
  function Finish(s: Pool, w: nat, o: Outcome): Pool
    requires IsBusy(s, w)
  {
    s.(goroutines := s.goroutines[w := Idle],
       history := s.history.(outcomes := s.history.outcomes[s.goroutines[w].ticket := o]))
  }

  function BeginResizeLock(s: Pool, newCount: int): Lock {
    var target := Max(newCount, 1);
    if target > s.workers then Spawning(target - s.workers, target - s.workers)
    else if target < s.workers then Shrinking(target)
    else Spawning(0, 0)
  }

  function Apply(s: Pool, e: Event): Pool
    requires Enabled(s, e)
    requires WellFormed(s)
  {
    match e
    case Spawn =>
      s.(wg := s.wg + 1, goroutines := s.goroutines + [Idle], mu := s.mu.(remaining := s.mu.remaining - 1))
    case Unlock =>
      if s.mu.Spawning? then s.(workers := s.workers + s.mu.credit, mu := Free)
      else s.(workers := s.mu.target, mu := Free,
              history := s.history.(scaledDown := s.history.scaledDown + (s.workers - s.mu.target)))
    case BeginResize(n) => s.(mu := BeginResizeLock(s, n))
    case Accept(item) =>
      s.(workChan := s.workChan + [item], history := s.history.(accepted := s.history.accepted + [item]))
    case Handoff(item, w) =>
      s.(goroutines := s.goroutines[w := Busy(|s.history.dequeued|, 0)],
         history := s.history.(accepted := s.history.accepted + [item], dequeued := s.history.dequeued + [item],
                               tries := s.history.tries + [[]]))
    case Refuse(_, _) => s
    case Close => s.(done := true)
    case Exit(w) => s.(goroutines := s.goroutines[w := Exited], wg := s.wg - 1)
    case Receive(w) =>
      s.(workChan := s.workChan[1..],
         goroutines := s.goroutines[w := Busy(|s.history.dequeued|, 0)],
         history := s.history.(dequeued := s.history.dequeued + [s.workChan[0]], tries := s.history.tries + [[]]))
    case Attempt(w, ok) =>
      var t := s.goroutines[w].ticket;
      var s1 := s.(history := s.history.(tries := s.history.tries[t := s.history.tries[t] + [ok]]));
      if ok then Finish(s1, w, Completed)
      else s1.(goroutines := s.goroutines[w := s.goroutines[w].(attempt := s.goroutines[w].attempt + 1)])
    case GiveUp(w) => Finish(s, w, GiveUpOutcome(s, s.goroutines[w].ticket))
  }

  predicate WellFormed(s: Pool) {
    && |s.history.tries| == |s.history.dequeued|
    && forall w :: 0 <= w < |s.goroutines| && s.goroutines[w].Busy? ==> s.goroutines[w].ticket < |s.history.dequeued|
  }

  /** es is a possible run from s, and it ends in t. */
  ghost predicate Reaches(s: Pool, es: seq<Event>, t: Pool)
    decreases |es|
  {
    WellFormed(s) &&
    if es == [] then s == t
    else Enabled(s, es[0]) && Reaches(Apply(s, es[0]), es[1..], t)
  }

  // ---------------------------------------------------------------- weights of goroutines

  function Total(ws: seq<Worker>, f: Worker -> nat): nat {
    if ws == [] then 0 else f(ws[0]) + Total(ws[1..], f)
  }

  lemma {:induction false} TotalUpdate(ws: seq<Worker>, i: nat, x: Worker, f: Worker -> nat)
    requires i < |ws|
    ensures Total(ws[i := x], f) + f(ws[i]) == Total(ws, f) + f(x)
  {
    if i == 0 {
      assert ws[0 := x][1..] == ws[1..];
    } else {
      assert ws[i := x][1..] == ws[1..][i - 1 := x];
      TotalUpdate(ws[1..], i - 1, x, f);
    }
  }

  lemma {:induction false} TotalAppend(ws: seq<Worker>, x: Worker, f: Worker -> nat)
    ensures Total(ws + [x], f) == Total(ws, f) + f(x)
  {
    if ws == [] {
      assert ws + [x] == [x];
    } else {
      assert (ws + [x])[1..] == ws[1..] + [x];
      TotalAppend(ws[1..], x, f);
    }
  }

  /** The number of goroutines that have not returned. */
  function Live(ws: seq<Worker>): nat {
    Total(ws, IsLive)
  }

  function IsLive(w: Worker): nat {
    if w.Exited? then 0 else 1
  }

  lemma {:induction false} LiveZero(ws: seq<Worker>)
    ensures Live(ws) == 0 <==> forall i :: 0 <= i < |ws| ==> ws[i].Exited?
  {
    if ws != [] {
      LiveZero(ws[1..]);
      assert forall i :: 0 < i < |ws| ==> ws[i] == ws[1..][i - 1];
      assert forall i :: 0 <= i < |ws[1..]| ==> ws[1..][i] == ws[i + 1];
    }
  }

  // ------------------------------------------------------------------------- the invariant

  predicate Holds(s: Pool, w: nat, ticket: nat) {
    IsBusy(s, w) && s.goroutines[w].ticket == ticket
  }

  ghost predicate Held(s: Pool, ticket: nat) {
    exists w: nat :: Holds(s, w, ticket)
  }

  ghost predicate Conserved(s: Pool) {
    && s.history.accepted == s.history.dequeued + s.workChan
    && |s.workChan| <= s.capacity
  }

  /** Every dequeued item is held by exactly one worker or has exactly one outcome. */
  ghost predicate Partitioned(s: Pool) {
    && WellFormed(s)
    && (forall t: nat :: t in s.history.outcomes ==> t < |s.history.dequeued|)
    && (forall t: nat :: t < |s.history.dequeued| ==> (Held(s, t) <==> t !in s.history.outcomes))
    && (forall v: nat, w: nat, t: nat :: Holds(s, v, t) && Holds(s, w, t) ==> v == w)
  }

  ghost predicate AllFailed(tries: seq<bool>) {
    forall i :: 0 <= i < |tries| ==> !tries[i]
  }

  /** The results seen for a completed item: failures, then one success within the limit. */
  ghost predicate EndsInSuccess(tries: seq<bool>, maxRetry: int) {
    1 <= |tries| <= maxRetry + 1 && tries[|tries| - 1] && AllFailed(tries[..|tries| - 1])
  }

  /** The results seen for an item that was given up: every allowed attempt failed. */
  ghost predicate EndsInFailure(tries: seq<bool>, maxRetry: int) {
    |tries| == Max(maxRetry + 1, 0) && AllFailed(tries)
  }

  ghost predicate Judged(s: Pool)
    requires WellFormed(s)
  {
    && (forall w: nat :: IsBusy(s, w) ==>
          var tries := s.history.tries[s.goroutines[w].ticket];
          AllFailed(tries) && |tries| == s.goroutines[w].attempt <= Max(s.maxRetry + 1, 0))
    && (forall t: nat :: t in s.history.outcomes && t < |s.history.dequeued| ==>
          if s.history.outcomes[t].Completed? then EndsInSuccess(s.history.tries[t], s.maxRetry)
          else s.history.outcomes[t] == GiveUpOutcome(s, t) && EndsInFailure(s.history.tries[t], s.maxRetry))
  }

  /** What a goroutine count taken now would be, once the current holder of mu is done. */
  function Promised(s: Pool): int {
    s.workers + s.history.scaledDown
      + if s.mu.Spawning? then s.mu.credit - s.mu.remaining else 0
  }

  ghost predicate Accounted(s: Pool) {
    && s.wg == Live(s.goroutines)
    && s.workers >= 1
    && s.history.scaledDown >= 0
    && (s.mu.Shrinking? ==> 1 <= s.mu.target < s.workers)
    && s.wg <= Promised(s)
    && (!s.done ==> s.wg == Promised(s))
  }

  ghost predicate Inv(s: Pool) {
    Conserved(s) && Partitioned(s) && Judged(s) && Accounted(s)
  }

  lemma InitInv(workers: nat, maxRetry: int)
    ensures Inv(Init(workers, maxRetry))
  {
  }

  lemma InvWellFormed(s: Pool)
    requires Inv(s)
    ensures WellFormed(s)
  {
  }

  lemma StepConserved(s: Pool, e: Event)
    requires Inv(s) && Enabled(s, e)
    ensures Conserved(Apply(s, e))
  {
    var s' := Apply(s, e);
    if e.Receive? {
      assert s.history.dequeued + s.workChan == s'.history.dequeued + s'.workChan;
    }
  }

  /** A step of worker w leaves what the other workers hold alone. */
  lemma OthersHold(s: Pool, s': Pool, w: nat, x: Worker)
    requires w < |s.goroutines| && s'.goroutines == s.goroutines[w := x]
    ensures forall v: nat, t: nat :: v != w ==> (Holds(s', v, t) <==> Holds(s, v, t))
  {
  }

  lemma TakePartitioned(s: Pool, s': Pool, w: nat, item: WorkItem)
    requires Partitioned(s) && IsIdle(s, w)
    requires s'.goroutines == s.goroutines[w := Busy(|s.history.dequeued|, 0)]
    requires s'.history.dequeued == s.history.dequeued + [item]
    requires s'.history.outcomes == s.history.outcomes
    requires |s'.history.tries| == |s'.history.dequeued|
    ensures Partitioned(s')
  {
    OthersHold(s, s', w, Busy(|s.history.dequeued|, 0));
    forall t: nat | t < |s'.history.dequeued|
      ensures Held(s', t) <==> t !in s'.history.outcomes
    {
      if t == |s.history.dequeued| {
        assert Holds(s', w, t);
      } else {
        forall v: nat | Holds(s, v, t) ensures Holds(s', v, t) {}
        forall v: nat | Holds(s', v, t) ensures Holds(s, v, t) {}
      }
    }
  }

  lemma FinishPartitioned(s: Pool, w: nat, o: Outcome)
    requires Partitioned(s) && IsBusy(s, w)
    ensures Partitioned(Finish(s, w, o))
  {
    var s' := Finish(s, w, o);
    OthersHold(s, s', w, Idle);
    var ticket := s.goroutines[w].ticket;
    assert Holds(s, w, ticket);
    forall t: nat | t < |s'.history.dequeued|
      ensures Held(s', t) <==> t !in s'.history.outcomes
    {
      forall v: nat | Holds(s', v, t) ensures Holds(s, v, t) {}
      if t != ticket {
        forall v: nat | Holds(s, v, t) ensures Holds(s', v, t) {}
      }
    }
  }

  /** The goroutines hold the same tickets in s and s'. */
  lemma SamePartitioned(s: Pool, s': Pool)
    requires Partitioned(s)
    requires s'.history.dequeued == s.history.dequeued && s'.history.outcomes == s.history.outcomes
    requires |s'.history.tries| == |s'.history.dequeued|
    requires forall w: nat, t: nat :: Holds(s', w, t) <==> Holds(s, w, t)
    ensures Partitioned(s')
  {
    forall t: nat | t < |s'.history.dequeued|
      ensures Held(s', t) <==> Held(s, t)
    {
      forall v: nat | Holds(s', v, t) ensures Holds(s, v, t) {}
      forall v: nat | Holds(s, v, t) ensures Holds(s', v, t) {}
    }
    forall w: nat | w < |s'.goroutines| && s'.goroutines[w].Busy?
      ensures s'.goroutines[w].ticket < |s'.history.dequeued|
    {
      assert Holds(s', w, s'.goroutines[w].ticket);
    }
  }

  lemma StepPartitioned(s: Pool, e: Event)
    requires Inv(s) && Enabled(s, e)
    ensures Partitioned(Apply(s, e))
  {
    var s' := Apply(s, e);
    match e
    case Handoff(item, w) => TakePartitioned(s, s', w, item);
    case Receive(w) => TakePartitioned(s, s', w, s.workChan[0]);
    case Attempt(w, true) =>
      var s1 := s.(history := s'.history.(outcomes := s.history.outcomes));
      SamePartitioned(s, s1);
      FinishPartitioned(s1, w, Completed);
    case GiveUp(w) => FinishPartitioned(s, w, GiveUpOutcome(s, s.goroutines[w].ticket));
    case _ => SamePartitioned(s, s');
  }

  /** Nobody else holds w's ticket, and it has no outcome yet. */
  lemma TicketIsMine(s: Pool, w: nat)
    requires Partitioned(s) && IsBusy(s, w)
    ensures s.goroutines[w].ticket !in s.history.outcomes
    ensures forall v: nat :: v != w && IsBusy(s, v) ==> s.goroutines[v].ticket != s.goroutines[w].ticket
  {
    assert Holds(s, w, s.goroutines[w].ticket) && Held(s, s.goroutines[w].ticket);
    forall v: nat | v != w && IsBusy(s, v) ensures s.goroutines[v].ticket != s.goroutines[w].ticket {
      assert Holds(s, v, s.goroutines[v].ticket);
    }
  }

  lemma AttemptJudged(s: Pool, w: nat, ok: bool)
    requires Partitioned(s) && Judged(s) && Enabled(s, Attempt(w, ok)) && WellFormed(Apply(s, Attempt(w, ok)))
    ensures Judged(Apply(s, Attempt(w, ok)))
  {
    TicketIsMine(s, w);
    var t := s.goroutines[w].ticket;
    var tries := Apply(s, Attempt(w, ok)).history.tries[t];
    assert tries[..|tries| - 1] == s.history.tries[t];
  }

  lemma GiveUpJudged(s: Pool, w: nat)
    requires Partitioned(s) && Judged(s) && Enabled(s, GiveUp(w)) && WellFormed(Apply(s, GiveUp(w)))
    ensures Judged(Apply(s, GiveUp(w)))
  {
    TicketIsMine(s, w);
  }

  lemma StepJudged(s: Pool, e: Event)
    requires Inv(s) && Enabled(s, e) && WellFormed(Apply(s, e))
    ensures Judged(Apply(s, e))
  {
    if e.Attempt? {
      AttemptJudged(s, e.worker, e.ok);
    } else if e.GiveUp? {
      GiveUpJudged(s, e.worker);
    }
  }

  /** Every step moves the WaitGroup and the number of live goroutines together. */
  lemma StepLive(s: Pool, e: Event)
    requires WellFormed(s) && Enabled(s, e)
    ensures Live(Apply(s, e).goroutines) - Live(s.goroutines) == Apply(s, e).wg - s.wg
  {
    var s' := Apply(s, e);
    match e
    case Spawn => TotalAppend(s.goroutines, Idle, IsLive);
    case Handoff(_, w) => TotalUpdate(s.goroutines, w, s'.goroutines[w], IsLive);
    case Exit(w) => TotalUpdate(s.goroutines, w, s'.goroutines[w], IsLive);
    case Receive(w) => TotalUpdate(s.goroutines, w, s'.goroutines[w], IsLive);
    case Attempt(w, _) => TotalUpdate(s.goroutines, w, s'.goroutines[w], IsLive);
    case GiveUp(w) => TotalUpdate(s.goroutines, w, s'.goroutines[w], IsLive);
    case _ =>
  }

  lemma StepAccounted(s: Pool, e: Event)
    requires Inv(s) && Enabled(s, e)
    ensures Accounted(Apply(s, e))
  {
    hide Conserved;
    hide Partitioned;
    hide Judged;
    hide Live;
    InvWellFormed(s);
    StepLive(s, e);
  }

  lemma StepInv(s: Pool, e: Event)
    requires Inv(s) && Enabled(s, e)
    ensures Inv(Apply(s, e))
  {
    StepConserved(s, e);
    StepPartitioned(s, e);
    StepJudged(s, e);
    StepAccounted(s, e);
  }

  lemma {:induction false} RunInv(s: Pool, es: seq<Event>, t: Pool)
    requires Inv(s) && Reaches(s, es, t)
    ensures Inv(t)
    decreases |es|
  {
    if es != [] {
      StepInv(s, es[0]);
      RunInv(Apply(s, es[0]), es[1..], t);
    }
  }
}
