/**
 What holds over whole runs of the worker pool: conservation and FIFO order, the verdict on
 every item, the goroutine accounts, and the draining of a stopped pool.
 */
module PoolRuns {
  import opened WorkItems
  import opened Wrappers
  import opened PoolMachine

  // ---------------------------------------------------------------- runs and their traces

  lemma {:induction false} ReachesConcat(s: Pool, es: seq<Event>, t: Pool, fs: seq<Event>, u: Pool)
    requires Reaches(s, es, t) && Reaches(t, fs, u)
    ensures Reaches(s, es + fs, u)
    decreases |es|
  {
    if es == [] {
      assert es + fs == fs;
    } else {
      ReachesConcat(Apply(s, es[0]), es[1..], t, fs, u);
      assert (es + fs)[0] == es[0] && (es + fs)[1..] == es[1..] + fs;
    }
  }

  lemma ReachesOne(s: Pool, e: Event)
    requires WellFormed(s) && Enabled(s, e) && WellFormed(Apply(s, e))
    ensures Reaches(s, [e], Apply(s, e))
  {
    assert [e][1..] == [];
    assert Reaches(Apply(s, e), [], Apply(s, e));
  }

  lemma ReachesNothing(s: Pool)
    requires Inv(s)
    ensures Reaches(s, [], s) && AcceptedIn([]) == []
  {
  }

  lemma ReachesSnoc(s: Pool, es: seq<Event>, t: Pool, e: Event)
    requires Reaches(s, es, t) && WellFormed(t) && Enabled(t, e) && WellFormed(Apply(t, e))
    ensures Reaches(s, es + [e], Apply(t, e))
  {
    hide Reaches;
    ReachesOne(t, e);
    ReachesConcat(s, es, t, [e], Apply(t, e));
  }

  /** The items for which Submit returned nil, read off the trace. */
  function AcceptedIn(es: seq<Event>): seq<WorkItem> {
    if es == [] then [] else AcceptedBy(es[0]) + AcceptedIn(es[1..])
  }

  function AcceptedBy(e: Event): seq<WorkItem> {
    if e.Accept? || e.Handoff? then [e.item] else []
  }

  /** The sum of all drops of the advertised count along a run. */
  function Drops(s: Pool, es: seq<Event>): nat
    decreases |es|
  {
    if es == [] || !WellFormed(s) || !Enabled(s, es[0]) then 0
    else
      var s' := Apply(s, es[0]);
      Max(s.workers - s'.workers, 0) + Drops(s', es[1..])
  }

  lemma StepAccepted(s: Pool, e: Event)
    requires WellFormed(s) && Enabled(s, e)
    ensures Apply(s, e).history.accepted == s.history.accepted + AcceptedBy(e)
  {
  }

  lemma {:induction false} AcceptedIsTrace(s: Pool, es: seq<Event>, t: Pool)
    requires Reaches(s, es, t)
    ensures t.history.accepted == s.history.accepted + AcceptedIn(es)
    decreases |es|
  {
    hide Apply;
    hide Enabled;
    hide WellFormed;
    hide AcceptedBy;
    if es != [] {
      var s' := Apply(s, es[0]);
      AcceptedIsTrace(s', es[1..], t);
      calc {
        t.history.accepted;
        s'.history.accepted + AcceptedIn(es[1..]);
        { StepAccepted(s, es[0]); }
        s.history.accepted + AcceptedBy(es[0]) + AcceptedIn(es[1..]);
        s.history.accepted + AcceptedIn(es);
      }
    }
  }

  lemma StepScaledDown(s: Pool, e: Event)
    requires Inv(s) && Enabled(s, e)
    ensures Apply(s, e).history.scaledDown == s.history.scaledDown + Max(s.workers - Apply(s, e).workers, 0)
  {
    hide Conserved;
    hide Partitioned;
    hide Judged;
  }

  lemma {:induction false} ScaledDownIsTrace(s: Pool, es: seq<Event>, t: Pool)
    requires Inv(s) && Reaches(s, es, t)
    ensures t.history.scaledDown == s.history.scaledDown + Drops(s, es)
    decreases |es|
  {
    hide Apply;
    hide Enabled;
    hide Inv;
    if es != [] {
      StepInv(s, es[0]);
      StepScaledDown(s, es[0]);
      ScaledDownIsTrace(Apply(s, es[0]), es[1..], t);
    }
  }

  /** Later states extend earlier ones: in particular an outcome, once given, is final. */
  ghost predicate Extends(s: Pool, t: Pool) {
    && t.capacity == s.capacity && t.maxRetry == s.maxRetry
    && s.history.accepted <= t.history.accepted
    && s.history.dequeued <= t.history.dequeued
    && (s.done ==> t.done)
    && forall k: nat :: k in s.history.outcomes ==>
         k in t.history.outcomes && t.history.outcomes[k] == s.history.outcomes[k]
  }

  lemma StepExtends(s: Pool, e: Event)
    requires Inv(s) && Enabled(s, e)
    ensures Extends(s, Apply(s, e))
  {
    if e.Attempt? || e.GiveUp? {
      var t := s.goroutines[e.worker].ticket;
      assert Holds(s, e.worker, t) && Held(s, t);
    }
  }

  lemma {:induction false} RunExtends(s: Pool, es: seq<Event>, t: Pool)
    requires Inv(s) && Reaches(s, es, t)
    ensures Extends(s, t)
    decreases |es|
  {
    if es != [] {
      StepInv(s, es[0]);
      StepExtends(s, es[0]);
      RunExtends(Apply(s, es[0]), es[1..], t);
    }
  }

  // ---------------------------------------------------------------- conservation and FIFO

  /** Items leave in the order they were accepted, none is lost or duplicated, and the
      buffer never outgrows ten per initial worker, whatever Resize did. */
  lemma ConservationAndFifo(workers: nat, maxRetry: int, es: seq<Event>, t: Pool)
    requires Reaches(Init(workers, maxRetry), es, t)
    ensures AcceptedIn(es) == t.history.dequeued + t.workChan
    ensures |t.workChan| <= 10 * workers
    ensures forall k: nat :: k < |t.history.dequeued| ==> (Held(t, k) <==> k !in t.history.outcomes)
    ensures forall v: nat, w: nat, k: nat :: Holds(t, v, k) && Holds(t, w, k) ==> v == w
    ensures forall k: nat :: k in t.history.outcomes ==> k < |t.history.dequeued|
  {
    hide Judged;
    hide Accounted;
    hide Apply;
    hide Reaches;
    hide AcceptedIn;
    InitInv(workers, maxRetry);
    RunInv(Init(workers, maxRetry), es, t);
    RunExtends(Init(workers, maxRetry), es, t);
    AcceptedIsTrace(Init(workers, maxRetry), es, t);
    assert [] + AcceptedIn(es) == AcceptedIn(es);
  }

  /** In every run Submit can refuse an open pool's item exactly when ten items per initial worker
      are waiting, and can put it into the channel exactly when fewer are. */
  lemma BufferIsTenPerWorker(workers: nat, maxRetry: int, es: seq<Event>, t: Pool, item: WorkItem)
    requires Reaches(Init(workers, maxRetry), es, t)
    ensures Enabled(t, Refuse(item, QueueFull)) <==> !t.done && |t.workChan| == 10 * workers
    ensures Enabled(t, Accept(item)) <==> |t.workChan| < 10 * workers
    ensures Enabled(t, Refuse(item, ShuttingDown)) <==> t.done
    ensures forall w: nat ::
              Enabled(t, Handoff(item, w)) <==> t.workChan == [] && w < |t.goroutines| && t.goroutines[w] == Idle
  {
    hide Reaches;
    hide Inv;
    hide Apply;
    InitInv(workers, maxRetry);
    RunInv(Init(workers, maxRetry), es, t);
    RunExtends(Init(workers, maxRetry), es, t);
    WithinCapacity(t);
  }

  /** When a goroutine can go on: a waiting worker takes an item whenever there is one, and leaves
      whenever the pool is closed; a busy one attempts up to the limit and then gives up; mu
      serves one Resize at a time; doneChan can be closed once. */
  lemma ReadyInWords(s: Pool, w: nat, ok: bool, newCount: int)
    requires w < |s.goroutines|
    ensures Enabled(s, Receive(w)) <==> s.goroutines[w] == Idle && s.workChan != []
    ensures Enabled(s, Exit(w)) <==> s.goroutines[w] == Idle && s.done
    ensures Enabled(s, Attempt(w, ok)) <==> s.goroutines[w].Busy? && s.goroutines[w].attempt <= s.maxRetry
    ensures Enabled(s, GiveUp(w)) <==> s.goroutines[w].Busy? && s.goroutines[w].attempt > s.maxRetry
    ensures Enabled(s, BeginResize(newCount)) <==> s.mu == Free
    ensures Enabled(s, Close) <==> !s.done
  {
  }

  /** With the WaitGroup at zero the accepted items without an outcome are exactly those
      still in the channel. */
  lemma ZeroMeansOnlyQueueIsLeft(s: Pool)
    requires Inv(s) && s.wg == 0
    ensures forall k: nat :: k < |s.history.accepted| ==>
              (k !in s.history.outcomes <==> k >= |s.history.dequeued|)
    ensures s.history.accepted == s.history.dequeued + s.workChan
  {
    LiveZero(s.goroutines);
    forall k: nat | k < |s.history.dequeued|
      ensures !Held(s, k)
    {
      forall w: nat ensures !Holds(s, w, k) {}
    }
  }

  // ------------------------------------------------------------------ the verdict on items

  /** In every interleaving an item's outcome is the declarative one, for any sequence of
      results that begins with those its attempts really had. */
  lemma OutcomeMatchesResults(workers: nat, maxRetry: int, es: seq<Event>, t: Pool, k: nat, results: nat -> bool)
    requires Reaches(Init(workers, maxRetry), es, t)
    requires k in t.history.outcomes && k < |t.history.tries|
    requires forall i: nat :: i < |t.history.tries[k]| ==> results(i) == t.history.tries[k][i]
    ensures k < |t.history.dequeued|
    ensures t.history.outcomes[k] == OutcomeOf(t.history.dequeued[k], maxRetry, results)
    ensures |t.history.tries[k]| <= Max(maxRetry + 1, 0)
    ensures forall i :: 0 <= i < |t.history.tries[k]| - 1 ==> !t.history.tries[k][i]
  {
    InitInv(workers, maxRetry);
    RunInv(Init(workers, maxRetry), es, t);
    RunExtends(Init(workers, maxRetry), es, t);
    var tries := t.history.tries[k];
    if t.history.outcomes[k].Completed? {
      assert forall i :: 0 <= i < |tries| - 1 ==> tries[i] == tries[..|tries| - 1][i];
      assert results(|tries| - 1);
    }
  }

  /** As long as all accepted items have counts below the limit, none has been dead-lettered. */
  lemma NoDeadLetters(s: Pool)
    requires Inv(s) && forall i :: 0 <= i < |s.history.accepted| ==> s.history.accepted[i].retryCount < s.maxRetry
    ensures forall k: nat :: k in s.history.outcomes ==> !s.history.outcomes[k].DeadLettered?
  {
    hide Accounted;
    forall k: nat | k in s.history.outcomes ensures !s.history.outcomes[k].DeadLettered? {
      assert s.history.dequeued[k] == s.history.accepted[k];
    }
  }

  /** Items accepted with a count below the limit, such as all that the consumer loop builds
      when the limit is at least 1, are never dead-lettered, in no run. */
  lemma FreshItemsAreNeverDeadLettered(workers: nat, maxRetry: int, es: seq<Event>, t: Pool, k: nat)
    requires Reaches(Init(workers, maxRetry), es, t)
    requires forall i :: 0 <= i < |AcceptedIn(es)| ==> AcceptedIn(es)[i].retryCount < maxRetry
    requires k in t.history.outcomes
    ensures k < |t.history.dequeued| <= |AcceptedIn(es)| && t.history.dequeued[k] == AcceptedIn(es)[k]
    ensures !t.history.outcomes[k].DeadLettered?
  {
    hide Inv;
    hide Reaches;
    hide AcceptedIn;
    ConservationAndFifo(workers, maxRetry, es, t);
    InitInv(workers, maxRetry);
    RunInv(Init(workers, maxRetry), es, t);
    RunExtends(Init(workers, maxRetry), es, t);
    AcceptedIsTrace(Init(workers, maxRetry), es, t);
    assert [] + AcceptedIn(es) == AcceptedIn(es);
    NoDeadLetters(t);
  }

  // --------------------------------------------------------------------- worker accounting

  /** The WaitGroup counts the live goroutines. Before Stop, whenever mu is free, there are as
      many as advertised plus everything ever scaled down, so the advertised count is
      exact if and only if it never dropped. */
  lemma WorkerAccounts(workers: nat, maxRetry: int, es: seq<Event>, t: Pool)
    requires Reaches(Init(workers, maxRetry), es, t)
    ensures t.wg == Live(t.goroutines)
    ensures t.mu.Free? ==> t.wg <= t.workers + Drops(Init(workers, maxRetry), es)
    ensures t.mu.Free? && !t.done ==> t.wg == t.workers + Drops(Init(workers, maxRetry), es)
    ensures t.mu.Free? && !t.done ==> (t.workers == Live(t.goroutines) <==> Drops(Init(workers, maxRetry), es) == 0)
  {
    InitInv(workers, maxRetry);
    RunInv(Init(workers, maxRetry), es, t);
    ScaledDownIsTrace(Init(workers, maxRetry), es, t);
  }

  /** n iterations of the spawning loop. */
  function Spawns(n: nat): seq<Event> {
    if n == 0 then [] else [Spawn] + Spawns(n - 1)
  }

  function Idles(n: nat): seq<Worker> {
    seq(n, i => Idle)
  }

  lemma {:induction false} SpawnLoop(s: Pool, n: nat)
    requires WellFormed(s) && s.mu.Spawning? && s.mu.remaining >= n
    ensures Reaches(s, Spawns(n), s.(wg := s.wg + n, goroutines := s.goroutines + Idles(n),
                                     mu := s.mu.(remaining := s.mu.remaining - n)))
    decreases n
  {
    if n == 0 {
      assert s.goroutines + [] == s.goroutines;
    } else {
      var s' := Apply(s, Spawn);
      SpawnLoop(s', n - 1);
      assert s'.goroutines + Idles(n - 1) == s.goroutines + Idles(n);
      ReachesOne(s, Spawn);
      ReachesConcat(s, [Spawn], s', Spawns(n - 1), s.(wg := s.wg + n, goroutines := s.goroutines + Idles(n),
                                                      mu := s.mu.(remaining := s.mu.remaining - n)));
    }
  }

  /** A pool as NewWorkerPool returns it. */
  function Started(workers: nat, maxRetry: int): Pool {
    var n := Max(workers, 1);
    Init(workers, maxRetry).(wg := n, goroutines := Idles(n), mu := Free)
  }

  lemma StartReaches(workers: nat, maxRetry: int)
    ensures Reaches(Init(workers, maxRetry), Spawns(Max(workers, 1)) + [Unlock], Started(workers, maxRetry))
    ensures Inv(Started(workers, maxRetry))
  {
    var s, n := Init(workers, maxRetry), Max(workers, 1);
    SpawnLoop(s, n);
    assert [] + Idles(n) == Idles(n);
    var t := s.(wg := n, goroutines := Idles(n), mu := Spawning(0, 0));
    ReachesSnoc(s, Spawns(n), t, Unlock);
    InitInv(workers, maxRetry);
    RunInv(s, Spawns(n) + [Unlock], Started(workers, maxRetry));
  }

  /** A scale-down stops nobody: from n workers to m advertised ones, n stay alive. */
  lemma ScaleDownStopsNobody(n: nat, m: nat, maxRetry: int)
    requires 1 <= m < n
    ensures exists t :: Reaches(Started(n, maxRetry), [BeginResize(m), Unlock], t)
                        && t.workers == m && t.wg == Live(t.goroutines) == n
  {
    var s0 := Started(n, maxRetry);
    StartReaches(n, maxRetry);
    var s1 := Apply(s0, BeginResize(m));
    StepInv(s0, BeginResize(m));
    var s2 := Apply(s1, Unlock);
    StepInv(s1, Unlock);
    assert [BeginResize(m), Unlock][1..] == [Unlock] && [Unlock][1..] == [];
    assert Reaches(s2, [], s2);
    assert Reaches(s1, [Unlock], s2);
    assert Reaches(s0, [BeginResize(m), Unlock], s2);
  }

  // ------------------------------------------------------------------------------ draining

  /** The steps that remain possible once nobody calls Submit, Resize or Stop any more. */
  predicate Internal(e: Event) {
    e.Spawn? || e.Unlock? || e.Exit? || e.Receive? || e.Attempt? || e.GiveUp?
  }

  function Allowance(maxRetry: int): nat {
    Max(maxRetry + 1, 0)
  }

  function Effort(maxRetry: int): Worker -> nat {
    (w: Worker) => match w
         case Exited => 0
         case Idle => 1
         case Busy(_, a) => 2 + Max(Allowance(maxRetry) - a, 0)
  }

  /** The steps an item waiting in the channel can still cause. */
  function Backlog(n: nat, maxRetry: int): nat {
    if n == 0 then 0 else Backlog(n - 1, maxRetry) + 2 + Allowance(maxRetry)
  }

  function LockEffort(mu: Lock): nat {
    match mu
    case Free => 0
    case Spawning(n, _) => 2 * n + 1
    case Shrinking(_) => 1
  }

  /** How many internal steps the pool can still make. */
  function Potential(s: Pool): nat {
    Backlog(|s.workChan|, s.maxRetry) + Total(s.goroutines, Effort(s.maxRetry)) + LockEffort(s.mu)
  }

  /** One worker's step replaces its own entry, by one of less effort unless it takes on
      an item from the channel. */
  lemma WorkerSpends(s: Pool, e: Event)
    requires WellFormed(s) && Enabled(s, e) && (e.Exit? || e.Receive? || e.Attempt? || e.GiveUp?)
    ensures var s' := Apply(s, e);
            && |s'.goroutines| == |s.goroutines|
            && s'.goroutines == s.goroutines[e.worker := s'.goroutines[e.worker]]
            && Effort(s.maxRetry)(s'.goroutines[e.worker]) + (if e.Receive? then 0 else 1)
               <= Effort(s.maxRetry)(s.goroutines[e.worker]) + (if e.Receive? then 1 + Allowance(s.maxRetry) else 0)
  {
  }

  lemma StepSpendsPotential(s: Pool, e: Event)
    requires WellFormed(s) && Enabled(s, e) && Internal(e)
    ensures Potential(Apply(s, e)) < Potential(s)
  {
    if e.Spawn? {
      TotalAppend(s.goroutines, Idle, Effort(s.maxRetry));
    } else if !e.Unlock? {
      WorkerSpends(s, e);
      TotalUpdate(s.goroutines, e.worker, Apply(s, e).goroutines[e.worker], Effort(s.maxRetry));
    }
  }

  /** No run of internal steps is longer than the potential it starts with, even if every
      select prefers workChan to the closed doneChan. */
  lemma {:induction false} DrainIsBounded(s: Pool, es: seq<Event>, t: Pool)
    requires Inv(s) && Reaches(s, es, t)
    requires forall i :: 0 <= i < |es| ==> Internal(es[i])
    ensures |es| + Potential(t) <= Potential(s)
    decreases |es|
  {
    if es != [] {
      StepInv(s, es[0]);
      StepSpendsPotential(s, es[0]);
      DrainIsBounded(Apply(s, es[0]), es[1..], t);
    }
  }

  ghost predicate Stuck(s: Pool) {
    forall e :: Internal(e) ==> !Enabled(s, e)
  }

  lemma StuckMeansStopped(s: Pool)
    requires Inv(s) && s.done && Stuck(s)
    ensures s.wg == 0 && s.mu.Free?
  {
    assert !Enabled(s, Unlock) && !Enabled(s, Spawn);
    forall w: nat | w < |s.goroutines|
      ensures s.goroutines[w].Exited?
    {
      assert !Enabled(s, Exit(w)) && !Enabled(s, Attempt(w, true)) && !Enabled(s, GiveUp(w));
    }
    LiveZero(s.goroutines);
  }

  /** Stop returns: after doneChan is closed every run of the goroutines is finite, and when
      it can go no further the WaitGroup is zero and only the channel's items are left. */
  lemma StopTerminates(s: Pool, es: seq<Event>, t: Pool)
    requires Inv(s) && s.done && Reaches(s, es, t)
    requires forall i :: 0 <= i < |es| ==> Internal(es[i])
    ensures |es| <= Potential(s)
    ensures Stuck(t) ==> t.wg == 0
    ensures t.wg == 0 ==> forall k: nat :: k < |t.history.accepted| ==>
                            (k !in t.history.outcomes <==> k >= |t.history.dequeued|)
    ensures t.history.accepted == t.history.dequeued + t.workChan
  {
    DrainIsBounded(s, es, t);
    RunInv(s, es, t);
    RunExtends(s, es, t);
    if Stuck(t) {
      StuckMeansStopped(t);
    }
    if t.wg == 0 {
      ZeroMeansOnlyQueueIsLeft(t);
    }
  }

  // ------------------------------------------------------------- what a stop leaves behind

  /** A run up to a point where no goroutine can move any more. Calls of Submit and Resize may
      still arrive on the way. */
  ghost predicate Ends(s: Pool, es: seq<Event>, t: Pool) {
    Reaches(s, es, t) && Stuck(t)
  }

  /** Such a run in which no Submit puts an item into the channel. */
  ghost predicate Drains(s: Pool, es: seq<Event>, t: Pool) {
    Ends(s, es, t) && forall i :: 0 <= i < |es| ==> !es[i].Accept?
  }

  /** Every accepted item has an outcome. */
  ghost predicate NothingLost(s: Pool) {
    forall k: nat :: k < |s.history.accepted| ==> k in s.history.outcomes
  }

  lemma ReachesCons(s: Pool, e: Event, es: seq<Event>, t: Pool)
    requires WellFormed(s) && Enabled(s, e) && Reaches(Apply(s, e), es, t)
    ensures Reaches(s, [e] + es, t)
  {
    assert ([e] + es)[1..] == es;
  }

  lemma SomeoneLives(s: Pool)
    requires Inv(s) && s.wg != 0
    ensures exists w: nat :: w < |s.goroutines| && !s.goroutines[w].Exited?
  {
    LiveZero(s.goroutines);
  }

  lemma StoppedMeansStuck(s: Pool)
    requires Inv(s) && s.wg == 0 && s.mu.Free?
    ensures Stuck(s)
  {
    LiveZero(s.goroutines);
  }

  /** A closed pool with anything left to do can do it without receiving from the channel. */
  lemma QuietStep(s: Pool) returns (e: Event)
    requires Inv(s) && s.done && (s.wg != 0 || !s.mu.Free?)
    ensures Internal(e) && !e.Receive? && Enabled(s, e) && Apply(s, e).done && Apply(s, e).workChan == s.workChan
  {
    if !s.mu.Free? {
      e := if s.mu.Spawning? && s.mu.remaining > 0 then Spawn else Unlock;
    } else {
      SomeoneLives(s);
      var w: nat :| w < |s.goroutines| && !s.goroutines[w].Exited?;
      e := if s.goroutines[w].Idle? then Exit(w) else WorkOn(s, w);
    }
  }

  /** The step of a busy worker that brings it closer to its next select. */
  function WorkOn(s: Pool, w: nat): Event
    requires IsBusy(s, w)
  {
    if s.goroutines[w].attempt <= s.maxRetry then Attempt(w, true) else GiveUp(w)
  }

  /** A step towards receiving one more item. */
  lemma BusyStep(s: Pool) returns (e: Event)
    requires Inv(s) && s.done && s.wg != 0 && s.workChan != []
    ensures Internal(e) && Enabled(s, e) && Apply(s, e).done && Apply(s, e).wg == s.wg
    ensures Apply(s, e).workChan == if e.Receive? then s.workChan[1..] else s.workChan
  {
    SomeoneLives(s);
    var w: nat :| w < |s.goroutines| && !s.goroutines[w].Exited?;
    e := if s.goroutines[w].Idle? then Receive(w) else WorkOn(s, w);
  }

  /** A closed pool with a live worker can receive any number of the items. */
  lemma {:induction false} ReceiveSome(s: Pool, n: nat) returns (es: seq<Event>, t: Pool)
    requires Inv(s) && s.done && s.wg != 0 && n <= |s.workChan|
    ensures Reaches(s, es, t) && Inv(t) && t.done && t.wg != 0 && t.workChan == s.workChan[n..]
    ensures forall i :: 0 <= i < |es| ==> !es[i].Accept?
    decreases Potential(s)
  {
    hide Inv;
    hide Apply;
    hide Enabled;
    hide Potential;
    hide WellFormed;
    InvWellFormed(s);
    if n == 0 {
      ReachesNothing(s);
      es, t := [], s;
    } else {
      var e := BusyStep(s);
      StepInv(s, e);
      StepSpendsPotential(s, e);
      es, t := ReceiveSome(Apply(s, e), if e.Receive? then n - 1 else n);
      ReachesCons(s, e, es, t);
      es := [e] + es;
    }
  }

  /** A closed pool can come to an end without receiving anything more. */
  lemma {:induction false} DrainQuietly(s: Pool) returns (es: seq<Event>, t: Pool)
    requires Inv(s) && s.done
    ensures Drains(s, es, t) && t.workChan == s.workChan && t.history.accepted == s.history.accepted
    decreases Potential(s)
  {
    hide Inv;
    hide Apply;
    hide Enabled;
    hide Potential;
    hide Stuck;
    hide WellFormed;
    InvWellFormed(s);
    if s.wg == 0 && s.mu.Free? {
      StoppedMeansStuck(s);
      ReachesNothing(s);
      es, t := [], s;
    } else {
      var e := QuietStep(s);
      StepInv(s, e);
      StepSpendsPotential(s, e);
      StepAccepted(s, e);
      es, t := DrainQuietly(Apply(s, e));
      ReachesCons(s, e, es, t);
      es := [e] + es;
    }
  }

  lemma DrainAfter(s: Pool, n: nat) returns (es: seq<Event>, t: Pool)
    requires Inv(s) && s.done && s.wg != 0 && n <= |s.workChan|
    ensures Drains(s, es, t) && t.workChan == s.workChan[n..]
  {
    hide Inv;
    hide Reaches;
    hide Stuck;
    var received, u := ReceiveSome(s, n);
    es, t := DrainQuietly(u);
    ReachesConcat(s, received, u, es, t);
    es := received + es;
  }

  lemma StepTakesTheHead(s: Pool, e: Event)
    requires WellFormed(s) && Enabled(s, e) && !e.Accept?
    ensures var k := if e.Receive? then 1 else 0; k <= |s.workChan| && Apply(s, e).workChan == s.workChan[k..]
  {
  }

  lemma {:induction false} OnlySuffixesStay(s: Pool, es: seq<Event>, t: Pool)
    requires Reaches(s, es, t)
    requires forall i :: 0 <= i < |es| ==> !es[i].Accept?
    ensures |t.workChan| <= |s.workChan| && t.workChan == s.workChan[|s.workChan| - |t.workChan|..]
    decreases |es|
  {
    hide Apply;
    hide Enabled;
    hide WellFormed;
    if es != [] {
      StepTakesTheHead(s, es[0]);
      OnlySuffixesStay(Apply(s, es[0]), es[1..], t);
    }
  }

  /** What a stop can leave in the channel, if some worker is still alive when doneChan is
      closed and no Submit puts an item into the channel afterwards: every suffix of what was
      in it, and nothing else. */
  lemma StopLeavesAnySuffix(s: Pool, rest: seq<WorkItem>)
    requires Inv(s) && s.done && s.wg != 0
    ensures (exists es, t :: Drains(s, es, t) && t.workChan == rest)
            <==> |rest| <= |s.workChan| && rest == s.workChan[|s.workChan| - |rest|..]
  {
    if |rest| <= |s.workChan| && rest == s.workChan[|s.workChan| - |rest|..] {
      var es, t := DrainAfter(s, |s.workChan| - |rest|);
    }
    forall es, t | Drains(s, es, t) && t.workChan == rest
      ensures |rest| <= |s.workChan| && rest == s.workChan[|s.workChan| - |rest|..]
    {
      OnlySuffixesStay(s, es, t);
    }
  }

  /** If no Submit puts an item into the channel after doneChan is closed, a stopped pool is
      sure to leave no accepted item behind if and only if its channel is empty already. */
  lemma StopLeavesNothingIff(s: Pool)
    requires Inv(s) && s.done
    ensures (forall es, t :: Drains(s, es, t) ==> t.workChan == []) <==> s.workChan == []
  {
    if s.workChan != [] {
      var es, t := DrainQuietly(s);
      assert t.workChan == s.workChan;
    } else {
      forall es, t | Drains(s, es, t) ensures t.workChan == [] {
        OnlySuffixesStay(s, es, t);
      }
    }
  }

  /** The same, said of the moment before Stop is called: as long as no Submit puts an item into
      the channel after doneChan is closed, every accepted item gets its outcome if and only
      if the channel is empty. */
  lemma StopIsSafeIff(s: Pool)
    requires Inv(s) && !s.done
    ensures (forall es, t :: Drains(Apply(s, Close), es, t) ==> NothingLost(t)) <==> s.workChan == []
  {
    hide Inv;
    hide Reaches;
    hide Stuck;
    hide NothingLost;
    InvWellFormed(s);
    StepInv(s, Close);
    var c := Apply(s, Close);
    StopLeavesNothingIff(c);
    forall es, t | Drains(c, es, t) ensures t.workChan == [] <==> NothingLost(t) {
      NothingLostIff(c, es, t);
    }
  }

  lemma NothingLostIff(s: Pool, es: seq<Event>, t: Pool)
    requires Inv(s) && s.done && Ends(s, es, t)
    ensures t.workChan == [] <==> NothingLost(t)
    ensures |t.workChan| <= s.capacity
  {
    hide Inv;
    hide Reaches;
    hide Stuck;
    RunInv(s, es, t);
    RunExtends(s, es, t);
    StuckMeansStopped(t);
    ZeroMeansOnlyQueueIsLeft(t);
    WithinCapacity(t);
    if t.workChan != [] {
      assert |t.history.accepted| > |t.history.dequeued|;
      assert |t.history.dequeued| !in t.history.outcomes;
    }
  }

  lemma WithinCapacity(s: Pool)
    requires Inv(s)
    ensures |s.workChan| <= s.capacity
  {
  }

  // ------------------------------------------------------- a stop that races with Submit

  /** Submits whose items all find room in the channel, closed pool or not. */
  lemma {:induction false} AcceptAll(s: Pool, items: seq<WorkItem>) returns (es: seq<Event>, t: Pool)
    requires Inv(s) && |s.workChan| + |items| <= s.capacity
    ensures Reaches(s, es, t) && Inv(t) && t.done == s.done
    ensures t.workChan == s.workChan + items && t.history.accepted == s.history.accepted + items
    decreases |items|
  {
    hide Inv;
    hide Reaches;
    hide WellFormed;
    InvWellFormed(s);
    if items == [] {
      ReachesNothing(s);
      es, t := [], s;
    } else {
      var e := Accept(items[0]);
      StepInv(s, e);
      es, t := AcceptAll(Apply(s, e), items[1..]);
      ReachesCons(s, e, es, t);
      es := [e] + es;
      assert items == [items[0]] + items[1..];
    }
  }

  /** With a worker still alive when doneChan is closed, and calls of Submit arriving as they
      please, every list of items that fits into the channel can be what the stop leaves. */
  lemma StopLeavesAnyList(s: Pool, rest: seq<WorkItem>)
    requires Inv(s) && s.done && s.wg != 0
    ensures (exists es, t :: Ends(s, es, t) && t.workChan == rest) <==> |rest| <= s.capacity
  {
    hide Inv;
    hide Reaches;
    hide Stuck;
    if |rest| <= s.capacity {
      var es0, t0 := ReceiveSome(s, |s.workChan|);
      RunExtends(s, es0, t0);
      var es1, t1 := AcceptAll(t0, rest);
      ReachesConcat(s, es0, t0, es1, t1);
      var es2, t2 := DrainQuietly(t1);
      ReachesConcat(s, es0 + es1, t1, es2, t2);
      assert Ends(s, es0 + es1 + es2, t2) && t2.workChan == [] + rest == rest;
    }
    forall es, t | Ends(s, es, t) && t.workChan == rest ensures |rest| <= s.capacity {
      NothingLostIff(s, es, t);
    }
  }

  /** An item submitted during the stop of a pool with an empty channel, accepted and left. */
  lemma RacingSubmitStrandsWork(s: Pool, item: WorkItem) returns (es: seq<Event>, t: Pool)
    requires Inv(s) && !s.done && s.workChan == [] && s.capacity > 0
    ensures Ends(s, [Close, Accept(item)] + es, t) && t.workChan == [item]
    ensures t.history.accepted == s.history.accepted + [item] && |s.history.accepted| !in t.history.outcomes
  {
    hide Inv;
    hide Reaches;
    hide Stuck;
    hide WellFormed;
    InvWellFormed(s);
    StepInv(s, Close);
    var s1 := Apply(s, Close);
    InvWellFormed(s1);
    StepInv(s1, Accept(item));
    var s2 := Apply(s1, Accept(item));
    es, t := DrainQuietly(s2);
    ReachesCons(s1, Accept(item), es, t);
    ReachesCons(s, Close, [Accept(item)] + es, t);
    assert [Close] + ([Accept(item)] + es) == [Close, Accept(item)] + es;
    RunInv(s2, es, t);
    RunExtends(s2, es, t);
    StuckMeansStopped(t);
    ZeroMeansOnlyQueueIsLeft(t);
  }

  /** Over all runs, with Submit and Resize called at any time: a stop is sure to leave no
      accepted item without an outcome if and only if the channel has no buffer at all. */
  lemma RacingStopIsSafeIff(s: Pool)
    requires Inv(s) && !s.done
    ensures (forall es, t :: Ends(Apply(s, Close), es, t) ==> NothingLost(t)) <==> s.capacity == 0
  {
    hide Inv;
    hide Reaches;
    hide Stuck;
    hide NothingLost;
    InvWellFormed(s);
    StepInv(s, Close);
    var c := Apply(s, Close);
    if s.capacity == 0 {
      forall es, t | Ends(c, es, t) ensures NothingLost(t) {
        NothingLostIff(c, es, t);
      }
    } else {
      var es, t := EndWithWork(c);
      NothingLostIff(c, es, t);
    }
  }

  lemma EndWithWork(s: Pool) returns (es: seq<Event>, t: Pool)
    requires Inv(s) && s.done && s.capacity > 0
    ensures Ends(s, es, t) && t.workChan != []
  {
    hide Inv;
    hide Reaches;
    hide Stuck;
    var item := WorkItem("", "", Payload("", true), 0);
    WithinCapacity(s);
    var es0, t0 := AcceptAll(s, if s.workChan == [] then [item] else []);
    es, t := DrainQuietly(t0);
    ReachesConcat(s, es0, t0, es, t);
    es := es0 + es;
  }

  /** An accepted item can be left behind for good: one worker, stopped between Submit and
      its next receive. */
  lemma StopCanStrandWork(item: WorkItem, maxRetry: int)
    ensures exists t :: Reaches(Started(1, maxRetry), [Accept(item), Close, Exit(0)], t)
                        && t.wg == 0 && Stuck(t) && t.workChan == [item] && t.history.outcomes == map[]
  {
    var s0 := Started(1, maxRetry);
    var s1 := Apply(s0, Accept(item));
    var s2 := Apply(s1, Close);
    var s3 := Apply(s2, Exit(0));
    assert [Accept(item), Close, Exit(0)][1..] == [Close, Exit(0)];
    assert [Close, Exit(0)][1..] == [Exit(0)] && [Exit(0)][1..] == [];
    assert Reaches(s3, [], s3);
    assert Reaches(s2, [Exit(0)], s3);
    assert Reaches(s1, [Close, Exit(0)], s3);
    assert s3.goroutines == [Exited];
    assert Stuck(s3);
  }

  /** A run of internal steps from a state with nobody alive and nobody to be started. */
  lemma {:induction false} NobodyIsRevived(s: Pool, es: seq<Event>, t: Pool)
    requires Inv(s) && s.wg == 0 && (s.mu.Spawning? ==> s.mu.remaining == 0) && Reaches(s, es, t)
    requires forall i :: 0 <= i < |es| ==> Internal(es[i])
    ensures t.wg == 0
    decreases |es|
  {
    if es != [] {
      LiveZero(s.goroutines);
      StepInv(s, es[0]);
      NobodyIsRevived(Apply(s, es[0]), es[1..], t);
    }
  }

  /** The WaitGroup reaches zero but need not stay there: a Resize that still holds the pool
      starts workers in a stopped pool again, exactly if it asks for more than it advertises. */
  lemma LateResizeRevives(s: Pool, newCount: int)
    requires Inv(s) && s.done && s.wg == 0 && s.mu.Free?
    ensures (exists es, t :: Reaches(Apply(s, BeginResize(newCount)), es, t)
                             && (forall i :: 0 <= i < |es| ==> Internal(es[i])) && t.wg > 0)
            <==> Max(newCount, 1) > s.workers
  {
    StepInv(s, BeginResize(newCount));
    var s1 := Apply(s, BeginResize(newCount));
    if Max(newCount, 1) > s.workers {
      ReachesOne(s1, Spawn);
      assert Apply(s1, Spawn).wg == 1;
    } else {
      forall es, t | Reaches(s1, es, t) && forall i :: 0 <= i < |es| ==> Internal(es[i])
        ensures t.wg == 0
      {
        NobodyIsRevived(s1, es, t);
      }
    }
  }
}
