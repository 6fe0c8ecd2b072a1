/**
 The worker pool as an object. Each method is one of the source's operations run to its end;
 its contract says which run of the pool machine it is.
 */
module WorkerPools {
  import opened WorkItems
  import opened Wrappers
  import opened PoolMachine
  import opened PoolRuns

  datatype SubmitResult = Accepted | Refused(reason: Refusal)

  /** The run a call of Resize makes when nothing interleaves with it. */
  function ResizeRun(s: Pool, newCount: int): seq<Event> {
    [BeginResize(newCount)] + Spawns(Max(Max(newCount, 1) - s.workers, 0)) + [Unlock]
  }

  class WorkerPool {
    const capacity: nat
    const maxRetry: int
    var workers: int
    var workChan: seq<WorkItem>
    var done: bool
    var wg: int
    var goroutines: seq<Worker>
    var mu: Lock
    var history: History

    ghost function State(): Pool
      reads this
    {
      Pool(capacity, maxRetry, workers, workChan, done, wg, goroutines, mu, history)
    }

    ghost predicate Sound()
      reads this
    {
      Inv(State())
    }

    /** Sound, and nobody is in the middle of Start or Resize. */
    ghost predicate Valid()
      reads this
    {
      Sound() && mu.Free?
    }

    /** As long as all accepted items have counts below the limit, none has been dead-lettered. */
    lemma NoDeadLetters()
      requires Sound() && forall i :: 0 <= i < |history.accepted| ==> history.accepted[i].retryCount < maxRetry
      ensures forall k: nat :: k in history.outcomes ==> !history.outcomes[k].DeadLettered?
    {
      hide Inv;
      PoolRuns.NoDeadLetters(State());
    }

    /** NewWorkerPool followed by Start. */
    constructor (count: nat, maxRetry: int)
      ensures Valid() && State() == Started(count, maxRetry)
      ensures capacity == 10 * count && this.maxRetry == maxRetry
      ensures workers == wg == |goroutines| == (if count == 0 then 1 else count)
      ensures forall w :: 0 <= w < |goroutines| ==> goroutines[w].Idle?
      ensures workChan == [] && history.accepted == [] && !done
      ensures Reaches(Init(count, maxRetry), Spawns(Max(count, 1)) + [Unlock], State())
    {
      var n := if count <= 0 then 1 else count;
      this.capacity := 10 * count;
      this.maxRetry := maxRetry;
      workers, workChan, done, wg, goroutines := n, [], false, 0, [];
      mu, history := Spawning(n, 0), History([], [], [], map[], 0);
      new;
      for i := 0 to n
        invariant State() == Init(count, maxRetry).(wg := i, goroutines := Idles(i), mu := Spawning(n - i, 0))
      {
        wg := wg + 1;
        goroutines := goroutines + [Idle];
        mu := Spawning(n - i - 1, 0);
        assert goroutines == Idles(i + 1);
      }
      mu := Free;
      StartReaches(count, maxRetry);
    }

    /** Only a larger count changes the goroutines; the advertised count follows either way. */
    method Resize(newCount: int)
      requires Valid()
      modifies this
      ensures Valid()
      ensures Reaches(old(State()), ResizeRun(old(State()), newCount), State())
      ensures workers == if newCount <= 0 then 1 else newCount
      ensures |goroutines| == |old(goroutines)| + if workers > old(workers) then workers - old(workers) else 0
      ensures forall w :: 0 <= w < |goroutines| ==>
                goroutines[w] == if w < |old(goroutines)| then old(goroutines)[w] else Idle
      ensures wg == old(wg) + |goroutines| - |old(goroutines)|
      ensures history == old(history).(scaledDown := old(history.scaledDown) + Max(old(workers) - workers, 0))
      ensures workChan == old(workChan) && done == old(done)
    {
      ghost var s0 := State();
      var target := if newCount <= 0 then 1 else newCount;
      var diff := target - workers;
      mu := if diff > 0 then Spawning(diff, diff) else if diff < 0 then Shrinking(target) else Spawning(0, 0);
      ghost var s1 := State();
      if diff > 0 {
        for i := 0 to diff
          invariant State() == s1.(wg := s1.wg + i, goroutines := s1.goroutines + Idles(i), mu := Spawning(diff - i, diff))
        {
          wg := wg + 1;
          goroutines := goroutines + [Idle];
          mu := Spawning(diff - i - 1, diff);
          assert goroutines == s1.goroutines + Idles(i + 1);
        }
        workers := workers + diff;
        mu := Free;
      } else if diff < 0 {
        history := history.(scaledDown := history.scaledDown + (workers - target));
        workers := target;
        mu := Free;
      } else {
        mu := Free;
      }
      assert diff <= 0 ==> s0.goroutines + Idles(0) == s0.goroutines;
      ResizeReaches(s0, newCount, State());
    }

    /** Another Resize takes mu and compares the counts. */
    method TakeMu(newCount: int) returns (ghost e: Event)
      requires Sound() && mu.Free?
      modifies this
      ensures Sound() && e == BeginResize(newCount)
      ensures Enabled(old(State()), e) && State() == Apply(old(State()), e)
    {
      ghost var s := State();
      e := BeginResize(newCount);
      var target := if newCount <= 0 then 1 else newCount;
      var diff := target - workers;
      mu := if diff > 0 then Spawning(diff, diff) else if diff < 0 then Shrinking(target) else Spawning(0, 0);
      StepInv(s, e);
    }

    /** Whoever holds mu starts one more goroutine, or stores the new count and lets go. */
    method HolderStep() returns (ghost e: Event)
      requires Sound() && !mu.Free?
      modifies this
      ensures Sound() && Internal(e)
      ensures Enabled(old(State()), e) && State() == Apply(old(State()), e)
    {
      hide Inv;
      ghost var s := State();
      InvWellFormed(s);
      match mu {
      case Spawning(n, credit) =>
        if n > 0 {
          e := Spawn;
          wg := wg + 1;
          goroutines := goroutines + [Idle];
          mu := Spawning(n - 1, credit);
        } else {
          e := Unlock;
          workers := workers + credit;
          mu := Free;
        }
      case Shrinking(target) =>
        e := Unlock;
        history := history.(scaledDown := history.scaledDown + (workers - target));
        workers := target;
        mu := Free;
      }
      StepInv(s, e);
    }

    /** Go's select: any ready case may be chosen, the default only if none is ready. */
    method Submit(item: WorkItem) returns (r: SubmitResult, ghost e: Event)
      requires Sound()
      modifies this
      ensures Sound() && (e.Accept? || e.Handoff? || e.Refuse?)
      ensures Enabled(old(State()), e) && State() == Apply(old(State()), e)
      ensures AcceptedBy(e) == if r.Accepted? then [item] else []
      ensures r.Accepted? ==>
                || (|old(workChan)| < capacity && workChan == old(workChan) + [item])
                || (old(workChan) == [] && workChan == [] && history.dequeued == old(history.dequeued) + [item])
      ensures r.Refused? ==> e == Refuse(item, r.reason) && State() == old(State())
      ensures r == Refused(ShuttingDown) ==> done
      ensures r == Refused(QueueFull) ==> !done && |workChan| >= capacity
      ensures history.accepted == old(history.accepted) + AcceptedBy(e)
    {
      ghost var s := State();
      if
      case |workChan| < capacity =>
        workChan := workChan + [item];
        history := history.(accepted := history.accepted + [item]);
        r, e := Accepted, Accept(item);
        StepInv(s, e);
      case w: nat :| workChan == [] && w < |goroutines| && goroutines[w].Idle? =>
        goroutines := goroutines[w := Busy(|history.dequeued|, 0)];
        history := history.(accepted := history.accepted + [item], dequeued := history.dequeued + [item],
                            tries := history.tries + [[]]);
        r, e := Accepted, Handoff(item, w);
        StepInv(s, e);
      case done =>
        r, e := Refused(ShuttingDown), Refuse(item, ShuttingDown);
      case !done && |workChan| >= capacity =>
        r, e := Refused(QueueFull), Refuse(item, QueueFull);
    }

    /** The select of an idle worker, when one of its cases is ready. */
    method Select(w: nat) returns (ghost e: Event)
      requires Sound()
      requires w < |goroutines| && goroutines[w].Idle? && (done || workChan != [])
      modifies this
      ensures |goroutines| == |old(goroutines)|
      ensures if goroutines[w].Exited? then old(done) && wg == old(wg) - 1 && workChan == old(workChan)
              else && old(workChan) != [] && workChan == old(workChan)[1..] && wg == old(wg)
                   && history.dequeued == old(history.dequeued) + [old(workChan)[0]]
                   && goroutines[w] == Busy(|old(history.dequeued)|, 0)
      ensures Sound() && Internal(e)
      ensures Enabled(old(State()), e) && State() == Apply(old(State()), e)
    {
      ghost var s := State();
      if {
      case done =>
        e := Exit(w);
        goroutines := goroutines[w := Exited];
        wg := wg - 1;
      case workChan != [] =>
        e := Receive(w);
        goroutines := goroutines[w := Busy(|history.dequeued|, 0)];
        history := history.(dequeued := history.dequeued + [workChan[0]], tries := history.tries + [[]]);
        workChan := workChan[1..];
      }
      StepInv(s, e);
    }

    /** The next step of processWork: one handleMessage call, or its error branch. */
    method Process(w: nat) returns (ghost e: Event)
      requires Sound()
      requires w < |goroutines| && goroutines[w].Busy?
      modifies this
      ensures Sound() && Internal(e)
      ensures Enabled(old(State()), e) && State() == Apply(old(State()), e)
      ensures var t := old(goroutines)[w].ticket;
              && t < |history.dequeued|
              && if t !in history.outcomes then
                   && old(goroutines)[w].attempt <= maxRetry
                   && goroutines[w] == Busy(t, old(goroutines)[w].attempt + 1)
                 else
                   && goroutines[w] == Idle
                   && match history.outcomes[t]
                      case Completed => old(goroutines)[w].attempt <= maxRetry
                      case DeadLettered =>
                        old(goroutines)[w].attempt > maxRetry && history.dequeued[t].retryCount >= maxRetry
                      case Dropped =>
                        old(goroutines)[w].attempt > maxRetry && history.dequeued[t].retryCount < maxRetry
    {
      ghost var s := State();
      var t := goroutines[w].ticket;
      if goroutines[w].attempt <= maxRetry {
        var ok: bool := *;
        e := Attempt(w, ok);
        history := history.(tries := history.tries[t := history.tries[t] + [ok]]);
        if ok {
          history := history.(outcomes := history.outcomes[t := Completed]);
          goroutines := goroutines[w := Idle];
        } else {
          goroutines := goroutines[w := Busy(t, goroutines[w].attempt + 1)];
        }
      } else {
        e := GiveUp(w);
        var o := if history.dequeued[t].retryCount >= maxRetry then DeadLettered else Dropped;
        history := history.(outcomes := history.outcomes[t := o]);
        goroutines := goroutines[w := Idle];
      }
      StepInv(s, e);
    }

    /** Other goroutines run: workers, callers of Resize and Stop. Only Submit is the caller's own. */
    method Yield() returns (ghost es: seq<Event>)
      requires Sound()
      modifies this
      ensures Sound()
      ensures Reaches(old(State()), es, State()) && AcceptedIn(es) == []
      ensures history.accepted == old(history.accepted)
    {
      hide Inv;
      hide Reaches;
      hide AcceptedIn;
      ghost var s0 := State();
      es := [];
      ReachesNothing(s0);
      var n :| n >= 0;
      for i := 0 to n
        invariant Sound() && Reaches(s0, es, State()) && AcceptedIn(es) == []
        invariant history.accepted == s0.history.accepted
      {
        ghost var s := State();
        ghost var e;
        if {
        case w: nat :| w < |goroutines| && goroutines[w].Idle? && (done || workChan != []) =>
          e := Select(w);
        case w: nat :| w < |goroutines| && goroutines[w].Busy? =>
          e := Process(w);
        case !mu.Free? =>
          e := HolderStep();
        case mu.Free? =>
          var newCount: int := *;
          e := TakeMu(newCount);
        case !done =>
          done := true;
          e := Close;
          StepInv(s, e);
        }
        es := QuietEvent(s0, es, s, e);
      }
    }

    /** wg.Wait() of a closed pool. The workers and the holder of mu move in any order, and up
        to `calls` further calls of Submit and Resize arrive at any time. */
    method Wait(calls: nat) returns (ghost es: seq<Event>)
      requires Sound() && done
      modifies this
      ensures Sound() && done && wg == 0
      ensures Reaches(old(State()), es, State()) && Calls(es) <= calls
      ensures history.accepted == old(history.accepted) + AcceptedIn(es)
      ensures calls == 0 ==> AcceptedIn(es) == [] && history.accepted == old(history.accepted)
      ensures calls == 0 && old(mu.Free?) ==> mu.Free?
    {
      hide Inv;
      hide Reaches;
      hide Calls;
      ghost var s0 := State();
      var left: nat := calls;
      es := [];
      ReachesNothing(s0);
      NoCalls();
      while wg != 0
        invariant Sound() && done && left <= calls
        invariant Reaches(s0, es, State()) && Calls(es) + left <= calls
        invariant calls == 0 && s0.mu.Free? ==> mu.Free?
        decreases left, Potential(State())
      {
        ghost var s := State();
        ghost var e;
        SomeoneLives(s);
        if {
        case w: nat :| w < |goroutines| && goroutines[w].Idle? =>
          e := Select(w);
        case w: nat :| w < |goroutines| && goroutines[w].Busy? =>
          e := Process(w);
        case !mu.Free? =>
          e := HolderStep();
        case left > 0 && mu.Free? =>
          var newCount: int := *;
          e := TakeMu(newCount);
          left := left - 1;
        case left > 0 =>
          var item: WorkItem := *;
          var r;
          r, e := Submit(item);
          left := left - 1;
        }
        WaitStep(s0, es, s, e);
        es := es + [e];
      }
      AcceptedIsTrace(s0, es, State());
      CallsZero(es);
    }

    /** close(doneChan). */
    method CloseDone()
      requires Sound() && !done
      modifies this
      ensures Sound() && Enabled(old(State()), Close) && State() == Apply(old(State()), Close)
    {
      ghost var s := State();
      done := true;
      StepInv(s, Close);
    }

    /** Stop closes doneChan and waits; somebody may be in the middle of a Resize, and further
        calls may arrive. The wait ends, and of all items accepted by then, those accepted
        during the stop included, exactly the dequeued ones have an outcome. */
    method Stop(calls: nat) returns (ghost es: seq<Event>)
      requires Sound() && !done
      modifies this
      ensures Sound() && done && wg == 0
      ensures Reaches(old(State()), [Close] + es, State()) && Calls(es) <= calls
      ensures history.accepted == old(history.accepted) + AcceptedIn(es) == history.dequeued + workChan
      ensures forall k: nat :: k < |history.accepted| ==> (k in history.outcomes <==> k < |history.dequeued|)
      ensures calls == 0 ==> history.accepted == old(history.accepted)
      ensures calls == 0 ==> AcceptedIn(es) == [] && forall i :: 0 <= i < |es| ==> Internal(es[i])
      ensures calls == 0 && old(mu.Free?) ==> Valid()
    {
      CloseDone();
      es := Wait(calls);
      ZeroMeansOnlyQueueIsLeft(State());
      CallsZero(es);
      assert ([Close] + es)[1..] == es;
    }
  }

  /** The calls of Submit, Resize and Stop among the events of a run. */
  function Calls(es: seq<Event>): nat {
    if es == [] then 0 else Calls(es[..|es| - 1]) + if Internal(es[|es| - 1]) then 0 else 1
  }

  lemma NoCalls()
    ensures Calls([]) == 0
  {
  }

  lemma {:induction false} CallsZero(es: seq<Event>)
    ensures Calls(es) == 0 ==> (forall i :: 0 <= i < |es| ==> Internal(es[i])) && AcceptedIn(es) == []
  {
    if es != [] && Calls(es) == 0 {
      var n := |es| - 1;
      CallsZero(es[..n]);
      assert es == es[..n] + [es[n]];
      AcceptedSnoc(es[..n], es[n]);
    }
  }

  lemma {:induction false} AcceptedSnoc(es: seq<Event>, e: Event)
    ensures AcceptedIn(es + [e]) == AcceptedIn(es) + AcceptedBy(e)
  {
    if es == [] {
      assert [] + [e] == [e] && [e][1..] == [];
    } else {
      assert (es + [e])[1..] == es[1..] + [e];
      AcceptedSnoc(es[1..], e);
    }
  }

  lemma WaitStep(s: Pool, es: seq<Event>, t: Pool, e: Event)
    requires Reaches(s, es, t) && Inv(t) && Enabled(t, e) && Inv(Apply(t, e))
    ensures Reaches(s, es + [e], Apply(t, e))
    ensures Calls(es + [e]) == Calls(es) + if Internal(e) then 0 else 1
    ensures Internal(e) ==> Potential(Apply(t, e)) < Potential(t)
    ensures !e.BeginResize? && t.mu.Free? ==> Apply(t, e).mu.Free?
    ensures t.done ==> Apply(t, e).done
  {
    hide Inv;
    InvWellFormed(t);
    InvWellFormed(Apply(t, e));
    ReachesSnoc(s, es, t, e);
    assert (es + [e])[..|es|] == es;
    if Internal(e) {
      StepSpendsPotential(t, e);
    }
  }

  lemma QuietEvent(s: Pool, es: seq<Event>, t: Pool, e: Event) returns (fs: seq<Event>)
    requires Reaches(s, es, t) && AcceptedIn(es) == [] && AcceptedBy(e) == []
    requires Inv(t) && Enabled(t, e) && Inv(Apply(t, e))
    ensures Reaches(s, fs, Apply(t, e)) && AcceptedIn(fs) == []
    ensures Apply(t, e).history.accepted == t.history.accepted
  {
    ReachesSnoc(s, es, t, e);
    fs := es + [e];
    AcceptedIsTrace(s, es, t);
    AcceptedIsTrace(s, fs, Apply(t, e));
    StepAccepted(t, e);
  }

  /** The states a scale-up passes: locked, all started, unlocked. */
  lemma ResizeUpStates(s: Pool, newCount: int, n: nat)
    requires WellFormed(s) && s.mu.Free? && Max(newCount, 1) == s.workers + n
    ensures var s1 := s.(mu := Spawning(n, n));
            var s2 := s.(wg := s.wg + n, goroutines := s.goroutines + Idles(n), mu := Spawning(0, n));
            && WellFormed(s1) && WellFormed(s2) && WellFormed(s2.(workers := s.workers + n, mu := Free))
            && Enabled(s, BeginResize(newCount)) && s1 == Apply(s, BeginResize(newCount))
            && Enabled(s2, Unlock) && s2.(workers := s.workers + n, mu := Free) == Apply(s2, Unlock)
  {
  }

  lemma ResizeUpReaches(s: Pool, newCount: int, n: nat)
    requires WellFormed(s) && s.mu.Free? && Max(newCount, 1) == s.workers + n
    ensures Reaches(s, ResizeRun(s, newCount),
                    s.(workers := s.workers + n, wg := s.wg + n, goroutines := s.goroutines + Idles(n)))
  {
    hide Reaches;
    hide Apply;
    hide Enabled;
    hide WellFormed;
    hide Idles;
    var s1 := s.(mu := Spawning(n, n));
    var s2 := s.(wg := s.wg + n, goroutines := s.goroutines + Idles(n), mu := Spawning(0, n));
    ResizeUpStates(s, newCount, n);
    ReachesOne(s, BeginResize(newCount));
    SpawnLoop(s1, n);
    ReachesConcat(s, [BeginResize(newCount)], s1, Spawns(n), s2);
    ReachesSnoc(s, [BeginResize(newCount)] + Spawns(n), s2, Unlock);
  }

  lemma ResizeDownStates(s: Pool, newCount: int)
    requires WellFormed(s) && s.mu.Free? && Max(newCount, 1) < s.workers
    ensures var target := Max(newCount, 1);
            var s1 := s.(mu := Shrinking(target));
            var s2 := s.(workers := target, history := s.history.(scaledDown := s.history.scaledDown + (s.workers - target)));
            && WellFormed(s1) && WellFormed(s2)
            && Enabled(s, BeginResize(newCount)) && s1 == Apply(s, BeginResize(newCount))
            && Enabled(s1, Unlock) && s2 == Apply(s1, Unlock)
            && ResizeRun(s, newCount) == [BeginResize(newCount)] + [Unlock]
  {
    assert [BeginResize(newCount)] + Spawns(0) == [BeginResize(newCount)];
  }

  lemma ResizeDownReaches(s: Pool, newCount: int)
    requires WellFormed(s) && s.mu.Free? && Max(newCount, 1) < s.workers
    ensures var target := Max(newCount, 1);
            Reaches(s, ResizeRun(s, newCount),
                    s.(workers := target, history := s.history.(scaledDown := s.history.scaledDown + (s.workers - target))))
  {
    hide Reaches;
    hide Apply;
    hide Enabled;
    hide WellFormed;
    hide ResizeRun;
    ResizeDownStates(s, newCount);
    ReachesOne(s, BeginResize(newCount));
    ReachesSnoc(s, [BeginResize(newCount)], s.(mu := Shrinking(Max(newCount, 1))), Unlock);
  }

  lemma ResizeReaches(s: Pool, newCount: int, t: Pool)
    requires Inv(s) && s.mu.Free?
    requires var target := Max(newCount, 1); var n := Max(target - s.workers, 0);
             t == s.(workers := target, wg := s.wg + n, goroutines := s.goroutines + Idles(n),
                     history := s.history.(scaledDown := s.history.scaledDown + Max(s.workers - target, 0)))
    ensures Reaches(s, ResizeRun(s, newCount), t) && Inv(t)
  {
    hide Inv;
    hide Reaches;
    hide WellFormed;
    InvWellFormed(s);
    if Max(newCount, 1) >= s.workers {
      ResizeUpReaches(s, newCount, Max(newCount, 1) - s.workers);
    } else {
      ResizeDownReaches(s, newCount);
      assert s.goroutines + Idles(0) == s.goroutines;
    }
    RunInv(s, ResizeRun(s, newCount), t);
  }
}
