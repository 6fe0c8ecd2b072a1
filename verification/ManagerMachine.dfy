/**
 The tenant manager as a machine of atomic steps. SpawnConsumer is one step under the
 manager's lock; StopConsumer and ShutdownAll take consumers out of the map under the lock
 and tear them down step by step after releasing it, interleaved with everything else.
 Each consumer carries the state of its own worker pool, which keeps running meanwhile.
 */
module ManagerMachine {
  import P = PoolMachine
  import R = PoolRuns

  /** A consumer ever created, with the number of times each of its channels was closed;
      `drained` says that the wait on its pool's WaitGroup has returned. */
  datatype Consumer = Consumer(tenant: string, pool: P.Pool, doneCloses: nat, poolCloses: nat, channelCloses: nat, drained: bool)

  /** What a teardown does next with one consumer. */
  datatype Stage = CloseDone | ClosePool | Wait | CloseChannel | Finished

  /** A call of StopConsumer or ShutdownAll that removed consumers from the map. `horizon` is
      the number of consumers that had been created by then. */
  datatype Call = Call(shutdown: bool, todo: map<nat, Stage>, horizon: nat, returned: bool)

  datatype Manager = Manager(consumers: seq<Consumer>, registered: map<string, nat>, calls: seq<Call>)

  datatype Event =
    | Spawn(tenant: string, workers: nat, maxRetry: int)
    | BeginStop(tenant: string)
    | BeginShutdown
    | Teardown(call: nat, consumer: nat)
    | Return(call: nat)
    | PoolStep(consumer: nat, step: P.Event)

  const Empty := Manager([], map[], [])

  predicate Owns(s: Manager, k: nat, c: nat) {
    k < |s.calls| && c in s.calls[k].todo
  }

  predicate Registered(s: Manager, c: nat) {
    c < |s.consumers| && s.consumers[c].tenant in s.registered && s.registered[s.consumers[c].tenant] == c
  }

  predicate Enabled(s: Manager, e: Event) {
    match e
    case Spawn(t, _, _) => t !in s.registered
    case BeginStop(t) => t in s.registered
    case BeginShutdown => true
    case Teardown(k, c) =>
      && Owns(s, k, c) && c < |s.consumers| && !s.calls[k].todo[c].Finished?
      && (s.calls[k].todo[c].Wait? ==> s.consumers[c].pool.wg == 0)
    case Return(k) =>
      k < |s.calls| && !s.calls[k].returned && forall c :: c in s.calls[k].todo ==> s.calls[k].todo[c].Finished?
    case PoolStep(c, e) =>
      c < |s.consumers| && !e.Close? && P.WellFormed(s.consumers[c].pool) && P.Enabled(s.consumers[c].pool, e)
  }

  function NextStage(g: Stage): Stage {
    match g
    case CloseDone => ClosePool
    case ClosePool => Wait
    case Wait => CloseChannel
    case CloseChannel => Finished
    case Finished => Finished
  }

  /** One step of the teardown of c. Closing a closed channel would panic; here it counts. */
  function TornDown(c: Consumer, g: Stage): Consumer {
    match g
    case CloseDone => c.(doneCloses := c.doneCloses + 1)
    case ClosePool => c.(poolCloses := c.poolCloses + 1, pool := c.pool.(done := true))
    case Wait => c.(drained := true)
    case CloseChannel => c.(channelCloses := c.channelCloses + 1)
    case Finished => c
  }

  function Apply(s: Manager, e: Event): Manager
    requires Enabled(s, e)
  {
    match e
    case Spawn(t, n, r) =>
      s.(consumers := s.consumers + [Consumer(t, R.Started(n, r), 0, 0, 0, false)], registered := s.registered[t := |s.consumers|])
    case BeginStop(t) =>
      s.(registered := s.registered - {t},
         calls := s.calls + [Call(false, map[s.registered[t] := CloseDone], |s.consumers|, false)])
    case BeginShutdown =>
      s.(registered := map[],
         calls := s.calls + [Call(true, map c | c in s.registered.Values :: CloseDone, |s.consumers|, false)])
    case Teardown(k, c) =>
      var g := s.calls[k].todo[c];
      s.(consumers := s.consumers[c := TornDown(s.consumers[c], g)],
         calls := s.calls[k := s.calls[k].(todo := s.calls[k].todo[c := NextStage(g)])])
    case Return(k) => s.(calls := s.calls[k := s.calls[k].(returned := true)])
    case PoolStep(c, e) =>
      s.(consumers := s.consumers[c := s.consumers[c].(pool := P.Apply(s.consumers[c].pool, e))])
  }

  ghost predicate Reaches(s: Manager, es: seq<Event>, t: Manager)
    decreases |es|
  {
    if es == [] then s == t
    else Enabled(s, es[0]) && Reaches(Apply(s, es[0]), es[1..], t)
  }

  // ------------------------------------------------------------------------ the invariant

  predicate Untouched(c: Consumer) {
    c.doneCloses == 0 && c.poolCloses == 0 && c.channelCloses == 0 && !c.drained && !c.pool.done
  }

  function Num(b: bool): nat {
    if b then 1 else 0
  }

  /** The closes a consumer has seen when its teardown has come to stage g. */
  predicate AtStage(c: Consumer, g: Stage) {
    && c.doneCloses == Num(!g.CloseDone?)
    && c.poolCloses == Num(g.Wait? || g.CloseChannel? || g.Finished?)
    && c.pool.done == (g.Wait? || g.CloseChannel? || g.Finished?)
    && c.drained == (g.CloseChannel? || g.Finished?)
    && c.channelCloses == Num(g.Finished?)
  }

  ghost predicate MapSound(s: Manager) {
    forall t :: t in s.registered ==> s.registered[t] < |s.consumers| && s.consumers[s.registered[t]].tenant == t
  }

  /** Every consumer is in the map, untouched, or belongs to exactly one call, at its stage. */
  ghost predicate Owned(s: Manager) {
    && (forall c: nat :: Registered(s, c) ==> Untouched(s.consumers[c]))
    && (forall k: nat, c: nat :: Owns(s, k, c) ==>
          c < |s.consumers| && !Registered(s, c) && AtStage(s.consumers[c], s.calls[k].todo[c]))
    && (forall j: nat, k: nat, c: nat :: Owns(s, j, c) && Owns(s, k, c) ==> j == k)
    && (forall c: nat :: c < |s.consumers| && !Registered(s, c) ==> HasOwner(s, c))
  }

  ghost predicate HasOwner(s: Manager, c: nat) {
    exists k: nat :: Owns(s, k, c)
  }

  /** After a ShutdownAll took its snapshot, the map holds only consumers created later. */
  ghost predicate Snapshots(s: Manager) {
    forall k: nat :: k < |s.calls| ==>
      && s.calls[k].horizon <= |s.consumers|
      && (s.calls[k].shutdown ==> forall c: nat :: c < s.calls[k].horizon ==> !Registered(s, c))
      && (s.calls[k].returned ==> forall c :: c in s.calls[k].todo ==> s.calls[k].todo[c].Finished?)
  }

  ghost predicate PoolsSound(s: Manager) {
    forall c: nat :: c < |s.consumers| ==> P.Inv(s.consumers[c].pool)
  }

  ghost predicate Inv(s: Manager) {
    MapSound(s) && Owned(s) && Snapshots(s)
  }

  lemma StepPools(s: Manager, e: Event)
    requires PoolsSound(s) && Enabled(s, e)
    ensures PoolsSound(Apply(s, e))
  {
    match e
    case Spawn(_, n, r) => R.StartReaches(n, r);
    case Teardown(k, c) => ClosedPoolSound(s.consumers[c].pool);
    case PoolStep(c, e) => P.StepInv(s.consumers[c].pool, e);
    case _ =>
  }

  lemma ClosedPoolSound(p: P.Pool)
    requires P.Inv(p)
    ensures P.Inv(p.(done := true))
  {
    if p.done {
      assert p == p.(done := true);
    } else {
      P.StepInv(p, P.Close);
    }
  }

  lemma PoolStepKeepsDone(p: P.Pool, e: P.Event)
    requires P.WellFormed(p) && P.Enabled(p, e) && !e.Close?
    ensures P.Apply(p, e).done == p.done
  {
  }

  /** The calls and the map are as before; only the pool of c has moved. */
  lemma PoolStepOwned(s: Manager, c: nat, e: P.Event)
    requires Inv(s) && Enabled(s, PoolStep(c, e))
    ensures Inv(Apply(s, PoolStep(c, e)))
  {
    PoolStepKeepsDone(s.consumers[c].pool, e);
    SameOwnership(s, Apply(s, PoolStep(c, e)));
  }

  /** Steps that change neither tenants, map nor todo lists change no ownership. */
  lemma SameOwnership(s: Manager, s': Manager)
    requires Inv(s)
    requires s'.registered == s.registered && |s'.consumers| == |s.consumers| && |s'.calls| == |s.calls|
    requires forall c: nat :: c < |s.consumers| ==> s'.consumers[c].tenant == s.consumers[c].tenant
    requires forall c: nat :: Registered(s, c) ==> Untouched(s'.consumers[c])
    requires forall k: nat :: k < |s.calls| ==>
               && s'.calls[k].todo.Keys == s.calls[k].todo.Keys && s'.calls[k].shutdown == s.calls[k].shutdown
               && s'.calls[k].horizon == s.calls[k].horizon
    requires forall k: nat :: k < |s.calls| && s'.calls[k].returned ==>
               forall c :: c in s'.calls[k].todo ==> s'.calls[k].todo[c].Finished?
    requires forall k: nat, c: nat :: Owns(s', k, c) && c < |s'.consumers| ==> AtStage(s'.consumers[c], s'.calls[k].todo[c])
    ensures Inv(s')
  {
    assert forall k: nat, c: nat :: Owns(s', k, c) <==> Owns(s, k, c);
    assert forall c: nat :: Registered(s', c) <==> Registered(s, c);
    forall c: nat | c < |s'.consumers| && !Registered(s', c) ensures HasOwner(s', c) {
      assert HasOwner(s, c);
      var k: nat :| Owns(s, k, c);
      assert Owns(s', k, c);
    }
  }

  lemma SpawnOwned(s: Manager, t: string, n: nat, r: int)
    requires Inv(s) && Enabled(s, Spawn(t, n, r))
    ensures Inv(Apply(s, Spawn(t, n, r)))
  {
    var s' := Apply(s, Spawn(t, n, r));
    var d := |s.consumers|;
    assert forall k: nat, c: nat :: Owns(s', k, c) <==> Owns(s, k, c);
    assert forall c: nat :: c != d ==> (Registered(s', c) <==> Registered(s, c));
    assert Registered(s', d);
    forall c: nat | c < |s'.consumers| && !Registered(s', c) ensures HasOwner(s', c) {
      assert HasOwner(s, c);
      var k: nat :| Owns(s, k, c);
      assert Owns(s', k, c);
    }
  }

  /** A call takes the consumers in `taken` out of the map and becomes their only owner. */
  lemma TakeOwned(s: Manager, s': Manager, taken: set<nat>, call: Call)
    requires Inv(s)
    requires s'.consumers == s.consumers && s'.calls == s.calls + [call]
    requires forall c :: c in taken <==> Registered(s, c) && !Registered(s', c)
    requires forall c: nat :: Registered(s', c) ==> Registered(s, c)
    requires MapSound(s')
    requires call.todo == map c | c in taken :: CloseDone
    requires call.horizon == |s.consumers| && !call.returned
    requires call.shutdown ==> forall c: nat :: !Registered(s', c)
    ensures Inv(s')
  {
    var n := |s.calls|;
    assert forall k: nat, c: nat :: k != n ==> (Owns(s', k, c) <==> Owns(s, k, c));
    assert forall c: nat :: Owns(s', n, c) <==> c in taken;
    forall c: nat | c < |s'.consumers| && !Registered(s', c) ensures HasOwner(s', c) {
      if c in taken {
        assert Owns(s', n, c);
      } else {
        assert HasOwner(s, c);
        var k: nat :| Owns(s, k, c);
        assert Owns(s', k, c);
      }
    }
    forall k: nat, c: nat | Owns(s', k, c)
      ensures c < |s'.consumers| && !Registered(s', c) && AtStage(s'.consumers[c], s'.calls[k].todo[c])
    {
      if k != n {
        assert Owns(s, k, c);
      }
    }
  }

  lemma TeardownOwned(s: Manager, k: nat, c: nat)
    requires Inv(s) && Enabled(s, Teardown(k, c))
    ensures Inv(Apply(s, Teardown(k, c)))
  {
    var s' := Apply(s, Teardown(k, c));
    var g := s.calls[k].todo[c];
    assert Owns(s, k, c) && AtStage(s.consumers[c], g);
    assert AtStage(s'.consumers[c], NextStage(g));
    forall j: nat, d: nat | Owns(s', j, d) && d < |s'.consumers|
      ensures AtStage(s'.consumers[d], s'.calls[j].todo[d])
    {
      assert Owns(s, j, d);
    }
    SameOwnership(s, s');
  }

  lemma BeginStopOwned(s: Manager, t: string)
    requires Inv(s) && Enabled(s, BeginStop(t))
    ensures Inv(Apply(s, BeginStop(t)))
  {
    var s', c := Apply(s, BeginStop(t)), s.registered[t];
    assert forall d: nat :: Registered(s', d) <==> Registered(s, d) && d != c;
    TakeOwned(s, s', {c}, s'.calls[|s.calls|]);
  }

  lemma BeginShutdownOwned(s: Manager)
    requires Inv(s)
    ensures Inv(Apply(s, BeginShutdown))
  {
    var s' := Apply(s, BeginShutdown);
    assert forall d: nat :: Registered(s, d) <==> d in s.registered.Values;
    TakeOwned(s, s', s.registered.Values, s'.calls[|s.calls|]);
  }

  lemma ReturnOwned(s: Manager, k: nat)
    requires Inv(s) && Enabled(s, Return(k))
    ensures Inv(Apply(s, Return(k)))
  {
    SameOwnership(s, Apply(s, Return(k)));
  }

  lemma StepInv(s: Manager, e: Event)
    requires Inv(s) && Enabled(s, e)
    ensures Inv(Apply(s, e))
  {
    hide Inv;
    match e
    case Spawn(t, n, r) => SpawnOwned(s, t, n, r);
    case BeginStop(t) => BeginStopOwned(s, t);
    case BeginShutdown => BeginShutdownOwned(s);
    case Teardown(k, c) => TeardownOwned(s, k, c);
    case Return(k) => ReturnOwned(s, k);
    case PoolStep(c, e) => PoolStepOwned(s, c, e);
  }

  lemma {:induction false} RunInv(s: Manager, es: seq<Event>, t: Manager)
    requires Inv(s) && PoolsSound(s) && Reaches(s, es, t)
    ensures Inv(t) && PoolsSound(t)
    decreases |es|
  {
    if es != [] {
      StepInv(s, es[0]);
      StepPools(s, es[0]);
      RunInv(Apply(s, es[0]), es[1..], t);
    }
  }

  // --------------------------------------------------------------------------- theorems

  /** In every interleaving each consumer is in exactly one place: in the map and untouched,
      or with exactly one stopper. So no channel is ever closed twice, and none before
      its consumer has left the map. */
  lemma SingleClose(es: seq<Event>, s: Manager, c: nat)
    requires Reaches(Empty, es, s) && c < |s.consumers|
    ensures s.consumers[c].doneCloses <= 1 && s.consumers[c].poolCloses <= 1 && s.consumers[c].channelCloses <= 1
    ensures s.consumers[c].pool.done <==> s.consumers[c].poolCloses == 1
    ensures Registered(s, c) ==> Untouched(s.consumers[c])
    ensures Registered(s, c) <==> !HasOwner(s, c)
    ensures forall j: nat, k: nat :: Owns(s, j, c) && Owns(s, k, c) ==> j == k
    ensures forall k: nat :: Owns(s, k, c) ==> AtStage(s.consumers[c], s.calls[k].todo[c])
  {
    RunInv(Empty, es, s);
    if !Registered(s, c) {
      assert HasOwner(s, c);
      var k: nat :| Owns(s, k, c);
    }
  }

  /** A call keeps its list of consumers, and its kind, for as long as the run lasts. */
  ghost predicate CallKept(s: Manager, t: Manager, k: nat) {
    && k < |s.calls| <= |t.calls|
    && t.calls[k].todo.Keys == s.calls[k].todo.Keys
    && t.calls[k].shutdown == s.calls[k].shutdown && t.calls[k].horizon == s.calls[k].horizon
  }

  lemma {:induction false} RunKeepsCall(s: Manager, es: seq<Event>, t: Manager, k: nat)
    requires Reaches(s, es, t) && k < |s.calls|
    ensures CallKept(s, t, k)
    decreases |es|
  {
    if es != [] {
      assert CallKept(s, Apply(s, es[0]), k);
      RunKeepsCall(Apply(s, es[0]), es[1..], t, k);
    }
  }

  lemma StepDrains(s: Manager, e: Event, c: nat)
    requires Inv(s) && Enabled(s, e)
    requires c < |Apply(s, e).consumers| && Apply(s, e).consumers[c].drained
    requires c < |s.consumers| ==> !s.consumers[c].drained
    ensures c < |s.consumers| && s.consumers[c].pool.wg == 0 && s.consumers[c].pool.done
  {
    assert e.Teardown? && e.consumer == c && Owns(s, e.call, c);
  }

  /** A consumer marked as drained has passed through a state in which its pool was closed
      and its WaitGroup was zero. */
  lemma {:induction false} DrainedReachedZero(s: Manager, es: seq<Event>, t: Manager, c: nat) returns (n: nat, u: Manager)
    requires Inv(s) && Reaches(s, es, t)
    requires c < |t.consumers| && t.consumers[c].drained
    requires c < |s.consumers| ==> !s.consumers[c].drained
    ensures n <= |es| && Reaches(s, es[..n], u)
    ensures c < |u.consumers| && u.consumers[c].pool.wg == 0 && u.consumers[c].pool.done
    decreases |es|
  {
    hide Inv;
    hide Apply;
    hide Enabled;
    var s' := Apply(s, es[0]);
    StepInv(s, es[0]);
    if c < |s'.consumers| && s'.consumers[c].drained {
      StepDrains(s, es[0], c);
      n, u := 0, s;
      assert es[..0] == [];
    } else {
      n, u := DrainedReachedZero(s', es[1..], t, c);
      assert es[..n + 1][0] == es[0] && es[..n + 1][1..] == es[1..][..n];
      n := n + 1;
    }
  }

  /** Along the run es from s the pool of c was at some point closed with no worker left. */
  ghost predicate PassedZero(s: Manager, es: seq<Event>, c: nat) {
    exists n: nat, u :: n <= |es| && Reaches(s, es[..n], u)
                        && c < |u.consumers| && u.consumers[c].pool.wg == 0 && u.consumers[c].pool.done
  }

  /** When ShutdownAll returns, whatever ran concurrently: every consumer of its snapshot has
      had each channel closed exactly once, its closed pool has since been without workers,
      and the map holds only consumers created after the snapshot. */
  lemma ShutdownIsComplete(before: seq<Event>, s: Manager, during: seq<Event>, t: Manager, c: nat)
    requires Reaches(Empty, before, s) && Reaches(Apply(s, BeginShutdown), during, t)
    requires |s.calls| < |t.calls| && t.calls[|s.calls|].returned
    ensures Apply(s, BeginShutdown).registered == map[]
    ensures Registered(s, c) ==>
              c < |t.consumers| && t.consumers[c].drained && t.consumers[c].pool.done
              && t.consumers[c].doneCloses == t.consumers[c].poolCloses == t.consumers[c].channelCloses == 1
    ensures Registered(s, c) ==> PassedZero(Apply(s, BeginShutdown), during, c)
    ensures Registered(t, c) ==> c >= |s.consumers|
  {
    RunInv(Empty, before, s);
    StepInv(s, BeginShutdown);
    StepPools(s, BeginShutdown);
    var k, s1 := |s.calls|, Apply(s, BeginShutdown);
    RunInv(s1, during, t);
    RunKeepsCall(s1, during, t, k);
    if Registered(s, c) {
      assert c in s.registered.Values;
      assert c in s1.calls[k].todo.Keys;
      assert Owns(t, k, c);
      var n, u := DrainedReachedZero(s1, during, t, c);
    }
  }

  /** StopConsumer, whatever runs concurrently: it takes its tenant, and no other, out of the map;
      the consumer never comes back; and when the call returns, each of its channels has been
      closed exactly once and its closed pool has since been without workers. */
  lemma StopIsComplete(before: seq<Event>, s: Manager, tenant: string, during: seq<Event>, t: Manager)
    requires Reaches(Empty, before, s) && tenant in s.registered && Reaches(Apply(s, BeginStop(tenant)), during, t)
    ensures Apply(s, BeginStop(tenant)).registered == s.registered - {tenant}
    ensures forall u :: u in t.registered ==> t.registered[u] != s.registered[tenant]
    ensures |s.calls| < |t.calls| && t.calls[|s.calls|].returned ==>
              var c := s.registered[tenant];
              && c < |t.consumers| && t.consumers[c].drained && t.consumers[c].pool.done
              && t.consumers[c].doneCloses == t.consumers[c].poolCloses == t.consumers[c].channelCloses == 1
              && PassedZero(Apply(s, BeginStop(tenant)), during, c)
  {
    RunInv(Empty, before, s);
    StepInv(s, BeginStop(tenant));
    StepPools(s, BeginStop(tenant));
    var k, c, s1 := |s.calls|, s.registered[tenant], Apply(s, BeginStop(tenant));
    RunInv(s1, during, t);
    RunKeepsCall(s1, during, t, k);
    assert Registered(s, c) && c in s1.calls[k].todo.Keys;
    OwnedIsGone(t, k, c);
    if t.calls[k].returned {
      StoppedIsDown(t, k, c);
      var n, u := DrainedReachedZero(s1, during, t, c);
    }
  }

  lemma OwnedIsGone(s: Manager, k: nat, c: nat)
    requires Inv(s) && Owns(s, k, c)
    ensures forall u :: u in s.registered ==> s.registered[u] != c
  {
    hide AtStage;
    assert forall u :: u in s.registered ==> Registered(s, s.registered[u]);
  }

  lemma StoppedIsDown(s: Manager, k: nat, c: nat)
    requires Inv(s) && Owns(s, k, c) && s.calls[k].returned
    ensures c < |s.consumers| && s.consumers[c].drained && s.consumers[c].pool.done
    ensures s.consumers[c].doneCloses == s.consumers[c].poolCloses == s.consumers[c].channelCloses == 1
  {
  }

  /** SpawnConsumer is refused exactly for a tenant that has a consumer; otherwise the tenant, and
      no other, gets a new one with a running pool of the given size. */
  lemma SpawnRegisters(s: Manager, tenant: string, workers: nat, maxRetry: int)
    ensures Enabled(s, Spawn(tenant, workers, maxRetry)) <==> tenant !in s.registered
    ensures tenant !in s.registered ==>
              var t := Apply(s, Spawn(tenant, workers, maxRetry));
              && |t.consumers| == |s.consumers| + 1 && t.consumers[..|s.consumers|] == s.consumers
              && t.registered == s.registered[tenant := |s.consumers|]
              && var c := t.consumers[|s.consumers|];
              && c.tenant == tenant && c.doneCloses == c.poolCloses == c.channelCloses == 0
              && !c.pool.done && c.pool.workChan == [] && c.pool.maxRetry == maxRetry && c.pool.capacity == 10 * workers
              && c.pool.wg == |c.pool.goroutines| == if workers == 0 then 1 else workers
  {
  }

  /** The wait of a teardown cannot block for ever: once the pool's own steps, of which there
      are at most Potential many, have run out, the wait returns. */
  lemma WaitEnds(es: seq<Event>, s: Manager, k: nat, c: nat, steps: seq<P.Event>, q: P.Pool)
    requires Reaches(Empty, es, s) && Owns(s, k, c) && s.calls[k].todo[c].Wait? && c < |s.consumers|
    requires P.Reaches(s.consumers[c].pool, steps, q)
    requires forall i :: 0 <= i < |steps| ==> R.Internal(steps[i])
    ensures |steps| <= R.Potential(s.consumers[c].pool)
    ensures R.Stuck(q) ==> Enabled(s.(consumers := s.consumers[c := s.consumers[c].(pool := q)]), Teardown(k, c))
  {
    hide P.Inv;
    hide P.Reaches;
    hide Snapshots;
    RunInv(Empty, es, s);
    assert AtStage(s.consumers[c], Wait);
    R.StopTerminates(s.consumers[c].pool, steps, q);
  }

  // --------------------------------------------------------------------- every call can end

  lemma ReachesCons(s: Manager, e: Event, es: seq<Event>, t: Manager)
    requires Enabled(s, e) && Reaches(Apply(s, e), es, t)
    ensures Reaches(s, [e] + es, t)
  {
    assert ([e] + es)[1..] == es;
  }

  lemma {:induction false} RunThen(s: Manager, es: seq<Event>, t: Manager, fs: seq<Event>, u: Manager) returns (gs: seq<Event>)
    requires Reaches(s, es, t) && Reaches(t, fs, u)
    ensures Reaches(s, gs, u)
    decreases |es|
  {
    hide Apply;
    hide Enabled;
    if es == [] {
      gs := fs;
    } else {
      gs := RunThen(Apply(s, es[0]), es[1..], t, fs, u);
      ReachesCons(s, es[0], gs, u);
      gs := [es[0]] + gs;
    }
  }

  function WithPool(s: Manager, c: nat, q: P.Pool): Manager
    requires c < |s.consumers|
  {
    s.(consumers := s.consumers[c := s.consumers[c].(pool := q)])
  }

  /** A run of a consumer's pool is a run of the manager. */
  lemma {:induction false} PoolRunLifts(s: Manager, c: nat, steps: seq<P.Event>, q: P.Pool) returns (es: seq<Event>)
    requires c < |s.consumers| && s.consumers[c].pool.done && P.Reaches(s.consumers[c].pool, steps, q)
    ensures Reaches(s, es, WithPool(s, c, q))
    decreases |steps|
  {
    hide P.Apply;
    hide P.WellFormed;
    if steps == [] {
      assert WithPool(s, c, q) == s;
      es := [];
    } else {
      var e, next := PoolStep(c, steps[0]), P.Apply(s.consumers[c].pool, steps[0]);
      ClosedOnce(s.consumers[c].pool, steps[0]);
      assert Apply(s, e) == WithPool(s, c, next);
      es := PoolRunLifts(WithPool(s, c, next), c, steps[1..], q);
      assert WithPool(WithPool(s, c, next), c, q) == WithPool(s, c, q);
      ReachesCons(s, e, es, WithPool(s, c, q));
      es := [e] + es;
    }
  }

  lemma ClosedOnce(p: P.Pool, e: P.Event)
    requires P.WellFormed(p) && P.Enabled(p, e) && p.done
    ensures !e.Close? && P.Apply(p, e).done
  {
  }

  /** A closed pool can be run until nobody works in it. */
  lemma PoolEmpties(s: Manager, c: nat) returns (es: seq<Event>, q: P.Pool)
    requires c < |s.consumers| && P.Inv(s.consumers[c].pool) && s.consumers[c].pool.done
    ensures Reaches(s, es, WithPool(s, c, q)) && q.wg == 0
  {
    hide P.Inv;
    hide P.Reaches;
    hide R.Stuck;
    var steps;
    steps, q := R.DrainQuietly(s.consumers[c].pool);
    P.RunInv(s.consumers[c].pool, steps, q);
    R.RunExtends(s.consumers[c].pool, steps, q);
    R.StuckMeansStopped(q);
    es := PoolRunLifts(s, c, steps, q);
  }

  function Rank(g: Stage): nat {
    match g
    case CloseDone => 4
    case ClosePool => 3
    case Wait => 2
    case CloseChannel => 1
    case Finished => 0
  }

  function WithStage(s: Manager, k: nat, c: nat, g: Stage): seq<Call>
    requires Owns(s, k, c)
  {
    s.calls[k := s.calls[k].(todo := s.calls[k].todo[c := g])]
  }

  lemma OwnedFacts(s: Manager, k: nat, c: nat)
    requires Inv(s) && PoolsSound(s) && Owns(s, k, c)
    ensures c < |s.consumers| && P.Inv(s.consumers[c].pool)
    ensures s.calls[k].todo[c].Wait? ==> s.consumers[c].pool.done
  {
    hide P.Inv;
  }

  lemma TeardownMoves(s: Manager, k: nat, c: nat)
    requires Enabled(s, Teardown(k, c))
    ensures Apply(s, Teardown(k, c)).calls == WithStage(s, k, c, NextStage(s.calls[k].todo[c]))
    ensures Rank(NextStage(s.calls[k].todo[c])) < Rank(s.calls[k].todo[c])
  {
  }

  lemma StageSame(s: Manager, k: nat, c: nat)
    requires Owns(s, k, c)
    ensures WithStage(s, k, c, s.calls[k].todo[c]) == s.calls
  {
    assert s.calls[k].todo[c := s.calls[k].todo[c]] == s.calls[k].todo;
  }

  lemma StageTwice(s: Manager, s': Manager, k: nat, c: nat, g: Stage, h: Stage)
    requires Owns(s, k, c) && s'.calls == WithStage(s, k, c, g)
    ensures Owns(s', k, c) && s'.calls[k].todo[c] == g && WithStage(s', k, c, h) == WithStage(s, k, c, h)
  {
    assert s.calls[k].todo[c := g][c := h] == s.calls[k].todo[c := h];
  }

  /** The teardown of one consumer can be brought to its end. */
  lemma {:induction false} FinishOne(s: Manager, k: nat, c: nat) returns (es: seq<Event>, t: Manager)
    requires Inv(s) && PoolsSound(s) && Owns(s, k, c)
    ensures Reaches(s, es, t) && Inv(t) && PoolsSound(t) && t.calls == WithStage(s, k, c, Finished)
    decreases Rank(s.calls[k].todo[c])
  {
    hide Inv;
    hide PoolsSound;
    hide Reaches;
    hide Apply;
    hide P.Inv;
    OwnedFacts(s, k, c);
    if s.calls[k].todo[c].Finished? {
      es, t := [], s;
      ReachesNothing(s);
      StageSame(s, k, c);
    } else {
      var es0, q := [], s.consumers[c].pool;
      ReachesNothing(s);
      if s.calls[k].todo[c].Wait? {
        es0, q := PoolEmpties(s, c);
      }
      var s1 := WithPool(s, c, q);
      assert !s.calls[k].todo[c].Wait? ==> s1 == s;
      RunInv(s, es0, s1);
      StepInv(s1, Teardown(k, c));
      StepPools(s1, Teardown(k, c));
      TeardownMoves(s1, k, c);
      StageTwice(s1, Apply(s1, Teardown(k, c)), k, c, NextStage(s.calls[k].todo[c]), Finished);
      es, t := FinishOne(Apply(s1, Teardown(k, c)), k, c);
      ReachesCons(s1, Teardown(k, c), es, t);
      es := RunThen(s, es0, s1, [Teardown(k, c)] + es, t);
    }
  }

  lemma ReachesNothing(s: Manager)
    ensures Reaches(s, [], s)
  {
  }

  function Unfinished(call: Call): set<nat> {
    set c | c in call.todo && !call.todo[c].Finished?
  }

  lemma {:induction false} FinishAll(s: Manager, k: nat) returns (es: seq<Event>, t: Manager)
    requires Inv(s) && PoolsSound(s) && k < |s.calls|
    ensures Reaches(s, es, t) && Inv(t) && PoolsSound(t) && |t.calls| == |s.calls|
    ensures Unfinished(t.calls[k]) == {} && t.calls[k].returned == s.calls[k].returned
    decreases Unfinished(s.calls[k])
  {
    hide Inv;
    hide PoolsSound;
    hide Reaches;
    if Unfinished(s.calls[k]) == {} {
      es, t := [], s;
      ReachesNothing(s);
    } else {
      var c :| c in Unfinished(s.calls[k]);
      var es0, s1 := FinishOne(s, k, c);
      assert Unfinished(s1.calls[k]) == Unfinished(s.calls[k]) - {c};
      es, t := FinishAll(s1, k);
      es := RunThen(s, es0, s1, es, t);
    }
  }

  /** From every reachable state every call of StopConsumer or ShutdownAll can still return: no
      interleaving leaves one stuck. */
  lemma CallCanReturn(before: seq<Event>, s: Manager, k: nat) returns (es: seq<Event>, t: Manager)
    requires Reaches(Empty, before, s) && k < |s.calls|
    ensures Reaches(s, es, t) && k < |t.calls| && t.calls[k].returned
  {
    hide Inv;
    hide PoolsSound;
    hide Reaches;
    EmptyInv();
    RunInv(Empty, before, s);
    var s1;
    es, s1 := FinishAll(s, k);
    if s1.calls[k].returned {
      t := s1;
    } else {
      forall c | c in s1.calls[k].todo ensures s1.calls[k].todo[c].Finished? {
        assert c !in Unfinished(s1.calls[k]);
      }
      t := Apply(s1, Return(k));
      ReachesNothing(t);
      ReachesCons(s1, Return(k), [], t);
      es := RunThen(s, es, s1, [Return(k)] + [], t);
    }
  }

  lemma EmptyInv()
    ensures Inv(Empty) && PoolsSound(Empty)
  {
  }
}
