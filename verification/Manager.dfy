/**
 The tenant manager and the tenant routes as objects, run one request at a time. What several
 requests do to each other is in ManagerMachine and Registry.
 */
module Managers {
  import opened WorkItems
  import opened Wrappers
  import PoolMachine
  import opened PoolRuns
  import opened WorkerPools
  import opened Registry

  class Manager {
    const defaultWorkers: int
    const maxWorkers: nat
    const maxRetry: int
    var consumers: map<string, WorkerPool>

    /** Registered pools run and are distinct objects. */
    ghost predicate Valid()
      reads this, consumers.Values
    {
      && (forall t :: t in consumers ==> consumers[t].Valid() && !consumers[t].done)
      && (forall t, u :: t in consumers && u in consumers && consumers[t] == consumers[u] ==> t == u)
    }

    /** The advertised worker count of every registered consumer. */
    ghost function Sizes(): map<string, int>
      reads this, consumers.Values
    {
      map t | t in consumers :: consumers[t].workers
    }

    constructor (defaultWorkers: int, maxWorkers: nat, maxRetry: int)
      ensures Valid() && consumers == map[]
      ensures this.defaultWorkers == defaultWorkers && this.maxWorkers == maxWorkers && this.maxRetry == maxRetry
    {
      this.defaultWorkers, this.maxWorkers, this.maxRetry := defaultWorkers, maxWorkers, maxRetry;
      consumers := map[];
    }

    /** The count SpawnConsumer settles on; a negative one makes NewWorkerPool panic. */
    function SpawnCount(concurrency: int): int {
      var n := if concurrency <= 0 then defaultWorkers else concurrency;
      if n > maxWorkers then maxWorkers else n
    }

    method SpawnConsumer(tenant: string, concurrency: int, brokerOk: bool) returns (ok: bool)
      requires Valid() && SpawnCount(concurrency) >= 0
      modifies this`consumers
      ensures Valid()
      ensures ok <==> tenant !in old(consumers) && brokerOk
      ensures ok ==> tenant in consumers && fresh(consumers[tenant]) && consumers == old(consumers)[tenant := consumers[tenant]]
      ensures ok ==> consumers[tenant].State() == Started(SpawnCount(concurrency), maxRetry)
      ensures !ok ==> consumers == old(consumers)
      ensures Sizes() == if ok then old(Sizes())[tenant := Max(SpawnCount(concurrency), 1)] else old(Sizes())
      ensures ok ==> var asked := if concurrency <= 0 then defaultWorkers else concurrency;
                     var size := if asked > maxWorkers then maxWorkers else asked;
                     consumers[tenant].workers == if size <= 0 then 1 else size
    {
      hide PoolMachine.Inv;
      hide PoolMachine.Reaches;
      hide Started;
      hide WorkerPool.State;
      hide WorkerPool.Sound;
      hide WorkerPool.Valid;
      hide Spawns;
      hide Max;
      hide PoolMachine.Init;
      if tenant in consumers {
        return false;
      }
      var n := concurrency;
      if n <= 0 {
        n := defaultWorkers;
      }
      if n > maxWorkers {
        n := maxWorkers;
      }
      if !brokerOk {
        return false;
      }
      var pool := new WorkerPool(n, maxRetry);
      consumers := consumers[tenant := pool];
      return true;
    }

    /** The consumer leaves the map before its pool is stopped, and no other pool moves. Up to
        `calls` further calls of Submit and Resize reach the pool during the stop. */
    method StopConsumer(tenant: string, calls: nat) returns (ok: bool)
      requires Valid()
      modifies this`consumers, if tenant in consumers then {consumers[tenant]} else {}
      ensures Valid()
      ensures ok <==> tenant in old(consumers)
      ensures consumers == old(consumers) - {tenant}
      ensures ok ==> var pool := old(consumers[tenant]);
                     && pool.Sound() && pool.done && pool.wg == 0
                     && old(pool.history.accepted) <= pool.history.accepted
                     && (calls == 0 ==> pool.Valid() && pool.history.accepted == old(pool.history.accepted))
                     && forall k: nat :: k < |pool.history.accepted| ==>
                          (k in pool.history.outcomes <==> k < |pool.history.dequeued|)
      ensures Sizes() == old(Sizes()) - {tenant}
    {
      hide PoolMachine.Inv;
      hide PoolMachine.Reaches;
      if tenant !in consumers {
        return false;
      }
      var pool := consumers[tenant];
      consumers := consumers - {tenant};
      ghost var es := pool.Stop(calls);
      return true;
    }

    method UpdateConcurrency(tenant: string, workers: int) returns (ok: bool)
      requires Valid()
      modifies if tenant in consumers then {consumers[tenant]} else {}
      ensures Valid()
      ensures ok <==> tenant in consumers
      ensures Sizes() == if ok then old(Sizes())[tenant := PoolSize(Max(workers, 1), maxWorkers)] else old(Sizes())
      ensures ok ==> var asked := if workers <= 0 then 1 else workers;
                     var size := if asked > maxWorkers then maxWorkers else asked;
                     consumers[tenant].workers == if size <= 0 then 1 else size
    {
      hide PoolMachine.Inv;
      hide PoolMachine.Reaches;
      hide WorkerPool.State;
      hide ResizeRun;
      hide Idles;
      if tenant !in consumers {
        return false;
      }
      var n := workers;
      if n <= 0 {
        n := 1;
      }
      if n > maxWorkers {
        n := maxWorkers;
      }
      consumers[tenant].Resize(n);
      return true;
    }

    /** The pools in the map, as a list. */
    method Listed() returns (pools: seq<WorkerPool>)
      requires Valid()
      ensures forall t :: t in consumers ==> consumers[t] in pools
      ensures forall i :: 0 <= i < |pools| ==> pools[i] in consumers.Values && pools[i].Valid() && !pools[i].done
      ensures forall i, j :: 0 <= i < j < |pools| ==> pools[i] != pools[j]
    {
      hide PoolMachine.Inv;
      hide WorkerPool.State;
      hide WorkerPool.Valid;
      pools := [];
      var rest := consumers.Keys;
      ghost var names: seq<string> := [];
      while rest != {}
        invariant rest <= consumers.Keys && |names| == |pools|
        invariant forall i :: 0 <= i < |names| ==> names[i] in consumers && names[i] !in rest && pools[i] == consumers[names[i]]
        invariant forall i, j :: 0 <= i < j < |names| ==> names[i] != names[j]
        invariant forall t :: t in consumers && t !in rest ==> consumers[t] in pools
        decreases |rest|
      {
        var t :| t in rest;
        rest := rest - {t};
        pools := pools + [consumers[t]];
        names := names + [t];
      }
    }

    /** Every pool of the snapshot ends up closed with its WaitGroup at zero, whatever order
        the teardowns take and although calls of Submit go on for a while. */
    method ShutdownAll(calls: nat)
      requires Valid()
      modifies this`consumers, consumers.Values
      ensures Valid() && consumers == map[]
      ensures forall t :: t in old(consumers) ==>
                var pool := old(consumers)[t];
                pool.Valid() && pool.done && pool.wg == 0
    {
      hide PoolMachine.Inv;
      hide WorkerPool.State;
      hide WorkerPool.Valid;
      var pools := Listed();
      consumers := map[];
      TearDown(pools, calls);
    }
  }

  /** What a pool can still do until its Stop returns. */
  ghost function StopEffort(s: PoolMachine.Pool): nat {
    Potential(s) + if s.done then 0 else 1
  }

  ghost function SumOf(xs: seq<nat>): nat {
    if xs == [] then 0 else xs[0] + SumOf(xs[1..])
  }

  lemma {:induction false} SumUpdate(xs: seq<nat>, i: nat, x: nat)
    requires i < |xs|
    ensures SumOf(xs[i := x]) + xs[i] == SumOf(xs) + x
  {
    if i == 0 {
      assert xs[0 := x][1..] == xs[1..];
    } else {
      assert xs[i := x][1..] == xs[1..][i - 1 := x];
      SumUpdate(xs[1..], i - 1, x);
    }
  }

  /** The close and every step of a worker bring a pool closer to the end of its Stop. */
  lemma StopProgress(s: PoolMachine.Pool, e: PoolMachine.Event)
    requires PoolMachine.Inv(s) && PoolMachine.Enabled(s, e) && s.mu.Free? && (e.Close? || Internal(e))
    ensures PoolMachine.WellFormed(s)
    ensures StopEffort(PoolMachine.Apply(s, e)) < StopEffort(s) && PoolMachine.Apply(s, e).mu == s.mu
  {
    hide PoolMachine.Inv;
    PoolMachine.InvWellFormed(s);
    if Internal(e) {
      StepSpendsPotential(s, e);
    }
  }

  /** A call of Submit neither starts nor ends a goroutine, nor opens the pool again. */
  lemma SubmitKeeps(s: PoolMachine.Pool, e: PoolMachine.Event)
    requires PoolMachine.Inv(s) && PoolMachine.Enabled(s, e) && (e.Accept? || e.Handoff? || e.Refuse?)
    ensures PoolMachine.WellFormed(s)
    ensures PoolMachine.Apply(s, e).wg == s.wg && PoolMachine.Apply(s, e).done == s.done && PoolMachine.Apply(s, e).mu == s.mu
  {
    hide PoolMachine.Inv;
    PoolMachine.InvWellFormed(s);
  }

  /** Some call of Submit. */
  method SubmitAnything(pool: WorkerPool)
    requires pool.Valid()
    modifies pool
    ensures pool.Valid() && pool.done == old(pool.done) && pool.wg == old(pool.wg)
  {
    hide PoolMachine.Inv;
    hide PoolMachine.Apply;
    hide PoolMachine.Enabled;
    var item: WorkItem := *;
    ghost var s := pool.State();
    var r, e := pool.Submit(item);
    SubmitKeeps(s, e);
  }

  /** A pool on its way to the end of its Stop: doneChan is closed, or a worker moves. */
  method Advance(pool: WorkerPool)
    requires pool.Valid() && !(pool.done && pool.wg == 0)
    modifies pool
    ensures pool.Valid() && StopEffort(pool.State()) < StopEffort(old(pool.State()))
  {
    hide PoolMachine.Inv;
    hide PoolMachine.Apply;
    hide PoolMachine.Enabled;
    hide StopEffort;
    ghost var s := pool.State();
    if pool.wg != 0 {
      SomeoneLives(s);
    }
    ghost var e := PoolMachine.Close;
    if {
    case !pool.done =>
      pool.CloseDone();
    case w: nat :| w < |pool.goroutines| && pool.goroutines[w].Idle? && (pool.done || pool.workChan != []) =>
      e := pool.Select(w);
    case w: nat :| w < |pool.goroutines| && pool.goroutines[w].Busy? =>
      e := pool.Process(w);
    }
    StopProgress(s, e);
  }

  /** The goroutines of ShutdownAll, one for each pool: the closes, the workers of all pools,
      the ends of the waits and up to `calls` further calls of Submit come in any order. */
  method TearDown(pools: seq<WorkerPool>, calls: nat)
    requires forall i :: 0 <= i < |pools| ==> pools[i].Valid() && !pools[i].done
    requires forall i, j :: 0 <= i < j < |pools| ==> pools[i] != pools[j]
    modifies pools
    ensures forall i :: 0 <= i < |pools| ==> pools[i].Valid() && pools[i].done && pools[i].wg == 0
  {
    hide WorkerPool.Valid;
    hide WorkerPool.State;
    hide StopEffort;
    hide SumOf;
    var left: nat := calls;
    var waiting: set<nat> := {};
    ghost var effort: seq<nat> := [];
    for n := 0 to |pools|
      invariant forall i: nat :: i in waiting <==> i < n
      invariant |effort| == n && forall i :: 0 <= i < n ==> effort[i] == StopEffort(pools[i].State())
    {
      waiting := waiting + {n};
      effort := effort + [StopEffort(pools[n].State())];
    }
    while waiting != {}
      invariant forall i: nat :: i in waiting ==> i < |pools|
      invariant forall i :: 0 <= i < |pools| ==> pools[i].Valid()
      invariant forall i: nat :: i < |pools| && i !in waiting ==> pools[i].done && pools[i].wg == 0
      invariant |effort| == |pools| && forall i :: 0 <= i < |pools| ==> effort[i] == StopEffort(pools[i].State())
      decreases left, SumOf(effort), |waiting|
    {
      var i: nat :| i in waiting;
      var submits: bool := *;
      if pools[i].done && pools[i].wg == 0 {
        waiting := waiting - {i};
      } else if left > 0 && submits {
        var k: nat :| k < |pools|;
        SubmitAnything(pools[k]);
        left := left - 1;
        effort := effort[k := StopEffort(pools[k].State())];
      } else {
        Advance(pools[i]);
        SumUpdate(effort, i, StopEffort(pools[i].State()));
        effort := effort[i := StopEffort(pools[i].State())];
      }
    }
  }

  /** The tenant routes: the tenants table and the manager, one after the other. */
  class TenantRoutes {
    const ids: Ids
    const manager: Manager
    var rows: map<nat, int>

    ghost function Stores(): Stores
      reads this, manager, manager.consumers.Values
    {
      Registry.Stores(rows, manager.Sizes())
    }

    ghost predicate Valid()
      reads this, manager, manager.consumers.Values
    {
      manager.Valid()
    }

    constructor (ids: Ids, manager: Manager)
      requires manager.Valid()
      ensures Valid() && this.ids == ids && this.manager == manager && rows == map[]
    {
      this.ids, this.manager, rows := ids, manager, map[];
    }

    /** 201 or 500; a failed spawn leaves the row behind. */
    method CreateTenant(uuid: nat, workers: int, insertOk: bool, brokerOk: bool) returns (status: nat)
      requires Valid()
      modifies this`rows, manager`consumers
      ensures Valid()
      ensures Stores() == Serve(ids, manager.maxWorkers, old(Stores()), Create(uuid, workers, insertOk, brokerOk))
      ensures status == if insertOk && uuid !in old(rows) && brokerOk && ids.text(uuid) !in old(manager.consumers)
                        then 201 else 500
      ensures rows == if insertOk && uuid !in old(rows)
                      then old(rows)[uuid := if 1 <= workers <= 50 then workers else 3] else old(rows)
      ensures status == 201 ==>
                var asked := if 1 <= workers <= 50 then workers else 3;
                var size := if asked > manager.maxWorkers then manager.maxWorkers else asked;
                && manager.consumers.Keys == old(manager.consumers.Keys) + {ids.text(uuid)}
                && manager.consumers[ids.text(uuid)].workers == if size == 0 then 1 else size
      ensures status == 500 ==> manager.consumers == old(manager.consumers)
    {
      hide PoolMachine.Inv;
      hide Manager.Valid;
      if !insertOk || uuid in rows {
        return 500;
      }
      var n := 3;
      if workers > 0 && workers <= 50 {
        n := workers;
      }
      rows := rows[uuid := n];
      var ok := manager.SpawnConsumer(ids.text(uuid), n, brokerOk);
      status := if ok then 201 else 500;
    }

    /** 404 if the row is missing, 500 if only the consumer is, else 204. */
    method DeleteTenant(id: string, dbOk: bool, calls: nat) returns (status: nat)
      requires Valid()
      modifies this`rows, manager`consumers, if id in manager.consumers then {manager.consumers[id]} else {}
      ensures Valid()
      ensures Stores() == Serve(ids, manager.maxWorkers, old(Stores()), Delete(id, dbOk))
      ensures var found := dbOk && ids.parse(id).Some? && ids.parse(id).value in old(rows);
              && status == (if !found then 404 else if id in old(manager.consumers) then 204 else 500)
              && rows == (if found then old(rows) - {ids.parse(id).value} else old(rows))
              && manager.consumers == if found then old(manager.consumers) - {id} else old(manager.consumers)
    {
      hide PoolMachine.Inv;
      hide Manager.Valid;
      if !dbOk || ids.parse(id).None? || ids.parse(id).value !in rows {
        return 404;
      }
      rows := rows - {ids.parse(id).value};
      var ok := manager.StopConsumer(id, calls);
      status := if ok then 204 else 500;
    }

    method UpdateConcurrency(id: string, workers: int, dbOk: bool) returns (status: nat)
      requires Valid()
      modifies this`rows, if id in manager.consumers then {manager.consumers[id]} else {}
      ensures Valid()
      ensures Stores() == Serve(ids, manager.maxWorkers, old(Stores()), Update(id, workers, dbOk))
      ensures var found := 1 <= workers <= 50 && dbOk && ids.parse(id).Some? && ids.parse(id).value in old(rows);
              && status == (if !found then 404 else if id in old(manager.consumers) then 200 else 500)
              && rows == (if found then old(rows)[ids.parse(id).value := workers] else old(rows))
              && manager.consumers == old(manager.consumers)
              && (status == 200 ==>
                    manager.consumers[id].workers ==
                      if manager.maxWorkers == 0 then 1 else if workers > manager.maxWorkers then manager.maxWorkers else workers)
    {
      hide PoolMachine.Inv;
      hide Manager.Valid;
      if workers <= 0 || workers > 50 {
        return 404;
      }
      if !dbOk || ids.parse(id).None? || ids.parse(id).value !in rows {
        return 404;
      }
      rows := rows[ids.parse(id).value := workers];
      var ok := manager.UpdateConcurrency(id, workers);
      status := if ok then 200 else 500;
    }
  }
}
