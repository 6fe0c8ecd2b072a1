/**
 The loop that moves a tenant's deliveries from the broker into its worker pool, and how
 each delivery is settled.
 */
module Consumers {
  import opened WorkItems
  import PoolMachine
  import PoolRuns
  import opened WorkerPools

  /** A message as its JSON body carries it; nothing checks its tenantID. */
  datatype Message = Message(id: string, tenantID: string, payload: Payload)

  datatype Delivery = Malformed | WellFormed(message: Message)

  datatype Settlement = Ack | Nack(requeue: bool)

  /** The item made of a message: the tenant is the consumer's, the count is zero. */
  function ItemOf(tenant: string, m: Message): WorkItem {
    WorkItem(m.id, tenant, m.payload, 0)
  }

  /** The items of the acknowledged deliveries, in order. */
  function AckedItems(tenant: string, ds: seq<Delivery>, log: seq<Settlement>): seq<WorkItem>
    requires |ds| == |log|
  {
    if ds == [] then []
    else AckedItems(tenant, ds[..|ds| - 1], log[..|log| - 1]) + AckedItem(tenant, ds[|ds| - 1], log[|log| - 1])
  }

  function AckedItem(tenant: string, d: Delivery, r: Settlement): seq<WorkItem> {
    if d.WellFormed? && r.Ack? then [ItemOf(tenant, d.message)] else []
  }

  /** Malformed deliveries are rejected for good; well-formed ones are acknowledged or handed back. */
  predicate Settled(d: Delivery, r: Settlement) {
    if d.Malformed? then r == Nack(false) else r == Ack || r == Nack(true)
  }

  lemma AckedItemsNone(tenant: string)
    ensures AckedItems(tenant, [], []) == []
  {
  }

  lemma AckedItemsSnoc(tenant: string, ds: seq<Delivery>, log: seq<Settlement>, d: Delivery, r: Settlement)
    requires |ds| == |log|
    ensures AckedItems(tenant, ds + [d], log + [r]) == AckedItems(tenant, ds, log) + AckedItem(tenant, d, r)
  {
    assert (ds + [d])[..|ds|] == ds && (log + [r])[..|log|] == log;
  }

  class Consumer {
    const tenant: string
    const pool: WorkerPool

    constructor (tenant: string, pool: WorkerPool)
      ensures this.tenant == tenant && this.pool == pool
    {
      this.tenant, this.pool := tenant, pool;
    }

    /** Exactly one settlement, an Ack only for an item the pool has accepted, a requeue
        exactly for a well-formed message the pool refused. The item carries the message's id
        and payload, the consumer's own tenant and count 0. */
    method ProcessMessage(d: Delivery) returns (r: Settlement)
      requires pool.Sound()
      modifies pool
      ensures pool.Sound() && Settled(d, r)
      ensures d.Malformed? ==> r == Nack(false)
      ensures d.WellFormed? ==> r == Ack || r == Nack(true)
      ensures pool.history.accepted == old(pool.history.accepted) + AckedItem(tenant, d, r)
      ensures r.Ack? ==> pool.history.accepted == old(pool.history.accepted) + [WorkItem(d.message.id, tenant, d.message.payload, 0)]
      ensures r.Nack? ==> pool.State() == old(pool.State()) && pool.history.accepted == old(pool.history.accepted)
      ensures r == Nack(true) ==> old(pool.done) || |old(pool.workChan)| >= pool.capacity
    {
      hide PoolMachine.Inv;
      if d.Malformed? {
        return Nack(false);
      }
      var item := WorkItem(d.message.id, tenant, d.message.payload, 0);
      var result, e := pool.Submit(item);
      if result.Refused? {
        return Nack(true);
      }
      return Ack;
    }

    /** consumeMessages: deliveries are settled in order, while everything else keeps running,
        until the loop is told to stop, as `stop` says in front of each delivery, or the broker
        closes the channel after the last one. What the pool has accepted from this loop is
        exactly what the loop has acknowledged. */
    method ConsumeMessages(deliveries: seq<Delivery>, stop: nat -> bool) returns (log: seq<Settlement>)
      requires pool.Sound()
      modifies pool
      ensures pool.Sound() && |log| <= |deliveries|
      ensures forall i: nat :: i < |log| ==> !stop(i)
      ensures |log| < |deliveries| ==> stop(|log|)
      ensures forall i :: 0 <= i < |log| ==> Settled(deliveries[i], log[i])
      ensures pool.history.accepted == old(pool.history.accepted) + AckedItems(tenant, deliveries[..|log|], log)
      ensures Feeds(tenant, deliveries, log, old(pool.history.accepted), pool.history.accepted)
    {
      hide PoolMachine.Inv;
      hide PoolMachine.Reaches;
      hide PoolRuns.AcceptedIn;
      hide WorkerPool.State;
      hide AckedItems;
      hide AckedItem;
      hide Feeds;
      log := [];
      AckedItemsNone(tenant);
      FeedsNothing(tenant, deliveries, pool.history.accepted);
      while |log| < |deliveries|
        invariant pool.Sound() && |log| <= |deliveries|
        invariant forall i: nat :: i < |log| ==> !stop(i)
        invariant forall i :: 0 <= i < |log| ==> Settled(deliveries[i], log[i])
        invariant pool.history.accepted == old(pool.history.accepted) + AckedItems(tenant, deliveries[..|log|], log)
        invariant Feeds(tenant, deliveries, log, old(pool.history.accepted), pool.history.accepted)
      {
        ghost var es := pool.Yield();
        if stop(|log|) {
          return;
        }
        var d := deliveries[|log|];
        ghost var before := pool.history.accepted;
        var r := ProcessMessage(d);
        AckedItemsSnoc(tenant, deliveries[..|log|], log, d, r);
        FeedsMore(tenant, deliveries, log, old(pool.history.accepted), before, r, pool.history.accepted);
        assert deliveries[..|log| + 1] == deliveries[..|log|] + [d];
        log := log + [r];
      }
    }
  }

  /** How many of the settlements are acknowledgements. */
  function Acks(log: seq<Settlement>): nat {
    if log == [] then 0 else Acks(log[..|log| - 1]) + if log[|log| - 1].Ack? then 1 else 0
  }

  /** The items in `now` beyond `before` are those of the acknowledged deliveries, one each and in
      order, with the given tenant and count 0. */
  ghost predicate Feeds(tenant: string, ds: seq<Delivery>, log: seq<Settlement>, before: seq<WorkItem>, now: seq<WorkItem>) {
    && |log| <= |ds|
    && |now| == |before| + Acks(log) && now[..|before|] == before
    && (forall i :: 0 <= i < |log| && log[i].Ack? ==>
          && ds[i].WellFormed? && |before| + Acks(log[..i]) < |now|
          && now[|before| + Acks(log[..i])] == WorkItem(ds[i].message.id, tenant, ds[i].message.payload, 0))
    && (forall k :: |before| <= k < |now| ==> now[k].tenantID == tenant && now[k].retryCount == 0)
  }

  lemma FeedsNothing(tenant: string, ds: seq<Delivery>, before: seq<WorkItem>)
    ensures Feeds(tenant, ds, [], before, before)
  {
  }

  lemma FeedsMore(tenant: string, ds: seq<Delivery>, log: seq<Settlement>, before: seq<WorkItem>, now: seq<WorkItem>,
                  r: Settlement, next: seq<WorkItem>)
    requires Feeds(tenant, ds, log, before, now) && |log| < |ds|
    requires r.Ack? ==> ds[|log|].WellFormed?
                        && next == now + [WorkItem(ds[|log|].message.id, tenant, ds[|log|].message.payload, 0)]
    requires r.Nack? ==> next == now
    ensures Feeds(tenant, ds, log + [r], before, next)
  {
    assert (log + [r])[..|log|] == log;
    forall i | 0 <= i < |log| ensures (log + [r])[..i] == log[..i] && Acks(log[..i]) <= Acks(log) {
      AcksMono(log, i);
    }
  }

  lemma {:induction false} AcksMono(log: seq<Settlement>, i: nat)
    requires i <= |log|
    ensures Acks(log[..i]) <= Acks(log)
    decreases |log|
  {
    if i == |log| {
      assert log[..i] == log;
    } else {
      assert log[..|log| - 1][..i] == log[..i];
      AcksMono(log[..|log| - 1], i);
    }
  }

  lemma FeedsFresh(tenant: string, ds: seq<Delivery>, log: seq<Settlement>, now: seq<WorkItem>)
    requires Feeds(tenant, ds, log, [], now)
    ensures forall k :: 0 <= k < |now| ==> now[k].retryCount == 0
  {
  }

  /** A tenant's whole life: a pool, the loop that feeds it and nobody else, and the stop. With a
      limit of at least 1 no message is ever dead-lettered, whatever fails. */
  method ServeTenant(tenant: string, count: nat, maxRetry: int, deliveries: seq<Delivery>, stop: nat -> bool)
    returns (pool: WorkerPool, log: seq<Settlement>)
    ensures fresh(pool) && pool.Sound() && pool.done && pool.wg == 0
    ensures pool.maxRetry == maxRetry && pool.capacity == 10 * count
    ensures Feeds(tenant, deliveries, log, [], pool.history.accepted)
    ensures maxRetry >= 1 ==> forall k: nat :: k in pool.history.outcomes ==> !pool.history.outcomes[k].DeadLettered?
  {
    hide PoolMachine.Inv;
    hide PoolMachine.Reaches;
    hide PoolMachine.Apply;
    hide PoolRuns.AcceptedIn;
    hide PoolRuns.Started;
    hide WorkerPool.State;
    hide Feeds;
    pool := new WorkerPool(count, maxRetry);
    var consumer := new Consumer(tenant, pool);
    log := consumer.ConsumeMessages(deliveries, stop);
    ghost var es;
    ghost var fed := pool.history.accepted;
    if pool.done {
      es := pool.Wait(0);
      assert pool.history.accepted == fed;
    } else {
      es := pool.Stop(0);
    }
    FeedsFresh(tenant, deliveries, log, pool.history.accepted);
    if maxRetry >= 1 {
      pool.NoDeadLetters();
    }
  }
}
