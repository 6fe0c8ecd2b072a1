/**
 Publishing to a tenant's queue, one message at a time or as one AMQP transaction.
 */
module Publishers {
  import opened Consumers
  import Isolation

  /** How TxCommit ends; after an error the broker may or may not have applied it. */
  datatype Commit = Committed | CommitFailed(applied: bool)

  /** The default exchange routes by queue name and drops what no queue is declared for. */
  function Routed(queues: map<string, seq<Delivery>>, name: string, bodies: seq<Delivery>): map<string, seq<Delivery>> {
    if name in queues then queues[name := queues[name] + bodies] else queues
  }

  function Bodies(messages: seq<Message>): seq<Delivery> {
    if messages == [] then [] else Bodies(messages[..|messages| - 1]) + [WellFormed(messages[|messages| - 1])]
  }

  class Publisher {
    var queues: map<string, seq<Delivery>>

    /** Publish: the message is in the tenant's queue if and only if the call succeeds. */
    method Publish(tenant: string, message: Message, channelOk: bool, marshalOk: bool, publishOk: bool) returns (ok: bool)
      modifies this
      ensures ok <==> channelOk && marshalOk && publishOk
      ensures queues == if ok then Routed(old(queues), Isolation.QueueName(tenant), [WellFormed(message)]) else old(queues)
      ensures queues.Keys == old(queues.Keys)
      ensures forall q :: q in queues ==>
                queues[q] == old(queues)[q] + if ok && q == "tenant_" + tenant + "_queue" then [WellFormed(message)] else []
    {
      if !channelOk || !marshalOk || !publishOk {
        return false;
      }
      var name := "tenant_" + tenant + "_queue";
      if name in queues {
        queues := queues[name := queues[name] + [WellFormed(message)]];
      }
      return true;
    }

    /** PublishBatch: all messages in order, or none; only a failed commit leaves open which. */
    method PublishBatch(tenant: string, messages: seq<Message>, channelOk: bool, txOk: bool,
                        marshalOk: nat -> bool, publishOk: nat -> bool, commit: Commit) returns (ok: bool)
      modifies this
      ensures ok <==> channelOk && txOk && commit.Committed?
                      && forall i: nat :: i < |messages| ==> marshalOk(i) && publishOk(i)
      ensures queues == if channelOk && txOk && commit != CommitFailed(false) && forall i: nat :: i < |messages| ==> marshalOk(i) && publishOk(i)
                        then Routed(old(queues), Isolation.QueueName(tenant), Bodies(messages)) else old(queues)
      ensures queues.Keys == old(queues.Keys)
      ensures forall q :: q in queues && q != "tenant_" + tenant + "_queue" ==> queues[q] == old(queues)[q]
      ensures var q := "tenant_" + tenant + "_queue";
              channelOk && txOk && commit != CommitFailed(false) && q in queues
              && (forall i: nat :: i < |messages| ==> marshalOk(i) && publishOk(i)) ==>
                && |queues[q]| == |old(queues)[q]| + |messages| && queues[q][..|old(queues)[q]|] == old(queues)[q]
                && forall i :: 0 <= i < |messages| ==> queues[q][|old(queues)[q]| + i] == WellFormed(messages[i])
    {
      if !channelOk || !txOk {
        return false;
      }
      var name := "tenant_" + tenant + "_queue";
      var tx: seq<Delivery> := [];
      for i := 0 to |messages|
        invariant queues == old(queues)
        invariant tx == Bodies(messages[..i])
        invariant forall j: nat :: j < i ==> marshalOk(j) && publishOk(j)
      {
        if !marshalOk(i) {
          tx := [];
          return false;
        }
        if !publishOk(i) {
          tx := [];
          return false;
        }
        tx := tx + [WellFormed(messages[i])];
        assert messages[..i + 1][..i] == messages[..i];
      }
      assert messages[..|messages|] == messages;
      if commit == CommitFailed(false) {
        return false;
      }
      BodiesAre(messages);
      if name in queues {
        queues := queues[name := queues[name] + tx];
      }
      return commit.Committed?;
    }

    /** The same messages published one by one. */
    method PublishEach(tenant: string, messages: seq<Message>)
      modifies this
      ensures queues == Routed(old(queues), Isolation.QueueName(tenant), Bodies(messages))
    {
      var name := Isolation.QueueName(tenant);
      assert name in queues ==> queues[name] + [] == queues[name];
      for i := 0 to |messages|
        invariant queues == Routed(old(queues), name, Bodies(messages[..i]))
      {
        var ok := Publish(tenant, messages[i], true, true, true);
        BatchSplits(old(queues), name, messages[..i], [messages[i]]);
        assert messages[..i + 1] == messages[..i] + [messages[i]];
        BodiesOne(messages[i]);
      }
      assert messages[..|messages|] == messages;
    }
  }

  lemma {:induction false} BodiesAre(messages: seq<Message>)
    ensures |Bodies(messages)| == |messages|
    ensures forall i :: 0 <= i < |messages| ==> Bodies(messages)[i] == WellFormed(messages[i])
  {
    if messages != [] {
      BodiesAre(messages[..|messages| - 1]);
    }
  }

  lemma BodiesOne(m: Message)
    ensures Bodies([m]) == [WellFormed(m)]
  {
    assert [m][..0] == [];
  }

  lemma RoutedConcat(queues: map<string, seq<Delivery>>, name: string, a: seq<Delivery>, b: seq<Delivery>)
    ensures Routed(Routed(queues, name, a), name, b) == Routed(queues, name, a + b)
  {
    assert name in queues ==> queues[name] + a + b == queues[name] + (a + b);
  }

  /** Splitting a batch anywhere changes nothing for the queue. */
  lemma {:induction false} BatchSplits(queues: map<string, seq<Delivery>>, name: string, a: seq<Message>, b: seq<Message>)
    ensures Routed(queues, name, Bodies(a + b)) == Routed(Routed(queues, name, Bodies(a)), name, Bodies(b))
  {
    BodiesConcat(a, b);
    RoutedConcat(queues, name, Bodies(a), Bodies(b));
  }

  lemma {:induction false} BodiesConcat(a: seq<Message>, b: seq<Message>)
    ensures Bodies(a + b) == Bodies(a) + Bodies(b)
    decreases |b|
  {
    if b == [] {
      assert a + b == a;
    } else {
      var n := |b| - 1;
      assert (a + b)[..|a + b| - 1] == a + b[..n];
      BodiesConcat(a, b[..n]);
    }
  }
}
