/**
 Tenant isolation end to end: broker queues, consumers, worker pools and database rows of
 all tenants together, with the steps of every tenant interleaved arbitrarily. Nothing one
 tenant does can be seen from another.
 */
module Isolation {
  import opened WorkItems
  import opened Retry
  import opened Consumers

  // -------------------------------------------------------------------------- broker names

  function QueueName(t: string): string {
    "tenant_" + t + "_queue"
  }

  function DlxName(t: string): string {
    "tenant_" + t + "_dlx"
  }

  function DlqName(t: string): string {
    "tenant_" + t + "_dlq"
  }

  /** Names of different tenants differ, and so do names of different kinds. */
  lemma NamesDistinct(a: string, b: string)
    ensures QueueName(a) == QueueName(b) ==> a == b
    ensures DlqName(a) == DlqName(b) ==> a == b
    ensures DlxName(a) == DlxName(b) ==> a == b
    ensures QueueName(a) != DlqName(b) && QueueName(a) != DlxName(b) && DlqName(a) != DlxName(b)
  {
    assert a == QueueName(a)[7..|QueueName(a)| - 6] && b == QueueName(b)[7..|QueueName(b)| - 6];
    assert a == DlqName(a)[7..|DlqName(a)| - 4] && b == DlqName(b)[7..|DlqName(b)| - 4];
    assert a == DlxName(a)[7..|DlxName(a)| - 4] && b == DlxName(b)[7..|DlxName(b)| - 4];
    assert QueueName(a)[|QueueName(a)| - 1] == 'e';
    assert DlqName(b)[|DlqName(b)| - 1] == 'q' && DlqName(a)[|DlqName(a)| - 1] == 'q';
    assert DlxName(b)[|DlxName(b)| - 1] == 'x';
  }

  // --------------------------------------------------------------------------- the system

  /** Queues by name, items in work by tenant, and the two tables. */
  datatype System = System(
    queues: map<string, seq<Delivery>>,
    pools: map<string, seq<WorkItem>>,
    messages: map<Key, Row>,
    deadLetters: seq<DeadLetter>)

  /** One database statement of a worker, for the item it holds. */
  datatype Statement = Upsert(count: int) | MarkCompleted | MarkFailed | InsertDeadLetter

  /** Each event belongs to a tenant; a statement that fails changes nothing and is no event. */
  datatype Event =
    | Spawn(tenant: string)                             // declareTenantQueues, consumer started
    | Publish(tenant: string, body: Delivery)           // PublishMessage, Publisher.Publish
    | Deliver(tenant: string, accepted: bool)           // consumeMessages takes the head of the queue
    | Execute(tenant: string, item: nat, statement: Statement)
    | Finish(tenant: string, item: nat)                 // processWork returns

  function Declared(queues: map<string, seq<Delivery>>, name: string): map<string, seq<Delivery>> {
    if name in queues then queues else queues[name := []]
  }

  /** The rows after a statement for an item: its key holds the item's own tenant id. */
  function RowsAfter(m: map<Key, Row>, item: WorkItem, st: Statement): map<Key, Row> {
    var key := KeyOf(item);
    match st
    case Upsert(n) => m[key := Row(if key in m then m[key].payload else item.payload, StatusProcessing, n)]
    case MarkCompleted => if key in m then m[key := m[key].(status := StatusCompleted)] else m
    case MarkFailed => if key in m then m[key := m[key].(status := StatusFailed)] else m
    case InsertDeadLetter => m
  }

  function Executed(s: System, item: WorkItem, st: Statement): System {
    s.(messages := RowsAfter(s.messages, item, st),
       deadLetters := s.deadLetters + if st.InsertDeadLetter? then [LetterOf(item)] else [])
  }

  function Step(s: System, e: Event): System {
    var q := QueueName(e.tenant);
    match e
    case Spawn(t) =>
      s.(queues := Declared(Declared(s.queues, DlqName(t)), q),
         pools := if t in s.pools then s.pools else s.pools[t := []])
    case Publish(t, body) =>
      if q in s.queues then s.(queues := s.queues[q := s.queues[q] + [body]]) else s
    case Deliver(t, accepted) =>
      if t !in s.pools || q !in s.queues || s.queues[q] == [] then s
      else
        var d, rest := s.queues[q][0], s.queues[q][1..];
        if d.Malformed? then
          var dlq := DlqName(t);
          var taken := s.queues[q := rest];
          s.(queues := if dlq in s.queues then taken[dlq := s.queues[dlq] + [d]] else taken)
        else if accepted then
          s.(queues := s.queues[q := rest], pools := s.pools[t := s.pools[t] + [ItemOf(t, d.message)]])
        else s
    case Execute(t, i, st) =>
      if t in s.pools && i < |s.pools[t]| then Executed(s, s.pools[t][i], st) else s
    case Finish(t, i) =>
      if t in s.pools && i < |s.pools[t]| then s.(pools := s.pools[t := s.pools[t][..i] + s.pools[t][i + 1..]]) else s
  }

  function Run(s: System, es: seq<Event>): System
    decreases |es|
  {
    if es == [] then s else Run(Step(s, es[0]), es[1..])
  }

  /** A tenant's own part of a run. */
  function Own(es: seq<Event>, t: string): seq<Event> {
    if es == [] then [] else (if es[0].tenant == t then [es[0]] else []) + Own(es[1..], t)
  }

  // ------------------------------------------------------------------- what a tenant sees

  datatype View = View(
    declared: bool, queue: seq<Delivery>,
    dlqDeclared: bool, dlq: seq<Delivery>,
    running: bool, work: seq<WorkItem>,
    rows: map<Key, Row>,
    deadLetters: seq<DeadLetter>)

  function RowsOf(m: map<Key, Row>, t: string): map<Key, Row> {
    map k | k in m && k.tenant == t :: m[k]
  }

  function LettersOf(ds: seq<DeadLetter>, t: string): seq<DeadLetter> {
    if ds == [] then []
    else LettersOf(ds[..|ds| - 1], t) + if ds[|ds| - 1].tenantID == t then [ds[|ds| - 1]] else []
  }

  function ViewOf(s: System, t: string): View {
    var q, dlq := QueueName(t), DlqName(t);
    View(q in s.queues, if q in s.queues then s.queues[q] else [],
         dlq in s.queues, if dlq in s.queues then s.queues[dlq] else [],
         t in s.pools, if t in s.pools then s.pools[t] else [],
         RowsOf(s.messages, t), LettersOf(s.deadLetters, t))
  }

  /** Work items carry their consumer's tenant, whatever the message body said, and count 0. */
  ghost predicate Labelled(s: System) {
    forall t, i :: t in s.pools && 0 <= i < |s.pools[t]| ==> s.pools[t][i].tenantID == t && s.pools[t][i].retryCount == 0
  }

  lemma StepLabelled(s: System, e: Event)
    requires Labelled(s)
    ensures Labelled(Step(s, e))
  {
  }

  lemma LettersSnoc(ds: seq<DeadLetter>, d: DeadLetter, t: string)
    ensures LettersOf(ds + [d], t) == LettersOf(ds, t) + if d.tenantID == t then [d] else []
  {
    assert (ds + [d])[..|ds|] == ds;
  }

  lemma RowsElsewhere(m: map<Key, Row>, item: WorkItem, st: Statement, t: string)
    requires item.tenantID != t
    ensures RowsOf(RowsAfter(m, item, st), t) == RowsOf(m, t)
  {
  }

  lemma LettersAfter(ds: seq<DeadLetter>, item: WorkItem, st: Statement, t: string)
    ensures LettersOf(ds + (if st.InsertDeadLetter? then [LetterOf(item)] else []), t)
            == LettersOf(ds, t) + if st.InsertDeadLetter? && item.tenantID == t then [LetterOf(item)] else []
  {
    LettersSnoc(ds, LetterOf(item), t);
    assert ds + [] == ds;
  }

  /** A statement for an item of tenant u changes only u's rows and dead letters. */
  lemma ExecutedElsewhere(s: System, item: WorkItem, st: Statement, t: string)
    requires item.tenantID != t
    ensures ViewOf(Executed(s, item, st), t) == ViewOf(s, t)
  {
    hide QueueName;
    hide DlqName;
    hide LettersOf;
    hide RowsOf;
    hide RowsAfter;
    RowsElsewhere(s.messages, item, st, t);
    LettersAfter(s.deadLetters, item, st, t);
  }

  /** No step of another tenant changes what t sees. */
  lemma StepElsewhere(s: System, e: Event, t: string)
    requires Labelled(s) && e.tenant != t
    ensures ViewOf(Step(s, e), t) == ViewOf(s, t)
  {
    hide QueueName;
    hide DlqName;
    hide RowsOf;
    hide LettersOf;
    NamesDistinct(e.tenant, t);
    NamesDistinct(t, e.tenant);
    if e.Execute? && e.tenant in s.pools && e.item < |s.pools[e.tenant]| {
      ExecutedElsewhere(s, s.pools[e.tenant][e.item], e.statement, t);
    }
  }

  lemma RowsUpdate(m: map<Key, Row>, key: Key, row: Row)
    ensures RowsOf(m[key := row], key.tenant) == RowsOf(m, key.tenant)[key := row]
  {
  }

  lemma SameRow(m: map<Key, Row>, m': map<Key, Row>, key: Key)
    requires RowsOf(m, key.tenant) == RowsOf(m', key.tenant)
    ensures key in m <==> key in m'
    ensures key in m ==> m[key] == m'[key]
  {
    assert key in m <==> key in RowsOf(m, key.tenant);
    assert key in m' <==> key in RowsOf(m', key.tenant);
    assert key in m ==> m[key] == RowsOf(m, key.tenant)[key];
    assert key in m' ==> m'[key] == RowsOf(m', key.tenant)[key];
  }

  /** A statement leaves two tables alone or writes the same row into both. */
  lemma SameRowAfter(m: map<Key, Row>, m': map<Key, Row>, item: WorkItem, st: Statement) returns (written: bool, row: Row)
    requires var key := KeyOf(item); (key in m <==> key in m') && (key in m ==> m[key] == m'[key])
    ensures var key := KeyOf(item);
            if written then RowsAfter(m, item, st) == m[key := row] && RowsAfter(m', item, st) == m'[key := row]
            else RowsAfter(m, item, st) == m && RowsAfter(m', item, st) == m'
  {
    var key := KeyOf(item);
    written := st.Upsert? || (!st.InsertDeadLetter? && key in m);
    row := if written then RowsAfter(m, item, st)[key] else Row(item.payload, StatusFailed, 0);
  }

  lemma RowsHere(m: map<Key, Row>, m': map<Key, Row>, item: WorkItem, st: Statement)
    requires RowsOf(m, item.tenantID) == RowsOf(m', item.tenantID)
    ensures RowsOf(RowsAfter(m, item, st), item.tenantID) == RowsOf(RowsAfter(m', item, st), item.tenantID)
  {
    hide RowsOf;
    hide RowsAfter;
    var key := KeyOf(item);
    SameRow(m, m', key);
    var written, row := SameRowAfter(m, m', item, st);
    if written {
      RowsUpdate(m, key, row);
      RowsUpdate(m', key, row);
    }
  }

  /** What a tenant's statement makes of its rows and letters depends only on them. */
  lemma ExecutedHere(s: System, s': System, item: WorkItem, st: Statement)
    requires ViewOf(s, item.tenantID) == ViewOf(s', item.tenantID)
    ensures ViewOf(Executed(s, item, st), item.tenantID) == ViewOf(Executed(s', item, st), item.tenantID)
  {
    hide QueueName;
    hide DlqName;
    hide LettersOf;
    hide RowsOf;
    hide RowsAfter;
    RowsHere(s.messages, s'.messages, item, st);
    LettersAfter(s.deadLetters, item, st, item.tenantID);
    LettersAfter(s'.deadLetters, item, st, item.tenantID);
  }

  lemma DeliverHere(s: System, s': System, t: string, accepted: bool)
    requires ViewOf(s, t) == ViewOf(s', t)
    ensures ViewOf(Step(s, Deliver(t, accepted)), t) == ViewOf(Step(s', Deliver(t, accepted)), t)
  {
    hide QueueName;
    hide DlqName;
    hide RowsOf;
    hide LettersOf;
    NamesDistinct(t, t);
    var q, dlq := QueueName(t), DlqName(t);
    assert q != dlq;
    assert t in s.pools <==> t in s'.pools;
    assert q in s.queues <==> q in s'.queues;
    assert q in s.queues ==> s.queues[q] == s'.queues[q];
    assert dlq in s.queues <==> dlq in s'.queues;
    assert dlq in s.queues ==> s.queues[dlq] == s'.queues[dlq];
  }

  lemma SpawnHere(s: System, s': System, t: string)
    requires ViewOf(s, t) == ViewOf(s', t)
    ensures ViewOf(Step(s, Spawn(t)), t) == ViewOf(Step(s', Spawn(t)), t)
  {
    NamesDistinct(t, t);
  }

  /** What t sees after its own step depends only on what it saw before. */
  lemma StepHere(s: System, s': System, e: Event)
    requires Labelled(s) && ViewOf(s, e.tenant) == ViewOf(s', e.tenant)
    ensures ViewOf(Step(s, e), e.tenant) == ViewOf(Step(s', e), e.tenant)
  {
    match e
    case Spawn(t) => SpawnHere(s, s', t);
    case Publish(t, _) => NamesDistinct(t, t);
    case Deliver(t, accepted) => DeliverHere(s, s', t, accepted);
    case Execute(t, i, st) =>
      if t in s.pools && i < |s.pools[t]| {
        ExecutedHere(s, s', s.pools[t][i], st);
      }
    case Finish(t, _) =>
  }

  /** In every run, what tenant t sees at the end is what it would see if no other tenant had
      done anything at all. */
  lemma {:induction false} NonInterference(s: System, s': System, es: seq<Event>, t: string)
    requires Labelled(s) && Labelled(s') && ViewOf(s, t) == ViewOf(s', t)
    ensures ViewOf(Run(s, es), t) == ViewOf(Run(s', Own(es, t)), t)
    decreases |es|
  {
    if es != [] {
      var e, rest := es[0], es[1..];
      StepLabelled(s, e);
      if e.tenant == t {
        StepHere(s, s', e);
        StepLabelled(s', e);
        NonInterference(Step(s, e), Step(s', e), rest, t);
        assert Own(es, t)[0] == e && Own(es, t)[1..] == Own(rest, t);
      } else {
        StepElsewhere(s, e, t);
        NonInterference(Step(s, e), s', rest, t);
        assert Own(es, t) == Own(rest, t);
      }
    }
  }

  /** Every work item of a run from the empty system carries the tenant it was published for. */
  lemma {:induction false} RunLabelled(s: System, es: seq<Event>)
    requires Labelled(s)
    ensures Labelled(Run(s, es))
    decreases |es|
  {
    if es != [] {
      StepLabelled(s, es[0]);
      RunLabelled(Step(s, es[0]), es[1..]);
    }
  }

  // ------------------------------------------------------------------- the steps in words

  /** Spawning declares the tenant's queue and its dead-letter queue, and loses nothing. */
  lemma SpawnInWords(s: System, t: string)
    ensures var u := Step(s, Spawn(t));
            && t in u.pools && u.pools[t] == (if t in s.pools then s.pools[t] else [])
            && "tenant_" + t + "_queue" in u.queues && "tenant_" + t + "_dlq" in u.queues
            && (forall q :: q in u.queues ==> u.queues[q] == if q in s.queues then s.queues[q] else [])
            && (forall q :: q in s.queues ==> q in u.queues)
  {
  }

  /** The head of the tenant's queue: if accepted it becomes a work item with the message's id and
      payload, the consumer's tenant and count 0; if malformed it goes to the dead-letter
      queue; if refused it stays. */
  lemma DeliverInWords(s: System, t: string, accepted: bool)
    requires var q := "tenant_" + t + "_queue"; t in s.pools && q in s.queues && s.queues[q] != []
    ensures var q, dlq := "tenant_" + t + "_queue", "tenant_" + t + "_dlq";
            var d, u := s.queues[q][0], Step(s, Deliver(t, accepted));
            match d
            case WellFormed(m) =>
              if accepted then
                && u.queues == s.queues[q := s.queues[q][1..]]
                && u.pools == s.pools[t := s.pools[t] + [WorkItem(m.id, t, m.payload, 0)]]
              else u == s
            case Malformed =>
              && u.pools == s.pools && q in u.queues && u.queues[q] == s.queues[q][1..]
              && (dlq in s.queues ==> dlq in u.queues && u.queues[dlq] == s.queues[dlq] + [d])
  {
    hide QueueName;
    hide DlqName;
    NamesInWords(t);
    NamesDistinct(t, t);
  }

  lemma NamesInWords(t: string)
    ensures QueueName(t) == "tenant_" + t + "_queue" && DlqName(t) == "tenant_" + t + "_dlq"
  {
  }

  /** A statement for an item: the upsert marks the item's own row as being processed, the marks
      change the status of an existing row only, and a dead letter carries the item. */
  lemma ExecuteInWords(s: System, item: WorkItem, st: Statement)
    ensures var key, u := Key(item.messageID, item.tenantID), Executed(s, item, st);
            && (forall k: Key :: k.id != item.messageID || k.tenant != item.tenantID ==>
                  (k in u.messages <==> k in s.messages) && (k in s.messages ==> u.messages[k] == s.messages[k]))
            && (key in u.messages <==> key in s.messages || st.Upsert?)
            && (key in u.messages ==>
                  u.messages[key] ==
                    match st
                    case Upsert(n) => Row(if key in s.messages then s.messages[key].payload else item.payload, StatusProcessing, n)
                    case MarkCompleted => s.messages[key].(status := StatusCompleted)
                    case MarkFailed => s.messages[key].(status := StatusFailed)
                    case InsertDeadLetter => s.messages[key])
            && u.deadLetters == s.deadLetters
                 + if st.InsertDeadLetter? then [DeadLetter(item.messageID, item.tenantID, item.payload, item.retryCount)] else []
  {
  }

  lemma {:induction false} LettersAre(ds: seq<DeadLetter>, t: string)
    ensures forall d :: d in LettersOf(ds, t) <==> d in ds && d.tenantID == t
  {
    if ds != [] {
      LettersAre(ds[..|ds| - 1], t);
      assert forall d :: d in ds <==> d in ds[..|ds| - 1] || d == ds[|ds| - 1];
    }
  }

  /** A tenant sees all of its own queues, work, rows and dead letters. */
  lemma ViewInWords(s: System, t: string)
    ensures var v, q, dlq := ViewOf(s, t), "tenant_" + t + "_queue", "tenant_" + t + "_dlq";
            && (v.declared <==> q in s.queues) && (q in s.queues ==> v.queue == s.queues[q])
            && (v.dlqDeclared <==> dlq in s.queues) && (dlq in s.queues ==> v.dlq == s.queues[dlq])
            && (v.running <==> t in s.pools) && (t in s.pools ==> v.work == s.pools[t])
            && (forall k :: k in v.rows <==> k in s.messages && k.tenant == t)
            && (forall k :: k in v.rows ==> v.rows[k] == s.messages[k])
            && (forall d :: d in v.deadLetters <==> d in s.deadLetters && d.tenantID == t)
  {
    LettersAre(s.deadLetters, t);
  }

  // ------------------------------------------------------- nothing is lost within a tenant

  /** The bodies published for t, read off the trace. */
  function PublishedIn(es: seq<Event>, t: string): seq<Delivery> {
    if es == [] then []
    else (if es[0].Publish? && es[0].tenant == t then [es[0].body] else []) + PublishedIn(es[1..], t)
  }

  /** What one step takes off t's queue for good. */
  function TakenBy(s: System, e: Event, t: string): seq<Delivery> {
    var q := QueueName(t);
    if e.Deliver? && e.tenant == t && t in s.pools && q in s.queues && s.queues[q] != []
       && (s.queues[q][0].Malformed? || e.accepted)
    then [s.queues[q][0]] else []
  }

  function TakenIn(s: System, es: seq<Event>, t: string): seq<Delivery>
    decreases |es|
  {
    if es == [] then [] else TakenBy(s, es[0], t) + TakenIn(Step(s, es[0]), es[1..], t)
  }

  /** The rejected ones among the deliveries taken. */
  function MalformedOf(ds: seq<Delivery>): seq<Delivery> {
    if ds == [] then [] else (if ds[0].Malformed? then [ds[0]] else []) + MalformedOf(ds[1..])
  }

  function Queue(s: System, t: string): seq<Delivery>
    requires QueueName(t) in s.queues
  {
    s.queues[QueueName(t)]
  }

  lemma StepQueue(s: System, e: Event, t: string)
    requires QueueName(t) in s.queues && DlqName(t) in s.queues
    ensures QueueName(t) in Step(s, e).queues && DlqName(t) in Step(s, e).queues
    ensures Queue(s, t) + PublishedIn([e], t) == TakenBy(s, e, t) + Queue(Step(s, e), t)
    ensures Step(s, e).queues[DlqName(t)] == s.queues[DlqName(t)] + MalformedOf(TakenBy(s, e, t))
  {
    hide QueueName;
    hide DlqName;
    NamesDistinct(e.tenant, t);
    NamesDistinct(t, e.tenant);
    NamesDistinct(t, t);
    assert PublishedIn([e][1..], t) == [];
  }

  lemma MalformedCons(ds: seq<Delivery>, d: seq<Delivery>)
    requires |d| <= 1
    ensures MalformedOf(d + ds) == MalformedOf(d) + MalformedOf(ds)
  {
    if d == [] {
      assert d + ds == ds;
    } else {
      assert (d + ds)[1..] == ds && d[1..] == [];
    }
  }

  /** Two steps of a queue, put together. */
  lemma Regroup(q: seq<Delivery>, p: seq<Delivery>, k: seq<Delivery>, q': seq<Delivery>,
                p': seq<Delivery>, k': seq<Delivery>, q'': seq<Delivery>)
    requires q + p == k + q' && q' + p' == k' + q''
    ensures q + (p + p') == (k + k') + q''
  {
    assert q + (p + p') == (q + p) + p';
    assert (k + q') + p' == k + (q' + p');
    assert k + (k' + q'') == (k + k') + q'';
  }

  lemma PublishedCons(es: seq<Event>, t: string)
    requires es != []
    ensures PublishedIn(es, t) == PublishedIn([es[0]], t) + PublishedIn(es[1..], t)
  {
    assert [es[0]][1..] == [];
  }

  /** Over every run, whatever other tenants do: the bodies published for t are, in order, the
      ones its consumer took followed by the ones still queued. */
  lemma {:induction false} QueueConservation(s: System, es: seq<Event>, t: string)
    requires QueueName(t) in s.queues && DlqName(t) in s.queues
    ensures QueueName(t) in Run(s, es).queues
    ensures Queue(s, t) + PublishedIn(es, t) == TakenIn(s, es, t) + Queue(Run(s, es), t)
    decreases |es|
  {
    hide Step;
    hide QueueName;
    hide DlqName;
    hide TakenBy;
    if es == [] {
      assert Queue(s, t) + [] == [] + Queue(s, t);
    } else {
      var s', rest := Step(s, es[0]), es[1..];
      StepQueue(s, es[0], t);
      QueueConservation(s', rest, t);
      PublishedCons(es, t);
      Regroup(Queue(s, t), PublishedIn([es[0]], t), TakenBy(s, es[0], t), Queue(s', t),
              PublishedIn(rest, t), TakenIn(s', rest, t), Queue(Run(s', rest), t));
    }
  }

  /** And the malformed ones among those taken are, in order, what its dead-letter queue gained. */
  lemma {:induction false} DeadLetterQueueGains(s: System, es: seq<Event>, t: string)
    requires QueueName(t) in s.queues && DlqName(t) in s.queues
    ensures DlqName(t) in Run(s, es).queues
    ensures Run(s, es).queues[DlqName(t)] == s.queues[DlqName(t)] + MalformedOf(TakenIn(s, es, t))
    decreases |es|
  {
    hide Step;
    hide QueueName;
    hide DlqName;
    if es == [] {
      assert MalformedOf([]) == [];
    } else {
      var s', rest := Step(s, es[0]), es[1..];
      StepQueue(s, es[0], t);
      DeadLetterQueueGains(s', rest, t);
      MalformedCons(TakenIn(s', rest, t), TakenBy(s, es[0], t));
      Assoc(s.queues[DlqName(t)], MalformedOf(TakenBy(s, es[0], t)), MalformedOf(TakenIn(s', rest, t)));
    }
  }

  lemma Assoc(a: seq<Delivery>, b: seq<Delivery>, c: seq<Delivery>)
    ensures (a + b) + c == a + (b + c)
  {
  }

  /** The work items made of well-formed deliveries taken from t's queue. */
  function ItemsOf(ds: seq<Delivery>, t: string): multiset<WorkItem> {
    if ds == [] then multiset{}
    else (if ds[0].WellFormed? then multiset{ItemOf(t, ds[0].message)} else multiset{}) + ItemsOf(ds[1..], t)
  }

  function FinishedBy(s: System, e: Event, t: string): multiset<WorkItem> {
    if e.Finish? && e.tenant == t && t in s.pools && e.item < |s.pools[t]| then multiset{s.pools[t][e.item]} else multiset{}
  }

  function FinishedIn(s: System, es: seq<Event>, t: string): multiset<WorkItem>
    decreases |es|
  {
    if es == [] then multiset{} else FinishedBy(s, es[0], t) + FinishedIn(Step(s, es[0]), es[1..], t)
  }

  lemma ItemsCons(ds: seq<Delivery>, d: seq<Delivery>, t: string)
    requires |d| <= 1
    ensures ItemsOf(d + ds, t) == ItemsOf(d, t) + ItemsOf(ds, t)
  {
    if d == [] {
      assert d + ds == ds;
    } else {
      assert (d + ds)[1..] == ds && d[1..] == [];
    }
  }

  lemma RemoveAt(items: seq<WorkItem>, i: nat)
    requires i < |items|
    ensures multiset(items[..i] + items[i + 1..]) + multiset{items[i]} == multiset(items)
  {
    assert items == items[..i] + [items[i]] + items[i + 1..];
  }

  lemma ItemsOne(d: Delivery, t: string)
    ensures ItemsOf([d], t) == if d.WellFormed? then multiset{ItemOf(t, d.message)} else multiset{}
  {
    assert [d][1..] == [];
  }

  lemma DeliverWork(s: System, t: string, accepted: bool)
    requires t in s.pools
    ensures t in Step(s, Deliver(t, accepted)).pools
    ensures multiset(Step(s, Deliver(t, accepted)).pools[t]) == multiset(s.pools[t]) + ItemsOf(TakenBy(s, Deliver(t, accepted), t), t)
  {
    hide QueueName;
    hide DlqName;
    hide ItemsOf;
    var q := QueueName(t);
    assert ItemsOf([], t) == multiset{} by {
      ItemsNone(t);
    }
    if q in s.queues && s.queues[q] != [] {
      ItemsOne(s.queues[q][0], t);
    }
  }

  lemma ItemsNone(t: string)
    ensures ItemsOf([], t) == multiset{}
  {
  }

  lemma FinishWork(s: System, t: string, i: nat)
    requires t in s.pools
    ensures multiset(Step(s, Finish(t, i)).pools[t]) + FinishedBy(s, Finish(t, i), t) == multiset(s.pools[t])
  {
    if i < |s.pools[t]| {
      RemoveAt(s.pools[t], i);
    }
  }

  lemma OtherWork(s: System, e: Event, t: string)
    requires t in s.pools && (e.tenant != t || !(e.Deliver? || e.Finish?))
    ensures t in Step(s, e).pools && Step(s, e).pools[t] == s.pools[t]
    ensures TakenBy(s, e, t) == [] && FinishedBy(s, e, t) == multiset{}
  {
    hide QueueName;
    hide DlqName;
  }

  lemma StepWork(s: System, e: Event, t: string)
    requires t in s.pools
    ensures t in Step(s, e).pools
    ensures multiset(Step(s, e).pools[t]) + FinishedBy(s, e, t) == multiset(s.pools[t]) + ItemsOf(TakenBy(s, e, t), t)
  {
    hide ItemsOf;
    hide QueueName;
    hide DlqName;
    ItemsNone(t);
    if e.Deliver? && e.tenant == t {
      DeliverWork(s, t, e.accepted);
    } else if e.Finish? && e.tenant == t {
      FinishWork(s, t, e.item);
    } else {
      OtherWork(s, e, t);
    }
  }

  lemma Balance(w: multiset<WorkItem>, f: multiset<WorkItem>, i: multiset<WorkItem>, w': multiset<WorkItem>,
                f': multiset<WorkItem>, i': multiset<WorkItem>, w'': multiset<WorkItem>)
    requires w' + f == w + i && w'' + f' == w' + i'
    ensures w'' + (f + f') == w + (i + i')
  {
    forall x ensures (w'' + (f + f'))[x] == (w + (i + i'))[x] {
      assert (w' + f)[x] == (w + i)[x] && (w'' + f')[x] == (w' + i')[x];
    }
  }

  /** Over every run the well-formed deliveries taken from t's queue are, as work items labelled
      t, either finished or still in work: none is lost, duplicated or relabelled. */
  lemma {:induction false} WorkConservation(s: System, es: seq<Event>, t: string)
    requires t in s.pools
    ensures t in Run(s, es).pools
    ensures multiset(Run(s, es).pools[t]) + FinishedIn(s, es, t) == multiset(s.pools[t]) + ItemsOf(TakenIn(s, es, t), t)
    decreases |es|
  {
    hide Step;
    hide FinishedBy;
    hide QueueName;
    if es != [] {
      var s', rest := Step(s, es[0]), es[1..];
      StepWork(s, es[0], t);
      WorkConservation(s', rest, t);
      ItemsCons(TakenIn(s', rest, t), TakenBy(s, es[0], t), t);
      Balance(multiset(s.pools[t]), FinishedBy(s, es[0], t), ItemsOf(TakenBy(s, es[0], t), t), multiset(s'.pools[t]),
              FinishedIn(s', rest, t), ItemsOf(TakenIn(s', rest, t), t), multiset(Run(s', rest).pools[t]));
    }
  }
}
