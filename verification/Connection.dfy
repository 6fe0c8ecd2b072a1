/**
 The reconnecting RabbitMQ connection: callers, sleeping reconnect watchers and the broker
 interleave; mu is a write lock that its holder cannot take again.
 */
module Connection {
  import opened Wrappers

  /** The amqp connection: none yet, open, or lost (by the broker or by Close). */
  datatype Conn = NoConn | Open | Lost

  /** Where a goroutine is. */
  datatype Thread =
    | Returned
    | Panicked
    | Connecting          // Connect: about to take mu
    | ReadingChannel      // Channel: about to read under the read lock
    | WantingChannel      // Channel: saw nil, about to take mu
    | HoldingChannel      // Channel: holds mu, about to look at conn
    | NestedConnect       // Channel: holds mu and calls Connect, which waits for mu
    | ReadingConn         // NewChannel: about to read conn under the read lock
    | Closing             // Close: about to take mu
    | Watching            // handleReconnect: waiting for the connection to be lost
    | Sleeping            // handleReconnect: five seconds before it reconnects

  datatype State = State(conn: Conn, channel: bool, closed: bool, writer: Option<nat>, threads: seq<Thread>, installs: nat)

  datatype Event =
    | Call(entry: Thread)                               // somebody calls Connect, Channel, NewChannel or Close
    | Connect(thread: nat, dialOk: bool, openOk: bool)
    | ReadChannel(thread: nat)
    | LockChannel(thread: nat)
    | FillChannel(thread: nat, openOk: bool)
    | RetryConnect(thread: nat)
    | ReadConn(thread: nat)
    | Close(thread: nat)
    | Notice(thread: nat)                               // the watcher is told its connection was lost
    | Wake(thread: nat)
    | Dismiss(thread: nat)                              // the watcher sees `reconnect` closed
    | Lose                                              // the broker drops the connection

  const Initial := State(NoConn, false, false, None, [], 0)

  predicate At(s: State, t: nat, p: Thread) {
    t < |s.threads| && s.threads[t] == p
  }

  predicate Enabled(s: State, e: Event) {
    match e
    case Call(p) => p.Connecting? || p.ReadingChannel? || p.ReadingConn? || p.Closing?
    case Connect(t, _, _) => At(s, t, Connecting) && s.writer.None?
    case ReadChannel(t) => At(s, t, ReadingChannel) && s.writer.None?
    case LockChannel(t) => At(s, t, WantingChannel) && s.writer.None?
    case FillChannel(t, _) => At(s, t, HoldingChannel)
    case RetryConnect(t) => At(s, t, NestedConnect) && s.writer.None?
    case ReadConn(t) => At(s, t, ReadingConn) && s.writer.None?
    case Close(t) => At(s, t, Closing) && s.writer.None?
    case Notice(t) => At(s, t, Watching)
    case Wake(t) => At(s, t, Sleeping)
    case Dismiss(t) => At(s, t, Watching) && s.closed
    case Lose => s.conn.Open?
  }

  function Move(s: State, t: nat, p: Thread): State
    requires t < |s.threads|
  {
    s.(threads := s.threads[t := p])
  }

  /** The critical section of Connect: refused once closed, else a dial and, if all goes
      well, a new connection with its channel and its watcher. */
  function Connected(s: State, t: nat, dialOk: bool, openOk: bool): State
    requires t < |s.threads|
  {
    if s.closed || !dialOk || !openOk then Move(s, t, Returned)
    else
      var s1 := Move(s, t, Returned);
      s1.(conn := Open, channel := true, installs := s.installs + 1, threads := s1.threads + [Watching])
  }

  function Apply(s: State, e: Event): State
    requires Enabled(s, e)
  {
    match e
    case Call(p) => s.(threads := s.threads + [p])
    case Connect(t, dialOk, openOk) => Connected(s, t, dialOk, openOk)
    case ReadChannel(t) => Move(s, t, if s.channel then Returned else WantingChannel)
    case LockChannel(t) => Move(s, t, HoldingChannel).(writer := Some(t))
    case FillChannel(t, openOk) =>
      if !s.conn.Open? then Move(s, t, NestedConnect)
      else Move(s, t, Returned).(writer := None, channel := s.channel || openOk)
    case RetryConnect(t) => Connected(s, t, true, true)
    case ReadConn(t) => Move(s, t, if s.conn.Open? then Returned else Connecting)
    case Close(t) =>
      if s.closed then Move(s, t, Panicked)
      else Move(s, t, Returned).(closed := true, conn := if s.conn.Open? then Lost else s.conn)
    case Notice(t) => Move(s, t, Sleeping)
    case Wake(t) => Move(s, t, Connecting)
    case Dismiss(t) => Move(s, t, Returned)
    case Lose => s.(conn := Lost)
  }

  ghost predicate Reaches(s: State, es: seq<Event>, t: State)
    decreases |es|
  {
    if es == [] then s == t
    else Enabled(s, es[0]) && Reaches(Apply(s, es[0]), es[1..], t)
  }

  /** The goroutine is inside Channel with mu held. */
  predicate Holding(p: Thread) {
    p.HoldingChannel? || p.NestedConnect?
  }

  predicate Consistent(s: State) {
    && (s.conn.NoConn? <==> !s.channel)
    && (s.installs == 0 <==> s.conn.NoConn?)
    && (s.closed ==> !s.conn.Open?)
  }

  /** A goroutine inside Channel's slow path is the holder of mu, and conversely. */
  ghost predicate Locked(s: State) {
    && (forall t: nat :: t < |s.threads| ==> (Holding(s.threads[t]) <==> s.writer == Some(t)))
    && (s.writer.Some? ==> s.writer.value < |s.threads|)
  }

  ghost predicate Inv(s: State) {
    Consistent(s) && Locked(s)
  }

  lemma StepConsistent(s: State, e: Event)
    requires Inv(s) && Enabled(s, e)
    ensures Consistent(Apply(s, e))
  {
  }

  lemma StepLocked(s: State, e: Event)
    requires Locked(s) && Enabled(s, e)
    ensures Locked(Apply(s, e))
  {
  }

  lemma StepInv(s: State, e: Event)
    requires Inv(s) && Enabled(s, e)
    ensures Inv(Apply(s, e))
  {
    StepConsistent(s, e);
    StepLocked(s, e);
  }

  /** What one step can do to the connection. */
  lemma StepFacts(s: State, e: Event)
    requires Inv(s) && Enabled(s, e)
    ensures s.closed ==> Apply(s, e).closed
    ensures s.closed ==> Apply(s, e).installs == s.installs && !Apply(s, e).conn.Open?
    ensures Apply(s, e).installs >= s.installs
    ensures !e.RetryConnect?
    ensures e.ReadChannel? && Apply(s, e).threads[e.thread].WantingChannel? ==> s.installs == 0
  {
    StepInv(s, e);
  }

  /** `closed` is permanent and nothing is installed after it; conn and channel are nil
      together; Connect called from inside Channel never gets the lock. */
  lemma {:induction false} ConnectionSafety(s: State, es: seq<Event>, t: State)
    requires Inv(s) && Reaches(s, es, t)
    ensures Inv(t)
    ensures s.closed ==> t.closed && t.installs == s.installs && !t.conn.Open?
    ensures forall i :: 0 <= i < |es| ==> !es[i].RetryConnect?
    decreases |es|
  {
    if es != [] {
      StepInv(s, es[0]);
      StepFacts(s, es[0]);
      ConnectionSafety(Apply(s, es[0]), es[1..], t);
      assert forall i :: 1 <= i < |es| ==> es[i] == es[1..][i - 1];
    }
  }

  lemma ConnAndChannelNilTogether(es: seq<Event>, s: State)
    requires Reaches(Initial, es, s)
    ensures s.conn.NoConn? <==> !s.channel
    ensures forall t: nat :: Enabled(s, ReadChannel(t)) && Apply(s, ReadChannel(t)).threads[t].WantingChannel? ==> s.installs == 0
  {
    ConnectionSafety(Initial, es, s);
  }

  /** A caller of Channel that takes the lock while there is no open connection is stuck, and
      with it everybody who needs the lock: no run ever connects or closes again. */
  lemma {:induction false} NestedConnectDeadlocks(s: State, t: nat, es: seq<Event>, u: State)
    requires Inv(s) && At(s, t, NestedConnect) && Reaches(s, es, u)
    ensures At(u, t, NestedConnect) && u.writer == Some(t)
    ensures u.installs == s.installs && u.closed == s.closed && u.channel == s.channel
    decreases |es|
  {
    if es != [] {
      StepInv(s, es[0]);
      assert s.writer == Some(t);
      assert forall v: nat :: v != t && v < |s.threads| ==> !Holding(s.threads[v]);
      NestedConnectDeadlocks(Apply(s, es[0]), t, es[1..], u);
    }
  }

  /** A goroutine that needs mu, for reading or for writing, for its next step. */
  predicate NeedsLock(p: Thread) {
    p.Connecting? || p.ReadingChannel? || p.WantingChannel? || p.ReadingConn? || p.Closing?
  }

  /** A jammed connection holds up everybody: whoever needs the lock stays where it is for ever,
      and so does every watcher that has come to dial again. */
  lemma {:induction false} JamHoldsUpAll(s: State, t: nat, v: nat, es: seq<Event>, u: State)
    requires Inv(s) && At(s, t, NestedConnect) && Reaches(s, es, u)
    requires v < |s.threads| && NeedsLock(s.threads[v])
    ensures At(u, v, s.threads[v])
    decreases |es|
  {
    if es != [] {
      assert s.writer == Some(t);
      StepInv(s, es[0]);
      NestedConnectDeadlocks(s, t, [es[0]], Apply(s, es[0])) by {
        assert [es[0]][1..] == [];
      }
      JamHoldsUpAll(Apply(s, es[0]), t, v, es[1..], u);
    }
  }

  /** Every call that looks at the connection needs the lock to be free. */
  lemma LockInWords(s: State, v: nat, dialOk: bool, openOk: bool)
    requires Enabled(s, Connect(v, dialOk, openOk)) || Enabled(s, ReadChannel(v)) || Enabled(s, LockChannel(v))
             || Enabled(s, ReadConn(v)) || Enabled(s, Close(v))
    ensures s.writer == None && v < |s.threads| && NeedsLock(s.threads[v])
  {
  }

  // -------------------------------------------------------------- when a connection comes back

  /** A goroutine on its way to dial again: a watcher, or a call of Connect or NewChannel. */
  predicate WillConnect(p: Thread) {
    p.Watching? || p.Sleeping? || p.Connecting? || p.ReadingConn?
  }

  lemma ReachesCons(s: State, es: seq<Event>, u: State)
    requires es != [] && Enabled(s, es[0]) && Reaches(Apply(s, es[0]), es[1..], u)
    ensures Reaches(s, es, u)
  {
  }

  lemma ReachesOne(s: State, e: Event)
    requires Enabled(s, e)
    ensures Reaches(s, [e], Apply(s, e))
  {
    assert [e][1..] == [];
  }

  lemma ReachesThree(s: State, a: Event, b: Event, c: Event)
    requires Enabled(s, a) && Enabled(Apply(s, a), b) && Enabled(Apply(Apply(s, a), b), c)
    ensures Reaches(s, [a, b, c], Apply(Apply(Apply(s, a), b), c))
  {
    hide Reaches;
    hide Apply;
    hide Enabled;
    var es, u := [a, b, c], Apply(Apply(Apply(s, a), b), c);
    assert es[2..] == [c] && es[1..][1..] == es[2..];
    ReachesOne(Apply(Apply(s, a), b), c);
    ReachesCons(Apply(s, a), es[1..], u);
    ReachesCons(s, es, u);
  }

  /** The watcher of a lost connection brings it back, with a new channel and a new watcher, if
      its one dial succeeds; if the dial fails, the watcher is gone and nothing has changed. */
  lemma WatcherReconnects(s: State, t: nat, dialOk: bool)
    requires Inv(s) && At(s, t, Watching) && s.conn.Lost? && !s.closed && s.writer.None?
    ensures exists u :: Reaches(s, [Notice(t), Wake(t), Connect(t, dialOk, true)], u)
              && At(u, t, Returned) && u.writer.None? && !u.closed
              && if dialOk then
                   u.conn == Open && u.channel && u.installs == s.installs + 1
                   && |u.threads| == |s.threads| + 1 && u.threads[|s.threads|] == Watching
                 else
                   u.conn == Lost && u.installs == s.installs && |u.threads| == |s.threads|
  {
    var s1 := Apply(s, Notice(t));
    var s2 := Apply(s1, Wake(t));
    ReachesThree(s, Notice(t), Wake(t), Connect(t, dialOk, true));
  }

  /** From the lost connection a run without further calls of Connect and NewChannel. */
  ghost predicate Unaided(es: seq<Event>) {
    forall i :: 0 <= i < |es| && es[i].Call? ==> es[i].entry != Connecting && es[i].entry != ReadingConn
  }

  ghost predicate ComesBack(s: State) {
    exists es, u :: Reaches(s, es, u) && Unaided(es) && u.conn == Open
  }

  lemma ComesBackBefore(s: State, e: Event)
    requires Enabled(s, e) && !e.Call? && ComesBack(Apply(s, e))
    ensures ComesBack(s)
  {
    var es, u :| Reaches(Apply(s, e), es, u) && Unaided(es) && u.conn == Open;
    assert ([e] + es)[1..] == es;
    assert Reaches(s, [e] + es, u);
    assert forall i :: 1 <= i < |[e] + es| ==> ([e] + es)[i] == es[i - 1];
  }

  lemma ConnectorBringsBack(s: State, t: nat)
    requires At(s, t, Connecting) && !s.closed && s.writer.None?
    ensures ComesBack(s)
  {
    var u := Apply(s, Connect(t, true, true));
    assert Reaches(u, [], u) && Unaided([]) && u.conn == Open;
    ComesBackBefore(s, Connect(t, true, true));
  }

  lemma SomebodyBringsBack(s: State, t: nat)
    requires t < |s.threads| && WillConnect(s.threads[t]) && s.conn != Open && !s.closed && s.writer.None?
    ensures ComesBack(s)
  {
    match s.threads[t]
    case Connecting => ConnectorBringsBack(s, t);
    case Sleeping =>
      ConnectorBringsBack(Apply(s, Wake(t)), t);
      ComesBackBefore(s, Wake(t));
    case Watching =>
      var s1 := Apply(s, Notice(t));
      ConnectorBringsBack(Apply(s1, Wake(t)), t);
      ComesBackBefore(s1, Wake(t));
      ComesBackBefore(s, Notice(t));
    case ReadingConn =>
      ConnectorBringsBack(Apply(s, ReadConn(t)), t);
      ComesBackBefore(s, ReadConn(t));
  }

  /** The connection is not open, and it is closed, jammed, or there is nobody left to dial. */
  ghost predicate Gone(s: State) {
    && s.conn != Open
    && (s.closed || s.writer.Some? || forall t: nat :: t < |s.threads| ==> !WillConnect(s.threads[t]))
  }

  lemma StepStaysGone(s: State, e: Event)
    requires Inv(s) && Gone(s) && Enabled(s, e)
    requires e.Call? ==> e.entry != Connecting && e.entry != ReadingConn
    ensures Gone(Apply(s, e))
  {
    StepFacts(s, e);
    if s.closed {
    } else if s.writer.Some? {
      assert e.FillChannel? ==> s.writer == Some(e.thread);
    } else {
      assert e.Connect? ==> WillConnect(s.threads[e.thread]);
    }
  }

  lemma {:induction false} StaysGone(s: State, es: seq<Event>, u: State)
    requires Inv(s) && Gone(s) && Reaches(s, es, u) && Unaided(es)
    ensures Gone(u)
    decreases |es|
  {
    hide Gone;
    if es != [] {
      StepInv(s, es[0]);
      StepStaysGone(s, es[0]);
      assert forall i :: 0 <= i < |es[1..]| ==> es[1..][i] == es[i + 1];
      StaysGone(Apply(s, es[0]), es[1..], u);
    }
  }

  /** A connection that is not open can come back without a further call of Connect or NewChannel
      if and only if it is not closed, nobody holds the lock, and some watcher, or some such call
      made before, is still on its way to dial. */
  lemma ComesBackIff(s: State)
    requires Inv(s) && s.conn != Open
    ensures ComesBack(s) <==>
              !s.closed && s.writer.None? && exists t: nat :: t < |s.threads| && WillConnect(s.threads[t])
  {
    if Gone(s) {
      forall es, u | Reaches(s, es, u) && Unaided(es) ensures u.conn != Open {
        StaysGone(s, es, u);
      }
    } else {
      var t: nat :| t < |s.threads| && WillConnect(s.threads[t]);
      SomebodyBringsBack(s, t);
    }
  }

  /** The watcher dials once: if that fails and nobody else is on the way, the connection stays
      lost until somebody calls Connect or NewChannel. */
  lemma OneFailedDialIsFinal(s: State, t: nat)
    requires Inv(s) && At(s, t, Watching) && s.conn.Lost? && !s.closed && s.writer.None?
    requires forall v: nat :: v < |s.threads| && v != t ==> !WillConnect(s.threads[v])
    ensures ComesBack(s)
    ensures exists u :: Reaches(s, [Notice(t), Wake(t), Connect(t, false, true)], u) && !ComesBack(u)
  {
    hide Reaches;
    var s1 := Apply(s, Notice(t));
    var s2 := Apply(s1, Wake(t));
    var u := Apply(s2, Connect(t, false, true));
    ReachesThree(s, Notice(t), Wake(t), Connect(t, false, true));
    StepInv(s, Notice(t));
    StepInv(s1, Wake(t));
    StepInv(s2, Connect(t, false, true));
    assert WillConnect(s.threads[t]);
    ComesBackIff(s);
    ComesBackIff(u);
  }

  /** Once the connection is closed a watcher can leave without dialling. */
  lemma ClosedWatcherLeaves(s: State, t: nat)
    ensures Enabled(s, Dismiss(t)) <==> At(s, t, Watching) && s.closed
    ensures Enabled(s, Dismiss(t)) ==> Apply(s, Dismiss(t)) == s.(threads := s.threads[t := Returned])
  {
  }

  /** What a call makes of the connection once it has the lock: Connect dials unless the connection
      is closed, Close closes it for good and panics the second time, NewChannel is content
      with an open connection and connects otherwise. */
  lemma CallsInWords(s: State, t: nat, dialOk: bool, openOk: bool)
    ensures Enabled(s, Connect(t, dialOk, openOk)) ==>
              var u := Apply(s, Connect(t, dialOk, openOk));
              && At(u, t, Returned) && u.closed == s.closed
              && if !s.closed && dialOk && openOk then u.conn == Open && u.channel && u.installs == s.installs + 1
                 else u.conn == s.conn && u.channel == s.channel && u.installs == s.installs
    ensures Enabled(s, Close(t)) && !s.closed ==>
              var u := Apply(s, Close(t)); At(u, t, Returned) && u.closed && u.conn != Open
    ensures Enabled(s, Close(t)) && s.closed ==> At(Apply(s, Close(t)), t, Panicked)
    ensures Enabled(s, ReadConn(t)) ==> At(Apply(s, ReadConn(t)), t, if s.conn == Open then Returned else Connecting)
    ensures Enabled(s, FillChannel(t, openOk)) && s.conn == Open ==>
              var u := Apply(s, FillChannel(t, openOk));
              At(u, t, Returned) && u.writer == None && (u.channel <==> s.channel || openOk)
    ensures Enabled(s, RetryConnect(t)) && !s.closed ==>
              var u := Apply(s, RetryConnect(t)); At(u, t, Returned) && u.conn == Open && u.channel && u.installs == s.installs + 1
  {
  }

  // ------------------------------------------------------------ when Channel can deadlock

  /** The goroutine saw a nil channel and has not come back from the slow path. */
  predicate InSlowPath(p: Thread) {
    p.WantingChannel? || Holding(p)
  }

  /** There is a channel, and nobody is still on the way to make one. */
  predicate Settled(s: State) {
    s.channel && forall v: nat :: v < |s.threads| ==> !InSlowPath(s.threads[v])
  }

  /** Some run leaves goroutine v waiting for the lock that it holds itself. */
  ghost predicate CanJam(s: State, v: nat) {
    exists es, u :: Reaches(s, es, u) && At(u, v, NestedConnect)
  }

  lemma CanJamBefore(s: State, e: Event, v: nat)
    requires Enabled(s, e) && CanJam(Apply(s, e), v)
    ensures CanJam(s, v)
  {
    var es, u :| Reaches(Apply(s, e), es, u) && At(u, v, NestedConnect);
    assert ([e] + es)[1..] == es;
    assert Reaches(s, [e] + es, u);
  }

  lemma CanJamNow(s: State, v: nat)
    requires At(s, v, NestedConnect)
    ensures CanJam(s, v)
  {
    assert Reaches(s, [], s);
  }

  /** Whoever holds the lock jams at its next step, if there is no open connection then. */
  lemma HolderJams(s: State, v: nat)
    requires At(s, v, HoldingChannel)
    ensures CanJam(s, v)
  {
    var s1 := if s.conn.Open? then Apply(s, Lose) else s;
    CanJamNow(Apply(s1, FillChannel(v, true)), v);
    CanJamBefore(s1, FillChannel(v, true), v);
    if s.conn.Open? {
      CanJamBefore(s, Lose, v);
    }
  }

  lemma WaiterJams(s: State, v: nat)
    requires At(s, v, WantingChannel) && s.writer.None?
    ensures CanJam(s, v)
  {
    HolderJams(Apply(s, LockChannel(v)), v);
    CanJamBefore(s, LockChannel(v), v);
  }

  lemma ReaderJams(s: State, v: nat)
    requires At(s, v, ReadingChannel) && s.writer.None? && !s.channel
    ensures CanJam(s, v)
  {
    WaiterJams(Apply(s, ReadChannel(v)), v);
    CanJamBefore(s, ReadChannel(v), v);
  }

  /** Once settled, always settled: the lock stays free and Channel returns at its first read. */
  lemma {:induction false} SettledForGood(s: State, es: seq<Event>, u: State)
    requires Inv(s) && Settled(s) && Reaches(s, es, u)
    ensures Settled(u) && u.writer.None?
    ensures forall t: nat :: At(u, t, ReadingChannel) ==>
              Enabled(u, ReadChannel(t)) && Apply(u, ReadChannel(t)).threads[t].Returned?
    decreases |es|
  {
    if es != [] {
      StepInv(s, es[0]);
      SettledForGood(Apply(s, es[0]), es[1..], u);
    }
  }

  /** The connection is safe from deadlock for ever, whoever calls what and whenever the broker
      drops the connection, if and only if it has a channel and nobody is still on the slow
      path. One caller there suffices to jam it, before or after a successful Connect. */
  lemma DeadlockFreeIff(s: State)
    requires Inv(s)
    ensures (forall v: nat :: !CanJam(s, v)) <==> Settled(s)
  {
    if Settled(s) {
      forall v: nat, es, u | Reaches(s, es, u) ensures !At(u, v, NestedConnect) {
        SettledForGood(s, es, u);
      }
    } else {
      var v := Jammer(s);
    }
  }

  /** The goroutine that can jam an unsettled connection: the holder of the lock, else one that
      wants it, else the next caller of Channel. */
  lemma Jammer(s: State) returns (v: nat)
    requires Inv(s) && !Settled(s)
    ensures CanJam(s, v)
  {
    if s.writer.Some? {
      v := s.writer.value;
      assert Holding(s.threads[v]);
      if s.threads[v].NestedConnect? {
        CanJamNow(s, v);
      } else {
        HolderJams(s, v);
      }
    } else if w: nat :| w < |s.threads| && InSlowPath(s.threads[w]) {
      v := w;
      WaiterJams(s, v);
    } else {
      v := |s.threads|;
      ReaderJams(Apply(s, Call(ReadingChannel)), v);
      CanJamBefore(s, Call(ReadingChannel), v);
    }
  }

  /** A caller of Channel whose lock is held by a jammed or jamming caller never moves again. */
  lemma {:induction false} ReaderStays(s: State, t: nat, es: seq<Event>, u: State)
    requires Inv(s) && At(s, t, ReadingChannel) && Reaches(s, es, u)
    requires s.channel || s.writer.Some?
    ensures At(u, t, ReadingChannel) || (s.channel && At(u, t, Returned))
    decreases |es|
  {
    if es != [] {
      StepInv(s, es[0]);
      var s' := Apply(s, es[0]);
      if At(s', t, ReadingChannel) {
        ReaderStays(s', t, es[1..], u);
      } else {
        assert es[0] == ReadChannel(t);
        ReturnedStays(s', t, es[1..], u);
      }
    }
  }

  lemma {:induction false} ReturnedStays(s: State, t: nat, es: seq<Event>, u: State)
    requires At(s, t, Returned) && Reaches(s, es, u)
    ensures At(u, t, Returned)
    decreases |es|
  {
    if es != [] {
      ReturnedStays(Apply(s, es[0]), t, es[1..], u);
    }
  }

  /** A call of Channel about to read can end waiting for its own lock if and only if there is
      no channel yet and nobody holds the lock. */
  lemma ChannelDeadlocksIff(s: State, t: nat)
    requires Inv(s) && At(s, t, ReadingChannel)
    ensures CanJam(s, t) <==> !s.channel && s.writer.None?
  {
    if !s.channel && s.writer.None? {
      ReaderJams(s, t);
    } else {
      forall es, u | Reaches(s, es, u) ensures !At(u, t, NestedConnect) {
        ReaderStays(s, t, es, u);
      }
    }
  }

  /** With no connection yet a single call of Channel is enough. */
  lemma ChannelBeforeConnectDeadlocks()
    ensures exists s :: At(s, 0, NestedConnect)
              && Reaches(Initial, [Call(ReadingChannel), ReadChannel(0), LockChannel(0), FillChannel(0, true)], s)
  {
    hide Reaches;
    var s1 := Apply(Initial, Call(ReadingChannel));
    var s2 := Apply(s1, ReadChannel(0));
    var s3 := Apply(s2, LockChannel(0));
    var s4 := Apply(s3, FillChannel(0, true));
    var es := [Call(ReadingChannel), ReadChannel(0), LockChannel(0), FillChannel(0, true)];
    assert es[3..] == [FillChannel(0, true)];
    assert es[2..][1..] == es[3..] && es[1..][1..] == es[2..];
    ReachesOne(s3, FillChannel(0, true));
    ReachesCons(s2, es[2..], s4);
    ReachesCons(s1, es[1..], s4);
    ReachesCons(Initial, es, s4);
  }

  const LateRun: seq<Event> :=
    [Call(ReadingChannel), ReadChannel(0), Call(Connecting), Connect(1, true, true), Lose, LockChannel(0), FillChannel(0, true)]

  /** The state of that run with the given connection and lock and the caller at p. */
  function Late(conn: Conn, writer: Option<nat>, p: Thread): State {
    State(conn, true, false, writer, [p, Returned, Watching], 1)
  }

  /** The first four events, before any others. */
  lemma LateConnect(es: seq<Event>, u: State)
    requires |es| > 4 && es[..4] == [Call(ReadingChannel), ReadChannel(0), Call(Connecting), Connect(1, true, true)]
    requires Reaches(Late(Open, None, WantingChannel), es[4..], u)
    ensures Reaches(Initial, es, u)
  {
    hide Reaches;
    assert es[0] == es[..4][0] && es[1] == es[..4][1] && es[2] == es[..4][2] && es[3] == es[..4][3];
    var s1 := Apply(Initial, es[0]);
    var s2 := Apply(s1, es[1]);
    var s3 := Apply(s2, es[2]);
    assert s3.threads == [WantingChannel, Connecting];
    assert Apply(s3, es[3]) == Late(Open, None, WantingChannel);
    assert es[3..][1..] == es[4..] && es[2..][1..] == es[3..] && es[1..][1..] == es[2..];
    ReachesCons(s3, es[3..], u);
    ReachesCons(s2, es[2..], u);
    ReachesCons(s1, es[1..], u);
    ReachesCons(Initial, es, u);
  }

  lemma LateJam()
    ensures Reaches(Late(Open, None, WantingChannel), [Lose, LockChannel(0), FillChannel(0, true)], Late(Lost, Some(0), NestedConnect))
  {
    hide Reaches;
    var es := [Lose, LockChannel(0), FillChannel(0, true)];
    var s0, s1, s2 := Late(Open, None, WantingChannel), Late(Lost, None, WantingChannel), Late(Lost, Some(0), HoldingChannel);
    var s3 := Late(Lost, Some(0), NestedConnect);
    assert s1 == Apply(s0, es[0]) && s2 == Apply(s1, es[1]) && s3 == Apply(s2, es[2]);
    assert es[2..] == [FillChannel(0, true)] && es[1..][1..] == es[2..];
    ReachesOne(s2, es[2]);
    ReachesCons(s1, es[1..], s3);
    ReachesCons(s0, es, s3);
  }

  /** A successful Connect in between does not help: the caller saw a nil channel before it,
      and the connection is lost again when it gets the lock. */
  lemma ChannelAfterConnectDeadlocks()
    ensures exists s :: Reaches(Initial, LateRun, s) && At(s, 0, NestedConnect) && s.installs == 1
  {
    hide Reaches;
    assert LateRun[4..] == [Lose, LockChannel(0), FillChannel(0, true)];
    assert LateRun[..4] == [Call(ReadingChannel), ReadChannel(0), Call(Connecting), Connect(1, true, true)];
    LateJam();
    LateConnect(LateRun, Late(Lost, Some(0), NestedConnect));
  }
}
