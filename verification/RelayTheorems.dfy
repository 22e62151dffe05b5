/** What the relay keeps in every interleaving of its sessions. The reference is the log of
    identifications and cleanups: the connection registered for a node is the one that identified as
    it last, as long as that one has not been cleaned up. */
module RelayTheorems {
  import opened Options
  import opened Relay

  /** The connection that identified as n most recently. */
  function LastIdentified(log: seq<Event>, n: NodeId): Option<ConnId> {
    if log == [] then None
    else
      var e := log[|log| - 1];
      if e.Identified? && e.node == n then Some(e.conn) else LastIdentified(log[..|log| - 1], n)
  }

  function Current(log: seq<Event>, n: NodeId): Option<ConnId> {
    var last := LastIdentified(log, n);
    if last.Some? && Unregistered(last.value) in log then None else last
  }

  lemma LastAppend(log: seq<Event>, e: Event, n: NodeId)
    ensures LastIdentified(log + [e], n) ==
      if e.Identified? && e.node == n then Some(e.conn) else LastIdentified(log, n)
  {
    assert (log + [e])[..|log|] == log;
  }

  lemma {:induction false} LastInLog(log: seq<Event>, n: NodeId)
    ensures LastIdentified(log, n).Some? ==> Identified(LastIdentified(log, n).value, n) in log
  {
    if log != [] {
      LastInLog(log[..|log| - 1], n);
    }
  }

  // ---------------------------------------------------------------- the registry

  /** Each session identifies once, as the node it serves, and is cleaned up after it served. */
  ghost predicate LogOk(s: State) {
    && (forall c, n: NodeId :: Identified(c, n) in s.log ==>
          c in s.sessions && (!s.sessions[c].Gone? ==> s.sessions[c].node == n))
    && (forall c :: Unregistered(c) in s.log ==> c in s.sessions && !s.sessions[c].Serving?)
  }

  ghost predicate RegistryOk(s: State) {
    && (forall n: NodeId :: TxOf(s.nodes, n) == Current(s.log, n))
    && (forall n: NodeId :: n in s.nodes ==> s.nodes[n].node == n && s.nodes[n].connectionId == s.nodes[n].tx)
  }

  lemma IdentifyKeeps(s: State, a: Action)
    requires LogOk(s) && RegistryOk(s) && a.Identify? && a.c !in s.sessions
    ensures LogOk(Step(s, a)) && RegistryOk(Step(s, a))
  {
    var t := Step(s, a);
    forall n: NodeId
      ensures TxOf(t.nodes, n) == Current(t.log, n)
    {
      LastAppend(s.log, Identified(a.c, a.node), n);
      LastInLog(s.log, n);
      assert TxOf(s.nodes, n) == Current(s.log, n);
    }
  }

  lemma UnregisterKeeps(s: State, c: ConnId)
    requires LogOk(s) && RegistryOk(s) && IsServing(s, c) && s.sessions[c].task.Idle?
    ensures LogOk(Step(s, Action.Unregister(c))) && RegistryOk(Step(s, Action.Unregister(c)))
  {
    var t := Step(s, Action.Unregister(c));
    forall n: NodeId
      ensures TxOf(t.nodes, n) == Current(t.log, n)
    {
      LastAppend(s.log, Unregistered(c), n);
      LastInLog(s.log, n);
      assert TxOf(s.nodes, n) == Current(s.log, n);
      assert n in s.nodes ==> s.nodes[n].connectionId == s.nodes[n].tx;
    }
  }

  lemma RegistryStep(s: State, a: Action)
    requires LogOk(s) && RegistryOk(s)
    ensures LogOk(Step(s, a)) && RegistryOk(Step(s, a))
  {
    match a
    case Identify(c, _, _, _) => if c !in s.sessions { IdentifyKeeps(s, a); }
    case Unregister(c) => if IsServing(s, c) && s.sessions[c].task.Idle? { UnregisterKeeps(s, c); }
    case LookUp(_) => LookUpKeeps(s, a);
    case _ => assert Step(s, a).nodes == s.nodes && Step(s, a).log == s.log;
  }

  lemma LookUpKeeps(s: State, a: Action)
    requires LogOk(s) && RegistryOk(s) && a.LookUp?
    ensures LogOk(Step(s, a)) && RegistryOk(Step(s, a))
  {
    var t := Step(s, a);
    assert t.log == s.log;
    forall n: NodeId
      ensures TxOf(t.nodes, n) == TxOf(s.nodes, n)
    {
    }
  }

  // ---------------------------------------------------------------- the queues

  /** Message k of session c has been received and dealt with completely. */
  predicate Processed(s: State, c: ConnId, k: nat) {
    k < |Sent(s, c)| && !(IsServing(s, c) && !s.sessions[c].task.Idle? && k == |Sent(s, c)| - 1)
  }

  /** What the log up to some point says should become of a message. */
  function Expected(log: seq<Event>, c: ConnId, m: Message): Outcome {
    Dispatch(c, m, if Target(m).Some? then Current(log, Target(m).value) else None)
  }

  ghost predicate TasksOk(s: State) {
    forall c :: IsServing(s, c) && !s.sessions[c].task.Idle? ==>
      && Sent(s, c) != []
      && var k := |Sent(s, c)| - 1; var task := s.sessions[c].task;
         if task.Putting? then (c, k) in s.resolved && s.resolved[(c, k)].0 == Put(task.queue, task.content)
         else (c, k) !in s.resolved
  }

  /** Each resolution is of a received message, and is what the log said when the target was looked up. */
  ghost predicate ResolvedOk(s: State) {
    forall c: ConnId, k: nat :: (c, k) in s.resolved ==>
      && k < |Sent(s, c)|
      && var (out, len) := s.resolved[(c, k)];
         && len <= |s.log|
         && out == Expected(s.log[..len], c, Sent(s, c)[k])
         && (out.Put? ==> out.queue in s.sessions)
  }

  ghost predicate QueueItemsOk(s: State) {
    forall d: ConnId, i: nat :: i < |Queue(s, d)| ==> ItemOk(s, d, Queue(s, d)[i])
  }

  predicate ItemOk(s: State, d: ConnId, item: Item) {
    && (item.src, item.number) in s.resolved
    && s.resolved[(item.src, item.number)].0 == Put(d, item.content)
    && Processed(s, item.src, item.number)
  }

  predicate Ordered(q: seq<Item>) {
    forall i, j :: 0 <= i < j < |q| && q[i].src == q[j].src ==> q[i].number < q[j].number
  }

  ghost predicate QueuesOrdered(s: State) { forall d: ConnId :: Ordered(Queue(s, d)) }

  /** A message that is dealt with was resolved, and what it put is on its queue, unless that is closed. */
  ghost predicate ProcessedOk(s: State) {
    forall c: ConnId, k: nat :: Processed(s, c, k) ==>
      && (c, k) in s.resolved
      && var out := s.resolved[(c, k)].0;
         out.Put? && out.queue in s.open ==> Item(c, k, out.content) in Queue(s, out.queue)
  }

  ghost predicate Inv(s: State) {
    && LogOk(s) && RegistryOk(s) && TasksOk(s) && ResolvedOk(s)
    && QueueItemsOk(s) && QueuesOrdered(s) && ProcessedOk(s)
    && s.open <= s.sessions.Keys
  }

  lemma InitInv()
    ensures Inv(Init())
  {
  }

  /** A step that appends to no queue, receives nothing and resolves nothing. */
  lemma QuietStep(s: State, t: State)
    requires TasksOk(s) && ResolvedOk(s) && QueueItemsOk(s) && QueuesOrdered(s) && ProcessedOk(s)
    requires t.queues == s.queues && t.sent == s.sent && t.resolved == s.resolved
    requires s.sessions.Keys <= t.sessions.Keys && s.log <= t.log
    requires forall c :: c in t.open ==> c in s.open || c !in s.sessions
    requires forall c :: IsServing(t, c) && !t.sessions[c].task.Idle? ==> IsServing(s, c) && t.sessions[c] == s.sessions[c]
    requires forall c :: IsServing(s, c) && !s.sessions[c].task.Idle? ==> IsServing(t, c) && t.sessions[c] == s.sessions[c]
    ensures TasksOk(t) && ResolvedOk(t) && QueueItemsOk(t) && QueuesOrdered(t) && ProcessedOk(t)
  {
    forall c: ConnId, k: nat
      ensures Processed(t, c, k) <==> Processed(s, c, k)
    {
    }
    forall c: ConnId, k: nat | (c, k) in t.resolved
      ensures t.log[..t.resolved[(c, k)].1] == s.log[..s.resolved[(c, k)].1]
    {
      assert s.log == t.log[..|s.log|];
    }
    forall d: ConnId, i: nat | i < |Queue(t, d)|
      ensures ItemOk(t, d, Queue(t, d)[i])
    {
      assert ItemOk(s, d, Queue(s, d)[i]);
    }
    forall d: ConnId
      ensures Ordered(Queue(t, d))
    {
      assert Ordered(Queue(s, d));
    }
  }

  lemma ReceiveKeeps(s: State, c: ConnId, m: Message)
    requires Inv(s) && IsServing(s, c) && s.sessions[c].task.Idle?
    ensures Inv(Step(s, Receive(c, m)))
  {
    var t := Step(s, Receive(c, m));
    RegistryStep(s, Receive(c, m));
    forall e: ConnId, k: nat
      ensures Processed(t, e, k) <==> Processed(s, e, k)
    {
    }
    forall d: ConnId, i: nat | i < |Queue(t, d)|
      ensures ItemOk(t, d, Queue(t, d)[i])
    {
      assert ItemOk(s, d, Queue(s, d)[i]);
    }
    forall d: ConnId
      ensures Ordered(Queue(t, d))
    {
      assert Ordered(Queue(s, d));
    }
  }

  lemma LookUpResolves(s: State, c: ConnId)
    requires LogOk(s) && RegistryOk(s) && Sent(s, c) != []
    ensures var m := Sent(s, c)[|Sent(s, c)| - 1]; var out := Dispatch(c, m, Found(s.nodes, m));
      out == Expected(s.log[..|s.log|], c, m) && (out.Put? && out.queue != c ==> out.queue in s.sessions)
  {
    var m := Sent(s, c)[|Sent(s, c)| - 1];
    assert s.log[..|s.log|] == s.log;
    if Target(m).Some? {
      var n := Target(m).value;
      assert TxOf(s.nodes, n) == Current(s.log, n);
      LastInLog(s.log, n);
    }
  }

  /** Queues and processed messages stay as they are, or more messages become processed. */
  lemma ItemsStay(s: State, t: State)
    requires QueueItemsOk(s) && QueuesOrdered(s) && t.queues == s.queues
    requires forall c: ConnId, k: nat :: Processed(s, c, k) ==> Processed(t, c, k)
    requires forall c: ConnId, k: nat :: Processed(s, c, k) && (c, k) in s.resolved ==>
      (c, k) in t.resolved && t.resolved[(c, k)] == s.resolved[(c, k)]
    ensures QueueItemsOk(t) && QueuesOrdered(t)
  {
    forall d: ConnId, i: nat | i < |Queue(t, d)|
      ensures ItemOk(t, d, Queue(t, d)[i])
    {
      assert ItemOk(s, d, Queue(s, d)[i]);
    }
    forall d: ConnId
      ensures Ordered(Queue(t, d))
    {
      assert Ordered(Queue(s, d));
    }
  }

  lemma LookUpProcessed(s: State, c: ConnId, e: ConnId, k: nat)
    requires TasksOk(s) && IsServing(s, c) && s.sessions[c].task.Dispatching?
    ensures var t := Step(s, LookUp(c)); var last := |Sent(s, c)| - 1;
      && (Processed(s, e, k) ==> Processed(t, e, k) && (e, k) != (c, last))
      && (Processed(t, e, k) ==> Processed(s, e, k) || (e == c && k == last && t.resolved[(c, last)].0 == Nothing))
  {
  }

  lemma LookUpTasks(s: State, c: ConnId)
    requires Inv(s) && IsServing(s, c) && s.sessions[c].task.Dispatching?
    ensures TasksOk(Step(s, LookUp(c)))
  {
  }

  lemma LookUpResolved(s: State, c: ConnId)
    requires Inv(s) && IsServing(s, c) && s.sessions[c].task.Dispatching?
    ensures ResolvedOk(Step(s, LookUp(c)))
  {
    LookUpResolves(s, c);
  }

  lemma LookUpDone(s: State, c: ConnId, e: ConnId, k: nat)
    requires TasksOk(s) && ProcessedOk(s) && IsServing(s, c) && s.sessions[c].task.Dispatching?
    requires Processed(Step(s, LookUp(c)), e, k)
    ensures var t := Step(s, LookUp(c));
      && (e, k) in t.resolved
      && var out := t.resolved[(e, k)].0;
         out.Put? && out.queue in t.open ==> Item(e, k, out.content) in Queue(t, out.queue)
  {
    LookUpProcessed(s, c, e, k);
  }

  lemma LookUpStep(s: State, c: ConnId)
    requires Inv(s) && IsServing(s, c) && s.sessions[c].task.Dispatching?
    ensures Inv(Step(s, LookUp(c)))
  {
    var t := Step(s, LookUp(c));
    RegistryStep(s, LookUp(c));
    LookUpTasks(s, c);
    LookUpResolved(s, c);
    forall e: ConnId, k: nat
      ensures Processed(s, e, k) ==> Processed(t, e, k) && (e, k) != (c, |Sent(s, c)| - 1)
    {
      LookUpProcessed(s, c, e, k);
    }
    ItemsStay(s, t);
    forall e: ConnId, k: nat | Processed(t, e, k)
      ensures (e, k) in t.resolved
      ensures var out := t.resolved[(e, k)].0;
        out.Put? && out.queue in t.open ==> Item(e, k, out.content) in Queue(t, out.queue)
    {
      LookUpDone(s, c, e, k);
    }
  }

  lemma AppendProcessed(s: State, c: ConnId, e: ConnId, k: nat)
    requires TasksOk(s) && IsServing(s, c) && s.sessions[c].task.Putting?
    ensures Processed(Step(s, Append(c)), e, k) <==> Processed(s, e, k) || (e == c && k == |Sent(s, c)| - 1)
  {
  }

  lemma AppendItems(s: State, c: ConnId, d: ConnId)
    requires TasksOk(s) && QueueItemsOk(s) && QueuesOrdered(s) && IsServing(s, c) && s.sessions[c].task.Putting?
    ensures var t := Step(s, Append(c));
      Ordered(Queue(t, d)) && forall i: nat :: i < |Queue(t, d)| ==> ItemOk(t, d, Queue(t, d)[i])
  {
    var t := Step(s, Append(c));
    var last := |Sent(s, c)| - 1;
    assert Ordered(Queue(s, d));
    AppendProcessed(s, c, c, last);
    forall i: nat | i < |Queue(s, d)|
      ensures ItemOk(t, d, Queue(s, d)[i])
      ensures Queue(s, d)[i].src == c ==> Queue(s, d)[i].number < last
    {
      var item := Queue(s, d)[i];
      assert ItemOk(s, d, item);
      AppendProcessed(s, c, item.src, item.number);
    }
  }

  lemma AppendDone(s: State, c: ConnId, e: ConnId, k: nat)
    requires TasksOk(s) && ProcessedOk(s) && IsServing(s, c) && s.sessions[c].task.Putting?
    requires Processed(Step(s, Append(c)), e, k)
    ensures var t := Step(s, Append(c));
      && (e, k) in t.resolved
      && var out := t.resolved[(e, k)].0;
         out.Put? && out.queue in t.open ==> Item(e, k, out.content) in Queue(t, out.queue)
  {
    var t := Step(s, Append(c));
    AppendProcessed(s, c, e, k);
    if Processed(s, e, k) {
      var out := s.resolved[(e, k)].0;
      assert out.Put? ==> Queue(s, out.queue) <= Queue(t, out.queue);
    } else {
      var d := s.sessions[c].task.queue;
      assert d in s.open ==> Queue(t, d)[|Queue(t, d)| - 1] == Item(c, k, s.sessions[c].task.content);
    }
  }

  lemma AppendStep(s: State, c: ConnId)
    requires Inv(s) && IsServing(s, c) && s.sessions[c].task.Putting?
    ensures Inv(Step(s, Append(c)))
  {
    var t := Step(s, Append(c));
    RegistryStep(s, Append(c));
    forall d: ConnId
      ensures Ordered(Queue(t, d)) && forall i: nat :: i < |Queue(t, d)| ==> ItemOk(t, d, Queue(t, d)[i])
    {
      AppendItems(s, c, d);
    }
    forall e: ConnId, k: nat | Processed(t, e, k)
      ensures (e, k) in t.resolved
      ensures var out := t.resolved[(e, k)].0;
        out.Put? && out.queue in t.open ==> Item(e, k, out.content) in Queue(t, out.queue)
    {
      AppendDone(s, c, e, k);
    }
  }

  lemma CloseStep(s: State, a: Action)
    requires Inv(s) && (a.SinkFails? || a.Close?)
    ensures Inv(Step(s, a))
  {
    RegistryStep(s, a);
    QuietStep(s, Step(s, a));
  }

  lemma LeaveStep(s: State, a: Action)
    requires Inv(s) && a.Unregister?
    ensures Inv(Step(s, a))
  {
    RegistryStep(s, a);
    QuietStep(s, Step(s, a));
  }

  lemma EnterStep(s: State, a: Action)
    requires Inv(s) && (a.Identify? || a.Refuse?)
    ensures Inv(Step(s, a))
  {
    RegistryStep(s, a);
    QuietStep(s, Step(s, a));
  }

  lemma StepKeepsInv(s: State, a: Action)
    requires Inv(s)
    ensures Inv(Step(s, a))
  {
    match a
    case Receive(c, m) => if IsServing(s, c) && s.sessions[c].task.Idle? { ReceiveKeeps(s, c, m); }
    case LookUp(c) => if IsServing(s, c) && s.sessions[c].task.Dispatching? { LookUpStep(s, c); }
    case Append(c) => if IsServing(s, c) && s.sessions[c].task.Putting? { AppendStep(s, c); }
    case SinkFails(_) => CloseStep(s, a);
    case Close(_) => CloseStep(s, a);
    case Unregister(_) => LeaveStep(s, a);
    case _ => EnterStep(s, a);
  }

  lemma {:induction false} RunKeepsInv(s: State, run: seq<Action>)
    requires Inv(s)
    ensures Inv(Exec(s, run))
    decreases |run|
  {
    if run != [] {
      StepKeepsInv(s, run[0]);
      RunKeepsInv(Step(s, run[0]), run[1..]);
    }
  }

  function After(run: seq<Action>): (s: State)
    ensures Inv(s)
  {
    InitInv();
    RunKeepsInv(Init(), run);
    Exec(Init(), run)
  }

  // ---------------------------------------------------------------- what it means

  /** In every interleaving the registry maps n to connection c exactly when c identified as n most
      recently and has not been cleaned up. */
  lemma RegistryExact(run: seq<Action>, n: NodeId, c: ConnId)
    ensures var s := After(run);
      n in s.nodes && s.nodes[n].connectionId == c <==>
      LastIdentified(s.log, n) == Some(c) && Unregistered(c) !in s.log
  {
    var s := After(run);
    assert TxOf(s.nodes, n) == Current(s.log, n);
    assert n in s.nodes ==> s.nodes[n].connectionId == s.nodes[n].tx;
  }

  /** The cleanup of an older session leaves the entry of a newer one alone. */
  lemma LateCleanupHarmless(run: seq<Action>, n: NodeId, older: ConnId, newer: ConnId)
    requires Current(After(run).log, n) == Some(newer) && older != newer
    ensures var s := After(run); var t := Step(s, Action.Unregister(older));
      n in s.nodes && n in t.nodes && t.nodes[n] == s.nodes[n] && t.nodes[n].connectionId == newer
  {
    var s := After(run);
    assert TxOf(s.nodes, n) == Current(s.log, n);
    assert n in s.nodes ==> s.nodes[n].connectionId == s.nodes[n].tx;
  }

  /** A forwarded message arrives unchanged, and on the queue of the connection that was registered
      for its target when the target was looked up. */
  lemma ForwardedRight(run: seq<Action>, d: ConnId, i: nat)
    requires i < |Queue(After(run), d)| && Queue(After(run), d)[i].content.Forward?
    ensures var s := After(run); var item := Queue(s, d)[i]; var m := item.content.msg;
      && item.number < |Sent(s, item.src)| && m == Sent(s, item.src)[item.number]
      && Target(m).Some? && (item.src, item.number) in s.resolved
      && var len := s.resolved[(item.src, item.number)].1;
         len <= |s.log| && Current(s.log[..len], Target(m).value) == Some(d)
  {
    var s := After(run);
    var item := Queue(s, d)[i];
    assert ItemOk(s, d, item);
    var (out, len) := s.resolved[(item.src, item.number)];
    assert out == Expected(s.log[..len], item.src, Sent(s, item.src)[item.number]);
  }

  /** A message with a target, of any of the four kinds, whose look-up found a connection is on that
      connection's queue, unchanged, as soon as it is dealt with, unless the connection has closed. */
  lemma ForwardedAlways(run: seq<Action>, c: ConnId, k: nat, d: ConnId)
    requires Processed(After(run), c, k)
    ensures var s := After(run); var m := Sent(s, c)[k];
      && (c, k) in s.resolved
      && var len := s.resolved[(c, k)].1;
         && len <= |s.log|
         && (Target(m).Some? && Current(s.log[..len], Target(m).value) == Some(d) && d in s.open ==>
               Item(c, k, Forward(m)) in Queue(s, d))
  {
    var s := After(run);
    var m := Sent(s, c)[k];
    var (out, len) := s.resolved[(c, k)];
    assert out == Expected(s.log[..len], c, m);
  }

  /** What a session is answered itself, apart from the offline error. */
  predicate Reply(m: Message, content: Content) {
    || (m.Heartbeat? && content == HeartbeatAck)
    || ((m.DeviceListRequest? || m.SearchRequest?) && content == Answer)
    || (m.Undecodable? && content == Error(DecodeError))
  }

  /** A heartbeat, a query and an undecodable text are answered, on the sender's own queue. */
  lemma AnsweredAlways(run: seq<Action>, c: ConnId, k: nat, content: Content)
    requires Processed(After(run), c, k) && c in After(run).open && Reply(Sent(After(run), c)[k], content)
    ensures Item(c, k, content) in Queue(After(run), c)
  {
    var s := After(run);
    var (out, len) := s.resolved[(c, k)];
    assert out == Expected(s.log[..len], c, Sent(s, c)[k]);
  }

  /** Nothing else is ever queued: each entry is the forwarded message itself, for a target; a reply, or
      the offline error, to the session it came from. */
  lemma NothingElseQueued(run: seq<Action>, d: ConnId, i: nat)
    requires i < |Queue(After(run), d)|
    ensures var s := After(run); var item := Queue(s, d)[i];
      && item.number < |Sent(s, item.src)|
      && var m := Sent(s, item.src)[item.number];
         if Target(m).Some? then item.content == Forward(m) || (item.content == OFFLINE && NeedsTarget(m) && item.src == d)
         else Reply(m, item.content) && item.src == d
  {
    var s := After(run);
    var item := Queue(s, d)[i];
    assert ItemOk(s, d, item);
    var (out, len) := s.resolved[(item.src, item.number)];
    assert out == Expected(s.log[..len], item.src, Sent(s, item.src)[item.number]);
  }

  /** A heartbeat that is dispatched refreshes the entry of the node it names, and only that entry's
      version and time; an unknown node is not added. */
  lemma HeartbeatRefreshes(s: State, c: ConnId, n: NodeId)
    requires IsServing(s, c) && s.sessions[c].task.Dispatching? && Sent(s, c) != []
    requires Sent(s, c)[|Sent(s, c)| - 1].Heartbeat?
    ensures var m := Sent(s, c)[|Sent(s, c)| - 1]; var t := Step(s, LookUp(c));
      && (n in t.nodes <==> n in s.nodes)
      && (n in s.nodes && n != m.from ==> t.nodes[n] == s.nodes[n])
      && (n in s.nodes && n == m.from ==>
            && t.nodes[n].version == m.payload.version && t.nodes[n].lastSeen == m.payload.timestamp
            && SameIdentity(s.nodes[n], t.nodes[n]))
  {
  }

  /** No message is queued twice, on the same queue or on two. */
  lemma QueuedOnce(run: seq<Action>, d: ConnId, i: nat, e: ConnId, j: nat)
    ensures var s := After(run);
      i < |Queue(s, d)| && j < |Queue(s, e)| && (d, i) != (e, j) ==>
        Queue(s, d)[i].src != Queue(s, e)[j].src || Queue(s, d)[i].number != Queue(s, e)[j].number
  {
    var s := After(run);
    if i < |Queue(s, d)| && j < |Queue(s, e)| {
      assert ItemOk(s, d, Queue(s, d)[i]) && ItemOk(s, e, Queue(s, e)[j]);
      assert Ordered(Queue(s, d));
    }
  }

  /** Messages of one session stay in the order it sent them, on every queue. */
  lemma QueueKeepsOrder(run: seq<Action>, d: ConnId, i: nat, j: nat)
    requires i < j < |Queue(After(run), d)| && Queue(After(run), d)[i].src == Queue(After(run), d)[j].src
    ensures Queue(After(run), d)[i].number < Queue(After(run), d)[j].number
  {
    assert Ordered(Queue(After(run), d));
  }

  predicate NeedsTarget(m: Message) { m.PairRequest? || (m.TaskRequest? && m.target.Some?) }

  const OFFLINE: Content := Error(TargetOffline)

  /** A pair request or a task request with a target that finds no connection yields the offline error
      to its sender, and nothing else yields one. */
  lemma OfflineError(run: seq<Action>, c: ConnId, k: nat)
    requires Processed(After(run), c, k) && c in After(run).open
    ensures var s := After(run); var m := Sent(s, c)[k];
      && (c, k) in s.resolved
      && var len := s.resolved[(c, k)].1;
         && len <= |s.log|
         && (Item(c, k, OFFLINE) in Queue(s, c) <==>
             NeedsTarget(m) && Current(s.log[..len], Target(m).value) == None)
  {
    var s := After(run);
    var m := Sent(s, c)[k];
    var (out, len) := s.resolved[(c, k)];
    assert out == Expected(s.log[..len], c, m);
    if Item(c, k, OFFLINE) in Queue(s, c) {
      var i :| 0 <= i < |Queue(s, c)| && Queue(s, c)[i] == Item(c, k, OFFLINE);
      assert ItemOk(s, c, Queue(s, c)[i]);
    }
  }

  /** An offline error is only ever queued for the session whose request it answers. */
  lemma OfflineErrorToSender(run: seq<Action>, d: ConnId, i: nat)
    requires i < |Queue(After(run), d)| && Queue(After(run), d)[i].content.Error?
    ensures Queue(After(run), d)[i].src == d
  {
    var s := After(run);
    var item := Queue(s, d)[i];
    assert ItemOk(s, d, item);
    var (out, len) := s.resolved[(item.src, item.number)];
    assert out == Expected(s.log[..len], item.src, Sent(s, item.src)[item.number]);
  }
}
