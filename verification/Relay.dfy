/** The relay: the registry of connected nodes (relay/src/registry.rs) and the sessions that update it
    and route messages through it (relay/src/handler.rs). */
module Relay {

  import opened Options

  type NodeId = nat

  /** One WebSocket session: its random connection id, and the outbound channel created with it. */
  type ConnId = nat

  datatype Payload = Payload(version: string, timestamp: int, platform: string, capabilities: seq<string>)

  datatype Entry = Entry(
    node: NodeId, name: string, platform: string, capabilities: seq<string>,
    version: string, lastSeen: int, tx: ConnId, connectionId: ConnId)

  type Nodes = map<NodeId, Entry>

  // ---------------------------------------------------------------- registry

  function Upserted(nodes: Nodes, id: NodeId, name: string, p: Payload, tx: ConnId, conn: ConnId): Nodes {
    nodes[id := Entry(id, name, p.platform, p.capabilities, p.version, p.timestamp, tx, conn)]
  }

  /** Only the heartbeat fields of a known node change. */
  function Beaten(nodes: Nodes, id: NodeId, p: Payload): Nodes {
    if id in nodes then nodes[id := nodes[id].(version := p.version, lastSeen := p.timestamp)] else nodes
  }

  /** A node goes only if the connection that leaves is still the registered one. */
  function Removed(nodes: Nodes, id: NodeId, conn: ConnId): Nodes {
    if id in nodes && nodes[id].connectionId == conn then nodes - {id} else nodes
  }

  function TxOf(nodes: Nodes, id: NodeId): Option<ConnId> {
    if id in nodes then Some(nodes[id].tx) else None
  }

  /** Two entries of one registration: all but the heartbeat fields agree. */
  predicate SameIdentity(e: Entry, f: Entry) {
    && e.node == f.node && e.name == f.name && e.platform == f.platform && e.capabilities == f.capabilities
    && e.tx == f.tx && e.connectionId == f.connectionId
  }

  class Registry {
    var nodes: Nodes

    constructor ()
      ensures nodes == map[]
    {
      nodes := map[];
    }

    method UpsertFromHeartbeat(id: NodeId, name: string, payload: Payload, tx: ConnId, conn: ConnId)
      modifies this
      ensures nodes == Upserted(old(nodes), id, name, payload, tx, conn)
      ensures nodes.Keys == old(nodes).Keys + {id}
      ensures forall n: NodeId :: n in old(nodes) && n != id ==> nodes[n] == old(nodes)[n]
      ensures var e := nodes[id];
        && e.node == id && e.name == name && e.tx == tx && e.connectionId == conn
        && e.platform == payload.platform && e.capabilities == payload.capabilities
        && e.version == payload.version && e.lastSeen == payload.timestamp
    {
      nodes := nodes[id := Entry(id, name, payload.platform, payload.capabilities,
                                 payload.version, payload.timestamp, tx, conn)];
    }

    method UpdateHeartbeat(id: NodeId, payload: Payload)
      modifies this
      ensures nodes == Beaten(old(nodes), id, payload)
      ensures nodes.Keys == old(nodes).Keys
      ensures forall n: NodeId :: n in nodes ==> SameIdentity(old(nodes)[n], nodes[n])
      ensures forall n: NodeId :: n in nodes && n != id ==> nodes[n] == old(nodes)[n]
      ensures id in nodes ==> nodes[id].version == payload.version && nodes[id].lastSeen == payload.timestamp
    {
      if id in nodes {
        nodes := nodes[id := nodes[id].(version := payload.version, lastSeen := payload.timestamp)];
      }
    }

    method Remove(id: NodeId, conn: ConnId)
      modifies this
      ensures nodes == Removed(old(nodes), id, conn)
      ensures forall n: NodeId :: n in old(nodes) && (n != id || old(nodes)[n].connectionId != conn) ==>
        n in nodes && nodes[n] == old(nodes)[n]
    {
      if id in nodes && nodes[id].connectionId == conn {
        nodes := map n | n in nodes && n != id :: nodes[n];
      }
    }

    method GetTx(id: NodeId) returns (tx: Option<ConnId>)
      ensures tx == TxOf(nodes, id)
    {
      tx := if id in nodes then Some(nodes[id].tx) else None;
    }
  }

  // ---------------------------------------------------------------- routing

  datatype Message =
    | Heartbeat(from: NodeId, payload: Payload)
    | PairRequest(to: NodeId, body: string)
    | PairResponse(to: NodeId, body: string)
    | TaskRequest(target: Option<NodeId>, body: string)
    | TaskResult(target: Option<NodeId>, body: string)
    | DeviceListRequest
    | SearchRequest(query: string)
    | Undecodable
    | Other

  /** What a session puts on a queue. */
  datatype Content = Forward(msg: Message) | HeartbeatAck | Answer | Error(code: ErrorCode)

  datatype ErrorCode = DecodeError | TargetOffline

  /** A queue entry, with the session it came from and the number of the message that caused it. */
  datatype Item = Item(src: ConnId, number: nat, content: Content)

  datatype Outcome = Nothing | Put(queue: ConnId, content: Content)

  function Target(m: Message): Option<NodeId> {
    match m
    case PairRequest(to, _) => Some(to)
    case PairResponse(to, _) => Some(to)
    case TaskRequest(to, _) => to
    case TaskResult(to, _) => to
    case _ => None
  }

  /** `dispatch`, given the connection found for the target. */
  function Dispatch(c: ConnId, m: Message, found: Option<ConnId>): Outcome {
    match m
    case Undecodable => Put(c, Error(DecodeError))
    case Heartbeat(_, _) => Put(c, HeartbeatAck)
    case DeviceListRequest => Put(c, Answer)
    case SearchRequest(_) => Put(c, Answer)
    case PairRequest(_, _) =>
      if found.Some? then Put(found.value, Forward(m)) else Put(c, Error(TargetOffline))
    case PairResponse(_, _) => if found.Some? then Put(found.value, Forward(m)) else Nothing
    case TaskRequest(to, _) =>
      if to.None? then Nothing
      else if found.Some? then Put(found.value, Forward(m)) else Put(c, Error(TargetOffline))
    case TaskResult(to, _) => if to.Some? && found.Some? then Put(found.value, Forward(m)) else Nothing
    case Other => Nothing
  }

  // ---------------------------------------------------------------- sessions

  datatype Task = Idle | Dispatching | Putting(queue: ConnId, content: Content)

  datatype Session = Serving(node: NodeId, task: Task) | Leaving(node: NodeId) | Gone

  datatype Event = Identified(conn: ConnId, node: NodeId) | Unregistered(conn: ConnId)

  /** `sent` holds the messages each session has received from its peer, `log` the identifications and
      cleanups in the order they took effect, `resolved` what became of each message and how long the
      log was when its target was looked up. */
  datatype State = State(
    nodes: Nodes,
    sessions: map<ConnId, Session>,
    queues: map<ConnId, seq<Item>>,
    open: set<ConnId>,
    sent: map<ConnId, seq<Message>>,
    log: seq<Event>,
    resolved: map<(ConnId, nat), (Outcome, nat)>)

  datatype Action =
    | Identify(c: ConnId, node: NodeId, name: string, payload: Payload)
    | Refuse(c: ConnId)           // the first message is not a heartbeat
    | Receive(c: ConnId, m: Message)
    | LookUp(c: ConnId)
    | Append(c: ConnId)
    | SinkFails(c: ConnId)        // the write task stops: nothing can be queued any more
    | Unregister(c: ConnId)       // the stream has ended
    | Close(c: ConnId)

  function Init(): State { State(map[], map[], map[], {}, map[], [], map[]) }

  function Queue(s: State, c: ConnId): seq<Item> { if c in s.queues then s.queues[c] else [] }

  function Sent(s: State, c: ConnId): seq<Message> { if c in s.sent then s.sent[c] else [] }

  function Found(nodes: Nodes, m: Message): Option<ConnId> {
    if Target(m).Some? then TxOf(nodes, Target(m).value) else None
  }

  predicate IsServing(s: State, c: ConnId) { c in s.sessions && s.sessions[c].Serving? }

  function WithTask(s: State, c: ConnId, task: Task): State
    requires IsServing(s, c)
  {
    s.(sessions := s.sessions[c := s.sessions[c].(task := task)])
  }

  function Step(s: State, a: Action): State {
    var c := a.c;
    match a
    case Identify(_, n, name, p) =>
      if c in s.sessions then s
      else s.(nodes := Upserted(s.nodes, n, name, p, c, c), sessions := s.sessions[c := Serving(n, Idle)],
              open := s.open + {c}, log := s.log + [Identified(c, n)])
    case Refuse(_) => if c in s.sessions then s else s.(sessions := s.sessions[c := Gone])
    case Receive(_, m) =>
      if IsServing(s, c) && s.sessions[c].task.Idle?
      then WithTask(s, c, Dispatching).(sent := s.sent[c := Sent(s, c) + [m]])
      else s
    case LookUp(_) =>
      if IsServing(s, c) && s.sessions[c].task.Dispatching? && Sent(s, c) != []
      then
        var k := |Sent(s, c)| - 1;
        var m := Sent(s, c)[k];
        var out := Dispatch(c, m, Found(s.nodes, m));
        WithTask(s, c, if out.Put? then Putting(out.queue, out.content) else Idle)
          .(nodes := if m.Heartbeat? then Beaten(s.nodes, m.from, m.payload) else s.nodes,
            resolved := s.resolved[(c, k) := (out, |s.log|)])
      else s
    case Append(_) =>
      if IsServing(s, c) && s.sessions[c].task.Putting? && Sent(s, c) != []
      then
        var d := s.sessions[c].task.queue;
        var item := Item(c, |Sent(s, c)| - 1, s.sessions[c].task.content);
        WithTask(s, c, Idle).(queues := if d in s.open then s.queues[d := Queue(s, d) + [item]] else s.queues)
      else s
    case SinkFails(_) => s.(open := s.open - {c})
    case Unregister(_) =>
      if IsServing(s, c) && s.sessions[c].task.Idle?
      then s.(nodes := Removed(s.nodes, s.sessions[c].node, c), sessions := s.sessions[c := Leaving(s.sessions[c].node)],
              log := s.log + [Unregistered(c)])
      else s
    case Close(_) =>
      if c in s.sessions && s.sessions[c].Leaving?
      then s.(sessions := s.sessions[c := Gone], open := s.open - {c})
      else s
  }

  function Exec(s: State, run: seq<Action>): State
    decreases |run|
  {
    if run == [] then s else Exec(Step(s, run[0]), run[1..])
  }
}
