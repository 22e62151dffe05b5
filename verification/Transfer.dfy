/** A whole transfer as a state machine: sender task, ack-reader task, receiver task, and a network
    that may lose, duplicate and reorder datagrams in both directions. One action is one turn of a
    task or one act of the network; an action that is not enabled changes nothing. */
module Transfer {
  import opened Bytes
  import opened Wire
  import opened Chunks
  import opened Endpoints

  /** Where the sender task is. `waiting` tells the two halves of a send-then-wait loop apart. */
  datatype Phase =
    | Handshaking(waiting: bool, attempts: nat)
    | Sending
    | Finishing(waiting: bool, attempts: nat)
    | Finished
    | Failed

  datatype State = State(
    phase: Phase,
    snd: SenderState,
    reading: bool,
    queue: seq<nat>,
    toReceiver: multiset<seq<byte>>,
    toSender: multiset<seq<byte>>,
    rcv: ReceiverState)

  datatype Action =
    // sender task
    | SendHandshake
    | HandshakeReply(datagram: seq<byte>)
    | HandshakeTimeout
    | LeaveDataLoop
    | SendChunk
    | AckArrives
    | AckTimeout(due: set<nat>)
    | SendFin
    | FinAckArrives
    | FinTimeout
    // ack-reader task
    | ReadReply(datagram: seq<byte>)
    // receiver task
    | Deliver(datagram: seq<byte>)
    // network
    | LoseToReceiver(datagram: seq<byte>)
    | LoseToSender(datagram: seq<byte>)
    | CopyToReceiver(datagram: seq<byte>)
    | CopyToSender(datagram: seq<byte>)

  const MAX_ATTEMPTS := 5

  function Init(c: Config): State {
    State(Handshaking(false, 0), InitSender(c), true, [], multiset{}, multiset{}, InitReceiver(c))
  }

  /** The reader task exists from the end of the handshake and stops after a FIN-ACK. */
  predicate ReaderRuns(s: State) {
    s.reading && (s.phase.Sending? || s.phase.Finishing? || s.phase.Finished?)
  }

  /** In the data loop the sender waits only when it has chunks to wait for and may not send. */
  predicate DataWait(c: Config, s: State) {
    s.phase.Sending? && |s.snd.acked| < c.Total() && !WindowOpen(c, s.snd)
  }

  function Step(c: Config, s: State, a: Action): State
    requires c.Valid()
  {
    match a
    case SendHandshake =>
      if s.phase.Handshaking? && !s.phase.waiting
      then s.(phase := Handshaking(true, s.phase.attempts),
              toReceiver := s.toReceiver + multiset{EncodeHandshakeReq(c.transport, |c.file|)})
      else s
    case HandshakeReply(b) =>
      if s.phase.Handshaking? && s.phase.waiting && b in s.toSender
      then s.(phase := if SenderFrame(c.transport, b).HandshakeResp? then Sending
                       else Handshaking(false, s.phase.attempts),
              toSender := s.toSender - multiset{b})
      else s
    case HandshakeTimeout =>
      if s.phase.Handshaking? && s.phase.waiting
      then s.(phase := if s.phase.attempts + 1 < MAX_ATTEMPTS then Handshaking(false, s.phase.attempts + 1) else Failed)
      else s
    case LeaveDataLoop =>
      if s.phase.Sending? && |s.snd.acked| >= c.Total()
      then s.(phase := Finishing(false, 0))
      else s
    case SendChunk =>
      if s.phase.Sending? && |s.snd.acked| < c.Total() && WindowOpen(c, s.snd)
      then s.(snd := SendNext(s.snd), toReceiver := s.toReceiver + multiset{c.DataPacket(s.snd.nextSeq)})
      else s
    case AckArrives =>
      if DataWait(c, s) && s.queue != []
      then if s.queue[0] == SENTINEL
           then s.(phase := Finishing(false, 0), queue := s.queue[1..])
           else s.(snd := TakeAck(s.snd, s.queue[0]), queue := s.queue[1..])
      else s
    case AckTimeout(due) =>
      if DataWait(c, s) && s.snd.nextSeq <= c.Total()
      then s.(snd := Timeout(c, s.snd, due),
              toReceiver := s.toReceiver + multiset(Resends(c, s.snd, due, |s.snd.acked|)))
      else s
    case SendFin =>
      if s.phase.Finishing? && !s.phase.waiting
      then s.(phase := Finishing(true, s.phase.attempts),
              toReceiver := s.toReceiver + multiset{EncodeFin(c.transport)})
      else s
    case FinAckArrives =>
      if s.phase.Finishing? && s.phase.waiting && s.queue != []
      then s.(phase := if s.queue[0] == SENTINEL then Finished else Finishing(false, s.phase.attempts),
              queue := s.queue[1..])
      else s
    case FinTimeout =>
      if s.phase.Finishing? && s.phase.waiting
      then s.(phase := if s.phase.attempts + 1 < MAX_ATTEMPTS then Finishing(false, s.phase.attempts + 1) else Finished)
      else s
    case ReadReply(b) =>
      if ReaderRuns(s) && b in s.toSender && |s.queue| < c.transport.AckQueueCapacity()
      then match SenderFrame(c.transport, b)
           case Ack(k) => s.(queue := s.queue + [k], toSender := s.toSender - multiset{b})
           case FinAck => s.(queue := s.queue + [SENTINEL], reading := false, toSender := s.toSender - multiset{b})
           case _ => s.(toSender := s.toSender - multiset{b})
      else s
    case Deliver(b) =>
      if !s.rcv.done && b in s.toReceiver
      then var (rcv, replies) := Receive(c, s.rcv, b);
           s.(rcv := rcv, toReceiver := s.toReceiver - multiset{b}, toSender := s.toSender + multiset(replies))
      else s
    case LoseToReceiver(b) => s.(toReceiver := s.toReceiver - multiset{b})
    case LoseToSender(b) => s.(toSender := s.toSender - multiset{b})
    case CopyToReceiver(b) => if b in s.toReceiver then s.(toReceiver := s.toReceiver + multiset{b}) else s
    case CopyToSender(b) => if b in s.toSender then s.(toSender := s.toSender + multiset{b}) else s
  }

  function Exec(c: Config, s: State, run: seq<Action>): State
    requires c.Valid()
    decreases |run|
  {
    if run == [] then s else Exec(c, Step(c, s, run[0]), run[1..])
  }

  lemma {:induction false} ExecJoin(c: Config, s: State, first: seq<Action>, next: seq<Action>)
    requires c.Valid()
    ensures Exec(c, s, first + next) == Exec(c, Exec(c, s, first), next)
    decreases |first|
  {
    if first == [] {
      assert [] + next == next;
    } else {
      assert (first + next)[1..] == first[1..] + next;
      ExecJoin(c, Step(c, s, first[0]), first[1..], next);
    }
  }

  lemma ExecOne(c: Config, s: State, a: Action, more: seq<Action>)
    requires c.Valid()
    ensures Exec(c, s, [a] + more) == Exec(c, Step(c, s, a), more)
    ensures Exec(c, s, [a]) == Step(c, s, a)
  {
    assert ([a] + more)[1..] == more;
    assert [a][1..] == [];
    assert Exec(c, s, [a]) == Exec(c, Step(c, s, a), []);
  }

  /** One call of `Sender.FillWindow`, as its contract describes it: chunk by chunk from nextSeq on. */
  ghost predicate Filled(c: Config, before: SenderState, after: SenderState, sent: seq<seq<byte>>)
    requires c.Valid()
  {
    && after == before.(nextSeq := before.nextSeq + |sent|, totalSent := before.totalSent + |sent|)
    && (sent != [] ==> after.nextSeq <= c.Total() && after.nextSeq <= |before.acked| + before.cwnd)
    && (forall k {:trigger c.DataPacket(k)} :: before.nextSeq <= k < after.nextSeq ==>
         sent[k - before.nextSeq] == c.DataPacket(k))
  }

  /** The loop that fills the window is a run of `SendChunk` actions. */
  lemma {:induction false} FillWindowIsARun(c: Config, s: State, after: SenderState, sent: seq<seq<byte>>)
      returns (run: seq<Action>)
    requires c.Valid() && s.phase.Sending? && |s.snd.acked| < c.Total() && Filled(c, s.snd, after, sent)
    ensures Exec(c, s, run) == s.(snd := after, toReceiver := s.toReceiver + multiset(sent))
    decreases |sent|
  {
    if sent == [] {
      run := [];
    } else {
      FilledTail(c, s.snd, after, sent);
      run := FillWindowIsARun(c, Step(c, s, SendChunk), after, sent[1..]);
      ExecOne(c, s, SendChunk, run);
      HeadFirst(s.toReceiver, sent);
      run := [SendChunk] + run;
    }
  }

  lemma HeadFirst(bag: multiset<seq<byte>>, sent: seq<seq<byte>>)
    requires sent != []
    ensures bag + multiset{sent[0]} + multiset(sent[1..]) == bag + multiset(sent)
  {
    assert sent == [sent[0]] + sent[1..];
  }

  lemma FilledTail(c: Config, before: SenderState, after: SenderState, sent: seq<seq<byte>>)
    requires c.Valid() && Filled(c, before, after, sent) && sent != []
    ensures WindowOpen(c, before) && sent[0] == c.DataPacket(before.nextSeq)
    ensures Filled(c, SendNext(before), after, sent[1..])
  {
    assert before.nextSeq < after.nextSeq <= c.Total();
    assert sent[0] == c.DataPacket(before.nextSeq);
    forall k {:trigger c.DataPacket(k)} | before.nextSeq + 1 <= k < after.nextSeq
      ensures sent[1..][k - (before.nextSeq + 1)] == c.DataPacket(k)
    {
      assert sent[k - before.nextSeq] == c.DataPacket(k);
    }
  }
}
