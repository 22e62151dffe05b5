/** What every run of a transfer keeps, over any network, for any file and any expected size. */
module TransferSafety {
  import opened Bytes
  import opened Wire
  import opened Chunks
  import opened Counting
  import opened Endpoints
  import opened Transfer

  predicate FinPhase(p: Phase) { p.Finishing? || p.Finished? }

  /** The receiver has dealt with chunk k: it holds it, unless its buffer is too short for it. */
  predicate Handled(c: Config, r: ReceiverState, k: nat) {
    k < c.Total() && (c.Fits(k) ==> k in r.received)
  }

  predicate WindowInv(c: Config, s: SenderState) {
    && s.acked <= Upto(s.nextSeq)
    && s.nextSeq <= c.Total()
    && s.nextSeq <= 2 * |s.acked| + c.transport.InitialWindow()
    && 4 <= s.cwnd <= c.transport.InitialWindow() + |s.acked|
    && s.totalSent == s.nextSeq + s.retransmits
  }

  predicate SenderInv(c: Config, s: State) {
    && WindowInv(c, s.snd)
    && SENTINEL !in s.snd.acked
    && (forall k <- s.snd.acked :: Handled(c, s.rcv, k))
    && (s.phase.Handshaking? || s.phase.Failed? ==> s.snd == InitSender(c) && s.queue == [])
    && (!FinPhase(s.phase) ==> s.reading)
    && (FinPhase(s.phase) && c.Total() <= SENTINEL ==> |s.snd.acked| == c.Total())
  }

  /** Byte i of a buffer that holds exactly the chunks in `received`. */
  function ByteAt(c: Config, received: set<nat>, i: nat): byte {
    if i / CHUNK_SIZE in received && i < |c.file| then c.file[i] else 0
  }

  predicate ReceiverInv(c: Config, s: State) {
    && |s.rcv.buf| == c.expected
    && (forall k <- s.rcv.received :: k < s.snd.nextSeq && k < c.Total() && c.Fits(k))
    && (forall i {:trigger s.rcv.buf[i]} :: 0 <= i < c.expected ==> s.rcv.buf[i] == ByteAt(c, s.rcv.received, i))
    && (s.rcv.done ==> FinPhase(s.phase) && |s.rcv.received| >= NumChunks(c.expected))
  }

  predicate HonestToReceiver(c: Config, s: State, b: seq<byte>) {
    match ReceiverFrame(c.transport, b)
    case Data(k, payload) => k < s.snd.nextSeq && k < c.Total() && payload == Chunk(c.file, k)
    case Fin => FinPhase(s.phase)
    case _ => true
  }

  predicate HonestToSender(c: Config, s: State, b: seq<byte>) {
    match SenderFrame(c.transport, b)
    case Ack(k) => k < s.snd.nextSeq && Handled(c, s.rcv, k)
    case FinAck => FinPhase(s.phase)
    case _ => true
  }

  predicate HonestInQueue(c: Config, s: State, q: nat) {
    || (q < s.snd.nextSeq && Handled(c, s.rcv, q))
    || (q == SENTINEL && FinPhase(s.phase))
  }

  predicate NetworkInv(c: Config, s: State) {
    && (forall b <- s.toReceiver :: HonestToReceiver(c, s, b))
    && (forall b <- s.toSender :: HonestToSender(c, s, b))
    && (forall i :: 0 <= i < |s.queue| ==> HonestInQueue(c, s, s.queue[i]))
  }

  predicate Inv(c: Config, s: State) {
    SenderInv(c, s) && ReceiverInv(c, s) && NetworkInv(c, s)
  }

  lemma InitInv(c: Config)
    requires c.Valid()
    ensures Inv(c, Init(c))
  {
  }

  /** The datagram of an existing chunk is read back as that chunk: its number fits 8 bytes. */
  lemma DataPacketFrame(c: Config, k: nat)
    requires c.Valid() && k < c.Total()
    ensures ReceiverFrame(c.transport, c.DataPacket(k)) == Data(k, Chunk(c.file, k))
  {
    Pow256Values();
    DataRoundTrip(c.transport, k, Chunk(c.file, k));
  }

  lemma ChunkNumberFits(c: Config, k: nat)
    requires c.Valid() && k < c.Total()
    ensures k < Pow256(8) && SenderFrame(c.transport, EncodeAck(c.transport, k)) == Ack(k)
  {
    Pow256Values();
    AckRoundTrip(c.transport, k);
  }

  /** Storing a chunk of the file keeps the buffer equal to the file on every received chunk. */
  lemma StoreKeepsBuffer(c: Config, s: State, k: nat)
    requires c.Valid() && ReceiverInv(c, s) && k < s.snd.nextSeq && k < c.Total()
    ensures ReceiverInv(c, s.(rcv := Store(s.rcv, k, Chunk(c.file, k))))
    ensures Handled(c, Store(s.rcv, k, Chunk(c.file, k)), k)
    ensures s.rcv.received <= Store(s.rcv, k, Chunk(c.file, k)).received
  {
    var chunk := Chunk(c.file, k);
    var r := Store(s.rcv, k, chunk);
    if c.Fits(k) {
      forall i | 0 <= i < c.expected
        ensures r.buf[i] == ByteAt(c, r.received, i)
      {
        assert i / CHUNK_SIZE == k && i < |c.file| <==> k * CHUNK_SIZE <= i < k * CHUNK_SIZE + |chunk|;
        assert s.rcv.buf[i] == ByteAt(c, s.rcv.received, i);
      }
      SubsetSize(s.rcv.received, r.received);
    }
  }

  /** What the sender has sent, the receiver has stored, and the FIN phase only grow. */
  predicate Grows(s: State, t: State) {
    && s.snd.nextSeq <= t.snd.nextSeq
    && s.rcv.received <= t.rcv.received
    && (FinPhase(s.phase) ==> FinPhase(t.phase))
  }

  /** Honest datagrams stay honest, so the network is fine if what was added to it is. */
  lemma NetworkGrows(c: Config, s: State, t: State, toReceiver: multiset<seq<byte>>, toSender: multiset<seq<byte>>)
    requires NetworkInv(c, s) && Grows(s, t)
    requires t.toReceiver <= s.toReceiver + toReceiver && forall b <- toReceiver :: HonestToReceiver(c, t, b)
    requires t.toSender <= s.toSender + toSender && forall b <- toSender :: HonestToSender(c, t, b)
    requires forall q <- t.queue :: q in s.queue || HonestInQueue(c, t, q)
    ensures NetworkInv(c, t)
  {
    forall b | b in t.toReceiver
      ensures HonestToReceiver(c, t, b)
    {
      assert b in s.toReceiver || b in toReceiver;
      assert b in s.toReceiver ==> HonestToReceiver(c, s, b);
    }
    forall b | b in t.toSender
      ensures HonestToSender(c, t, b)
    {
      assert b in s.toSender || b in toSender;
      assert b in s.toSender ==> HonestToSender(c, s, b);
    }
    forall i | 0 <= i < |t.queue|
      ensures HonestInQueue(c, t, t.queue[i])
    {
      var q := t.queue[i];
      if q in s.queue {
        var j :| 0 <= j < |s.queue| && s.queue[j] == q;
        assert HonestInQueue(c, s, s.queue[j]);
      }
    }
  }

  lemma DeliverDataKeepsInv(c: Config, s: State, b: seq<byte>, k: nat, payload: seq<byte>)
    requires c.Valid() && Inv(c, s) && !s.rcv.done && b in s.toReceiver
    requires ReceiverFrame(c.transport, b) == Data(k, payload)
    ensures Inv(c, Step(c, s, Deliver(b)))
  {
    var t := Step(c, s, Deliver(b));
    assert HonestToReceiver(c, s, b);
    StoreKeepsBuffer(c, s, k);
    ChunkNumberFits(c, k);
    NetworkGrows(c, s, t, multiset{}, multiset{EncodeAck(c.transport, k)});
  }

  lemma DeliverOtherKeepsInv(c: Config, s: State, b: seq<byte>)
    requires c.Valid() && Inv(c, s) && !s.rcv.done && b in s.toReceiver
    requires !ReceiverFrame(c.transport, b).Data?
    ensures Inv(c, Step(c, s, Deliver(b)))
  {
    var t := Step(c, s, Deliver(b));
    assert HonestToReceiver(c, s, b);
    var (rcv, replies) := Receive(c, s.rcv, b);
    NetworkGrows(c, s, t, multiset{}, multiset(replies));
  }

  lemma AckTimeoutKeepsInv(c: Config, s: State, due: set<nat>)
    requires c.Valid() && Inv(c, s)
    ensures Inv(c, Step(c, s, AckTimeout(due)))
  {
    var t := Step(c, s, AckTimeout(due));
    if DataWait(c, s) {
      forall b | b in t.toReceiver
        ensures HonestToReceiver(c, t, b)
      {
        if b in s.toReceiver {
          assert HonestToReceiver(c, s, b);
        } else {
          ResendsAre(c, s.snd, due, |s.snd.acked|, b);
          var k: nat :| k < c.Total() && SentAgain(s.snd, due, k) && b == c.DataPacket(k);
          DataPacketFrame(c, k);
        }
      }
    }
  }

  lemma AckArrivesKeepsInv(c: Config, s: State)
    requires c.Valid() && Inv(c, s)
    ensures Inv(c, Step(c, s, AckArrives))
  {
    var t := Step(c, s, AckArrives);
    if DataWait(c, s) && s.queue != [] {
      assert HonestInQueue(c, s, s.queue[0]);
      forall i | 0 <= i < |t.queue|
        ensures HonestInQueue(c, t, t.queue[i])
      {
        assert HonestInQueue(c, s, s.queue[i + 1]);
      }
    }
  }

  lemma SendChunkKeepsInv(c: Config, s: State)
    requires c.Valid() && Inv(c, s)
    ensures Inv(c, Step(c, s, SendChunk))
  {
    if s.snd.nextSeq < c.Total() {
      DataPacketFrame(c, s.snd.nextSeq);
    }
  }

  /** A step that leaves the window and the receiver's buffer alone. */
  lemma PhaseStep(c: Config, s: State, t: State)
    requires SenderInv(c, s) && ReceiverInv(c, s) && t.snd == s.snd && t.rcv == s.rcv
    requires t.phase.Handshaking? || t.phase.Failed? ==> s.phase.Handshaking? || s.phase.Failed?
    requires t.phase.Handshaking? || t.phase.Failed? ==> t.queue == s.queue
    requires FinPhase(s.phase) ==> FinPhase(t.phase)
    requires FinPhase(t.phase) ==> FinPhase(s.phase) || |s.snd.acked| == c.Total()
    requires !FinPhase(t.phase) ==> t.reading
    ensures SenderInv(c, t) && ReceiverInv(c, t)
  {
  }

  lemma ReadReplyKeepsInv(c: Config, s: State, b: seq<byte>)
    requires c.Valid() && Inv(c, s) && b in s.toSender
    ensures Inv(c, Step(c, s, ReadReply(b)))
  {
    var t := Step(c, s, ReadReply(b));
    if t != s {
      assert HonestToSender(c, s, b);
      var q := match SenderFrame(c.transport, b) case Ack(k) => [k] case FinAck => [SENTINEL] case _ => [];
      assert t.queue == s.queue + q;
      assert t.snd == s.snd && t.rcv == s.rcv && t.phase == s.phase;
      QueueGrows(c, s, t, q);
    }
  }

  lemma QueueGrows(c: Config, s: State, t: State, q: seq<nat>)
    requires Inv(c, s) && ReaderRuns(s)
    requires t == s.(queue := s.queue + q, reading := t.reading, toSender := t.toSender)
    requires t.toSender <= s.toSender && forall k <- q :: HonestInQueue(c, s, k)
    requires !t.reading ==> FinPhase(s.phase)
    ensures Inv(c, t)
  {
    PhaseStep(c, s, t);
    forall k | k in q
      ensures HonestInQueue(c, t, k)
    {
      assert HonestInQueue(c, s, k);
    }
    NetworkGrows(c, s, t, multiset{}, multiset{});
  }

  lemma HandshakeKeepsInv(c: Config, s: State, a: Action)
    requires c.Valid() && Inv(c, s) && s.phase.Handshaking?
    requires a.SendHandshake? || a.HandshakeReply? || a.HandshakeTimeout?
    ensures Inv(c, Step(c, s, a))
  {
    var t := Step(c, s, a);
    PhaseStep(c, s, t);
    NetworkGrows(c, s, t, multiset{EncodeHandshakeReq(c.transport, |c.file|)}, multiset{});
  }

  lemma LeaveDataLoopKeepsInv(c: Config, s: State)
    requires c.Valid() && Inv(c, s)
    ensures Inv(c, Step(c, s, LeaveDataLoop))
  {
    BelowSize(s.snd.acked, c.Total());
    PhaseStep(c, s, Step(c, s, LeaveDataLoop));
    NetworkGrows(c, s, Step(c, s, LeaveDataLoop), multiset{}, multiset{});
  }

  lemma SendFinKeepsInv(c: Config, s: State)
    requires c.Valid() && Inv(c, s) && s.phase.Finishing?
    ensures Inv(c, Step(c, s, SendFin))
  {
    PhaseStep(c, s, Step(c, s, SendFin));
    NetworkGrows(c, s, Step(c, s, SendFin), multiset{EncodeFin(c.transport)}, multiset{});
  }

  lemma FinWaitKeepsInv(c: Config, s: State, a: Action)
    requires c.Valid() && Inv(c, s) && s.phase.Finishing?
    requires a.FinAckArrives? || a.FinTimeout?
    ensures Inv(c, Step(c, s, a))
  {
    var t := Step(c, s, a);
    PhaseStep(c, s, t);
    assert forall q <- t.queue :: q in s.queue;
    NetworkGrows(c, s, t, multiset{}, multiset{});
  }

  lemma LossKeepsInv(c: Config, s: State, a: Action)
    requires c.Valid() && Inv(c, s) && (a.LoseToReceiver? || a.LoseToSender?)
    ensures Inv(c, Step(c, s, a))
  {
    var t := Step(c, s, a);
    PhaseStep(c, s, t);
    NetworkGrows(c, s, t, multiset{}, multiset{});
  }

  lemma CopyKeepsInv(c: Config, s: State, a: Action)
    requires c.Valid() && Inv(c, s) && (a.CopyToReceiver? || a.CopyToSender?)
    ensures Inv(c, Step(c, s, a))
  {
    var t := Step(c, s, a);
    PhaseStep(c, s, t);
    NetworkGrows(c, s, t, if t.toReceiver == s.toReceiver then multiset{} else multiset{a.datagram},
                 if t.toSender == s.toSender then multiset{} else multiset{a.datagram});
  }

  lemma StepKeepsInv(c: Config, s: State, a: Action)
    requires c.Valid() && Inv(c, s)
    ensures Inv(c, Step(c, s, a))
  {
    match a
    case Deliver(b) =>
      if !s.rcv.done && b in s.toReceiver {
        match ReceiverFrame(c.transport, b)
        case Data(k, payload) => DeliverDataKeepsInv(c, s, b, k, payload);
        case _ => DeliverOtherKeepsInv(c, s, b);
      }
    case AckTimeout(due) => AckTimeoutKeepsInv(c, s, due);
    case AckArrives => AckArrivesKeepsInv(c, s);
    case SendChunk => SendChunkKeepsInv(c, s);
    case ReadReply(b) => if b in s.toSender { ReadReplyKeepsInv(c, s, b); }
    case LoseToReceiver(_) => LossKeepsInv(c, s, a);
    case LoseToSender(_) => LossKeepsInv(c, s, a);
    case CopyToReceiver(_) => CopyKeepsInv(c, s, a);
    case CopyToSender(_) => CopyKeepsInv(c, s, a);
    case LeaveDataLoop => LeaveDataLoopKeepsInv(c, s);
    case SendFin => if s.phase.Finishing? { SendFinKeepsInv(c, s); }
    case FinAckArrives => if s.phase.Finishing? { FinWaitKeepsInv(c, s, a); }
    case FinTimeout => if s.phase.Finishing? { FinWaitKeepsInv(c, s, a); }
    case _ => if s.phase.Handshaking? { HandshakeKeepsInv(c, s, a); }
  }

  lemma {:induction false} RunKeepsInv(c: Config, s: State, run: seq<Action>)
    requires c.Valid() && Inv(c, s)
    ensures Inv(c, Exec(c, s, run))
    decreases |run|
  {
    if run != [] {
      StepKeepsInv(c, s, run[0]);
      RunKeepsInv(c, Step(c, s, run[0]), run[1..]);
    }
  }
}
