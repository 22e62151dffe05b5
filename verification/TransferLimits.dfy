/** Two limits of the protocol, each with the runs that reach it. Losing chunk 0 while later chunks
    get through strands it; and the ack of chunk 99999999 is taken for a FIN-ACK. */
module TransferLimits {
  import opened Bytes
  import opened Wire
  import opened Chunks
  import opened Counting
  import opened Endpoints
  import opened Transfer
  import opened TransferSafety
  import opened TransferTheorems
  import opened TransferRecovery

  predicate IsLaterAck(c: Config, b: seq<byte>) {
    SenderFrame(c.transport, b).Ack? && SenderFrame(c.transport, b).seqNo != 0
  }

  /** Chunk 0 is lost, 1 .. k-1 are acked, the acks of k .. nextSeq-1 are on their way back. */
  ghost predicate FirstLost(c: Config, s: State, k: nat) {
    && Inv(c, s)
    && s.phase.Sending?
    && 1 <= k <= s.snd.nextSeq
    && s.snd.acked == Upto(k) - {0}
    && 0 !in s.rcv.received
    && s.queue == [] && s.toReceiver == multiset{}
    && (forall b <- s.toSender :: IsLaterAck(c, b))
    && (forall j: nat :: k <= j < s.snd.nextSeq ==> EncodeAck(c.transport, j) in s.toSender)
  }

  lemma AckedCount(k: nat)
    requires k >= 1
    ensures |Upto(k) - {0}| == k - 1
  {
    UptoSize(k);
    assert Upto(k) == (Upto(k) - {0}) + {0};
  }

  lemma Handshake(c: Config)
    requires c.Valid()
    ensures var req, resp := EncodeHandshakeReq(c.transport, |c.file|), EncodeHandshakeResp(c.transport);
      Step(c, Step(c, Step(c, Init(c), SendHandshake), Deliver(req)), HandshakeReply(resp))
      == Init(c).(phase := Sending)
  {
    var req, resp := EncodeHandshakeReq(c.transport, |c.file|), EncodeHandshakeResp(c.transport);
    var s1 := Step(c, Init(c), SendHandshake);
    assert s1.toReceiver == multiset{req};
    assert ReceiverFrame(c.transport, req) == HandshakeReq;
    var s2 := Step(c, s1, Deliver(req));
    assert s2.toReceiver == multiset{} && s2.toSender == multiset{resp};
    var s3 := Step(c, s2, HandshakeReply(resp));
    assert s3.toSender == multiset{} && s3.phase == Sending;
  }

  lemma SendAndLose(c: Config, s: State)
    requires c.Valid() && c.Total() >= 1 && s == Init(c).(phase := Sending)
    ensures FirstLost(c, Step(c, Step(c, s, SendChunk), LoseToReceiver(c.DataPacket(0))), 1)
  {
    var data := c.DataPacket(0);
    var s1 := s.(snd := SendNext(s.snd), toReceiver := multiset{data});
    var s2 := s.(snd := SendNext(s.snd));
    assert Step(c, s, SendChunk) == s1 by {
      assert multiset{} + multiset{data} == multiset{data};
    }
    assert Step(c, s1, LoseToReceiver(data)) == s2 by {
      assert multiset{data} - multiset{data} == multiset{};
    }
    SentNothingYet(c, s2);
  }

  lemma SentNothingYet(c: Config, s: State)
    requires c.Valid() && c.Total() >= 1 && s == Init(c).(phase := Sending, snd := SendNext(InitSender(c)))
    ensures FirstLost(c, s, 1)
  {
    assert Upto(1) - {0} == {};
  }

  lemma LoseFirst(c: Config) returns (run: seq<Action>)
    requires c.Valid() && c.Total() >= 1
    ensures FirstLost(c, After(c, run), 1)
  {
    var req, resp := EncodeHandshakeReq(c.transport, |c.file|), EncodeHandshakeResp(c.transport);
    var lose := LoseToReceiver(c.DataPacket(0));
    var s := Init(c).(phase := Sending);
    Handshake(c);
    SendAndLose(c, s);
    var tail := [SendChunk] + ([lose] + []);
    run := [SendHandshake] + ([Deliver(req)] + ([HandshakeReply(resp)] + tail));
    ExecThree(c, Init(c), SendHandshake, Deliver(req), HandshakeReply(resp), tail);
    ExecOne(c, s, SendChunk, [lose] + []);
    ExecOne(c, Step(c, s, SendChunk), lose, []);
  }

  /** While the window is open: send the next chunk and let it through. */
  lemma {:induction false} FillWindowLossless(c: Config, s: State, k: nat) returns (run: seq<Action>)
    requires c.Valid() && k < c.Total() && FirstLost(c, s, k)
    ensures var t := Exec(c, s, run);
      FirstLost(c, t, k) && DataWait(c, t) && k < t.snd.nextSeq
    decreases c.Total() - s.snd.nextSeq
  {
    AckedCount(k);
    if WindowOpen(c, s.snd) {
      var n := s.snd.nextSeq;
      var s1 := Step(c, s, SendChunk);
      var s2 := Step(c, s1, Deliver(c.DataPacket(n)));
      SendOneLossless(c, s, k);
      var rest := FillWindowLossless(c, s2, k);
      run := [SendChunk] + ([Deliver(c.DataPacket(n))] + rest);
      ExecOne(c, s, SendChunk, [Deliver(c.DataPacket(n))] + rest);
      ExecOne(c, s1, Deliver(c.DataPacket(n)), rest);
    } else {
      run := [];
    }
  }

  lemma SendChunkIs(c: Config, s: State)
    requires c.Valid() && s.phase.Sending? && |s.snd.acked| < c.Total() && WindowOpen(c, s.snd)
    requires s.toReceiver == multiset{}
    ensures Step(c, s, SendChunk) == s.(snd := SendNext(s.snd), toReceiver := multiset{c.DataPacket(s.snd.nextSeq)})
  {
    var data := c.DataPacket(s.snd.nextSeq);
    assert multiset{} + multiset{data} == multiset{data};
  }

  lemma SendOneLossless(c: Config, s: State, k: nat)
    requires c.Valid() && k < c.Total() && FirstLost(c, s, k) && WindowOpen(c, s.snd)
    ensures var t := Step(c, Step(c, s, SendChunk), Deliver(c.DataPacket(s.snd.nextSeq)));
      FirstLost(c, t, k) && t.snd.nextSeq == s.snd.nextSeq + 1
  {
    AckedCount(k);
    StepKeepsInv(c, s, SendChunk);
    SendChunkIs(c, s);
    DeliverLossless(c, s, Step(c, s, SendChunk), k);
  }

  lemma DeliverData(c: Config, s: State, k: nat)
    requires c.Valid() && k < c.Total() && !s.rcv.done && c.DataPacket(k) in s.toReceiver
    ensures Step(c, s, Deliver(c.DataPacket(k))) == s.(
      rcv := Store(s.rcv, k, Chunk(c.file, k)),
      toReceiver := s.toReceiver - multiset{c.DataPacket(k)},
      toSender := s.toSender + multiset{EncodeAck(c.transport, k)})
  {
    DataPacketFrame(c, k);
    assert multiset([EncodeAck(c.transport, k)]) == multiset{EncodeAck(c.transport, k)};
  }

  lemma DeliverLossless(c: Config, s: State, s1: State, k: nat)
    requires c.Valid() && FirstLost(c, s, k) && Inv(c, s1) && s.snd.nextSeq < c.Total()
    requires s1 == s.(snd := SendNext(s.snd), toReceiver := multiset{c.DataPacket(s.snd.nextSeq)})
    ensures var t := Step(c, s1, Deliver(c.DataPacket(s.snd.nextSeq)));
      FirstLost(c, t, k) && t.snd == s1.snd
  {
    var n := s.snd.nextSeq;
    var data := c.DataPacket(n);
    var ack := EncodeAck(c.transport, n);
    var t := Step(c, s1, Deliver(data));
    StepKeepsInv(c, s1, Deliver(data));
    DeliverData(c, s1, n);
    ChunkNumberFits(c, n);
    LaterAcks(c, s, n, k);
    assert t.toReceiver == multiset{};
  }

  lemma LaterAcks(c: Config, s: State, n: nat, k: nat)
    requires c.Valid() && FirstLost(c, s, k) && n == s.snd.nextSeq < c.Total()
    ensures var acks := s.toSender + multiset{EncodeAck(c.transport, n)};
      && (forall b <- acks :: IsLaterAck(c, b))
      && (forall j: nat :: k <= j < n + 1 ==> EncodeAck(c.transport, j) in acks)
  {
    var ack := EncodeAck(c.transport, n);
    var acks := s.toSender + multiset{ack};
    ChunkNumberFits(c, n);
    assert IsLaterAck(c, ack);
    forall b | b in acks
      ensures IsLaterAck(c, b)
    {
      assert b in s.toSender || b == ack;
    }
    forall j: nat | k <= j < n + 1
      ensures EncodeAck(c.transport, j) in acks
    {
      assert j < n ==> EncodeAck(c.transport, j) in s.toSender;
    }
  }

  lemma ReadNextAck(c: Config, s: State, k: nat)
    requires c.Valid() && FirstLost(c, s, k) && DataWait(c, s) && k < s.snd.nextSeq
    ensures var ack := EncodeAck(c.transport, k);
      Step(c, s, ReadReply(ack)) == s.(queue := [k], toSender := s.toSender - multiset{ack})
  {
    ChunkNumberFits(c, k);
    assert EncodeAck(c.transport, k) in s.toSender;
  }

  lemma AcksDiffer(c: Config, j: nat, k: nat)
    requires c.Valid() && j < c.Total() && k < c.Total() && j != k
    ensures EncodeAck(c.transport, j) != EncodeAck(c.transport, k)
  {
    ChunkNumberFits(c, j);
    ChunkNumberFits(c, k);
  }

  lemma RemainingAcks(c: Config, s: State, k: nat)
    requires c.Valid() && FirstLost(c, s, k) && k < s.snd.nextSeq
    ensures var acks := s.toSender - multiset{EncodeAck(c.transport, k)};
      && (forall b <- acks :: IsLaterAck(c, b))
      && (forall j: nat :: k + 1 <= j < s.snd.nextSeq ==> EncodeAck(c.transport, j) in acks)
  {
    forall j: nat | k + 1 <= j < s.snd.nextSeq
      ensures EncodeAck(c.transport, j) in s.toSender - multiset{EncodeAck(c.transport, k)}
    {
      AcksDiffer(c, j, k);
      assert EncodeAck(c.transport, j) in s.toSender;
    }
  }

  /** One more ack comes back. */
  lemma NextAck(c: Config, s: State, k: nat)
    requires c.Valid() && FirstLost(c, s, k) && DataWait(c, s) && k < s.snd.nextSeq
    ensures var t := Step(c, Step(c, s, ReadReply(EncodeAck(c.transport, k))), AckArrives);
      && (k != SENTINEL ==> FirstLost(c, t, k + 1))
      && (k == SENTINEL ==> FinPhase(t.phase) && 0 !in t.rcv.received)
  {
    var ack := EncodeAck(c.transport, k);
    var s1 := s.(queue := [k], toSender := s.toSender - multiset{ack});
    ReadNextAck(c, s, k);
    StepKeepsInv(c, s, ReadReply(ack));
    TakeAckOf(c, s1, k);
    if k != SENTINEL {
      StepKeepsInv(c, s1, AckArrives);
      RemainingAcks(c, s, k);
      assert Upto(k) - {0} + {k} == Upto(k + 1) - {0};
    }
  }

  lemma TakeAckOf(c: Config, s: State, k: nat)
    requires c.Valid() && DataWait(c, s) && s.queue == [k] && k !in s.snd.acked
    ensures k != SENTINEL ==>
      Step(c, s, AckArrives) == s.(snd := s.snd.(acked := s.snd.acked + {k}, cwnd := s.snd.cwnd + 1), queue := [])
    ensures k == SENTINEL ==> Step(c, s, AckArrives) == s.(phase := Finishing(false, 0), queue := [])
  {
    assert s.queue[1..] == [];
  }

  /** Every state of the family is reached, up to the sentinel. */
  lemma {:induction false} LossyRun(c: Config, k: nat) returns (run: seq<Action>)
    requires c.Valid() && 1 <= k <= c.Total() && k <= SENTINEL
    ensures FirstLost(c, After(c, run), k)
  {
    if k == 1 {
      run := LoseFirst(c);
    } else {
      var before := LossyRun(c, k - 1);
      run := Advance(c, before, k - 1);
    }
  }

  lemma Advance(c: Config, before: seq<Action>, k: nat) returns (run: seq<Action>)
    requires c.Valid() && k < c.Total() && FirstLost(c, After(c, before), k)
    ensures k != SENTINEL ==> FirstLost(c, After(c, run), k + 1)
    ensures k == SENTINEL ==> FinPhase(After(c, run).phase) && 0 !in After(c, run).rcv.received
  {
    var fill := FillWindowLossless(c, After(c, before), k);
    assert After(c, before + fill) == Exec(c, After(c, before), fill) by {
      ExecJoin(c, Init(c), before, fill);
    }
    run := TakeNextAck(c, before + fill, k);
  }

  lemma TakeNextAck(c: Config, before: seq<Action>, k: nat) returns (run: seq<Action>)
    requires c.Valid() && FirstLost(c, After(c, before), k) && DataWait(c, After(c, before))
    requires k < After(c, before).snd.nextSeq
    ensures k != SENTINEL ==> FirstLost(c, After(c, run), k + 1)
    ensures k == SENTINEL ==> FinPhase(After(c, run).phase) && 0 !in After(c, run).rcv.received
  {
    var s := After(c, before);
    var read := ReadReply(EncodeAck(c.transport, k));
    NextAck(c, s, k);
    run := before + ([read] + ([AckArrives] + []));
    ExecJoin(c, Init(c), before, [read] + ([AckArrives] + []));
    ExecOne(c, s, read, [AckArrives] + []);
    ExecOne(c, Step(c, s, read), AckArrives, []);
  }

  /** A chunk can become stranded exactly in transfers of two or more chunks: there, one lost
      datagram and one later ack are enough. */
  lemma StrandingReachableIff(c: Config)
    requires c.Valid()
    ensures (exists run, k: nat :: After(c, run).phase.Sending? && Stranded(c, After(c, run), k))
            <==> c.Total() >= 2
  {
    if c.Total() >= 2 {
      var run := LossyRun(c, 2);
      AckedCount(2);
      assert Stranded(c, After(c, run), 0);
    }
    forall run, k: nat | Stranded(c, After(c, run), k)
      ensures c.Total() >= 2
    {
      StrandedIncomplete(c, After(c, run), k);
    }
  }

  /** "A sender in its FIN phase has a receiver that holds every chunk" is true in all runs exactly
      when no chunk carries the sentinel's number. */
  lemma FinMeansReceivedIff(c: Config)
    requires c.Valid() && c.expected == |c.file|
    ensures (forall run :: FinPhase(After(c, run).phase) ==> After(c, run).rcv.received == Upto(c.Total()))
            <==> c.Total() <= SENTINEL
  {
    if c.Total() <= SENTINEL {
      forall run | FinPhase(After(c, run).phase)
        ensures After(c, run).rcv.received == Upto(c.Total())
      {
        FinMeansReceived(c, run);
      }
    } else {
      var before := LossyRun(c, SENTINEL);
      var run := Advance(c, before, SENTINEL);
      assert 0 in Upto(c.Total());
      assert FinPhase(After(c, run).phase) && After(c, run).rcv.received != Upto(c.Total());
    }
  }
}
