/** Which transfers can still finish. The timeout scan starts at the number of acks, so it misses a
    lost chunk as soon as enough later ones are acked. This module says exactly when it reaches
    every outstanding chunk, exactly which states can still complete, and that a chunk it has
    passed over is never sent again. */
module TransferRecovery {
  import opened Bytes
  import opened Wire
  import opened Chunks
  import opened Counting
  import opened Endpoints
  import opened Transfer
  import opened TransferSafety
  import opened TransferTheorems

  /** The scan range covers every unacked chunk exactly when the acks form a prefix. */
  lemma ScanCoversIff(c: Config, s: SenderState)
    requires WindowInv(c, s)
    ensures (forall k: nat :: k < s.nextSeq && k !in s.acked ==> |s.acked| <= k)
            <==> s.acked == Upto(|s.acked|)
  {
    var n := |s.acked|;
    BelowSize(s.acked, s.nextSeq);
    UptoSize(n);
    if forall k: nat :: k < s.nextSeq && k !in s.acked ==> n <= k {
      assert Upto(n) <= s.acked;
      SubsetSize(Upto(n), s.acked);
    }
  }

  // ---------------------------------------------------------------- stranded chunks

  ghost predicate HasData(c: Config, s: State, k: nat) {
    exists b :: b in s.toReceiver && IsData(c, b, k)
  }

  predicate IsData(c: Config, b: seq<byte>, k: nat) {
    ReceiverFrame(c.transport, b).Data? && ReceiverFrame(c.transport, b).seqNo == k
  }

  ghost predicate HasAck(c: Config, s: State, k: nat) {
    exists b :: b in s.toSender && IsAck(c, b, k)
  }

  predicate IsAck(c: Config, b: seq<byte>, k: nat) { SenderFrame(c.transport, b) == Ack(k) }

  /** A copy of chunk k, or an ack of it, is somewhere between the two tasks. */
  ghost predicate InFlight(c: Config, s: State, k: nat) {
    HasData(c, s, k) || HasAck(c, s, k) || k in s.queue
  }

  /** Chunk k is missing, below the scan, and nothing about it is under way. The sentinel's own
      number is apart: an ack of it is never counted in the first place. */
  ghost predicate Stranded(c: Config, s: State, k: nat) {
    k < |s.snd.acked| && k !in s.snd.acked && k != SENTINEL && !InFlight(c, s, k)
  }

  ghost predicate NoneStranded(c: Config, s: State) { forall k: nat :: !Stranded(c, s, k) }

  lemma StrandedStep(c: Config, s: State, a: Action, k: nat)
    requires c.Valid() && Inv(c, s) && Stranded(c, s, k)
    ensures Stranded(c, Step(c, s, a), k)
  {
    var t := Step(c, s, a);
    StepForgetsNothing(c, s, a);
    SubsetSize(s.snd.acked, t.snd.acked);
    BelowSize(s.snd.acked, s.snd.nextSeq);
    match a
    case Deliver(b) => StrandedDeliver(c, s, b, k);
    case ReadReply(b) => StrandedRead(c, s, b, k);
    case AckArrives => assert s.queue != [] ==> s.queue[0] in s.queue;
    case AckTimeout(due) => StrandedTimeout(c, s, due, k);
    case SendChunk => if s.snd.nextSeq < c.Total() { DataPacketFrame(c, s.snd.nextSeq); }
    case LoseToReceiver(_) => StrandedLoss(c, s, a, k);
    case LoseToSender(_) => StrandedLoss(c, s, a, k);
    case CopyToReceiver(_) => StrandedCopy(c, s, a, k);
    case CopyToSender(_) => StrandedCopy(c, s, a, k);
    case SendHandshake => StrandedHandshake(c, s, a, k);
    case HandshakeReply(_) => StrandedHandshake(c, s, a, k);
    case HandshakeTimeout => StrandedHandshake(c, s, a, k);
    case _ => StrandedFin(c, s, a, k);
  }

  lemma StrandedDeliver(c: Config, s: State, b: seq<byte>, k: nat)
    requires c.Valid() && Inv(c, s) && Stranded(c, s, k)
    ensures Stranded(c, Step(c, s, Deliver(b)), k)
  {
    var t := Step(c, s, Deliver(b));
    if !s.rcv.done && b in s.toReceiver {
      assert !IsData(c, b, k) && HonestToReceiver(c, s, b);
      var f := ReceiverFrame(c.transport, b);
      if f.Data? {
        ChunkNumberFits(c, f.seqNo);
      }
      assert !HasData(c, t, k);
      assert !HasAck(c, t, k);
    }
  }

  lemma StrandedRead(c: Config, s: State, b: seq<byte>, k: nat)
    requires c.Valid() && Stranded(c, s, k)
    ensures Stranded(c, Step(c, s, ReadReply(b)), k)
  {
    var t := Step(c, s, ReadReply(b));
    if b in s.toSender {
      assert !IsAck(c, b, k);
    }
    assert !HasAck(c, t, k);
  }

  lemma ResentIsNot(c: Config, s: SenderState, due: set<nat>, b: seq<byte>, k: nat)
    requires c.Valid() && s.nextSeq <= c.Total() && b in Resends(c, s, due, |s.acked|) && k < |s.acked|
    ensures !IsData(c, b, k)
  {
    ResendsAre(c, s, due, |s.acked|, b);
    var j: nat :| j < c.Total() && SentAgain(s, due, j) && b == c.DataPacket(j);
    DataPacketFrame(c, j);
    assert SentAgain(s, due, j);
  }

  /** The scan sends each chunk once, in ascending order. */
  lemma {:induction false} ResendsAscend(c: Config, s: SenderState, due: set<nat>, k: nat, i: nat, j: nat)
    requires c.Valid() && s.nextSeq <= c.Total() && i < j < |Resends(c, s, due, k)|
    ensures var a, b := Resends(c, s, due, k)[i], Resends(c, s, due, k)[j];
      && ReceiverFrame(c.transport, a).Data? && ReceiverFrame(c.transport, b).Data?
      && ReceiverFrame(c.transport, a).seqNo < ReceiverFrame(c.transport, b).seqNo
    decreases s.nextSeq - k
  {
    if !SentAgain(s, due, k) {
      assert Resends(c, s, due, k) == Resends(c, s, due, k + 1);
      ResendsAscend(c, s, due, k + 1, i, j);
    } else if i > 0 {
      ResendsAscend(c, s, due, k + 1, i - 1, j - 1);
    } else {
      DataPacketFrame(c, k);
      var b := Resends(c, s, due, k + 1)[j - 1];
      ResendsAre(c, s, due, k + 1, b);
      var m: nat :| k + 1 <= m < c.Total() && SentAgain(s, due, m) && b == c.DataPacket(m);
      DataPacketFrame(c, m);
    }
  }

  lemma StrandedTimeout(c: Config, s: State, due: set<nat>, k: nat)
    requires c.Valid() && Inv(c, s) && Stranded(c, s, k)
    ensures Stranded(c, Step(c, s, AckTimeout(due)), k)
  {
    var t := Step(c, s, AckTimeout(due));
    if DataWait(c, s) {
      var resent := Resends(c, s.snd, due, |s.snd.acked|);
      forall b | b in t.toReceiver
        ensures !IsData(c, b, k)
      {
        if b in resent {
          ResentIsNot(c, s.snd, due, b, k);
        } else {
          assert b in s.toReceiver && !HasData(c, s, k);
        }
      }
      assert !HasData(c, t, k);
    }
  }

  /** Nothing that could carry chunk k was added. */
  lemma StillStranded(c: Config, s: State, t: State, k: nat)
    requires Stranded(c, s, k) && t.snd.acked == s.snd.acked
    requires forall b <- t.toReceiver :: b in s.toReceiver || !ReceiverFrame(c.transport, b).Data?
    requires forall b <- t.toSender :: b in s.toSender
    requires forall q <- t.queue :: q in s.queue
    ensures Stranded(c, t, k)
  {
    forall b | b in t.toReceiver
      ensures !IsData(c, b, k)
    {
      assert b in s.toReceiver ==> !IsData(c, b, k) by { assert !HasData(c, s, k); }
    }
    assert !HasAck(c, s, k);
  }

  lemma StrandedLoss(c: Config, s: State, a: Action, k: nat)
    requires c.Valid() && Stranded(c, s, k) && (a.LoseToReceiver? || a.LoseToSender?)
    ensures Stranded(c, Step(c, s, a), k)
  {
    var t := Step(c, s, a);
    assert t.toReceiver <= s.toReceiver && t.toSender <= s.toSender;
    StillStranded(c, s, t, k);
  }

  lemma StrandedCopy(c: Config, s: State, a: Action, k: nat)
    requires c.Valid() && Stranded(c, s, k) && (a.CopyToReceiver? || a.CopyToSender?)
    ensures Stranded(c, Step(c, s, a), k)
  {
    var t := Step(c, s, a);
    if t != s {
      assert forall b <- t.toReceiver :: b in s.toReceiver;
      assert forall b <- t.toSender :: b in s.toSender;
      StillStranded(c, s, t, k);
    }
  }

  lemma StrandedHandshake(c: Config, s: State, a: Action, k: nat)
    requires c.Valid() && Stranded(c, s, k)
    requires a.SendHandshake? || a.HandshakeReply? || a.HandshakeTimeout?
    ensures Stranded(c, Step(c, s, a), k)
  {
    var t := Step(c, s, a);
    assert t.toReceiver <= s.toReceiver + multiset{EncodeHandshakeReq(c.transport, |c.file|)};
    assert t.toSender <= s.toSender;
    StillStranded(c, s, t, k);
  }

  lemma StrandedFin(c: Config, s: State, a: Action, k: nat)
    requires c.Valid() && Stranded(c, s, k)
    requires a.LeaveDataLoop? || a.SendFin? || a.FinAckArrives? || a.FinTimeout?
    ensures Stranded(c, Step(c, s, a), k)
  {
    var t := Step(c, s, a);
    assert t.toReceiver <= s.toReceiver + multiset{EncodeFin(c.transport)};
    assert forall q <- t.queue :: q in s.queue;
    StillStranded(c, s, t, k);
  }

  /** A stranded chunk stays stranded whatever happens, so it is never sent again and the data
      loop's exit condition stays false. */
  lemma {:induction false} StrandedForever(c: Config, s: State, run: seq<Action>, k: nat)
    requires c.Valid() && Inv(c, s) && Stranded(c, s, k)
    ensures Stranded(c, Exec(c, s, run), k)
    ensures |Exec(c, s, run).snd.acked| < c.Total()
    decreases |run|
  {
    if run == [] {
      StrandedIncomplete(c, s, k);
    } else {
      StepKeepsInv(c, s, run[0]);
      StrandedStep(c, s, run[0], k);
      StrandedForever(c, Step(c, s, run[0]), run[1..], k);
    }
  }

  lemma StrandedIncomplete(c: Config, s: State, k: nat)
    requires Inv(c, s) && Stranded(c, s, k)
    ensures |s.snd.acked| < c.Total()
    ensures c.Total() >= 2
  {
    BelowSize(s.snd.acked, c.Total());
    assert s.snd.acked != Upto(c.Total());
  }

  // ---------------------------------------------------------------- recovery

  predicate AllAcked(c: Config, s: State) { s.snd.acked == Upto(c.Total()) }

  ghost predicate AllInFlight(c: Config, s: State) {
    forall k: nat :: k < s.snd.nextSeq && k !in s.snd.acked ==> InFlight(c, s, k)
  }

  lemma SendKeepsInFlight(c: Config, s: State, k: nat)
    requires c.Valid() && Inv(c, s) && InFlight(c, s, k)
    ensures InFlight(c, Step(c, s, SendChunk), k)
  {
    var t := Step(c, s, SendChunk);
    if HasData(c, s, k) {
      var b :| b in s.toReceiver && IsData(c, b, k);
      assert b in t.toReceiver;
    }
  }

  lemma SendPutsInFlight(c: Config, s: State)
    requires c.Valid() && Inv(c, s) && s.phase.Sending? && |s.snd.acked| < c.Total() && WindowOpen(c, s.snd)
    ensures InFlight(c, Step(c, s, SendChunk), s.snd.nextSeq)
  {
    var t := Step(c, s, SendChunk);
    var b := c.DataPacket(s.snd.nextSeq);
    DataPacketFrame(c, s.snd.nextSeq);
    assert b in t.toReceiver && IsData(c, b, s.snd.nextSeq);
  }

  /** Three steps get an in-flight chunk acked when the queue is empty. */
  lemma AckOne(c: Config, s: State, k: nat) returns (run: seq<Action>)
    requires c.Valid() && c.Total() <= SENTINEL && Inv(c, s) && DataWait(c, s) && s.queue == []
    requires AllInFlight(c, s) && k < s.snd.nextSeq && k !in s.snd.acked
    ensures var t := Exec(c, s, run);
      Inv(c, t) && t.phase.Sending? && AllInFlight(c, t) && t.snd.acked == s.snd.acked + {k}
  {
    var s1 := s;
    var first: seq<Action> := [];
    if !HasAck(c, s, k) {
      assert InFlight(c, s, k);
      var b :| b in s.toReceiver && IsData(c, b, k);
      first := [Deliver(b)];
      s1 := Step(c, s, Deliver(b));
      DeliverInFlight(c, s, b, k);
      ExecOne(c, s, Deliver(b), []);
    }
    assert Exec(c, s, first) == s1;
    var b :| b in s1.toSender && IsAck(c, b, k);
    var s2 := Step(c, s1, ReadReply(b));
    ReadInFlight(c, s1, b, k);
    TakeInFlight(c, s2, k);
    ExecOne(c, s1, ReadReply(b), [AckArrives]);
    ExecOne(c, s2, AckArrives, []);
    ExecJoin(c, s, first, [ReadReply(b)] + [AckArrives]);
    run := first + ([ReadReply(b)] + [AckArrives]);
  }

  /** What is still under way for chunk j when everything but chunk k's data and acks is left alone. */
  lemma OthersInFlight(c: Config, s: State, t: State, k: nat)
    requires AllInFlight(c, s) && t.snd == s.snd && t.queue == s.queue
    requires forall b <- s.toReceiver :: b in t.toReceiver || IsData(c, b, k)
    requires forall b <- s.toSender :: b in t.toSender
    requires HasAck(c, t, k)
    ensures AllInFlight(c, t)
  {
    forall j: nat | j < t.snd.nextSeq && j !in t.snd.acked
      ensures InFlight(c, t, j)
    {
      assert InFlight(c, s, j);
      if j != k && HasData(c, s, j) {
        var d :| d in s.toReceiver && IsData(c, d, j);
        assert d in t.toReceiver;
      } else if HasAck(c, s, j) {
        var d :| d in s.toSender && IsAck(c, d, j);
        assert d in t.toSender;
      }
    }
  }

  lemma DeliverInFlight(c: Config, s: State, b: seq<byte>, k: nat)
    requires c.Valid() && Inv(c, s) && DataWait(c, s) && AllInFlight(c, s) && b in s.toReceiver && IsData(c, b, k)
    ensures var t := Step(c, s, Deliver(b));
      Inv(c, t) && DataWait(c, t) && AllInFlight(c, t) && t.snd == s.snd && t.queue == s.queue && HasAck(c, t, k)
  {
    var t := Step(c, s, Deliver(b));
    StepKeepsInv(c, s, Deliver(b));
    assert HonestToReceiver(c, s, b);
    ChunkNumberFits(c, k);
    var ack := EncodeAck(c.transport, k);
    assert t.toSender == s.toSender + multiset([ack]);
    assert ack in t.toSender && IsAck(c, ack, k);
    assert t.toReceiver == s.toReceiver - multiset{b};
    OthersInFlight(c, s, t, k);
  }

  lemma ReadInFlight(c: Config, s: State, b: seq<byte>, k: nat)
    requires c.Valid() && Inv(c, s) && DataWait(c, s) && AllInFlight(c, s) && s.queue == []
    requires b in s.toSender && IsAck(c, b, k)
    ensures var t := Step(c, s, ReadReply(b));
      Inv(c, t) && DataWait(c, t) && AllInFlight(c, t) && t.snd == s.snd && t.queue == [k]
  {
    var t := Step(c, s, ReadReply(b));
    StepKeepsInv(c, s, ReadReply(b));
    forall j: nat | j < t.snd.nextSeq && j !in t.snd.acked
      ensures InFlight(c, t, j)
    {
      assert InFlight(c, s, j);
      if j != k && HasAck(c, s, j) {
        var d :| d in s.toSender && IsAck(c, d, j);
        assert d in t.toSender;
      } else if HasData(c, s, j) {
        var d :| d in s.toReceiver && IsData(c, d, j);
        assert d in t.toReceiver;
      }
    }
  }

  lemma TakeInFlight(c: Config, s: State, k: nat)
    requires c.Valid() && c.Total() <= SENTINEL && Inv(c, s) && DataWait(c, s) && AllInFlight(c, s)
    requires s.queue != [] && s.queue[0] == k
    ensures var t := Step(c, s, AckArrives);
      Inv(c, t) && t.phase.Sending? && AllInFlight(c, t) && t.queue == s.queue[1..]
      && t.snd.acked == s.snd.acked + {k} && t.snd.nextSeq == s.snd.nextSeq
  {
    var t := Step(c, s, AckArrives);
    StepKeepsInv(c, s, AckArrives);
    assert HonestInQueue(c, s, s.queue[0]);
    forall j: nat | j < t.snd.nextSeq && j !in t.snd.acked
      ensures InFlight(c, t, j)
    {
      assert InFlight(c, s, j);
      if HasData(c, s, j) {
        var d :| d in s.toReceiver && IsData(c, d, j);
        assert d in t.toReceiver;
      } else if HasAck(c, s, j) {
        var d :| d in s.toSender && IsAck(c, d, j);
        assert d in t.toSender;
      }
    }
  }

  lemma UnackedExists(c: Config, s: State) returns (k: nat)
    requires Inv(c, s) && DataWait(c, s)
    ensures k < s.snd.nextSeq && k !in s.snd.acked
  {
    BelowSize(s.snd.acked, s.snd.nextSeq);
    assert s.snd.acked != Upto(s.snd.nextSeq);
    k :| k in Upto(s.snd.nextSeq) && k !in s.snd.acked;
  }

  lemma {:induction false} AckEverything(c: Config, s: State) returns (run: seq<Action>)
    requires c.Valid() && c.Total() <= SENTINEL && Inv(c, s) && s.phase.Sending? && AllInFlight(c, s)
    ensures var t := Exec(c, s, run); Inv(c, t) && t.phase.Sending? && AllAcked(c, t)
    decreases c.Total() - |s.snd.acked|, c.Total() - s.snd.nextSeq, |s.queue|
  {
    BelowSize(s.snd.acked, c.Total());
    if |s.snd.acked| == c.Total() {
      run := [];
    } else if WindowOpen(c, s.snd) {
      var t := Step(c, s, SendChunk);
      StepKeepsInv(c, s, SendChunk);
      SendPutsInFlight(c, s);
      forall k: nat | k < t.snd.nextSeq && k !in t.snd.acked
        ensures InFlight(c, t, k)
      {
        if k < s.snd.nextSeq {
          SendKeepsInFlight(c, s, k);
        }
      }
      var rest := AckEverything(c, t);
      ExecOne(c, s, SendChunk, rest);
      run := [SendChunk] + rest;
    } else if s.queue != [] {
      var t := Step(c, s, AckArrives);
      TakeInFlight(c, s, s.queue[0]);
      SubsetSize(s.snd.acked, t.snd.acked);
      var rest := AckEverything(c, t);
      ExecOne(c, s, AckArrives, rest);
      run := [AckArrives] + rest;
    } else {
      var k := UnackedExists(c, s);
      var first := AckOne(c, s, k);
      var rest := AckEverything(c, Exec(c, s, first));
      ExecJoin(c, s, first, rest);
      run := first + rest;
    }
  }

  /** Sending out the window, then one timeout, puts everything unacked in flight again, provided
      nothing below the scan is stranded. */
  lemma {:induction false} PutAllInFlight(c: Config, s: State) returns (run: seq<Action>)
    requires c.Valid() && c.Total() <= SENTINEL && Inv(c, s) && s.phase.Sending? && NoneStranded(c, s)
    ensures var t := Exec(c, s, run); Inv(c, t) && t.phase.Sending? && AllInFlight(c, t)
    decreases c.Total() - s.snd.nextSeq
  {
    BelowSize(s.snd.acked, c.Total());
    if |s.snd.acked| == c.Total() {
      run := [];
    } else if WindowOpen(c, s.snd) {
      var t := Step(c, s, SendChunk);
      StepKeepsInv(c, s, SendChunk);
      forall k: nat
        ensures !Stranded(c, t, k)
      {
        assert !Stranded(c, s, k);
        if InFlight(c, s, k) {
          SendKeepsInFlight(c, s, k);
        }
      }
      var rest := PutAllInFlight(c, t);
      ExecOne(c, s, SendChunk, rest);
      run := [SendChunk] + rest;
    } else {
      var due := Upto(c.Total());
      var t := Step(c, s, AckTimeout(due));
      StepKeepsInv(c, s, AckTimeout(due));
      forall k: nat | k < t.snd.nextSeq && k !in t.snd.acked
        ensures InFlight(c, t, k)
      {
        TimeoutInFlight(c, s, due, k);
      }
      ExecOne(c, s, AckTimeout(due), []);
      run := [AckTimeout(due)];
    }
  }

  lemma TimeoutInFlight(c: Config, s: State, due: set<nat>, k: nat)
    requires c.Valid() && c.Total() <= SENTINEL && Inv(c, s) && DataWait(c, s) && NoneStranded(c, s)
    requires k < s.snd.nextSeq && k !in s.snd.acked && k in due
    ensures InFlight(c, Step(c, s, AckTimeout(due)), k)
  {
    var t := Step(c, s, AckTimeout(due));
    if k < |s.snd.acked| {
      assert !Stranded(c, s, k);
      if HasData(c, s, k) {
        var d :| d in s.toReceiver && IsData(c, d, k);
        assert d in t.toReceiver;
      }
    } else {
      var b := c.DataPacket(k);
      assert SentAgain(s.snd, due, k);
      ResendsAre(c, s.snd, due, |s.snd.acked|, b);
      DataPacketFrame(c, k);
      assert b in t.toReceiver && IsData(c, b, k);
    }
  }

  /** A transfer in its data loop can still have every chunk acked exactly when no chunk is stranded
      and no chunk carries the sentinel's number. */
  lemma CanAckAllIff(c: Config, run: seq<Action>)
    requires c.Valid() && After(c, run).phase.Sending?
    ensures (exists more :: AllAcked(c, Exec(c, After(c, run), more)))
            <==> NoneStranded(c, After(c, run)) && c.Total() <= SENTINEL
  {
    var s := After(c, run);
    if NoneStranded(c, s) && c.Total() <= SENTINEL {
      var first := PutAllInFlight(c, s);
      var rest := AckEverything(c, Exec(c, s, first));
      ExecJoin(c, s, first, rest);
      assert AllAcked(c, Exec(c, s, first + rest));
    }
    forall more | AllAcked(c, Exec(c, s, more))
      ensures NoneStranded(c, s) && c.Total() <= SENTINEL
    {
      RunKeepsInv(c, s, more);
      UptoSize(c.Total());
      forall k: nat
        ensures !Stranded(c, s, k)
      {
        if Stranded(c, s, k) {
          StrandedForever(c, s, more, k);
        }
      }
    }
  }

  predicate Delivered(c: Config, s: State) { s.phase.Finished? && s.rcv.done && s.rcv.buf == c.file }

  lemma ReceivedAll(c: Config, s: State)
    requires c.Valid() && c.expected == |c.file| && Inv(c, s) && AllAcked(c, s)
    ensures |s.rcv.received| >= NumChunks(c.expected)
  {
    forall k | k in Upto(c.Total())
      ensures k in s.rcv.received
    {
      assert Handled(c, s.rcv, k);
    }
    UptoSize(c.Total());
    SubsetSize(Upto(c.Total()), s.rcv.received);
  }

  lemma FirstFinArrives(c: Config, s: State) returns (t: State)
    requires c.Valid() && s.phase.Finishing? && !s.phase.waiting && |s.rcv.received| >= NumChunks(c.expected)
    ensures t == Step(c, Step(c, s, SendFin), Deliver(EncodeFin(c.transport)))
    ensures t.phase.Finishing? && t.rcv.done
  {
    var fin := EncodeFin(c.transport);
    var s1 := Step(c, s, SendFin);
    assert fin in s1.toReceiver;
    assert ReceiverFrame(c.transport, fin) == Fin;
    t := Step(c, s1, Deliver(fin));
  }

  /** A FIN that reaches a receiver in its loop is answered, whether or not the file is complete, by a
      datagram that the sender takes for the FIN-ACK. */
  lemma FinAnswered(c: Config, s: State, fin: seq<byte>)
    requires c.Valid() && !s.rcv.done && fin in s.toReceiver && ReceiverFrame(c.transport, fin) == Fin
    ensures var t := Step(c, s, Deliver(fin)); var b := EncodeFinAck(c.transport);
      && SenderFrame(c.transport, b) == FinAck
      && t.toSender == s.toSender + multiset{b}
  {
    var b := EncodeFinAck(c.transport);
    assert multiset([b]) == multiset{b};
  }

  /** Old acks that are still queued when the FIN phase starts only cost a FIN each. */
  lemma {:induction false} DrainQueue(c: Config, s: State) returns (run: seq<Action>)
    requires c.Valid() && s.phase == Finishing(false, 0) && forall q <- s.queue :: q != SENTINEL
    ensures forall a <- run :: !a.FinTimeout?
    ensures var t := Exec(c, s, run);
      t.phase == s.phase && t.queue == [] && t.rcv == s.rcv && t.reading == s.reading && s.toReceiver <= t.toReceiver
    decreases |s.queue|
  {
    if s.queue == [] {
      run := [];
    } else {
      assert s.queue[0] in s.queue;
      var s1 := Step(c, s, SendFin);
      var s2 := Step(c, s1, FinAckArrives);
      assert s2.queue == s.queue[1..] && forall q <- s.queue[1..] :: q in s.queue;
      var rest := DrainQueue(c, s2);
      ExecOne(c, s, SendFin, [FinAckArrives] + rest);
      ExecOne(c, s1, FinAckArrives, rest);
      run := [SendFin] + ([FinAckArrives] + rest);
    }
  }

  lemma FinDelivered(c: Config, s: State)
    requires c.Valid() && s.phase == Finishing(false, 0) && s.queue == [] && s.reading && !s.rcv.done
    requires |s.rcv.received| >= NumChunks(c.expected)
    ensures var t := Step(c, Step(c, s, SendFin), Deliver(EncodeFin(c.transport)));
      t.phase == Finishing(true, 0) && t.queue == [] && t.reading && t.rcv.done && EncodeFinAck(c.transport) in t.toSender
  {
    var fin := EncodeFin(c.transport);
    var s1 := Step(c, s, SendFin);
    assert ReceiverFrame(c.transport, fin) == Fin && fin in s1.toReceiver;
    FinAnswered(c, s1, fin);
  }

  lemma FinAckTaken(c: Config, s: State)
    requires c.Valid() && s.phase == Finishing(true, 0) && s.queue == [] && s.reading && s.rcv.done
    requires EncodeFinAck(c.transport) in s.toSender
    ensures var t := Step(c, Step(c, s, ReadReply(EncodeFinAck(c.transport))), FinAckArrives);
      t.phase.Finished? && t.rcv.done
  {
    var s1 := Step(c, s, ReadReply(EncodeFinAck(c.transport)));
    assert s1.queue == [SENTINEL];
  }

  /** One FIN and its answer end both sides. */
  lemma FinRoundTrip(c: Config, s: State) returns (run: seq<Action>)
    requires c.Valid() && s.phase == Finishing(false, 0) && s.queue == [] && s.reading && !s.rcv.done
    requires |s.rcv.received| >= NumChunks(c.expected)
    ensures forall a <- run :: !a.FinTimeout?
    ensures Exec(c, s, run).phase.Finished? && Exec(c, s, run).rcv.done
  {
    var deliver, read := Deliver(EncodeFin(c.transport)), ReadReply(EncodeFinAck(c.transport));
    FinDelivered(c, s);
    var s2 := Step(c, Step(c, s, SendFin), deliver);
    FinAckTaken(c, s2);
    run := [SendFin] + ([deliver] + ([read] + ([FinAckArrives] + [])));
    ExecThree(c, s, SendFin, deliver, read, [FinAckArrives] + []);
    ExecOne(c, Step(c, s2, read), FinAckArrives, []);
  }

  /** Once every chunk is acked, no further timeout is needed: a FIN that arrives and the FIN-ACK that
      answers it end the receiver and the sender. */
  lemma FinishFromAllAcked(c: Config, s: State) returns (run: seq<Action>)
    requires c.Valid() && c.expected == |c.file| && Inv(c, s) && s.phase.Sending? && AllAcked(c, s)
    ensures forall a <- run :: !a.FinTimeout?
    ensures Exec(c, s, run).phase.Finished? && Exec(c, s, run).rcv.done
  {
    UptoSize(c.Total());
    ReceivedAll(c, s);
    OnlyOldAcks(c, s);
    var s1 := Step(c, s, LeaveDataLoop);
    var drain := DrainQueue(c, s1);
    var fin := FinRoundTrip(c, Exec(c, s1, drain));
    ExecJoin(c, s1, drain, fin);
    ExecOne(c, s, LeaveDataLoop, drain + fin);
    run := [LeaveDataLoop] + (drain + fin);
  }

  lemma OnlyOldAcks(c: Config, s: State)
    requires c.Valid() && Inv(c, s) && s.phase.Sending? && AllAcked(c, s)
    ensures forall q <- s.queue :: q != SENTINEL
  {
    assert SENTINEL !in Upto(c.Total());
    forall q | q in s.queue
      ensures q != SENTINEL
    {
      var i :| 0 <= i < |s.queue| && s.queue[i] == q;
      assert HonestInQueue(c, s, s.queue[i]);
    }
  }

  /** One FIN that arrives is enough even when no FIN-ACK ever comes back: the sender gives up waiting
      after its attempts and reports success all the same. */
  lemma FinishUnanswered(c: Config, s: State) returns (run: seq<Action>)
    requires c.Valid() && c.expected == |c.file| && Inv(c, s) && s.phase.Sending? && AllAcked(c, s)
    ensures forall a <- run :: !a.ReadReply? && !a.FinAckArrives?
    ensures Exec(c, s, run).phase.Finished? && Exec(c, s, run).rcv.done
  {
    var deliver := Deliver(EncodeFin(c.transport));
    UptoSize(c.Total());
    var s1 := Step(c, s, LeaveDataLoop);
    ReceivedAll(c, s);
    var s3 := FirstFinArrives(c, s1);
    var rest := GiveUpWaiting(c, s3);
    run := [LeaveDataLoop] + ([SendFin] + ([deliver] + rest));
    ExecThree(c, s, LeaveDataLoop, SendFin, deliver, rest);
  }

  lemma ExecThree(c: Config, s: State, a: Action, b: Action, d: Action, rest: seq<Action>)
    requires c.Valid()
    ensures Exec(c, s, [a] + ([b] + ([d] + rest))) == Exec(c, Step(c, Step(c, Step(c, s, a), b), d), rest)
  {
    ExecOne(c, s, a, [b] + ([d] + rest));
    ExecOne(c, Step(c, s, a), b, [d] + rest);
    ExecOne(c, Step(c, Step(c, s, a), b), d, rest);
  }

  lemma {:induction false} GiveUpWaiting(c: Config, s: State) returns (run: seq<Action>)
    requires c.Valid() && s.phase.Finishing? && s.rcv.done
    ensures forall a <- run :: !a.ReadReply? && !a.FinAckArrives?
    ensures Exec(c, s, run).phase.Finished? && Exec(c, s, run).rcv.done
    decreases MAX_ATTEMPTS - s.phase.attempts, !s.phase.waiting
  {
    if s.phase.waiting {
      var t := Step(c, s, FinTimeout);
      if t.phase.Finished? {
        ExecOne(c, s, FinTimeout, []);
        run := [FinTimeout];
      } else {
        var rest := GiveUpWaiting(c, t);
        ExecOne(c, s, FinTimeout, rest);
        run := [FinTimeout] + rest;
      }
    } else {
      var t := Step(c, s, SendFin);
      var rest := GiveUpWaiting(c, t);
      ExecOne(c, s, SendFin, rest);
      run := [SendFin] + rest;
    }
  }

  /** With the right size and fewer chunks than the sentinel, a transfer in its data loop can still
      deliver the file exactly when no chunk is stranded. */
  lemma CanDeliverIff(c: Config, run: seq<Action>)
    requires c.Valid() && c.expected == |c.file| && c.Total() <= SENTINEL && After(c, run).phase.Sending?
    ensures (exists more :: Delivered(c, Exec(c, After(c, run), more))) <==> NoneStranded(c, After(c, run))
  {
    var s := After(c, run);
    CanAckAllIff(c, run);
    if NoneStranded(c, s) {
      var first :| AllAcked(c, Exec(c, s, first));
      var put := PutAllInFlight(c, s);
      var ack := AckEverything(c, Exec(c, s, put));
      ExecJoin(c, s, put, ack);
      var acked := Exec(c, s, put + ack);
      var fin := FinishFromAllAcked(c, acked);
      ExecJoin(c, s, put + ack, fin);
      ExecJoin(c, Init(c), run, put + ack + fin);
      SavedFile(c, run + (put + ack + fin));
      assert Delivered(c, Exec(c, s, put + ack + fin));
    }
    forall more | Delivered(c, Exec(c, s, more))
      ensures NoneStranded(c, s)
    {
      RunKeepsInv(c, s, more);
      forall k: nat
        ensures !Stranded(c, s, k)
      {
        if Stranded(c, s, k) {
          StrandedForever(c, s, more, k);
        }
      }
    }
  }
}
