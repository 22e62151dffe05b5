/** What the invariant says to a caller: the saved file, the order acked - received - sent, the
    window arithmetic, and the progress figures, each in every run. */
module TransferTheorems {
  import opened Bytes
  import opened Wire
  import opened Chunks
  import opened Counting
  import opened Endpoints
  import opened Transfer
  import opened TransferSafety

  /** The state after `run`, from the start. */
  function After(c: Config, run: seq<Action>): (s: State)
    requires c.Valid()
    ensures Inv(c, s)
  {
    InitInv(c);
    RunKeepsInv(c, Init(c), run);
    Exec(c, Init(c), run)
  }

  lemma ReceivedFit(c: Config, s: State)
    requires c.Valid() && Inv(c, s)
    ensures s.rcv.received <= Upto(NumChunks(c.expected))
    ensures s.rcv.received <= Upto(s.snd.nextSeq)
    ensures |s.rcv.received| <= NumChunks(c.expected)
  {
    forall k | k in s.rcv.received
      ensures k < NumChunks(c.expected)
    {
      assert |Chunk(c.file, k)| > 0;
    }
    BelowSize(s.rcv.received, NumChunks(c.expected));
  }

  /** "As many chunks" is "all the chunks" is "all the bytes": whenever the receiver has left its
      loop, the buffer it saves is the file resized to the expected size, so it is the file exactly
      when the receiver was told the right size. */
  lemma SavedFile(c: Config, run: seq<Action>)
    requires c.Valid() && After(c, run).rcv.done
    ensures After(c, run).rcv.buf == Resized(c.file, c.expected)
    ensures After(c, run).rcv.buf == c.file <==> c.expected == |c.file|
  {
    var s := After(c, run);
    var n := NumChunks(c.expected);
    ReceivedFit(c, s);
    BelowSize(s.rcv.received, n);
    forall i | 0 <= i < c.expected
      ensures s.rcv.buf[i] == Resized(c.file, c.expected)[i]
    {
      assert i / CHUNK_SIZE in Upto(n);
      assert s.rcv.buf[i] == ByteAt(c, s.rcv.received, i);
    }
  }

  /** Told the right size, a transfer keeps acked, received and sent chunks nested at every step,
      and the buffer equal to the file on every received chunk. */
  lemma AckedReceivedSent(c: Config, run: seq<Action>)
    requires c.Valid() && c.expected == |c.file|
    ensures var s := After(c, run);
      && s.snd.acked <= s.rcv.received <= Upto(s.snd.nextSeq) <= Upto(c.Total())
      && |s.rcv.buf| == |c.file|
      && forall k <- s.rcv.received ::
           k < c.Total() && s.rcv.buf[k * CHUNK_SIZE..ChunkEnd(|c.file|, k)] == Chunk(c.file, k)
  {
    var s := After(c, run);
    ReceivedFit(c, s);
    forall k | k in s.snd.acked
      ensures k in s.rcv.received
    {
      assert Handled(c, s.rcv, k);
    }
    forall k | k in s.rcv.received
      ensures k < c.Total() && s.rcv.buf[k * CHUNK_SIZE..ChunkEnd(|c.file|, k)] == Chunk(c.file, k)
    {
      var chunk := Chunk(c.file, k);
      forall i | 0 <= i < |chunk|
        ensures s.rcv.buf[k * CHUNK_SIZE..ChunkEnd(|c.file|, k)][i] == chunk[i]
      {
        assert s.rcv.buf[k * CHUNK_SIZE + i] == ByteAt(c, s.rcv.received, k * CHUNK_SIZE + i);
      }
    }
  }

  /** The chunks that fit the receiver's buffer. */
  function FittingChunks(c: Config): set<nat> {
    set k <- Upto(c.Total()) | c.Fits(k)
  }

  /** In its FIN phase the sender knows that the receiver has dealt with every chunk. */
  lemma FinMeansReceived(c: Config, run: seq<Action>)
    requires c.Valid() && c.Total() <= SENTINEL && FinPhase(After(c, run).phase)
    ensures After(c, run).rcv.received == FittingChunks(c)
    ensures c.expected == |c.file| ==> After(c, run).rcv.received == Upto(c.Total())
  {
    var s := After(c, run);
    BelowSize(s.snd.acked, c.Total());
    forall k: nat | k < c.Total() && c.Fits(k)
      ensures k in s.rcv.received
    {
      assert k in s.snd.acked;
      assert Handled(c, s.rcv, k);
    }
  }

  lemma FittingCount(c: Config)
    requires c.Valid()
    ensures |FittingChunks(c)| >= NumChunks(c.expected) <==>
      if c.expected >= |c.file| then NumChunks(c.expected) == c.Total() else c.expected % CHUNK_SIZE == 0
  {
    var n := if c.expected >= |c.file| then c.Total() else c.expected / CHUNK_SIZE;
    assert FittingChunks(c) == Upto(n);
    UptoSize(n);
  }

  lemma DeliverFin(c: Config, s: State, fin: seq<byte>)
    requires c.Valid() && fin in s.toReceiver && ReceiverFrame(c.transport, fin) == Fin
    ensures Exec(c, s, [Deliver(fin)]).rcv.done <==> s.rcv.done || |s.rcv.received| >= NumChunks(c.expected)
  {
    assert [Deliver(fin)][1..] == [];
    assert Exec(c, s, [Deliver(fin)]) == Exec(c, Step(c, s, Deliver(fin)), []);
  }

  /** The first FIN delivered ends the receiver exactly when the expected size has as many chunks
      as fit: when it is right, when only the zero padding of the last chunk differs, or when it
      cuts the file at a chunk boundary. With the right size the saved buffer is the file. */
  lemma FinEndsReceiver(c: Config, run: seq<Action>, fin: seq<byte>)
    requires c.Valid() && c.Total() <= SENTINEL
    requires fin in After(c, run).toReceiver && ReceiverFrame(c.transport, fin) == Fin
    ensures
      Exec(c, After(c, run), [Deliver(fin)]).rcv.done <==>
      After(c, run).rcv.done ||
      (if c.expected >= |c.file| then NumChunks(c.expected) == c.Total() else c.expected % CHUNK_SIZE == 0)
    ensures c.expected == |c.file| ==>
      Exec(c, After(c, run), [Deliver(fin)]).rcv.done && Exec(c, After(c, run), [Deliver(fin)]).rcv.buf == c.file
  {
    var s := After(c, run);
    assert HonestToReceiver(c, s, fin);
    FinMeansReceived(c, run);
    FittingCount(c);
    DeliverFin(c, s, fin);
    if c.expected == |c.file| {
      ExecJoin(c, Init(c), run, [Deliver(fin)]);
      SavedFile(c, run + [Deliver(fin)]);
    }
  }

  /** The window never underflows, grows at most with the acks, and never falls under four; every
      transmission is a first one or a counted retransmission, so the loss stays below the whole. */
  lemma WindowBounds(c: Config, run: seq<Action>)
    requires c.Valid()
    ensures var s := After(c, run).snd;
      && |s.acked| <= s.nextSeq <= 2 * |s.acked| + c.transport.InitialWindow()
      && 4 <= s.cwnd <= c.transport.InitialWindow() + |s.acked|
      && s.totalSent == s.nextSeq + s.retransmits
      && (s.nextSeq > 0 ==> s.retransmits < s.totalSent)
  {
    BelowSize(After(c, run).snd.acked, After(c, run).snd.nextSeq);
  }

  predicate AttemptsOk(p: Phase) { p.Handshaking? || p.Finishing? ==> p.attempts < MAX_ATTEMPTS }

  lemma AttemptsStep(c: Config, s: State, a: Action)
    requires c.Valid() && AttemptsOk(s.phase)
    ensures AttemptsOk(Step(c, s, a).phase)
  {
  }

  lemma QueueStep(c: Config, s: State, a: Action)
    requires c.Valid() && |s.queue| <= c.transport.AckQueueCapacity()
    ensures |Step(c, s, a).queue| <= c.transport.AckQueueCapacity()
  {
  }

  /** In every run fewer than five timeouts have passed in a phase that is still waiting, and the ack
      queue never exceeds its capacity. */
  lemma {:induction false} CountersBounded(c: Config, s: State, run: seq<Action>)
    requires c.Valid() && AttemptsOk(s.phase) && |s.queue| <= c.transport.AckQueueCapacity()
    ensures AttemptsOk(Exec(c, s, run).phase) && |Exec(c, s, run).queue| <= c.transport.AckQueueCapacity()
    decreases |run|
  {
    if run != [] {
      AttemptsStep(c, s, run[0]);
      QueueStep(c, s, run[0]);
      CountersBounded(c, Step(c, s, run[0]), run[1..]);
    }
  }

  /** n handshake requests, none of them answered in time. */
  function Unanswered(n: nat): seq<Action> {
    if n == 0 then [] else Unanswered(n - 1) + ([SendHandshake] + ([HandshakeTimeout] + []))
  }

  lemma OneUnanswered(c: Config, s: State, n: nat)
    requires c.Valid() && n < MAX_ATTEMPTS && s.phase == Handshaking(false, n)
    ensures var t := Exec(c, s, [SendHandshake] + ([HandshakeTimeout] + []));
      t.phase == (if n + 1 < MAX_ATTEMPTS then Handshaking(false, n + 1) else Failed) && t.snd == s.snd
  {
    ExecOne(c, s, SendHandshake, [HandshakeTimeout] + []);
    ExecOne(c, Step(c, s, SendHandshake), HandshakeTimeout, []);
  }

  /** The handshake fails at the fifth timeout and not before. */
  lemma {:induction false} HandshakeGivesUp(c: Config, n: nat, s: State)
    requires c.Valid() && n <= MAX_ATTEMPTS && s == Exec(c, Init(c), Unanswered(n))
    ensures s.phase == if n < MAX_ATTEMPTS then Handshaking(false, n) else Failed
    ensures s.snd == InitSender(c)
    decreases n
  {
    if n > 0 {
      var before := Exec(c, Init(c), Unanswered(n - 1));
      HandshakeGivesUp(c, n - 1, before);
      OneUnanswered(c, before, n - 1);
      ExecJoin(c, Init(c), Unanswered(n - 1), [SendHandshake] + ([HandshakeTimeout] + []));
    }
  }

  predicate NoAttemptSpent(p: Phase) { !p.Failed? && (p.Handshaking? || p.Finishing? ==> p.attempts == 0) }

  /** Only a timeout spends an attempt: stray datagrams during the handshake and old acks during the
      FIN phase cost none, however many there are. */
  lemma {:induction false} OnlyTimeoutsCount(c: Config, s: State, run: seq<Action>)
    requires c.Valid() && NoAttemptSpent(s.phase)
    requires forall a <- run :: !a.HandshakeTimeout? && !a.FinTimeout?
    ensures NoAttemptSpent(Exec(c, s, run).phase)
    decreases |run|
  {
    if run != [] {
      assert run[0] in run;
      NoAttemptStep(c, s, run[0]);
      OnlyTimeoutsCount(c, Step(c, s, run[0]), run[1..]);
    }
  }

  lemma NoAttemptStep(c: Config, s: State, a: Action)
    requires c.Valid() && NoAttemptSpent(s.phase) && !a.HandshakeTimeout? && !a.FinTimeout?
    ensures NoAttemptSpent(Step(c, s, a).phase)
  {
  }

  /** The reader puts one FIN-ACK on the queue and ends: from then on the queue only gets shorter. */
  lemma {:induction false} ReaderEnds(c: Config, s: State, b: seq<byte>, run: seq<Action>)
    requires c.Valid() && ReaderRuns(s) && b in s.toSender && SenderFrame(c.transport, b) == FinAck
    requires |s.queue| < c.transport.AckQueueCapacity()
    ensures var t := Step(c, s, ReadReply(b));
      && t.queue == s.queue + [SENTINEL] && !t.reading
      && !Exec(c, t, run).reading && |Exec(c, t, run).queue| <= |t.queue|
  {
    ReaderEnded(c, Step(c, s, ReadReply(b)), run);
  }

  lemma {:induction false} ReaderEnded(c: Config, s: State, run: seq<Action>)
    requires c.Valid() && !s.reading
    ensures !Exec(c, s, run).reading && |Exec(c, s, run).queue| <= |s.queue|
    decreases |run|
  {
    if run != [] {
      ReaderEndedStep(c, s, run[0]);
      ReaderEnded(c, Step(c, s, run[0]), run[1..]);
    }
  }

  lemma ReaderEndedStep(c: Config, s: State, a: Action)
    requires c.Valid() && !s.reading
    ensures !Step(c, s, a).reading && |Step(c, s, a).queue| <= |s.queue|
  {
  }

  // ---------------------------------------------------------------- progress

  /** Bytes of the chunks below n that are in `chunks`. */
  function BytesIn(c: Config, chunks: set<nat>, n: nat): nat
    requires n <= c.Total()
  {
    if n == 0 then 0
    else BytesIn(c, chunks, n - 1) + if n - 1 in chunks then |Chunk(c.file, n - 1)| else 0
  }

  lemma OneMore(chunks: set<nat>, n: nat)
    ensures |chunks * Upto(n + 1)| == |chunks * Upto(n)| + if n in chunks then 1 else 0
  {
    assert n !in Upto(n);
    if n in chunks {
      assert chunks * Upto(n + 1) == chunks * Upto(n) + {n};
    } else {
      assert chunks * Upto(n + 1) == chunks * Upto(n);
    }
  }

  lemma FullChunk(c: Config, k: nat)
    requires k + 1 < c.Total()
    ensures |Chunk(c.file, k)| == CHUNK_SIZE
  {
  }

  /** All chunks but the last are full, so they count CHUNK_SIZE bytes each. */
  lemma {:induction false} BytesInFull(c: Config, chunks: set<nat>, n: nat)
    requires n < c.Total()
    ensures BytesIn(c, chunks, n) == |chunks * Upto(n)| * CHUNK_SIZE
  {
    if n > 0 {
      BytesInFull(c, chunks, n - 1);
      FullChunk(c, n - 1);
      OneMore(chunks, n - 1);
    } else {
      assert chunks * Upto(0) == {};
    }
  }

  lemma CountWithLast(chunks: set<nat>, last: nat)
    requires chunks <= Upto(last + 1)
    ensures |chunks| == |chunks * Upto(last)| + if last in chunks then 1 else 0
  {
    OneMore(chunks, last);
    assert chunks * Upto(last + 1) == chunks;
  }

  /** Bytes by which the last chunk falls short of a full one. */
  function Shortfall(c: Config): nat { c.Total() * CHUNK_SIZE - |c.file| }

  lemma LastChunk(c: Config, chunks: set<nat>)
    requires c.file != []
    ensures BytesIn(c, chunks, c.Total()) ==
      BytesIn(c, chunks, c.Total() - 1) + if c.Total() - 1 in chunks then CHUNK_SIZE - Shortfall(c) else 0
  {
    assert |Chunk(c.file, c.Total() - 1)| == CHUNK_SIZE - Shortfall(c);
  }

  lemma BytesInAll(c: Config, chunks: set<nat>)
    requires c.file != [] && chunks <= Upto(c.Total())
    ensures BytesIn(c, chunks, c.Total()) ==
      |chunks| * CHUNK_SIZE - (if c.Total() - 1 in chunks then Shortfall(c) else 0)
  {
    BytesInFull(c, chunks, c.Total() - 1);
    CountWithLast(chunks, c.Total() - 1);
    LastChunk(c, chunks);
  }

  /** The sender's progress figure never falls short of the acked bytes, exceeds them by less than a
      chunk, and reaches the file size exactly when every chunk is acked. */
  lemma SenderProgressTruthful(c: Config, run: seq<Action>)
    requires c.Valid() && c.file != []
    ensures var s := After(c, run).snd;
      && BytesIn(c, s.acked, c.Total()) <= SenderProgress(c, s) < BytesIn(c, s.acked, c.Total()) + CHUNK_SIZE
      && (SenderProgress(c, s) == |c.file| <==> s.acked == Upto(c.Total()))
  {
    var s := After(c, run).snd;
    BelowSize(s.acked, c.Total());
    BytesInAll(c, s.acked);
  }

  /** The receiver's uncapped figure reaches the file size under the same condition, and is past it
      by less than a chunk. */
  lemma ReceiverProgressTruthful(c: Config, run: seq<Action>)
    requires c.Valid() && c.file != [] && c.expected == |c.file|
    ensures var r := After(c, run).rcv;
      && BytesIn(c, r.received, c.Total()) <= ReceiverProgress(r) < BytesIn(c, r.received, c.Total()) + CHUNK_SIZE
      && ReceiverProgress(r) < |c.file| + CHUNK_SIZE
      && (ReceiverProgress(r) >= |c.file| <==> r.received == Upto(c.Total()))
  {
    var r := After(c, run).rcv;
    ReceivedFit(c, After(c, run));
    BelowSize(r.received, c.Total());
    BytesInAll(c, r.received);
  }

  /** Acks and received chunks are never forgotten, so neither figure ever falls. */
  lemma {:induction false} ProgressNeverFalls(c: Config, s: State, run: seq<Action>)
    requires c.Valid()
    ensures var t := Exec(c, s, run);
      && s.snd.acked <= t.snd.acked && s.rcv.received <= t.rcv.received
      && SenderProgress(c, s.snd) <= SenderProgress(c, t.snd)
      && ReceiverProgress(s.rcv) <= ReceiverProgress(t.rcv)
    decreases |run|
  {
    if run != [] {
      var s' := Step(c, s, run[0]);
      StepForgetsNothing(c, s, run[0]);
      SubsetSize(s.snd.acked, s'.snd.acked);
      SubsetSize(s.rcv.received, s'.rcv.received);
      ProgressNeverFalls(c, s', run[1..]);
    }
  }

  lemma StepForgetsNothing(c: Config, s: State, a: Action)
    requires c.Valid()
    ensures s.snd.acked <= Step(c, s, a).snd.acked
    ensures s.rcv.received <= Step(c, s, a).rcv.received
  {
    if !a.Deliver? {
      assert Step(c, s, a).rcv == s.rcv;
    }
  }
}
