/** The two ends of a file transfer: the sender's window and retransmission scan, and the receiver's
    reassembly buffer. Each is a value with a step function, and a class whose methods update its
    fields in place and are proved to follow that function. */
module Endpoints {
  import opened Bytes
  import opened Wire
  import opened Chunks

  /** A transfer: the sender's file, the size the receiver was told, and the transport in use. */
  datatype Config = Config(file: seq<byte>, expected: nat, transport: Transport)
  {
    /** Lengths are lengths of byte vectors, which stay below 2^63. */
    predicate Valid() {
      transport.Valid() && |file| < 0x8000_0000_0000_0000 && expected < 0x8000_0000_0000_0000
    }

    function Total(): nat { NumChunks(|file|) }

    /** Chunk k lies wholly inside the receiver's buffer. */
    predicate Fits(k: nat)
      requires k < Total()
    {
      ChunkEnd(|file|, k) <= expected
    }

    function DataPacket(k: nat): seq<byte>
      requires Valid() && k < Total()
    {
      EncodeData(transport, k, Chunk(file, k))
    }
  }

  /** The value the reader thread puts on the ack queue when a FIN-ACK arrives. */
  const SENTINEL := 99999999

  // ---------------------------------------------------------------- sender

  datatype SenderState = SenderState(
    nextSeq: nat,
    acked: set<nat>,
    cwnd: nat,
    retransmits: nat,
    totalSent: nat)

  function InitSender(c: Config): SenderState {
    SenderState(0, {}, c.transport.InitialWindow(), 0, 0)
  }

  predicate WindowOpen(c: Config, s: SenderState) {
    s.nextSeq < c.Total() && s.nextSeq - |s.acked| < s.cwnd
  }

  function SendNext(s: SenderState): SenderState {
    s.(nextSeq := s.nextSeq + 1, totalSent := s.totalSent + 1)
  }

  /** A new ack enters the set and opens the window by one; a repeated one changes nothing. */
  function TakeAck(s: SenderState, k: nat): SenderState {
    if k in s.acked then s else s.(acked := s.acked + {k}, cwnd := s.cwnd + 1)
  }

  /** Chunk k goes out again in a timeout scan; `due` are the chunks whose last transmission is at
      least the timeout ago. */
  predicate SentAgain(s: SenderState, due: set<nat>, k: nat) {
    |s.acked| <= k < s.nextSeq && k !in s.acked && k in due
  }

  /** The datagrams of the timeout scan from k on. The scan starts at the number of acks, not at
      the oldest missing chunk. */
  function Resends(c: Config, s: SenderState, due: set<nat>, k: nat): seq<seq<byte>>
    requires c.Valid() && s.nextSeq <= c.Total()
    decreases s.nextSeq - k
  {
    if k >= s.nextSeq then []
    else (if SentAgain(s, due, k) then [c.DataPacket(k)] else []) + Resends(c, s, due, k + 1)
  }

  lemma {:induction false} ResendsAre(c: Config, s: SenderState, due: set<nat>, k: nat, packet: seq<byte>)
    requires c.Valid() && s.nextSeq <= c.Total()
    ensures packet in Resends(c, s, due, k) <==>
      exists j: nat :: k <= j < c.Total() && SentAgain(s, due, j) && packet == c.DataPacket(j)
    decreases s.nextSeq - k
  {
    if k < s.nextSeq {
      ResendsAre(c, s, due, k + 1, packet);
      var rest := Resends(c, s, due, k + 1);
      if SentAgain(s, due, k) {
        assert packet in [c.DataPacket(k)] + rest <==> packet == c.DataPacket(k) || packet in rest;
      } else {
        assert Resends(c, s, due, k) == rest;
      }
    }
  }

  lemma Regroup<T>(s: seq<T>, x: T, rest: seq<T>)
    ensures s + ([x] + rest) == (s + [x]) + rest
  {}

  function Halved(cwnd: nat): nat { if cwnd / 2 > 4 then cwnd / 2 else 4 }

  function Timeout(c: Config, s: SenderState, due: set<nat>): SenderState
    requires c.Valid() && s.nextSeq <= c.Total()
  {
    var n := |Resends(c, s, due, |s.acked|)|;
    s.(retransmits := s.retransmits + n, totalSent := s.totalSent + n, cwnd := Halved(s.cwnd))
  }

  /** Bytes reported to the sender's progress callback. */
  function SenderProgress(c: Config, s: SenderState): nat {
    if |s.acked| * CHUNK_SIZE < |c.file| then |s.acked| * CHUNK_SIZE else |c.file|
  }

  class Sender {
    const c: Config
    var nextSeq: nat
    var acked: set<nat>
    var cwnd: nat
    var retransmits: nat
    var totalSent: nat

    constructor (c: Config)
      ensures this.c == c && State() == InitSender(c)
    {
      this.c := c;
      nextSeq, acked, cwnd := 0, {}, c.transport.InitialWindow();
      retransmits, totalSent := 0, 0;
    }

    ghost function State(): SenderState
      reads this
    {
      SenderState(nextSeq, acked, cwnd, retransmits, totalSent)
    }

    /** The datagram of chunk k, the same for a first transmission and a retransmission. */
    method BuildPacket(k: nat) returns (packet: seq<byte>)
      requires c.Valid() && k < c.Total()
      ensures packet == c.DataPacket(k)
    {
      var offset := k * CHUNK_SIZE;
      var end := if offset + CHUNK_SIZE < |c.file| then offset + CHUNK_SIZE else |c.file|;
      packet := EncodeData(c.transport, k, c.file[offset..end]);
    }

    /** The inner loop: send new chunks, in order and each once, until the window is closed. */
    method FillWindow() returns (sent: seq<seq<byte>>)
      requires c.Valid()
      modifies this
      ensures nextSeq == old(nextSeq) + |sent|
      ensures State() == old(State()).(nextSeq := nextSeq, totalSent := old(totalSent) + |sent|)
      ensures sent != [] ==> nextSeq <= c.Total() && nextSeq <= |acked| + cwnd
      ensures forall k {:trigger c.DataPacket(k)} :: old(nextSeq) <= k < nextSeq ==>
        sent[k - old(nextSeq)] == c.DataPacket(k)
      ensures !WindowOpen(c, State())
    {
      sent := [];
      while nextSeq < c.Total() && nextSeq - |acked| < cwnd
        invariant nextSeq == old(nextSeq) + |sent|
        invariant State() == old(State()).(nextSeq := nextSeq, totalSent := old(totalSent) + |sent|)
        invariant sent != [] ==> nextSeq <= c.Total() && nextSeq <= |acked| + cwnd
        invariant forall k {:trigger c.DataPacket(k)} :: old(nextSeq) <= k < nextSeq ==>
          sent[k - old(nextSeq)] == c.DataPacket(k)
        decreases c.Total() - nextSeq
      {
        var packet := BuildPacket(nextSeq);
        sent := sent + [packet];
        totalSent := totalSent + 1;
        nextSeq := nextSeq + 1;
      }
    }

    /** One value from the ack queue: either the stop signal or a chunk number. */
    method ReceiveAck(k: nat) returns (stop: bool)
      modifies this
      ensures stop == (k == SENTINEL)
      ensures State() == if stop then old(State()) else TakeAck(old(State()), k)
      ensures !stop ==> acked == old(acked) + {k} && cwnd == old(cwnd) + if k in old(acked) then 0 else 1
    {
      stop := k == SENTINEL;
      if !stop && k !in acked {
        acked := acked + {k};
        cwnd := cwnd + 1;
      }
    }

    /** The timeout branch: scan, send again what is due, halve the window. */
    method ScanTimeouts(due: set<nat>) returns (sent: seq<seq<byte>>)
      requires c.Valid() && nextSeq <= c.Total()
      modifies this
      ensures State() == Timeout(c, old(State()), due)
      ensures sent == Resends(c, old(State()), due, |old(acked)|)
      ensures nextSeq == old(nextSeq) && acked == old(acked)
      ensures retransmits == old(retransmits) + |sent| && totalSent == old(totalSent) + |sent|
      ensures cwnd >= 4 && (old(cwnd) >= 8 ==> 2 * cwnd == old(cwnd) - old(cwnd) % 2) && (old(cwnd) < 8 ==> cwnd == 4)
    {
      sent := [];
      var k := |acked|;
      ghost var before := State();
      ghost var all := Resends(c, before, due, k);
      while k < nextSeq
        invariant |acked| <= k
        invariant State() == before.(retransmits := retransmits, totalSent := totalSent)
        invariant sent + Resends(c, before, due, k) == all
        invariant retransmits == before.retransmits + |sent| && totalSent == before.totalSent + |sent|
        decreases nextSeq - k
      {
        if k !in acked && k in due {
          var packet := BuildPacket(k);
          Regroup(sent, packet, Resends(c, before, due, k + 1));
          sent := sent + [packet];
          retransmits := retransmits + 1;
          totalSent := totalSent + 1;
        } else {
          assert [] + Resends(c, before, due, k + 1) == Resends(c, before, due, k + 1);
        }
        k := k + 1;
      }
      assert sent + [] == sent;
      cwnd := if cwnd / 2 > 4 then cwnd / 2 else 4;
    }

    /** Retransmitted share of all packets; the caller multiplies by 100. */
    method LossRatio() returns (loss: real)
      ensures totalSent == 0 ==> loss == 0.0
      ensures totalSent > 0 ==> loss * totalSent as real == retransmits as real
    {
      loss := if totalSent > 0 then retransmits as real / totalSent as real else 0.0;
    }
  }

  // ---------------------------------------------------------------- receiver

  datatype ReceiverState = ReceiverState(buf: seq<byte>, received: set<nat>, done: bool)

  function InitReceiver(c: Config): ReceiverState { ReceiverState(Zeros(c.expected), {}, false) }

  /** The buffer with `payload` written at `offset`. */
  function Written(buf: seq<byte>, offset: nat, payload: seq<byte>): (b: seq<byte>)
    requires offset + |payload| <= |buf|
    ensures |b| == |buf|
    ensures forall i {:trigger b[i]} :: 0 <= i < |b| ==>
      b[i] == if offset <= i < offset + |payload| then payload[i - offset] else buf[i]
  {
    buf[..offset] + payload + buf[offset + |payload|..]
  }

  /** A chunk that lies inside the buffer is stored; any other is dropped. */
  function Store(r: ReceiverState, k: nat, payload: seq<byte>): ReceiverState {
    if k * CHUNK_SIZE + |payload| <= |r.buf|
    then r.(buf := Written(r.buf, k * CHUNK_SIZE, payload), received := r.received + {k})
    else r
  }

  /** One datagram: the new state and the reply datagrams. A stored or dropped chunk is acked alike;
      FIN ends the loop when at least as many chunks arrived as the expected size has. */
  function Receive(c: Config, r: ReceiverState, datagram: seq<byte>): (ReceiverState, seq<seq<byte>>) {
    match ReceiverFrame(c.transport, datagram)
    case HandshakeReq => (r, [EncodeHandshakeResp(c.transport)])
    case Data(k, payload) => (Store(r, k, payload), [EncodeAck(c.transport, k)])
    case Fin => (r.(done := |r.received| >= NumChunks(c.expected)), [EncodeFinAck(c.transport)])
    case _ => (r, [])
  }

  /** Bytes reported to the receiver's progress callback; not capped. */
  function ReceiverProgress(r: ReceiverState): nat { |r.received| * CHUNK_SIZE }

  class Receiver {
    const c: Config
    const fileBuf: array<byte>
    var received: set<nat>
    var done: bool

    constructor (c: Config)
      ensures this.c == c && fresh(fileBuf) && State() == InitReceiver(c)
    {
      this.c := c;
      fileBuf := new byte[c.expected](_ => 0);
      received, done := {}, false;
    }

    ghost function State(): ReceiverState
      reads this, fileBuf
    {
      ReceiverState(fileBuf[..], received, done)
    }

    /** One turn of the receive loop. */
    method HandleDatagram(datagram: seq<byte>) returns (replies: seq<seq<byte>>)
      requires !done && fileBuf.Length == c.expected
      modifies this, fileBuf
      ensures (State(), replies) == Receive(c, old(State()), datagram)
      ensures var f := ReceiverFrame(c.transport, datagram);
        && (f.HandshakeReq? ==> State() == old(State()) && replies == [EncodeHandshakeResp(c.transport)])
        && (f.Data? ==> replies == [EncodeAck(c.transport, f.seqNo)] && done == old(done))
        && (f.Fin? ==> fileBuf[..] == old(fileBuf[..]) && received == old(received)
                       && replies == [EncodeFinAck(c.transport)] && done == (|received| >= NumChunks(c.expected)))
        && (f.Ignored? ==> State() == old(State()) && replies == [])
    {
      replies := [];
      match ReceiverFrame(c.transport, datagram)
      case HandshakeReq =>
        replies := [EncodeHandshakeResp(c.transport)];
      case Data(k, payload) =>
        var offset := k * CHUNK_SIZE;
        if offset + |payload| <= fileBuf.Length {
          forall i | 0 <= i < |payload| {
            fileBuf[offset + i] := payload[i];
          }
          received := received + {k};
          assert fileBuf[..] == Written(old(fileBuf[..]), offset, payload);
        }
        replies := [EncodeAck(c.transport, k)];
      case Fin =>
        replies := [EncodeFinAck(c.transport)];
        if |received| >= (c.expected + CHUNK_SIZE - 1) / CHUNK_SIZE {
          done := true;
        }
      case _ =>
    }
  }
}
