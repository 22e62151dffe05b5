/** The datagrams of the two file transports: cli/src/udp_transport.rs and cli/src/quic_transport.rs. */
module Wire {
  import opened Bytes

  const CHUNK_SIZE := 8192

  /** Both receivers read into a buffer of this many bytes; a longer datagram is cut off. */
  const RECEIVE_BUFFER := CHUNK_SIZE + 32

  /** The plain UDP transport, or the one that labels chunks with one of `streams` stream ids. */
  datatype Transport = Udp | Quic(streams: nat)
  {
    predicate Valid() { Quic? ==> streams > 0 }

    function FirstCode(): byte { if Udp? then 1 else 10 }
    function HandshakeReqCode(): byte { FirstCode() }
    function HandshakeRespCode(): byte { FirstCode() + 1 }
    function DataCode(): byte { FirstCode() + 2 }
    function AckCode(): byte { FirstCode() + 3 }
    function FinCode(): byte { FirstCode() + 4 }
    function FinAckCode(): byte { FirstCode() + 5 }

    /** Type byte, stream id if any, 8-byte sequence number, 2-byte length. */
    function HeaderSize(): nat { if Udp? then 11 else 12 }

    function InitialWindow(): nat { if Udp? then 10 else 12 }
    function AckQueueCapacity(): nat { if Udp? then 1000 else 2000 }
  }

  datatype Frame =
    | HandshakeReq
    | HandshakeResp
    | Data(seqNo: nat, payload: seq<byte>)
    | Ack(seqNo: nat)
    | Fin
    | FinAck
    | Ignored

  /** The stream label of a chunk: a remainder, then a cast to one byte. */
  function StreamId(streams: nat, seqNo: nat): byte
    requires streams > 0
  {
    seqNo % streams % 256
  }

  function EncodeHandshakeReq(t: Transport, size: nat): seq<byte> {
    [t.HandshakeReqCode()] + ToBE(size, 8) + (if t.Udp? then [] else ToBE(t.streams, 1))
  }

  function EncodeHandshakeResp(t: Transport): seq<byte> { [t.HandshakeRespCode()] }

  function EncodeData(t: Transport, seqNo: nat, payload: seq<byte>): seq<byte>
    requires t.Valid()
  {
    [t.DataCode()] + (if t.Udp? then [] else [StreamId(t.streams, seqNo)])
    + ToBE(seqNo, 8) + ToBE(|payload|, 2) + payload
  }

  function EncodeAck(t: Transport, seqNo: nat): seq<byte> { [t.AckCode()] + ToBE(seqNo, 8) }

  function EncodeFin(t: Transport): seq<byte> { [t.FinCode()] }

  function EncodeFinAck(t: Transport): seq<byte> { [t.FinAckCode()] }

  /** The part of a datagram that the receive loop sees. */
  function Seen(datagram: seq<byte>): seq<byte> {
    if |datagram| > RECEIVE_BUFFER then datagram[..RECEIVE_BUFFER] else datagram
  }

  /** What the receiving loop makes of a datagram. */
  function ReceiverFrame(t: Transport, datagram: seq<byte>): Frame {
    var d := Seen(datagram);
    var h := t.HeaderSize();
    if d == [] then Ignored
    else if d[0] == t.HandshakeReqCode() then HandshakeReq
    else if d[0] == t.DataCode() then
      if |d| < h then Ignored
      else
        var len := FromBE(d[h - 2..h]);
        if |d| >= h + len then Data(FromBE(d[h - 10..h - 2]), d[h..h + len]) else Ignored
    else if d[0] == t.FinCode() then Fin
    else Ignored
  }

  /** What the sending side makes of a datagram: in the handshake loop only a response counts,
      afterwards only the background reader's two kinds do. */
  function SenderFrame(t: Transport, d: seq<byte>): Frame {
    if d == [] then Ignored
    else if d[0] == t.HandshakeRespCode() then HandshakeResp
    else if |d| >= 9 && d[0] == t.AckCode() then Ack(FromBE(d[1..9]))
    else if d[0] == t.FinAckCode() then FinAck
    else Ignored
  }

  /** A data datagram fits the receive buffer and is read back whole, whatever its stream id. */
  lemma DataRoundTrip(t: Transport, seqNo: nat, payload: seq<byte>)
    requires t.Valid() && seqNo < Pow256(8) && |payload| <= CHUNK_SIZE
    ensures |EncodeData(t, seqNo, payload)| <= RECEIVE_BUFFER
    ensures ReceiverFrame(t, EncodeData(t, seqNo, payload)) == Data(seqNo, payload)
  {
    var d := EncodeData(t, seqNo, payload);
    var h := t.HeaderSize();
    Pow256Values();
    BigEndianRoundTrip(seqNo, 8);
    BigEndianRoundTrip(|payload|, 2);
    assert d[h - 10..h - 2] == ToBE(seqNo, 8);
    assert d[h - 2..h] == ToBE(|payload|, 2);
    assert d[h..h + |payload|] == payload;
  }

  lemma AckRoundTrip(t: Transport, seqNo: nat)
    requires seqNo < Pow256(8)
    ensures SenderFrame(t, EncodeAck(t, seqNo)) == Ack(seqNo)
  {
    BigEndianRoundTrip(seqNo, 8);
    assert EncodeAck(t, seqNo)[1..9] == ToBE(seqNo, 8);
  }

  /** The receiver never looks at the stream id, so reassembly cannot depend on it. */
  lemma StreamIdIgnored(streams: nat, datagram: seq<byte>, id: byte)
    requires |datagram| > 1 && datagram[0] == Quic(streams).DataCode()
    ensures ReceiverFrame(Quic(streams), datagram[1 := id]) == ReceiverFrame(Quic(streams), datagram)
  {
    var t, other := Quic(streams), datagram[1 := id];
    var d, e := Seen(datagram), Seen(other);
    if |d| >= 12 {
      assert d[2..10] == e[2..10] && d[10..12] == e[10..12];
      var len := FromBE(d[10..12]);
      if |d| >= 12 + len {
        assert d[12..12 + len] == e[12..12 + len];
      }
    }
  }

  /** `start` begins with the fields of a data frame; the stream id, if there is one, is any byte. */
  predicate DataFields(t: Transport, start: seq<byte>, seqNo: nat, payload: seq<byte>) {
    var h := t.HeaderSize();
    && h + |payload| <= |start|
    && start[0] == t.DataCode() && start[h - 10..h - 2] == ToBE(seqNo, 8) && start[h - 2..h] == ToBE(|payload|, 2)
    && start[h..h + |payload|] == payload
  }

  /** Exactly these datagrams are data, whatever else follows in them; a shorter one, or one whose
      length field promises more than arrived, is not. */
  lemma DataIff(t: Transport, datagram: seq<byte>, seqNo: nat, payload: seq<byte>)
    ensures ReceiverFrame(t, datagram) == Data(seqNo, payload)
            <==> seqNo < Pow256(8) && |payload| < Pow256(2) && DataFields(t, Seen(datagram), seqNo, payload)
  {
    var d, h := Seen(datagram), t.HeaderSize();
    if ReceiverFrame(t, datagram) == Data(seqNo, payload) {
      BigEndianOnto(d[h - 10..h - 2]);
      BigEndianOnto(d[h - 2..h]);
    }
    if seqNo < Pow256(8) && |payload| < Pow256(2) && DataFields(t, d, seqNo, payload) {
      BigEndianRoundTrip(seqNo, 8);
      BigEndianRoundTrip(|payload|, 2);
    }
  }

  /** Exactly these datagrams are acks for the background reader. */
  lemma AckIff(t: Transport, d: seq<byte>, seqNo: nat)
    ensures SenderFrame(t, d) == Ack(seqNo) <==> seqNo < Pow256(8) && EncodeAck(t, seqNo) <= d
  {
    if SenderFrame(t, d) == Ack(seqNo) {
      BigEndianOnto(d[1..9]);
      assert d[..9] == [d[0]] + d[1..9];
    }
    if seqNo < Pow256(8) && EncodeAck(t, seqNo) <= d {
      BigEndianRoundTrip(seqNo, 8);
      assert d[1..9] == EncodeAck(t, seqNo)[1..9] == ToBE(seqNo, 8);
    }
  }

  /** The handshake request carries the size of the file, and the number of streams if there are any. */
  lemma HandshakeCarries(t: Transport, size: nat)
    requires size < Pow256(8)
    ensures var req := EncodeHandshakeReq(t, size);
      && ReceiverFrame(t, req) == HandshakeReq && FromBE(req[1..9]) == size
      && (t.Quic? ==> |req| == 10 && req[9] == t.streams % 256)
  {
    BigEndianRoundTrip(size, 8);
    var req := EncodeHandshakeReq(t, size);
    assert req[1..9] == ToBE(size, 8);
    if t.Quic? {
      assert req[9] == ToBE(t.streams, 1)[0];
    }
  }
}
