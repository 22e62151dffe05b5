/** The video stream client (cli/src/p2p.rs, receive_video_stream): frames with a 4-byte length in
    front are written out with a start code in front, as in Annex B of ITU-T H.264. */
module AnnexB {
  import opened Bytes

  const START_CODE: seq<byte> := [0, 0, 0, 1]
  const BUFFER_SIZE := 8192

  // ---------------------------------------------------------------- the incoming stream

  function LengthPrefixed(frames: seq<seq<byte>>): seq<byte> {
    if frames == [] then [] else ToBE(|frames[0]|, 4) + frames[0] + LengthPrefixed(frames[1..])
  }

  /** Every frame's length fits its prefix. */
  predicate Sendable(frames: seq<seq<byte>>) { forall i :: 0 <= i < |frames| ==> |frames[i]| < 0x1_0000_0000 }

  /** The frames read before the stream ends, and whether it ends inside a frame: that is an error,
      while an end inside a length prefix is not. */
  datatype Reading = Reading(frames: seq<seq<byte>>, brokenOff: bool)

  function Read(s: seq<byte>): Reading
    decreases |s|
  {
    if |s| < 4 then Reading([], false)
    else
      var size, body := FromBE(s[..4]), s[4..];
      if |body| < size then Reading([], true)
      else After([body[..size]], Read(body[size..]))
  }

  function After(frames: seq<seq<byte>>, r: Reading): Reading { Reading(frames + r.frames, r.brokenOff) }

  // ---------------------------------------------------------------- the outgoing stream

  function Annex(frames: seq<seq<byte>>): seq<byte> {
    if frames == [] then [] else START_CODE + frames[0] + Annex(frames[1..])
  }

  predicate CodeAt(s: seq<byte>, p: nat) { p + 4 <= |s| && s[p..p + 4] == START_CODE }

  predicate FreeOfCodes(f: seq<byte>) { forall p :: 0 <= p <= |f| ==> !CodeAt(f, p) }

  /** The first start code at or after `from`, or the end. */
  function NextCode(s: seq<byte>, from: nat): (q: nat)
    requires from <= |s|
    ensures from <= q <= |s| && (q == |s| || CodeAt(s, q))
    ensures forall p :: from <= p < q ==> !CodeAt(s, p)
    decreases |s| - from
  {
    if from == |s| || CodeAt(s, from) then from else NextCode(s, from + 1)
  }

  /** A player's view of the stream: what stands between one start code and the next. */
  function Split(s: seq<byte>): seq<seq<byte>>
    decreases |s|
  {
    if !CodeAt(s, 0) then []
    else
      var q := NextCode(s, 4);
      [s[4..q]] + Split(s[q..])
  }

  // ---------------------------------------------------------------- the converter

  /** `out` is what the writer was given; it is flushed only when the result is `ok`. */
  method ReceiveVideoStream(stream: seq<byte>) returns (out: seq<byte>, frameCount: nat, ok: bool)
    ensures out == Annex(Read(stream).frames)
    ensures frameCount == |Read(stream).frames|
    ensures ok == !Read(stream).brokenOff
  {
    var buf := seq(BUFFER_SIZE, _ => 0);
    var pos := 0;
    ghost var frames: seq<seq<byte>> := [];
    out, frameCount := [], 0;
    assert stream[0..] == stream;
    AfterNone(Read(stream));
    while true
      invariant pos <= |stream|
      invariant out == Annex(frames) && frameCount == |frames|
      invariant Read(stream) == After(frames, Read(stream[pos..]))
      decreases |stream| - pos
    {
      ghost var s := stream[pos..];
      assert frames + [] == frames;
      if |stream| - pos < 4 {
        return out, frameCount, true;
      }
      var frameSize := FromBE(stream[pos..pos + 4]);
      assert s[..4] == stream[pos..pos + 4];
      if |buf| < frameSize {
        buf := buf + seq(frameSize - |buf|, _ => 0);
      }
      if |stream| - pos - 4 < frameSize {
        return out, frameCount, false;
      }
      buf := stream[pos + 4..pos + 4 + frameSize] + buf[frameSize..];
      out := out + START_CODE;
      out := out + buf[..frameSize];
      frameCount := frameCount + 1;
      ghost var f := stream[pos + 4..pos + 4 + frameSize];
      assert buf[..frameSize] == f == s[4..][..frameSize];
      assert s[4..][frameSize..] == stream[pos + 4 + frameSize..];
      AfterJoin(frames, [f], Read(stream[pos + 4 + frameSize..]));
      AnnexNext(frames, f);
      frames := frames + [f];
      pos := pos + 4 + frameSize;
    }
  }

  lemma AfterNone(r: Reading)
    ensures After([], r) == r
  {
  }

  lemma AfterJoin(a: seq<seq<byte>>, b: seq<seq<byte>>, r: Reading)
    ensures After(a, After(b, r)) == After(a + b, r)
  {
    assert a + (b + r.frames) == (a + b) + r.frames;
  }

  lemma {:induction false} AnnexNext(frames: seq<seq<byte>>, f: seq<byte>)
    ensures Annex(frames + [f]) == Annex(frames) + START_CODE + f
    decreases |frames|
  {
    if frames == [] {
      assert [f][1..] == [];
    } else {
      AnnexNext(frames[1..], f);
      assert (frames + [f])[1..] == frames[1..] + [f];
    }
  }

  // ---------------------------------------------------------------- reading the frames back

  /** Length-prefixed frames in front of anything are read as sent. */
  lemma {:induction false} ReadFrames(frames: seq<seq<byte>>, rest: seq<byte>)
    requires Sendable(frames)
    ensures Read(LengthPrefixed(frames) + rest) == After(frames, Read(rest))
    decreases |frames|
  {
    if frames == [] {
      assert LengthPrefixed(frames) + rest == rest;
    } else {
      var f, fs := frames[0], frames[1..];
      var tail := LengthPrefixed(fs) + rest;
      assert LengthPrefixed(frames) + rest == ToBE(|f|, 4) + f + tail;
      ReadFirst(f, tail);
      ReadFrames(fs, rest);
      AfterJoin([f], fs, Read(rest));
      assert [f] + fs == frames;
    }
  }

  lemma ReadFirst(f: seq<byte>, tail: seq<byte>)
    requires |f| < 0x1_0000_0000
    ensures Read(ToBE(|f|, 4) + f + tail) == After([f], Read(tail))
  {
    var s := ToBE(|f|, 4) + f + tail;
    Pow256Values();
    BigEndianRoundTrip(|f|, 4);
    assert s[..4] == ToBE(|f|, 4) && s[4..] == f + tail;
    assert (f + tail)[..|f|] == f && (f + tail)[|f|..] == tail;
  }

  /** A start code never straddles the end of a frame, whatever zeros the frame ends with. */
  lemma NoStraddling(f: seq<byte>, rest: seq<byte>, p: nat)
    requires rest == [] || CodeAt(rest, 0)
    requires p < |f|
    ensures CodeAt(f + rest, p) <==> CodeAt(f, p)
  {
    var s := f + rest;
    if p + 4 <= |f| {
      assert s[p..p + 4] == f[p..p + 4];
    } else if p + 4 <= |s| {
      assert s[p..p + 4][3] == rest[..4][p + 3 - |f|];
    }
  }

  lemma AnnexStart(frames: seq<seq<byte>>)
    ensures frames != [] ==> CodeAt(Annex(frames), 0)
  {
    if frames != [] {
      assert Annex(frames)[..4] == START_CODE;
    }
  }

  /** The first frame ends where the next start code is. */
  lemma FirstEnds(f: seq<byte>, rest: seq<byte>)
    requires FreeOfCodes(f) && (rest == [] || CodeAt(rest, 0))
    ensures NextCode(START_CODE + f + rest, 4) == 4 + |f|
  {
    var s := START_CODE + f + rest;
    var q := NextCode(s, 4);
    if q < 4 + |f| {
      NoCodeInside(f, rest, q - 4);
    }
    if rest != [] {
      CodeFurtherOn(s, 4 + |f|, 0);
      assert s[4 + |f|..] == rest;
    }
  }

  lemma NoCodeInside(f: seq<byte>, rest: seq<byte>, p: nat)
    requires FreeOfCodes(f) && (rest == [] || CodeAt(rest, 0)) && p < |f|
    ensures !CodeAt(START_CODE + f + rest, 4 + p)
  {
    var s := START_CODE + f + rest;
    assert s[4..] == f + rest;
    NoStraddling(f, rest, p);
    CodeFurtherOn(s, 4, p);
  }

  lemma CodeFurtherOn(s: seq<byte>, from: nat, p: nat)
    requires from <= |s|
    ensures CodeAt(s[from..], p) <==> CodeAt(s, from + p)
  {
    assert from + p + 4 <= |s| ==> s[from..][p..p + 4] == s[from + p..from + p + 4];
  }

  lemma {:induction false} SplitFrames(frames: seq<seq<byte>>)
    requires forall i :: 0 <= i < |frames| ==> FreeOfCodes(frames[i])
    ensures Split(Annex(frames)) == frames
    decreases |frames|
  {
    if frames != [] {
      var f, fs := frames[0], frames[1..];
      var s := Annex(frames);
      AnnexStart(frames);
      AnnexStart(fs);
      FirstEnds(f, Annex(fs));
      assert s[4..4 + |f|] == f && s[4 + |f|..] == Annex(fs);
      SplitFrames(fs);
    }
  }

  /** What a player sees between start codes contains none. */
  lemma {:induction false} SplitFree(s: seq<byte>, i: nat)
    requires i < |Split(s)|
    ensures FreeOfCodes(Split(s)[i])
    decreases |s|
  {
    var q := NextCode(s, 4);
    if i > 0 {
      SplitFree(s[q..], i - 1);
    } else {
      var f := s[4..q];
      forall p | 0 <= p <= |f|
        ensures !CodeAt(f, p)
      {
        if p + 4 <= |f| {
          assert !CodeAt(s, 4 + p) && f[p..p + 4] == s[4 + p..8 + p];
        }
      }
    }
  }

  /** The frames can be told apart in the output exactly when none of them contains a start code. */
  lemma SplitIff(frames: seq<seq<byte>>)
    ensures Split(Annex(frames)) == frames <==> forall i :: 0 <= i < |frames| ==> FreeOfCodes(frames[i])
  {
    if Split(Annex(frames)) == frames {
      forall i | 0 <= i < |frames|
        ensures FreeOfCodes(frames[i])
      {
        SplitFree(Annex(frames), i);
      }
    } else if forall i :: 0 <= i < |frames| ==> FreeOfCodes(frames[i]) {
      SplitFrames(frames);
    }
  }

  /** From the sender through the converter to the player: the frames sent are the frames played,
      exactly when none contains a start code, and the converter ends without an error. */
  lemma EndToEnd(frames: seq<seq<byte>>)
    requires Sendable(frames)
    ensures Read(LengthPrefixed(frames)) == Reading(frames, false)
    ensures Split(Annex(Read(LengthPrefixed(frames)).frames)) == frames
            <==> forall i :: 0 <= i < |frames| ==> FreeOfCodes(frames[i])
  {
    ReadFrames(frames, []);
    assert LengthPrefixed(frames) + [] == LengthPrefixed(frames);
    assert frames + [] == frames;
    SplitIff(frames);
  }

  /** A stream cut anywhere inside the frame `f`, whose prefix and bytes are `arrived` long: the frames
      before it are written; it is an error exactly when the length prefix had arrived. */
  lemma CutAnywhere(before: seq<seq<byte>>, f: seq<byte>, later: seq<seq<byte>>, arrived: nat)
    requires Sendable(before + [f] + later) && arrived < 4 + |f|
    ensures var s, cut := LengthPrefixed(before + [f] + later), |LengthPrefixed(before)| + arrived;
      cut < |s| && Read(s[..cut]) == Reading(before, arrived >= 4)
  {
    forall i | 0 <= i < |before|
      ensures |before[i]| < 0x1_0000_0000
    {
      assert before[i] == (before + [f] + later)[i];
    }
    assert (before + [f] + later)[|before|] == f;
    PrefixedThree(before, f, later, arrived);
    var head := (ToBE(|f|, 4) + f)[..arrived];
    ReadFrames(before, head);
    ReadCut(f, arrived);
    assert before + [] == before;
  }

  lemma ReadCut(f: seq<byte>, arrived: nat)
    requires |f| < 0x1_0000_0000 && arrived < 4 + |f|
    ensures Read((ToBE(|f|, 4) + f)[..arrived]) == Reading([], arrived >= 4)
  {
    var s := (ToBE(|f|, 4) + f)[..arrived];
    if arrived >= 4 {
      Pow256Values();
      BigEndianRoundTrip(|f|, 4);
      assert s[..4] == ToBE(|f|, 4);
    }
  }

  lemma PrefixedThree(before: seq<seq<byte>>, f: seq<byte>, later: seq<seq<byte>>, arrived: nat)
    requires arrived < 4 + |f|
    ensures var s, cut := LengthPrefixed(before + [f] + later), |LengthPrefixed(before)| + arrived;
      cut < |s| && s[..cut] == LengthPrefixed(before) + (ToBE(|f|, 4) + f)[..arrived]
  {
    PrefixedJoin(before + [f], later);
    PrefixedJoin(before, [f]);
    assert [f][1..] == [] && LengthPrefixed([f]) == ToBE(|f|, 4) + f + [] == ToBE(|f|, 4) + f;
  }

  lemma {:induction false} PrefixedJoin(a: seq<seq<byte>>, b: seq<seq<byte>>)
    ensures LengthPrefixed(a + b) == LengthPrefixed(a) + LengthPrefixed(b)
    decreases |a|
  {
    if a == [] {
      assert a + b == b;
    } else {
      PrefixedJoin(a[1..], b);
      assert (a + b)[1..] == a[1..] + b;
    }
  }
}
