/** Files pushed over one TCP stream (cli/src/tunnel.rs), each as
    [4-byte name length][name][8-byte size][data], and the server that stores them. */
module Tunnel {
  import opened Bytes
  import opened Options

  const MAX_NAME := 1024
  const MAX_SIZE := 10 * 1024 * 1024 * 1024
  const COPY_BUFFER := 65536

  datatype Frame = Frame(name: seq<byte>, data: seq<byte>)

  /** What the sender writes; the lengths are cast to u32 and u64. */
  function Encode(f: Frame): (s: seq<byte>)
    ensures |s| == 12 + |f.name| + |f.data|
  {
    ToBE(|f.name|, 4) + f.name + ToBE(|f.data|, 8) + f.data
  }

  function EncodeAll(frames: seq<Frame>): seq<byte> {
    if frames == [] then [] else Encode(frames[0]) + EncodeAll(frames[1..])
  }

  predicate Valid(f: Frame) { |f.name| <= MAX_NAME && |f.data| <= MAX_SIZE }

  predicate AllValid(frames: seq<Frame>) { forall i :: 0 <= i < |frames| ==> Valid(frames[i]) }

  /** What a stream makes the server store: the complete files, then perhaps one that broke off. */
  datatype Outcome = Outcome(frames: seq<Frame>, partial: Option<Frame>)

  const NOTHING := Outcome([], None)

  function After(frames: seq<Frame>, out: Outcome): Outcome { Outcome(frames + out.frames, out.partial) }

  /** The part of a broken-off file that the copy loop had already written. */
  function WholeBuffers(available: nat): (n: nat)
    ensures n <= available < n + COPY_BUFFER
  {
    available / COPY_BUFFER * COPY_BUFFER
  }

  function Decode(s: seq<byte>): Outcome
    decreases |s|
  {
    if |s| < 4 then NOTHING
    else
      var nameLen := FromBE(s[..4]);
      if nameLen > MAX_NAME || |s| < 12 + nameLen then NOTHING
      else
        var name, size, body := s[4..4 + nameLen], FromBE(s[4 + nameLen..12 + nameLen]), s[12 + nameLen..];
        if size > MAX_SIZE then NOTHING
        else if |body| < size then Outcome([], Some(Frame(name, body[..WholeBuffers(|body|)])))
        else
          After([Frame(name, body[..size])], Decode(body[size..]))
  }

  lemma AfterJoin(a: seq<Frame>, b: seq<Frame>, out: Outcome)
    ensures After(a, After(b, out)) == After(a + b, out)
  {
    assert a + (b + out.frames) == (a + b) + out.frames;
  }

  lemma AfterNone(out: Outcome)
    ensures After([], out) == out
  {
  }

  // ---------------------------------------------------------------- the server

  type Files = map<seq<byte>, seq<byte>>

  function StoredAll(files: Files, frames: seq<Frame>): Files
    decreases |frames|
  {
    if frames == [] then files
    else
      var last := frames[|frames| - 1];
      StoredAll(files, frames[..|frames| - 1])[last.name := last.data]
  }

  function Stored(files: Files, out: Outcome): Files {
    var all := StoredAll(files, out.frames);
    if out.partial.Some? then all[out.partial.value.name := out.partial.value.data] else all
  }

  class Downloads {
    var files: Files

    /** One connection; `stream` is all that the peer sends before it closes. */
    method HandleReceiveFrame(stream: seq<byte>)
      modifies this
      ensures files == Stored(old(files), Decode(stream))
    {
      var s := stream;
      var more := true;
      ghost var frames: seq<Frame> := [];
      AfterNone(Decode(stream));
      while more
        invariant more ==> files == StoredAll(old(files), frames)
        invariant more ==> Decode(stream) == After(frames, Decode(s))
        invariant !more ==> files == Stored(old(files), Decode(stream))
        decreases more, |s|
      {
        ghost var f;
        ghost var out := Decode(s);
        more, s, f := ReceiveOne(s);
        if more {
          AfterJoin(frames, [f], Decode(s));
          StoredNext(old(files), frames, f);
          frames := frames + [f];
        } else {
          assert frames + out.frames == frames;
        }
      }
    }

    /** One round of the connection's loop: a frame, or the end. */
    method ReceiveOne(s: seq<byte>) returns (more: bool, rest: seq<byte>, ghost f: Frame)
      modifies this
      ensures more ==> |rest| < |s| && Decode(s) == After([f], Decode(rest)) && files == old(files)[f.name := f.data]
      ensures !more ==> Decode(s).frames == [] && files == Stored(old(files), Decode(s))
    {
      more, rest, f := false, s, Frame([], []);
      if |s| < 4 {
        return;
      }
      var nameLen := FromBE(s[..4]);
      if nameLen > MAX_NAME || |s| - 4 < nameLen {
        return;
      }
      var name := s[4..4 + nameLen];
      if |s| - 4 - nameLen < 8 {
        return;
      }
      var size := FromBE(s[4 + nameLen..12 + nameLen]);
      if size > MAX_SIZE {
        return;
      }
      var body := s[12 + nameLen..];
      files := files[name := []];
      var whole := CopyData(body, name, size);
      if whole {
        more, rest, f := true, body[size..], Frame(name, body[..size]);
      }
    }

    /** The copy loop: all `size` bytes, or as many full buffers as the peer sends. */
    method CopyData(body: seq<byte>, name: seq<byte>, size: nat) returns (whole: bool)
      requires name in files && files[name] == []
      modifies this
      ensures whole == (size <= |body|)
      ensures files == old(files)[name := body[..if whole then size else WholeBuffers(|body|)]]
    {
      var remaining := size;
      var totalWritten := 0;
      assert body[..0] == [] && old(files)[name := []] == files;
      while remaining > 0
        invariant remaining >= 0 && remaining + totalWritten == size && totalWritten <= |body|
        invariant remaining > 0 ==> totalWritten % COPY_BUFFER == 0
        invariant files == old(files)[name := body[..totalWritten]]
      {
        var toRead := if COPY_BUFFER < remaining then COPY_BUFFER else remaining;
        if |body| - totalWritten < toRead {
          BrokenOff(|body|, totalWritten);
          return false;
        }
        assert body[..totalWritten] + body[totalWritten..totalWritten + toRead] == body[..totalWritten + toRead];
        files := files[name := files[name] + body[totalWritten..totalWritten + toRead]];
        remaining := remaining - toRead;
        totalWritten := totalWritten + toRead;
      }
      return true;
    }
  }

  lemma StoredNext(files: Files, frames: seq<Frame>, f: Frame)
    ensures StoredAll(files, frames + [f]) == StoredAll(files, frames)[f.name := f.data]
  {
    assert (frames + [f])[..|frames|] == frames;
  }

  lemma BrokenOff(available: nat, written: nat)
    requires written % COPY_BUFFER == 0 && written <= available < written + COPY_BUFFER
    ensures WholeBuffers(available) == written
  {
  }

  // ---------------------------------------------------------------- what the server stores

  lemma DecodeFields(s: seq<byte>, nameLen: nat, size: nat)
    requires nameLen <= MAX_NAME && size <= MAX_SIZE && 12 + nameLen + size <= |s|
    requires FromBE(s[..4]) == nameLen && FromBE(s[4 + nameLen..12 + nameLen]) == size
    ensures var body := s[12 + nameLen..];
      Decode(s) == After([Frame(s[4..4 + nameLen], body[..size])], Decode(body[size..]))
  {
    var body := s[12 + nameLen..];
    assert |body| >= size;
  }

  /** The first frame of a stream, whatever follows it. */
  lemma DecodeFirst(f: Frame, rest: seq<byte>)
    requires Valid(f)
    ensures Decode(Encode(f) + rest) == After([f], Decode(rest))
  {
    var s := Encode(f) + rest;
    HeaderFields(f, rest);
    DecodeFields(s, |f.name|, |f.data|);
    var body := s[12 + |f.name|..];
    assert body == f.data + rest;
    assert body[..|f.data|] == f.data && body[|f.data|..] == rest;
  }

  lemma HeaderFields(f: Frame, rest: seq<byte>)
    requires Valid(f)
    ensures var s := Encode(f) + rest;
      && FromBE(s[..4]) == |f.name| && s[4..4 + |f.name|] == f.name
      && FromBE(s[4 + |f.name|..12 + |f.name|]) == |f.data|
  {
    var s := Encode(f) + rest;
    assert s[..4] == ToBE(|f.name|, 4);
    assert s[4 + |f.name|..12 + |f.name|] == ToBE(|f.data|, 8);
    Pow256Values();
    BigEndianRoundTrip(|f.name|, 4);
    BigEndianRoundTrip(|f.data|, 8);
  }

  /** Frames in front of anything are decoded as sent. */
  lemma {:induction false} DecodeFrames(frames: seq<Frame>, rest: seq<byte>)
    requires AllValid(frames)
    ensures Decode(EncodeAll(frames) + rest) == After(frames, Decode(rest))
    decreases |frames|
  {
    if frames == [] {
      assert EncodeAll(frames) + rest == rest;
      AfterNone(Decode(rest));
    } else {
      var f, fs := frames[0], frames[1..];
      assert EncodeAll(frames) + rest == Encode(f) + (EncodeAll(fs) + rest);
      DecodeFirst(f, EncodeAll(fs) + rest);
      DecodeFrames(fs, rest);
      AfterJoin([f], fs, Decode(rest));
      assert [f] + fs == frames;
    }
  }

  /** On any stream at all, the complete files are valid frames that the stream really starts with. */
  lemma {:induction false} DecodeSound(s: seq<byte>)
    ensures AllValid(Decode(s).frames) && EncodeAll(Decode(s).frames) <= s
    decreases |s|
  {
    if Decode(s).frames != [] {
      var f, rest := DecodeHead(s);
      DecodeSound(rest);
      EncodeJoin([f], Decode(rest).frames);
      assert [f][1..] == [] && EncodeAll([f]) == Encode(f) + [] == Encode(f);
    }
  }

  lemma DecodeHead(s: seq<byte>) returns (f: Frame, rest: seq<byte>)
    requires Decode(s).frames != []
    ensures Valid(f) && s == Encode(f) + rest && Decode(s) == After([f], Decode(rest))
  {
    var nameLen := FromBE(s[..4]);
    var size, body := FromBE(s[4 + nameLen..12 + nameLen]), s[12 + nameLen..];
    f, rest := Frame(s[4..4 + nameLen], body[..size]), body[size..];
    BigEndianOnto(s[..4]);
    BigEndianOnto(s[4 + nameLen..12 + nameLen]);
    FirstFrame(s, nameLen, size);
  }

  lemma FirstFrame(s: seq<byte>, nameLen: nat, size: nat)
    requires 12 + nameLen + size <= |s|
    requires ToBE(nameLen, 4) == s[..4] && ToBE(size, 8) == s[4 + nameLen..12 + nameLen]
    ensures var body := s[12 + nameLen..]; s == Encode(Frame(s[4..4 + nameLen], body[..size])) + body[size..]
  {
    var body := s[12 + nameLen..];
    assert s == s[..4] + s[4..4 + nameLen] + s[4 + nameLen..12 + nameLen] + body;
    assert body == body[..size] + body[size..];
  }

  /** The complete files are the longest list of valid frames whose encoding the stream starts with:
      this says what is received for every stream, cut off, corrupt or intact. */
  lemma DecodeLongest(s: seq<byte>, frames: seq<Frame>)
    requires AllValid(frames)
    ensures EncodeAll(frames) <= s <==> frames <= Decode(s).frames
  {
    DecodeSound(s);
    if EncodeAll(frames) <= s {
      var rest := s[|EncodeAll(frames)|..];
      assert s == EncodeAll(frames) + rest;
      DecodeFrames(frames, rest);
    }
    if frames <= Decode(s).frames {
      var more := Decode(s).frames[|frames|..];
      assert Decode(s).frames == frames + more;
      EncodeJoin(frames, more);
      assert EncodeAll(frames) <= EncodeAll(frames) + EncodeAll(more);
    }
  }

  lemma {:induction false} EncodeJoin(a: seq<Frame>, b: seq<Frame>)
    ensures EncodeAll(a + b) == EncodeAll(a) + EncodeAll(b)
    decreases |a|
  {
    if a == [] {
      assert a + b == b;
    } else {
      EncodeJoin(a[1..], b);
      assert (a + b)[1..] == a[1..] + b;
    }
  }

  /** What is sent is what is stored, exactly when every frame is within the limits; names longer than
      u32, whose length wraps around, are no exception. */
  lemma RoundTripIff(frames: seq<Frame>)
    ensures Decode(EncodeAll(frames)) == Outcome(frames, None) <==> AllValid(frames)
  {
    var s := EncodeAll(frames);
    if AllValid(frames) {
      DecodeFrames(frames, []);
      assert s + [] == s && frames + [] == frames;
    } else {
      DecodeSound(s);
    }
  }

  /** A stream cut at any byte, inside the frame `f`: exactly the frames before it are complete; of
      `f`, a file exists when its header arrived, with the full buffers that arrived. */
  lemma TruncatedAnywhere(before: seq<Frame>, f: Frame, later: seq<Frame>, arrived: nat)
    requires AllValid(before + [f] + later) && arrived < |Encode(f)|
    ensures var s, cut := EncodeAll(before + [f] + later), |EncodeAll(before)| + arrived;
      && cut < |s|
      && Decode(s[..cut]) == Outcome(before,
           if arrived < 12 + |f.name| then None
           else Some(Frame(f.name, f.data[..WholeBuffers(arrived - 12 - |f.name|)])))
  {
    EncodeThree(before, f, later, arrived);
    forall i | 0 <= i < |before|
      ensures Valid(before[i])
    {
      assert before[i] == (before + [f] + later)[i];
    }
    assert (before + [f] + later)[|before|] == f;
    DecodeFrames(before, Encode(f)[..arrived]);
    DecodeCut(f, arrived);
    assert before + [] == before;
  }

  lemma EncodeThree(before: seq<Frame>, f: Frame, later: seq<Frame>, arrived: nat)
    requires arrived < |Encode(f)|
    ensures var s, cut := EncodeAll(before + [f] + later), |EncodeAll(before)| + arrived;
      cut < |s| && s[..cut] == EncodeAll(before) + Encode(f)[..arrived]
  {
    EncodeJoin(before + [f], later);
    EncodeJoin(before, [f]);
    assert [f][1..] == [] && EncodeAll([f]) == Encode(f) + [] == Encode(f);
  }

  lemma DecodeCut(f: Frame, arrived: nat)
    requires Valid(f) && arrived < |Encode(f)|
    ensures Decode(Encode(f)[..arrived]) == Outcome([],
      if arrived < 12 + |f.name| then None
      else Some(Frame(f.name, f.data[..WholeBuffers(arrived - 12 - |f.name|)])))
  {
    var s := Encode(f)[..arrived];
    HeaderFields(f, []);
    assert Encode(f) + [] == Encode(f);
    if arrived >= 4 {
      assert s[..4] == Encode(f)[..4];
      if arrived >= 12 + |f.name| {
        assert s[4..4 + |f.name|] == f.name;
        assert s[4 + |f.name|..12 + |f.name|] == Encode(f)[4 + |f.name|..12 + |f.name|];
        var body := s[12 + |f.name|..];
        assert body == f.data[..arrived - 12 - |f.name|];
        assert body[..WholeBuffers(|body|)] == f.data[..WholeBuffers(|body|)];
      }
    }
  }

  /** The directory afterwards: under each name the data of the last frame that carried it, and every
      other file as it was. */
  lemma {:induction false} LastOfItsName(files: Files, frames: seq<Frame>, name: seq<byte>, i: nat)
    requires i < |frames| && frames[i].name == name
    requires forall j :: i < j < |frames| ==> frames[j].name != name
    ensures name in StoredAll(files, frames) && StoredAll(files, frames)[name] == frames[i].data
    decreases |frames|
  {
    if i < |frames| - 1 {
      assert frames[|frames| - 1].name != name;
      LastOfItsName(files, frames[..|frames| - 1], name, i);
    }
  }

  lemma {:induction false} OthersKept(files: Files, frames: seq<Frame>, name: seq<byte>)
    requires forall j :: 0 <= j < |frames| ==> frames[j].name != name
    ensures name in StoredAll(files, frames) <==> name in files
    ensures name in files ==> StoredAll(files, frames)[name] == files[name]
    decreases |frames|
  {
    if frames != [] {
      assert frames[|frames| - 1].name != name;
      OthersKept(files, frames[..|frames| - 1], name);
    }
  }

  /** A header that promises too long a name ends the connection before any file is touched. */
  lemma NameTooLong(files: Files, nameLen: nat, rest: seq<byte>)
    requires MAX_NAME < nameLen < Pow256(4)
    ensures Stored(files, Decode(ToBE(nameLen, 4) + rest)) == files
  {
    BigEndianRoundTrip(nameLen, 4);
    assert (ToBE(nameLen, 4) + rest)[..4] == ToBE(nameLen, 4);
  }

  /** So does one that promises too much data. */
  lemma SizeTooLarge(files: Files, name: seq<byte>, size: nat, rest: seq<byte>)
    requires |name| <= MAX_NAME && MAX_SIZE < size < Pow256(8)
    ensures Stored(files, Decode(ToBE(|name|, 4) + name + ToBE(size, 8) + rest)) == files
  {
    var s := ToBE(|name|, 4) + name + ToBE(size, 8) + rest;
    Pow256Values();
    BigEndianRoundTrip(|name|, 4);
    BigEndianRoundTrip(size, 8);
    assert s[..4] == ToBE(|name|, 4);
    assert s[4 + |name|..12 + |name|] == ToBE(size, 8);
  }

  /** The directory after a stream that breaks off inside the frame `f`: once its header has arrived,
      its name holds the full buffers of its data, whatever it held before; every other name holds what
      the frames before left there. */
  lemma DirectoryAfterCut(files: Files, before: seq<Frame>, f: Frame, later: seq<Frame>, arrived: nat, name: seq<byte>)
    requires AllValid(before + [f] + later) && arrived < |Encode(f)|
    ensures |EncodeAll(before)| + arrived < |EncodeAll(before + [f] + later)|
    ensures var stream := EncodeAll(before + [f] + later)[..|EncodeAll(before)| + arrived];
      var after, complete := Stored(files, Decode(stream)), StoredAll(files, before);
      if name == f.name && arrived >= 12 + |name|
      then name in after && after[name] == f.data[..WholeBuffers(arrived - 12 - |name|)]
      else (name in after <==> name in complete) && (name in after ==> after[name] == complete[name])
  {
    TruncatedAnywhere(before, f, later, arrived);
  }
}
