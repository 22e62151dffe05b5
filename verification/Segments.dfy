/** Receiving one file over several connections at once (cli/src/dashboard.rs, handle_receive_file):
    each connection opens the same path, may set its length, and writes its part at its own cursor. */
module Segments {
  import opened Bytes
  import opened Options

  const READ_BUFFER := 65536

  // ---------------------------------------------------------------- the file

  function ByteAt(file: seq<byte>, pos: nat, data: seq<byte>, i: nat): byte {
    if pos <= i < pos + |data| then data[i - pos] else if i < |file| then file[i] else 0
  }

  /** A write at a position; a gap before it reads as zeros. */
  function WrittenAt(file: seq<byte>, pos: nat, data: seq<byte>): seq<byte> {
    var end := if data != [] && |file| < pos + |data| then pos + |data| else |file|;
    seq(end, i requires i >= 0 => ByteAt(file, pos, data, i))
  }

  lemma BytesJoin(file: seq<byte>, mid: seq<byte>, pos: nat, a: seq<byte>, b: seq<byte>, i: nat)
    requires i < |mid| ==> mid[i] == ByteAt(file, pos, a, i)
    requires |mid| >= |file| && |mid| >= pos + |a|
    ensures ByteAt(mid, pos + |a|, b, i) == ByteAt(file, pos, a + b, i)
  {
  }

  lemma WritesJoin(file: seq<byte>, pos: nat, a: seq<byte>, b: seq<byte>)
    ensures WrittenAt(WrittenAt(file, pos, a), pos + |a|, b) == WrittenAt(file, pos, a + b)
  {
    var mid := WrittenAt(file, pos, a);
    if a == [] {
      assert a + b == b && mid == file;
    } else {
      forall i: nat
        ensures ByteAt(mid, pos + |a|, b, i) == ByteAt(file, pos, a + b, i)
      {
        BytesJoin(file, mid, pos, a, b, i);
      }
    }
  }

  lemma ArrivedMore(file: seq<byte>, pos: nat, body: seq<byte>, arrived: nat, n: nat)
    requires arrived + n <= |body|
    ensures WrittenAt(WrittenAt(file, pos, body[..arrived]), pos + arrived, body[arrived..arrived + n])
            == WrittenAt(file, pos, body[..arrived + n])
  {
    var a, b := body[..arrived], body[arrived..arrived + n];
    assert a + b == body[..arrived + n];
    WritesJoin(file, pos, a, b);
  }

  class SharedFile {
    var content: seq<byte>

    method SetLen(len: nat)
      modifies this
      ensures content == Resized(old(content), len)
    {
      content := if len <= |content| then content[..len] else content + seq(len - |content|, _ => 0);
    }

    method WriteAll(pos: nat, data: seq<byte>)
      modifies this
      ensures content == WrittenAt(old(content), pos, data)
    {
      if data != [] {
        if |content| < pos + |data| {
          SetLen(pos + |data|);
        }
        content := content[..pos] + data + content[pos + |data|..];
      }
    }
  }

  /** One connection that nobody disturbs. `body` is what arrives before the peer closes or the
      announced length is complete; reads return it in arbitrary pieces. */
  method HandleReceiveFile(file: SharedFile, contentLength: nat, offset: nat, totalSize: Option<nat>, body: seq<byte>)
    returns (accepted: bool)
    requires |body| <= contentLength
    modifies file
    ensures accepted == (contentLength > 0)
    ensures !accepted ==> file.content == old(file.content)
    ensures accepted ==> file.content == WrittenAt(
      if offset == 0 && totalSize.Some? then Resized(old(file.content), totalSize.value) else old(file.content),
      offset, body)
  {
    if contentLength == 0 {
      return false;
    }
    if offset == 0 && totalSize.Some? {
      file.SetLen(totalSize.value);
    }
    CopyBody(file, contentLength, offset, body);
    return true;
  }

  /** The copy loop, from the cursor on. */
  method CopyBody(file: SharedFile, contentLength: nat, offset: nat, body: seq<byte>)
    requires |body| <= contentLength
    modifies file
    ensures file.content == WrittenAt(old(file.content), offset, body)
  {
    var remaining := contentLength;
    var arrived := 0;
    while remaining > 0
      invariant arrived <= |body| && remaining == contentLength - arrived
      invariant file.content == WrittenAt(old(file.content), offset, body[..arrived])
      decreases remaining
    {
      var toRead := if READ_BUFFER < remaining then READ_BUFFER else remaining;
      var n :| 0 <= n <= toRead && n <= |body| - arrived && (n == 0 ==> arrived == |body|);
      if n == 0 {
        break;
      }
      ArrivedMore(old(file.content), offset, body, arrived, n);
      file.WriteAll(offset + arrived, body[arrived..arrived + n]);
      arrived := arrived + n;
      remaining := remaining - n;
    }
    assert body[..arrived] == body;
  }

  // ---------------------------------------------------------------- several connections

  /** One part of an upload: where it starts, the announced total if any, and its bytes. */
  datatype Part = Part(offset: nat, totalSize: Option<nat>, data: seq<byte>)

  /** How far a connection is: begun (length set, if it does that) and bytes written. */
  datatype Progress = Progress(begun: bool, written: nat)

  datatype State = State(file: seq<byte>, progress: seq<Progress>)

  datatype Action = Open(i: nat) | Write(i: nat, n: nat)

  function Init(before: seq<byte>, parts: seq<Part>): State {
    State(before, seq(|parts|, _ => Progress(false, 0)))
  }

  predicate SetsLength(p: Part) { p.offset == 0 && p.totalSize.Some? }

  /** A connection opens the file, or writes the next bytes that it has read; a connection whose part
      is empty is refused at once. */
  function Step(parts: seq<Part>, s: State, a: Action): State
    requires |s.progress| == |parts|
  {
    if a.i >= |parts| || parts[a.i].data == [] then s
    else
      var p, g := parts[a.i], s.progress[a.i];
      match a
      case Open(i) =>
        if g.begun then s
        else s.(file := if SetsLength(p) then Resized(s.file, p.totalSize.value) else s.file,
                progress := s.progress[i := g.(begun := true)])
      case Write(i, n) =>
        if g.begun && g.written + n <= |p.data|
        then s.(file := WrittenAt(s.file, p.offset + g.written, p.data[g.written..g.written + n]),
                progress := s.progress[i := g.(written := g.written + n)])
        else s
  }

  function Exec(parts: seq<Part>, s: State, run: seq<Action>): (t: State)
    requires |s.progress| == |parts|
    ensures |t.progress| == |parts|
    decreases |run|
  {
    if run == [] then s else Exec(parts, Step(parts, s, run[0]), run[1..])
  }

  /** The parts are pieces of one file, a total if announced is its size, and together they cover it. */
  ghost predicate PartsOf(original: seq<byte>, parts: seq<Part>) {
    && (forall p <- parts :: p.offset + |p.data| <= |original|
                             && p.data == original[p.offset..p.offset + |p.data|]
                             && (p.totalSize.Some? ==> p.totalSize.value == |original|))
    && (forall k :: 0 <= k < |original| ==> Covered(parts, k))
  }

  predicate Covered(parts: seq<Part>, k: nat) { exists i :: 0 <= i < |parts| && Covers(parts[i], k) }

  predicate Covers(p: Part, k: nat) { p.offset <= k < p.offset + |p.data| }

  /** Some connection has set the length. */
  predicate LengthSet(parts: seq<Part>, s: State)
    requires |s.progress| == |parts|
  {
    exists i :: 0 <= i < |parts| && SetsLength(parts[i]) && s.progress[i].begun
  }

  predicate BytesOk(original: seq<byte>, p: Part, g: Progress, file: seq<byte>)
    requires p.offset + |p.data| <= |original|
  {
    && g.written <= |p.data|
    && (g.written > 0 ==> g.begun && p.offset + g.written <= |file|)
    && forall k :: p.offset <= k < p.offset + g.written && k < |file| ==> file[k] == original[k]
  }

  ghost predicate Inv(original: seq<byte>, before: seq<byte>, parts: seq<Part>, s: State) {
    && PartsOf(original, parts)
    && |s.progress| == |parts|
    && (forall i :: 0 <= i < |parts| ==> BytesOk(original, parts[i], s.progress[i], s.file))
    && (LengthSet(parts, s) ==> |s.file| == |original|)
    && (!LengthSet(parts, s) ==>
          |before| <= |s.file| && (|s.file| <= |before| || |s.file| <= |original|))
  }

  lemma OpenKeeps(original: seq<byte>, before: seq<byte>, parts: seq<Part>, s: State, i: nat)
    requires Inv(original, before, parts, s) && i < |parts| && parts[i].data != [] && !s.progress[i].begun
    ensures Inv(original, before, parts, Step(parts, s, Open(i)))
  {
    var t := Step(parts, s, Open(i));
    var p := parts[i];
    assert p in parts;
    assert s.progress[i].written == 0;
    forall j | 0 <= j < |parts|
      ensures BytesOk(original, parts[j], t.progress[j], t.file)
    {
      assert BytesOk(original, parts[j], s.progress[j], s.file);
      assert parts[j] in parts;
    }
    if SetsLength(p) {
      assert t.progress[i].begun;
    } else {
      assert forall j :: 0 <= j < |parts| && SetsLength(parts[j]) ==> t.progress[j].begun == s.progress[j].begun;
    }
  }

  lemma WriteKeeps(original: seq<byte>, before: seq<byte>, parts: seq<Part>, s: State, i: nat, n: nat)
    requires Inv(original, before, parts, s) && i < |parts| && parts[i].data != []
    requires s.progress[i].begun && s.progress[i].written + n <= |parts[i].data|
    ensures Inv(original, before, parts, Step(parts, s, Write(i, n)))
  {
    var t := Step(parts, s, Write(i, n));
    forall j | 0 <= j < |parts|
      ensures BytesOk(original, parts[j], t.progress[j], t.file)
    {
      assert parts[i] in parts && parts[j] in parts;
      WriteKeepsBytes(original, parts, s, i, n, j);
    }
    assert parts[i] in parts;
    assert forall j :: 0 <= j < |parts| ==> t.progress[j].begun == s.progress[j].begun;
    assert LengthSet(parts, t) <==> LengthSet(parts, s);
  }

  predicate PieceOf(original: seq<byte>, pos: nat, data: seq<byte>) {
    pos + |data| <= |original| && data == original[pos..pos + |data|]
  }

  /** Writing a piece of the original where it belongs spoils nothing. */
  lemma WriteSpoilsNothing(original: seq<byte>, file: seq<byte>, pos: nat, data: seq<byte>, q: Part, h: Progress)
    requires PieceOf(original, pos, data) && q.offset + |q.data| <= |original| && BytesOk(original, q, h, file)
    ensures BytesOk(original, q, h, WrittenAt(file, pos, data))
    ensures pos == q.offset + h.written && h.written + |data| <= |q.data| && h.begun ==>
      BytesOk(original, q, h.(written := h.written + |data|), WrittenAt(file, pos, data))
  {
    var r := WrittenAt(file, pos, data);
    forall k | pos <= k < pos + |data| && k < |r|
      ensures r[k] == original[k]
    {
      assert r[k] == data[k - pos];
    }
  }

  lemma WriteKeepsBytes(original: seq<byte>, parts: seq<Part>, s: State, i: nat, n: nat, j: nat)
    requires |s.progress| == |parts| && i < |parts| && j < |parts| && parts[i].data != []
    requires s.progress[i].begun && s.progress[i].written + n <= |parts[i].data|
    requires PieceOf(original, parts[i].offset, parts[i].data)
    requires parts[j].offset + |parts[j].data| <= |original|
    requires BytesOk(original, parts[j], s.progress[j], s.file)
    ensures var t := Step(parts, s, Write(i, n)); BytesOk(original, parts[j], t.progress[j], t.file)
  {
    var p, g := parts[i], s.progress[i];
    PieceOfPiece(original, p.offset, p.data, g.written, n);
    WriteSpoilsNothing(original, s.file, p.offset + g.written, p.data[g.written..g.written + n],
                       parts[j], s.progress[j]);
  }

  lemma PieceOfPiece(original: seq<byte>, pos: nat, data: seq<byte>, done: nat, n: nat)
    requires PieceOf(original, pos, data) && done + n <= |data|
    ensures PieceOf(original, pos + done, data[done..done + n])
  {
    var part := original[pos + done..pos + done + n];
    assert |part| == |data[done..done + n]|;
    forall k | 0 <= k < n
      ensures data[done..done + n][k] == part[k]
    {
      assert data[done + k] == original[pos..pos + |data|][done + k];
    }
  }

  lemma {:induction false} RunKeepsInv(original: seq<byte>, before: seq<byte>, parts: seq<Part>, s: State, run: seq<Action>)
    requires Inv(original, before, parts, s)
    ensures Inv(original, before, parts, Exec(parts, s, run))
    decreases |run|
  {
    if run != [] {
      var a := run[0];
      if a.i < |parts| && parts[a.i].data != [] {
        if a.Open? && !s.progress[a.i].begun {
          OpenKeeps(original, before, parts, s, a.i);
        } else if a.Write? && s.progress[a.i].begun && s.progress[a.i].written + a.n <= |parts[a.i].data| {
          WriteKeeps(original, before, parts, s, a.i, a.n);
        }
      }
      RunKeepsInv(original, before, parts, Step(parts, s, a), run[1..]);
    }
  }

  predicate Complete(parts: seq<Part>, s: State)
    requires |s.progress| == |parts|
  {
    forall i :: 0 <= i < |parts| && parts[i].data != [] ==> s.progress[i].begun && s.progress[i].written == |parts[i].data|
  }

  /** Some part that is not refused sets the length. */
  predicate Announced(parts: seq<Part>) { exists p <- parts :: SetsLength(p) && p.data != [] }

  /** However the connections interleave, wherever the length-setting step falls, and whatever the
      path held before: when all are complete the file is the original, exactly when a part that
      starts at 0 announced the total or nothing longer was there before. */
  lemma UploadIff(original: seq<byte>, before: seq<byte>, parts: seq<Part>, run: seq<Action>)
    requires PartsOf(original, parts) && Complete(parts, Exec(parts, Init(before, parts), run))
    ensures Exec(parts, Init(before, parts), run).file == original
            <==> Announced(parts) || |before| <= |original|
  {
    var s := Init(before, parts);
    assert forall i :: 0 <= i < |parts| ==> parts[i] in parts;
    assert !LengthSet(parts, s);
    UploadInit(original, before, parts);
    RunKeepsInv(original, before, parts, s, run);
    OnlyNonEmptyOpen(parts, s, run);
    CompleteFile(original, before, parts, Exec(parts, s, run));
  }

  lemma UploadInit(original: seq<byte>, before: seq<byte>, parts: seq<Part>)
    requires PartsOf(original, parts)
    ensures Inv(original, before, parts, Init(before, parts))
  {
    assert forall i :: 0 <= i < |parts| ==> parts[i] in parts;
  }

  /** A refused connection never opens the file. */
  lemma {:induction false} OnlyNonEmptyOpen(parts: seq<Part>, s: State, run: seq<Action>)
    requires |s.progress| == |parts|
    requires forall i :: 0 <= i < |parts| && s.progress[i].begun ==> parts[i].data != []
    ensures forall i :: 0 <= i < |parts| && Exec(parts, s, run).progress[i].begun ==> parts[i].data != []
    decreases |run|
  {
    if run != [] {
      OnlyNonEmptyOpen(parts, Step(parts, s, run[0]), run[1..]);
    }
  }

  lemma ByteArrived(original: seq<byte>, before: seq<byte>, parts: seq<Part>, s: State, k: nat)
    requires Inv(original, before, parts, s) && Complete(parts, s) && k < |original|
    ensures k < |s.file| && s.file[k] == original[k]
  {
    assert Covered(parts, k);
    var i :| 0 <= i < |parts| && Covers(parts[i], k);
    assert BytesOk(original, parts[i], s.progress[i], s.file);
  }

  lemma CompleteFile(original: seq<byte>, before: seq<byte>, parts: seq<Part>, s: State)
    requires Inv(original, before, parts, s) && Complete(parts, s)
    requires forall i :: 0 <= i < |parts| && s.progress[i].begun ==> parts[i].data != []
    ensures s.file == original <==> Announced(parts) || |before| <= |original|
  {
    forall k | 0 <= k < |original|
      ensures k < |s.file| && s.file[k] == original[k]
    {
      ByteArrived(original, before, parts, s, k);
    }
    if original != [] {
      ByteArrived(original, before, parts, s, |original| - 1);
    }
    if Announced(parts) {
      var p :| p in parts && SetsLength(p) && p.data != [];
      var i :| 0 <= i < |parts| && parts[i] == p;
      assert LengthSet(parts, s);
    } else {
      forall i | 0 <= i < |parts| && s.progress[i].begun
        ensures !SetsLength(parts[i])
      {
        assert parts[i] in parts;
      }
      assert !LengthSet(parts, s);
      assert |before| <= |original| ==> |s.file| == |original|;
    }
  }
}
