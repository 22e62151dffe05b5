/** How a file is cut into chunks. */
module Chunks {
  import opened Bytes
  import opened Wire

  function NumChunks(size: nat): nat { (size + CHUNK_SIZE - 1) / CHUNK_SIZE }

  function ChunkEnd(size: nat, k: nat): nat
    requires k < NumChunks(size)
  {
    if k * CHUNK_SIZE + CHUNK_SIZE <= size then k * CHUNK_SIZE + CHUNK_SIZE else size
  }

  function Chunk(file: seq<byte>, k: nat): (c: seq<byte>)
    requires k < NumChunks(|file|)
    ensures 0 < |c| <= CHUNK_SIZE
    ensures k * CHUNK_SIZE + |c| == ChunkEnd(|file|, k)
    ensures forall i {:trigger c[i]} :: 0 <= i < |c| ==> c[i] == file[k * CHUNK_SIZE + i]
  {
    file[k * CHUNK_SIZE..ChunkEnd(|file|, k)]
  }

  /** Chunks k, k+1, ... of the file, one after the other. */
  function ChunksFrom(file: seq<byte>, k: nat): seq<byte>
    requires k <= NumChunks(|file|)
    decreases NumChunks(|file|) - k
  {
    if k == NumChunks(|file|) then [] else Chunk(file, k) + ChunksFrom(file, k + 1)
  }

  /** The chunks concatenate to the file, the short last one included. */
  lemma {:induction false} ChunksConcatenate(file: seq<byte>, k: nat)
    requires k <= NumChunks(|file|)
    ensures k * CHUNK_SIZE < |file| ==> ChunksFrom(file, k) == file[k * CHUNK_SIZE..]
    ensures k * CHUNK_SIZE >= |file| ==> ChunksFrom(file, k) == []
    ensures k == 0 ==> ChunksFrom(file, k) == file
    decreases NumChunks(|file|) - k
  {
    if k < NumChunks(|file|) {
      ChunksConcatenate(file, k + 1);
    }
  }
}
