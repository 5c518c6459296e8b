/** The sender half of the transfer: `sendImage` cuts a file into slices of
    ChunkSize bytes and sends them one after another on the data channel.
    main.ts and main.js carry the same sendImage; it is modelled once here. */
module Chunking {
  import opened Protocol

  function Min(a: int, b: int): int {
    if a <= b then a else b
  }

  /** `Blob.slice(start, end)`: the bytes in [start, end), clipped at the end
      of the data; empty when the range starts at or past the end. */
  function Slice(data: seq<byte>, start: nat, end: nat): (s: seq<byte>)
    ensures |s| == if start < end && start < |data| then Min(end, |data|) - start else 0
    ensures forall k :: 0 <= k < |s| ==> s[k] == data[start + k]
  {
    if start < end && start < |data| then data[start..Min(end, |data|)] else []
  }

  /** Reference definition of what is sent from `offset` on: one slice at
      `offset`, then everything from `offset + ChunkSize`, until the offset
      passes the end of the file. */
  function ChunksFrom(data: seq<byte>, offset: nat): seq<seq<byte>>
    decreases |data| - offset
  {
    if offset >= |data| then []
    else [Slice(data, offset, offset + ChunkSize)] + ChunksFrom(data, offset + ChunkSize)
  }

  /** The chunks of a whole file, starting at offset 0. */
  function Chunks(data: seq<byte>): seq<seq<byte>> {
    ChunksFrom(data, 0)
  }

  /** `ceil(n / ChunkSize)`. */
  function ChunkCount(n: nat): nat {
    (n + ChunkSize - 1) / ChunkSize
  }

  /** sendImage: nothing for an empty file; otherwise the slice at offset 0 is
      sent, and after each send the next slice is scheduled only while
      `size > offset + byteLength`, at `offset + ChunkSize`. The returned
      sequence is what reaches `channel.send`, in order. */
  method SendImage(file: ImageFile) returns (sent: seq<seq<byte>>)
    ensures sent == Chunks(file.data)
    ensures |file.data| == 0 ==> sent == []
  {
    var data := file.data;
    sent := [];
    if |data| == 0 {
      return;
    }
    var offset: nat := 0;
    var scheduled := true;
    while scheduled
      invariant offset < |data|
      invariant scheduled ==> sent + ChunksFrom(data, offset) == Chunks(data)
      invariant !scheduled ==> sent == Chunks(data)
      decreases |data| - offset, scheduled
    {
      var chunk := Slice(data, offset, offset + ChunkSize);
      assert ChunksFrom(data, offset) == [chunk] + ChunksFrom(data, offset + ChunkSize);
      sent := sent + [chunk];
      if |data| > offset + |chunk| {
        offset := offset + ChunkSize;
      } else {
        scheduled := false;
      }
    }
  }

  /** The chunks concatenate back to the bytes they were cut from. */
  lemma {:induction false} FlattenChunksFrom(data: seq<byte>, offset: nat)
    requires offset <= |data|
    ensures Flatten(ChunksFrom(data, offset)) == data[offset..]
    decreases |data| - offset
  {
    if offset < |data| {
      var next := offset + ChunkSize;
      if next <= |data| {
        FlattenChunksFrom(data, next);
        assert data[offset..] == data[offset..next] + data[next..];
      } else {
        assert ChunksFrom(data, next) == [];
      }
    }
  }

  /** Round trip of the sender: concatenating every chunk gives the file. */
  lemma ChunksRoundTrip(data: seq<byte>)
    ensures Flatten(Chunks(data)) == data
  {
    FlattenChunksFrom(data, 0);
  }

  lemma {:induction false} ChunksFromCount(data: seq<byte>, offset: nat)
    ensures |ChunksFrom(data, offset)| ==
            if offset >= |data| then 0 else ChunkCount(|data| - offset)
    decreases |data| - offset
  {
    if offset < |data| {
      ChunksFromCount(data, offset + ChunkSize);
      var n := |data| - offset;
      if n > ChunkSize {
        assert ChunkCount(n) == 1 + ChunkCount(n - ChunkSize);
      }
    }
  }

  /** A file of N bytes is sent as ceil(N / 16384) chunks. */
  lemma ChunksCount(data: seq<byte>)
    ensures |Chunks(data)| == ChunkCount(|data|)
    ensures |Chunks(data)| * ChunkSize >= |data| > (|Chunks(data)| - 1) * ChunkSize
  {
    ChunksFromCount(data, 0);
  }

  lemma {:induction false} ChunksFromAt(data: seq<byte>, offset: nat, i: nat)
    requires i < |ChunksFrom(data, offset)|
    ensures offset + i * ChunkSize < |data|
    ensures ChunksFrom(data, offset)[i] ==
            data[offset + i * ChunkSize .. Min(offset + (i + 1) * ChunkSize, |data|)]
    decreases i
  {
    if i > 0 {
      ChunksFromAt(data, offset + ChunkSize, i - 1);
    }
  }

  /** Chunk i is the slice at offset i * 16384: offsets start at 0, grow by
      exactly ChunkSize and the chunks are in strictly increasing offset
      order. */
  lemma ChunkAt(data: seq<byte>, i: nat)
    requires i < |Chunks(data)|
    ensures i * ChunkSize < |data|
    ensures Chunks(data)[i] == data[i * ChunkSize .. Min((i + 1) * ChunkSize, |data|)]
  {
    ChunksFromAt(data, 0, i);
  }

  /** Every chunk is non-empty and at most ChunkSize long, and only the last
      one may be shorter. */
  lemma ChunkLengths(data: seq<byte>)
    ensures forall i :: 0 <= i < |Chunks(data)| ==> 0 < |Chunks(data)[i]| <= ChunkSize
    ensures forall i :: 0 <= i < |Chunks(data)| - 1 ==> |Chunks(data)[i]| == ChunkSize
  {
    var cs := Chunks(data);
    forall i | 0 <= i < |cs|
      ensures 0 < |cs[i]| <= ChunkSize
      ensures i < |cs| - 1 ==> |cs[i]| == ChunkSize
    {
      ChunkAt(data, i);
      if i < |cs| - 1 {
        ChunkAt(data, i + 1);
      }
    }
  }

  /** The chunks' byte counts add up to the file size. */
  lemma ChunksTotal(data: seq<byte>)
    ensures TotalLength(Chunks(data)) == |data|
  {
    ChunksRoundTrip(data);
  }
}
