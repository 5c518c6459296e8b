/** The receiver half of the transfer: the module-level `receivedFile`,
    `receiveBuffer` and `receivedSize` of a window, and what one binary chunk
    or one metadata record does to them. Both main.ts and main.js run this
    same accumulator; they differ only in where the metadata arrives from
    (modules MainTs and MainJs). */
module Reassembly {
  import opened Protocol

  /** The receiver's state as a value. */
  datatype Accumulator = Accumulator(
    receivedFile: Option<FileMetadata>,
    receiveBuffer: seq<seq<byte>>,
    receivedSize: nat)

  /** What handling one event hands to the page: nothing, one reassembled
      blob for insertImage, or the TypeError thrown by reading `size` of an
      undefined `receivedFile`. */
  datatype Outcome = Silent | Reassembled(blob: seq<byte>) | MissingRecord

  /** A window that has loaded the script: no record, empty buffer, zero count. */
  const Fresh: Accumulator := Accumulator(None, [], 0)

  /** Between completions the counter is the sum of the buffered lengths. */
  predicate Consistent(acc: Accumulator) {
    acc.receivedSize == TotalLength(acc.receiveBuffer)
  }

  /** The binary branch of onChannelMessage: push the chunk, add its
      byteLength, then compare with the announced size. The push and the
      count happen before `receivedFile.size` is read, so they survive the
      TypeError when no record is stored. On strict equality the buffer is
      concatenated into one blob and the buffer and counter are reset. */
  function OnBinary(acc: Accumulator, chunk: seq<byte>): (r: (Accumulator, Outcome))
    ensures r.0.receivedFile == acc.receivedFile
    ensures r.1.MissingRecord? <==> acc.receivedFile.None?
    ensures r.1.Reassembled? <==>
      acc.receivedFile.Some? && acc.receivedSize + |chunk| == acc.receivedFile.value.size
    ensures r.1.Reassembled? ==>
      r.1.blob == Flatten(acc.receiveBuffer) + chunk && r.0.receiveBuffer == [] && r.0.receivedSize == 0
    ensures !r.1.Reassembled? ==>
      r.0.receiveBuffer == acc.receiveBuffer + [chunk] && r.0.receivedSize == acc.receivedSize + |chunk|
  {
    var buffer := acc.receiveBuffer + [chunk];
    var size := acc.receivedSize + |chunk|;
    match acc.receivedFile
    case None => (Accumulator(None, buffer, size), MissingRecord)
    case Some(meta) =>
      if size == meta.size then
        FlattenAppend(acc.receiveBuffer, [chunk]);
        assert Flatten([chunk]) == chunk;
        (Accumulator(Some(meta), [], 0), Reassembled(Flatten(buffer)))
      else (Accumulator(Some(meta), buffer, size), Silent)
  }

  /** `receivedFile = <record>`: the record is replaced, nothing else. */
  function StoreRecord(acc: Accumulator, meta: FileMetadata): (r: Accumulator)
    ensures r.receivedFile == Some(meta)
    ensures r.receiveBuffer == acc.receiveBuffer && r.receivedSize == acc.receivedSize
    ensures Consistent(acc) ==> Consistent(r)
  {
    acc.(receivedFile := Some(meta))
  }

  /** A run of binary chunks, one after another, with each one's outcome. */
  function Feed(acc: Accumulator, chunks: seq<seq<byte>>): (r: (Accumulator, seq<Outcome>))
    ensures |r.1| == |chunks|
    decreases |chunks|
  {
    if chunks == [] then (acc, [])
    else
      var step := OnBinary(acc, chunks[0]);
      var rest := Feed(step.0, chunks[1..]);
      (rest.0, [step.1] + rest.1)
  }

  function Silents(n: nat): (s: seq<Outcome>)
    ensures |s| == n && forall i :: 0 <= i < n ==> s[i] == Silent
  {
    seq(n, _ => Silent)
  }

  /** One binary chunk keeps the counter equal to the buffered bytes, so a
      reassembled blob is exactly as long as the stored record says. */
  lemma OnBinaryKeepsConsistent(acc: Accumulator, chunk: seq<byte>)
    requires Consistent(acc)
    ensures Consistent(OnBinary(acc, chunk).0)
    ensures OnBinary(acc, chunk).1.Reassembled? ==>
      |OnBinary(acc, chunk).1.blob| == acc.receivedFile.value.size
  {
    TotalLengthAppend(acc.receiveBuffer, [chunk]);
  }

  /** With a record of size S stored and k consistent bytes buffered,
      non-empty chunks totalling S - k give exactly one reassembly, on the
      last chunk, equal to the buffered bytes followed by the chunks' bytes,
      and leave the buffer empty and the counter at 0. */
  lemma {:induction false} FeedCompletes(acc: Accumulator, chunks: seq<seq<byte>>)
    requires Consistent(acc) && acc.receivedFile.Some?
    requires chunks != []
    requires forall i :: 0 <= i < |chunks| ==> chunks[i] != []
    requires acc.receivedSize + TotalLength(chunks) == acc.receivedFile.value.size
    ensures Feed(acc, chunks) ==
      (Accumulator(acc.receivedFile, [], 0),
       Silents(|chunks| - 1) + [Reassembled(Flatten(acc.receiveBuffer) + Flatten(chunks))])
    decreases |chunks|
  {
    var next, out := OnBinary(acc, chunks[0]).0, OnBinary(acc, chunks[0]).1;
    OnBinaryKeepsConsistent(acc, chunks[0]);
    var rest := chunks[1..];
    if rest == [] {
      assert chunks == [chunks[0]];
      assert Flatten(chunks) == chunks[0];
      assert TotalLength(chunks) == |chunks[0]|;
      assert out == Reassembled(Flatten(acc.receiveBuffer) + Flatten(chunks));
      assert Feed(next, rest) == (next, []);
      assert [out] + [] == [out] == Silents(0) + [out];
    } else {
      assert rest[0] == chunks[1] && TotalLength(rest) >= |rest[0]| > 0;
      assert out == Silent;
      assert next.receivedSize == acc.receivedSize + |chunks[0]|;
      FeedCompletes(next, rest);
      var blob := Reassembled(Flatten(next.receiveBuffer) + Flatten(rest));
      assert Feed(acc, chunks).1 == [Silent] + (Silents(|rest| - 1) + [blob]);
      FlattenAppend(acc.receiveBuffer, [chunks[0]]);
      assert Flatten([chunks[0]]) == chunks[0];
      assert Flatten(next.receiveBuffer) + Flatten(rest)
          == Flatten(acc.receiveBuffer) + Flatten(chunks);
      assert [Silent] + (Silents(|rest| - 1) + [blob]) == Silents(|chunks| - 1) + [blob];
    }
  }

  /** Strict equality: once the count has passed the announced size, no later
      chunk completes the transfer and the count never comes back down. */
  lemma {:induction false} OvershootNeverCompletes(acc: Accumulator, chunks: seq<seq<byte>>)
    requires acc.receivedFile.Some? && acc.receivedSize > acc.receivedFile.value.size
    ensures forall i :: 0 <= i < |chunks| ==> Feed(acc, chunks).1[i] == Silent
    ensures Feed(acc, chunks).0.receivedSize >= acc.receivedSize
    ensures Feed(acc, chunks).0.receivedFile == acc.receivedFile
    decreases |chunks|
  {
    if chunks != [] {
      OvershootNeverCompletes(OnBinary(acc, chunks[0]).0, chunks[1..]);
    }
  }

  /** Without a stored record every chunk throws, yet each one is still
      buffered and counted, since the push and the count come first. */
  lemma {:induction false} NoRecordNeverCompletes(acc: Accumulator, chunks: seq<seq<byte>>)
    requires acc.receivedFile.None?
    ensures forall i :: 0 <= i < |chunks| ==> Feed(acc, chunks).1[i] == MissingRecord
    ensures Feed(acc, chunks).0 ==
      Accumulator(None, acc.receiveBuffer + chunks, acc.receivedSize + TotalLength(chunks))
    decreases |chunks|
  {
    if chunks != [] {
      NoRecordNeverCompletes(OnBinary(acc, chunks[0]).0, chunks[1..]);
      assert acc.receiveBuffer + [chunks[0]] + chunks[1..] == acc.receiveBuffer + chunks;
    }
  }

  /** Values always fall short of the announced size: nothing completes. */
  lemma {:induction false} ShortfallNeverCompletes(acc: Accumulator, chunks: seq<seq<byte>>)
    requires acc.receivedFile.Some?
    requires acc.receivedSize + TotalLength(chunks) < acc.receivedFile.value.size
    ensures forall i :: 0 <= i < |chunks| ==> Feed(acc, chunks).1[i] == Silent
    decreases |chunks|
  {
    if chunks != [] {
      ShortfallNeverCompletes(OnBinary(acc, chunks[0]).0, chunks[1..]);
    }
  }

  /** A new record does not clear the buffer, so bytes left over from an
      unfinished transfer stay counted: when the next file's chunks (in total
      no more than its announced size) arrive after such leftovers, its last
      chunk never completes a reassembly. Either the count overshoots, or it
      reaches the size early, on a blob made of the leftovers and a prefix of
      the new file, and what remains can no longer reach the size. */
  lemma {:induction false} LeftoverBytesSpoilNextTransfer(acc: Accumulator, chunks: seq<seq<byte>>)
    requires acc.receivedFile.Some?
    requires chunks != []
    requires forall i :: 0 <= i < |chunks| ==> chunks[i] != []
    requires TotalLength(chunks) <= acc.receivedFile.value.size
    requires acc.receivedSize + TotalLength(chunks) > acc.receivedFile.value.size
    ensures Feed(acc, chunks).1[|chunks| - 1] == Silent
    decreases |chunks|
  {
    var size := acc.receivedFile.value.size;
    var next := OnBinary(acc, chunks[0]).0;
    var rest := chunks[1..];
    assert TotalLength(chunks) == |chunks[0]| + TotalLength(rest);
    if rest == [] {
      assert Feed(next, rest) == (next, []);
    } else {
      assert Feed(acc, chunks).1[|chunks| - 1] == Feed(next, rest).1[|rest| - 1];
      assert rest[0] == chunks[1] && TotalLength(rest) >= |rest[0]| > 0;
      if acc.receivedSize + |chunks[0]| == size {
        ShortfallNeverCompletes(next, rest);
      } else {
        LeftoverBytesSpoilNextTransfer(next, rest);
      }
    }
  }

  /** Events handled one after another by a window's handlers `step`, with
      each one's outcome. */
  function Run(step: (Accumulator, Event) -> (Accumulator, Outcome), acc: Accumulator,
               events: seq<Event>): (r: (Accumulator, seq<Outcome>))
    ensures |r.1| == |events|
    decreases |events|
  {
    if events == [] then (acc, [])
    else
      var first := step(acc, events[0]);
      var rest := Run(step, first.0, events[1..]);
      (rest.0, [first.1] + rest.1)
  }

  lemma RunCons(step: (Accumulator, Event) -> (Accumulator, Outcome), acc: Accumulator,
                event: Event, events: seq<Event>)
    ensures Run(step, acc, [event] + events) ==
      var first := step(acc, event);
      var rest := Run(step, first.0, events);
      (rest.0, [first.1] + rest.1)
  {
  }

  /** `step` handles binary channel data with onChannelMessage's binary
      branch and leaves the buffer and the counter alone on every other
      event: the shape both versions of the page share. */
  ghost predicate SharesAccumulator(step: (Accumulator, Event) -> (Accumulator, Outcome)) {
    && (forall a: Accumulator, c: seq<byte> :: step(a, FromChannel(Bin(c))) == OnBinary(a, c))
    && (forall a: Accumulator, e: Event :: !(e.FromChannel? && e.data.Bin?) ==>
          && step(a, e).1 == Silent
          && step(a, e).0.receiveBuffer == a.receiveBuffer
          && step(a, e).0.receivedSize == a.receivedSize)
  }

  /** Every event such handlers see keeps the counter equal to the buffered
      bytes, and every blob they reassemble has the stored record's size. */
  lemma StepKeepsConsistent(step: (Accumulator, Event) -> (Accumulator, Outcome),
                            acc: Accumulator, ev: Event)
    requires SharesAccumulator(step) && Consistent(acc)
    ensures Consistent(step(acc, ev).0)
    ensures step(acc, ev).1.Reassembled? ==>
      acc.receivedFile.Some? && |step(acc, ev).1.blob| == acc.receivedFile.value.size
  {
    if ev.FromChannel? && ev.data.Bin? {
      OnBinaryKeepsConsistent(acc, ev.data.bytes);
    }
  }

  /** The counter equals the buffered bytes after any run of events. */
  lemma {:induction false} RunKeepsConsistent(step: (Accumulator, Event) -> (Accumulator, Outcome),
                                              acc: Accumulator, events: seq<Event>)
    requires SharesAccumulator(step) && Consistent(acc)
    ensures Consistent(Run(step, acc, events).0)
    decreases |events|
  {
    if events != [] {
      StepKeepsConsistent(step, acc, events[0]);
      RunKeepsConsistent(step, step(acc, events[0]).0, events[1..]);
    }
  }

  /** For handlers whose binary branch is onChannelMessage's, a run of binary
      messages on the data channel is the accumulator fed those chunks. */
  lemma {:induction false} RunBinary(step: (Accumulator, Event) -> (Accumulator, Outcome),
                                     acc: Accumulator, chunks: seq<seq<byte>>)
    requires forall a: Accumulator, c: seq<byte> :: step(a, FromChannel(Bin(c))) == OnBinary(a, c)
    ensures Run(step, acc, OnChannel(AsBinary(chunks))) == Feed(acc, chunks)
    decreases |chunks|
  {
    if chunks != [] {
      var evs := OnChannel(AsBinary(chunks));
      assert evs == [FromChannel(Bin(chunks[0]))] + OnChannel(AsBinary(chunks[1..]));
      RunCons(step, acc, FromChannel(Bin(chunks[0])), OnChannel(AsBinary(chunks[1..])));
      RunBinary(step, OnBinary(acc, chunks[0]).0, chunks[1..]);
    }
  }

  /** The module-level variables of one window. */
  class Receiver {
    var receivedFile: Option<FileMetadata>
    var receiveBuffer: seq<seq<byte>>
    var receivedSize: nat

    function State(): Accumulator
      reads this
    {
      Accumulator(receivedFile, receiveBuffer, receivedSize)
    }

    constructor ()
      ensures State() == Fresh
    {
      receivedFile := None;
      receiveBuffer := [];
      receivedSize := 0;
    }

    /** The binary branch of onChannelMessage, in place. */
    method Push(chunk: seq<byte>) returns (outcome: Outcome)
      modifies this
      ensures (State(), outcome) == OnBinary(old(State()), chunk)
    {
      receiveBuffer := receiveBuffer + [chunk];
      receivedSize := receivedSize + |chunk|;
      match receivedFile
      case None =>
        outcome := MissingRecord;
      case Some(meta) =>
        if receivedSize == meta.size {
          outcome := Reassembled(Flatten(receiveBuffer));
          receivedSize := 0;
          receiveBuffer := [];
        } else {
          outcome := Silent;
        }
    }

    /** `receivedFile = <record>`, in place. */
    method Store(meta: FileMetadata)
      modifies this
      ensures State() == StoreRecord(old(State()), meta)
      ensures receiveBuffer == old(receiveBuffer) && receivedSize == old(receivedSize)
    {
      receivedFile := Some(meta);
    }
  }
}
