/** main.js: the file's metadata travels on the data channel itself
    (`{type: 'metadata', fileMetadata: {name, size}}`), ahead of the chunks,
    and is consumed by onChannelMessage. */
module MainJs {
  import opened Protocol
  import opened Chunking
  import opened Reassembly

  /** What one inbound event does to the window's receiver state: binary
      channel data goes through the accumulator, a `metadata` string on the
      channel stores the record, and every other string, and every window
      message (onSignaling here has no `metadata` branch), leaves it alone.
      Only binary chunks touch the buffer and the counter, and only a
      metadata string on the channel touches the record. */
  function Dispatch(acc: Accumulator, ev: Event): (r: (Accumulator, Outcome))
    ensures !(ev.FromChannel? && ev.data.Bin?) ==>
      r.1 == Silent && r.0.receiveBuffer == acc.receiveBuffer && r.0.receivedSize == acc.receivedSize
    ensures !(ev.FromChannel? && ev.data.Text? && ev.data.msg.Metadata?) ==>
      r.0.receivedFile == acc.receivedFile
    ensures ev.FromChannel? && ev.data.Text? && ev.data.msg.Metadata? ==>
      r.0.receivedFile == Some(ev.data.msg.meta)
  {
    match ev
    case FromSignaling(_) => (acc, Silent)
    case FromChannel(Bin(bytes)) => OnBinary(acc, bytes)
    case FromChannel(Text(Metadata(meta))) => (StoreRecord(acc, meta), Silent)
    case FromChannel(Text(_)) => (acc, Silent)
  }

  /** This file's handlers run the shared accumulator, so StepKeepsConsistent
      and RunKeepsConsistent apply to them. */
  lemma DispatchSharesAccumulator()
    ensures SharesAccumulator(Dispatch)
  {
  }

  /** onChannelMessage: binary data is accumulated; a string whose type is
      `metadata` replaces the stored record; any other type is ignored. */
  method OnChannelMessage(r: Receiver, data: ChannelData) returns (outcome: Outcome)
    modifies r
    ensures (r.State(), outcome) == Dispatch(old(r.State()), FromChannel(data))
  {
    match data
    case Bin(bytes) =>
      outcome := r.Push(bytes);
    case Text(msg) =>
      if msg.Metadata? {
        r.Store(msg.meta);
      }
      outcome := Silent;
  }

  /** sendMetadata: the string put on the data channel. Handled by the other
      window's onChannelMessage, it replaces the stored record with the
      file's name and size and leaves the buffer and counter as they were. */
  function SendMetadata(file: ImageFile): (sent: ChannelData)
    ensures forall acc ::
              Dispatch(acc, FromChannel(sent)) ==
              (acc.(receivedFile := Some(FileMetadata(file.name, |file.data|))), Silent)
  {
    Text(Metadata(MetadataOf(file)))
  }

  /** onInputChange: nothing is sent without a file or for a type that does
      not start with "image"; otherwise the metadata string goes on the data
      channel strictly before the chunks sendImage sends after it (none for
      an empty file, whose metadata has still been sent). */
  method OnInputChange(selected: Option<ImageFile>) returns (channel: seq<ChannelData>)
    ensures selected.None? || !IsImage(selected.value.mimeType) ==> channel == []
    ensures selected.Some? && IsImage(selected.value.mimeType) ==>
      channel == [Text(Metadata(MetadataOf(selected.value)))] + AsBinary(Chunks(selected.value.data))
    ensures selected.Some? && IsImage(selected.value.mimeType) && |selected.value.data| == 0 ==>
      channel == [Text(Metadata(MetadataOf(selected.value)))]
  {
    channel := [];
    match selected
    case None =>
    case Some(file) =>
      if IsImage(file.mimeType) {
        channel := [SendMetadata(file)];
        var chunks := SendImage(file);
        channel := channel + AsBinary(chunks);
      }
  }

  /** Round trip on one channel: a window with an empty accumulator (a fresh
      one, or one that has just completed a transfer) given the channel trace
      of one onInputChange for a non-empty image reassembles exactly once, on
      the last chunk, to the original bytes, and ends with the record stored,
      an empty buffer and a zero count. */
  lemma RoundTrip(acc: Accumulator, file: ImageFile)
    requires acc.receiveBuffer == [] && acc.receivedSize == 0
    requires |file.data| > 0
    ensures Run(Dispatch, acc, OnChannel([Text(Metadata(MetadataOf(file)))] + AsBinary(Chunks(file.data))))
         == (Accumulator(Some(MetadataOf(file)), [], 0),
             Silents(|Chunks(file.data)|) + [Reassembled(file.data)])
  {
    var meta := MetadataOf(file);
    var chunks := Chunks(file.data);
    var stored := Accumulator(Some(meta), [], 0);
    var evs := OnChannel(AsBinary(chunks));
    assert OnChannel([Text(Metadata(meta))] + AsBinary(chunks))
        == [FromChannel(Text(Metadata(meta)))] + evs;
    RunCons(Dispatch, acc, FromChannel(Text(Metadata(meta))), evs);
    DispatchSharesAccumulator();
    RunBinary(Dispatch, stored, chunks);
    ChunksCount(file.data);
    ChunkLengths(file.data);
    ChunksTotal(file.data);
    ChunksRoundTrip(file.data);
    FeedCompletes(stored, chunks);
    assert Flatten(stored.receiveBuffer) + Flatten(chunks) == file.data;
    assert [Silent] + (Silents(|chunks| - 1) + [Reassembled(file.data)])
        == Silents(|chunks|) + [Reassembled(file.data)];
  }
}
