/** main.ts: the file's metadata travels as a window message
    (`{type: 'metadata', file: {name, size}}`) and is consumed by onSignaling;
    only the chunks travel on the data channel. */
module MainTs {
  import opened Protocol
  import opened Chunking
  import opened Reassembly

  /** What one inbound event does to the window's receiver state: a metadata
      window message stores the record, a binary channel message goes
      through the accumulator, and everything else leaves it alone (offer,
      answer and ICE only drive the peer connection; a string on the data
      channel is not an `object`). Only binary chunks touch the buffer and
      the counter, and only metadata touches the record. */
  function Dispatch(acc: Accumulator, ev: Event): (r: (Accumulator, Outcome))
    ensures !(ev.FromChannel? && ev.data.Bin?) ==>
      r.1 == Silent && r.0.receiveBuffer == acc.receiveBuffer && r.0.receivedSize == acc.receivedSize
    ensures !(ev.FromSignaling? && ev.signal.Metadata?) ==> r.0.receivedFile == acc.receivedFile
    ensures ev.FromSignaling? && ev.signal.Metadata? ==> r.0.receivedFile == Some(ev.signal.meta)
  {
    match ev
    case FromSignaling(Metadata(meta)) => (StoreRecord(acc, meta), Silent)
    case FromSignaling(_) => (acc, Silent)
    case FromChannel(Bin(bytes)) => OnBinary(acc, bytes)
    case FromChannel(Text(_)) => (acc, Silent)
  }

  /** onSignaling, as far as it concerns the transfer: only the `metadata`
      branch changes the receiver. */
  method OnSignaling(r: Receiver, msg: Signal)
    modifies r
    ensures r.State() == Dispatch(old(r.State()), FromSignaling(msg)).0
  {
    if msg.Metadata? {
      r.Store(msg.meta);
    }
  }

  /** This file's handlers run the shared accumulator, so StepKeepsConsistent
      and RunKeepsConsistent apply to them. */
  lemma DispatchSharesAccumulator()
    ensures SharesAccumulator(Dispatch)
  {
  }

  /** onChannelMessage: binary data is accumulated; strings are ignored. */
  method OnChannelMessage(r: Receiver, data: ChannelData) returns (outcome: Outcome)
    modifies r
    ensures (r.State(), outcome) == Dispatch(old(r.State()), FromChannel(data))
  {
    match data
    case Bin(bytes) =>
      outcome := r.Push(bytes);
    case Text(_) =>
      outcome := Silent;
  }

  /** sendMetadataToRemoteWindow: the message posted to the other window.
      Handled there by onSignaling, it replaces the stored record with the
      file's name and size and leaves the buffer and counter as they were. */
  function SendMetadataToRemoteWindow(file: ImageFile): (posted: Signal)
    ensures forall acc ::
              Dispatch(acc, FromSignaling(posted)) ==
              (acc.(receivedFile := Some(FileMetadata(file.name, |file.data|))), Silent)
  {
    Metadata(MetadataOf(file))
  }

  /** onInputChange: nothing is sent without a file or for a type that does
      not start with "image"; otherwise the metadata is posted on the
      signaling path and then sendImage puts the chunks on the data channel
      (none for an empty file, whose metadata has still been posted). */
  method OnInputChange(selected: Option<ImageFile>) returns (signaling: seq<Signal>, channel: seq<ChannelData>)
    ensures selected.None? || !IsImage(selected.value.mimeType) ==> signaling == [] && channel == []
    ensures selected.Some? && IsImage(selected.value.mimeType) ==>
      && signaling == [Metadata(MetadataOf(selected.value))]
      && channel == AsBinary(Chunks(selected.value.data))
    ensures selected.Some? && |selected.value.data| == 0 ==> channel == []
  {
    signaling, channel := [], [];
    match selected
    case None =>
    case Some(file) =>
      if IsImage(file.mimeType) {
        signaling := [SendMetadataToRemoteWindow(file)];
        var chunks := SendImage(file);
        channel := AsBinary(chunks);
      }
  }

  /** What the receiving window sees of one onInputChange. The two paths
      are not ordered with respect to each other; this trace takes the
      window message to be handled before the first chunk. */
  function Arrival(signaling: seq<Signal>, channel: seq<ChannelData>): seq<Event> {
    OnSignalingPath(signaling) + OnChannel(channel)
  }

  /** Round trip: a window with an empty accumulator (a fresh one, or one
      that has just completed a transfer) given the metadata and then the
      chunks of a non-empty image reassembles exactly once, on the last
      chunk, to the original bytes, and ends with the record stored, an empty
      buffer and a zero count. */
  lemma RoundTrip(acc: Accumulator, file: ImageFile)
    requires acc.receiveBuffer == [] && acc.receivedSize == 0
    requires |file.data| > 0
    ensures Run(Dispatch, acc, Arrival([Metadata(MetadataOf(file))], AsBinary(Chunks(file.data))))
         == (Accumulator(Some(MetadataOf(file)), [], 0),
             Silents(|Chunks(file.data)|) + [Reassembled(file.data)])
  {
    var meta := MetadataOf(file);
    var chunks := Chunks(file.data);
    var stored := Accumulator(Some(meta), [], 0);
    var evs := OnChannel(AsBinary(chunks));
    assert OnSignalingPath([Metadata(meta)]) == [FromSignaling(Metadata(meta))];
    RunCons(Dispatch, acc, FromSignaling(Metadata(meta)), evs);
    DispatchSharesAccumulator();
    RunBinary(Dispatch, stored, chunks);
    ChunksCount(file.data);
    ChunkLengths(file.data);
    ChunksTotal(file.data);
    ChunksRoundTrip(file.data);
    FeedCompletes(stored, chunks);
    assert Flatten(stored.receiveBuffer) + Flatten(chunks) == file.data;
    assert [Silent] + (Silents(|chunks| - 1) + [Reassembled(file.data)])
        == Silents(|chunks|) + [Reassembled(file.data)];
  }
}
