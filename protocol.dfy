/** Values exchanged by the two windows: file records, signaling messages,
    data-channel payloads, and the concatenation of chunk sequences that both
    the sender and the receiver rely on. */
module Protocol {

  /** One octet of an ArrayBuffer. */
  type byte = x: int | 0 <= x < 256

  /** The fixed slice length used by sendImage. */
  const ChunkSize: nat := 16384

  datatype Option<T> = None | Some(value: T)

  /** The `{name, size}` record announced before a file's chunks. */
  datatype FileMetadata = FileMetadata(name: string, size: nat)

  /** A picked browser File: its name, its MIME type and its bytes
      (`file.size` is the number of bytes). */
  datatype ImageFile = ImageFile(name: string, mimeType: string, data: seq<byte>)

  /** A parsed text message. Session descriptions and ICE candidates are
      opaque and carry no payload here. */
  datatype Signal = Offer | Answer | Ice | Metadata(meta: FileMetadata)

  /** What a data channel delivers: an ArrayBuffer or a JSON string. */
  datatype ChannelData = Bin(bytes: seq<byte>) | Text(msg: Signal)

  /** An inbound event at one window: a window message on the signaling path,
      or a message on the data channel. */
  datatype Event = FromSignaling(signal: Signal) | FromChannel(data: ChannelData)

  /** `file.type.startsWith('image')`: the type is "image" followed by
      anything, "image/png" and "image" alike. */
  predicate IsImage(mimeType: string): (r: bool)
    ensures r <==> exists rest :: mimeType == "image" + rest
  {
    if |mimeType| >= 5 && mimeType[..5] == "image" then
      assert mimeType == "image" + mimeType[5..];
      true
    else
      assert forall rest :: ("image" + rest)[..5] == "image";
      false
  }

  /** The record `{ name: file.name, size: file.size }` both senders build. */
  function MetadataOf(file: ImageFile): FileMetadata {
    FileMetadata(file.name, |file.data|)
  }

  /** The chunks of a sequence, each sent as one binary message. */
  function AsBinary(chunks: seq<seq<byte>>): (msgs: seq<ChannelData>)
    ensures |msgs| == |chunks|
    ensures forall i :: 0 <= i < |chunks| ==> msgs[i] == Bin(chunks[i])
  {
    if chunks == [] then [] else [Bin(chunks[0])] + AsBinary(chunks[1..])
  }

  /** Messages as they arrive on the data channel. */
  function OnChannel(msgs: seq<ChannelData>): (evs: seq<Event>)
    ensures |evs| == |msgs|
    ensures forall i :: 0 <= i < |msgs| ==> evs[i] == FromChannel(msgs[i])
  {
    if msgs == [] then [] else [FromChannel(msgs[0])] + OnChannel(msgs[1..])
  }

  /** Window messages as they arrive on the signaling path. */
  function OnSignalingPath(msgs: seq<Signal>): (evs: seq<Event>)
    ensures |evs| == |msgs|
    ensures forall i :: 0 <= i < |msgs| ==> evs[i] == FromSignaling(msgs[i])
  {
    if msgs == [] then [] else [FromSignaling(msgs[0])] + OnSignalingPath(msgs[1..])
  }

  /** `new Blob(parts)`: the parts' bytes, in order; its size is the sum of
      the parts' byteLengths. */
  function Flatten(parts: seq<seq<byte>>): (blob: seq<byte>)
    ensures |blob| == TotalLength(parts)
  {
    if parts == [] then [] else parts[0] + Flatten(parts[1..])
  }

  /** The sum of the parts' `byteLength`s. */
  function TotalLength(parts: seq<seq<byte>>): nat {
    if parts == [] then 0 else |parts[0]| + TotalLength(parts[1..])
  }

  lemma {:induction false} FlattenAppend(parts: seq<seq<byte>>, more: seq<seq<byte>>)
    ensures Flatten(parts + more) == Flatten(parts) + Flatten(more)
  {
    if parts == [] {
      assert parts + more == more;
    } else {
      assert (parts + more)[1..] == parts[1..] + more;
      FlattenAppend(parts[1..], more);
    }
  }

  lemma TotalLengthAppend(parts: seq<seq<byte>>, more: seq<seq<byte>>)
    ensures TotalLength(parts + more) == TotalLength(parts) + TotalLength(more)
  {
    FlattenAppend(parts, more);
  }
}
