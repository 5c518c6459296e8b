# Chunked image transfer between two browser windows

Two browser windows open a WebRTC data channel to each other. When the user
picks an image in one window, that window announces the file's name and size.
It then streams the file's bytes as 16384-byte slices over the data channel.
The other window appends each binary message to a receive buffer and keeps a
running byte count. When the count equals the announced size, it joins the
buffer into one blob, displays it, and resets the buffer and count.

The repository has two versions of the page script:
- `main.ts` posts the metadata as a window message (`{type: 'metadata', file}`), and `onSignaling` stores it.
- `main.js` sends the metadata as a string on the data channel (`{type: 'metadata', fileMetadata}`), ahead of the chunks, and `onChannelMessage` stores it.

The two versions share the same `sendImage` and the same binary branch of
`onChannelMessage`. They differ only in where the metadata arrives from.

Modules:
- `Protocol` (protocol.dfy): bytes, the chunk size 16384, the file record, messages and events, and blob concatenation (`Flatten`).
- `Chunking` (chunking.dfy): `sendImage` as a loop over offsets (`SendImage`). It is proved equal to a reference definition of the chunk sequence (`Chunks`), with lemmas on chunk count, offsets, lengths and concatenation.
- `Reassembly` (reassembly.dfy): the receiver state (`receivedFile`, `receiveBuffer`, `receivedSize`). It appears as a value (`Accumulator`) with the pure step `OnBinary`, and as the class `Receiver`, whose methods update those fields in place.
- `MainTs` (main_ts.dfy) and `MainJs` (main_js.dfy): each file's event dispatch, its handlers over a `Receiver`, `onInputChange`, the metadata sender, and a round-trip theorem.

The outcome of one handled event is `Silent`, `Reassembled(blob)` (the blob
goes to `insertImage`) or `MissingRecord`. `MissingRecord` is the TypeError
thrown when `receivedFile.size` is read while no record has been stored. The
push and the count come before that read, so in the model the chunk is still
buffered and counted, as in the code.

Three behaviours of the code are worth knowing:
- An empty image still has its metadata sent. `sendImage` returns early only after the metadata has gone out (main.ts:124-125, main.js:92-93). See `MainTs.OnInputChange` and `MainJs.OnInputChange`.
- A new metadata record does not clear the buffer or the counter (main.ts:88-89, main.js:152-153). Bytes left over from an unfinished transfer stay counted. The next file is then never completed by its last chunk (`Reassembly.LeftoverBytesSpoilNextTransfer`).
- A chunk that arrives without a record, or that takes the count past the size, is not dropped. It is buffered and counted (`Reassembly.NoRecordNeverCompletes`). Past the size, strict equality never holds again (`Reassembly.OvershootNeverCompletes`).

## Model

| member | source | states |
|---|---|---|
| `Chunking.SendImage` | main.ts:149-171 | The slices sent are exactly `Chunks(file)`: none for an empty file; otherwise a slice at offset 0, then further slices at `offset + 16384` for as long as `size > offset + byteLength`. |
| `Chunking.ChunksRoundTrip` | main.ts:155-170 | Concatenating the chunks in send order gives back the file's bytes. |
| `Chunking.ChunksCount` | main.ts:161-162 | A file of N bytes is sent as ceil(N / 16384) chunks (`k*16384 >= N > (k-1)*16384`). |
| `Chunking.ChunkAt` | main.js:122-135 | Chunk i is `file[i*16384 .. min((i+1)*16384, size))`. So offsets start at 0, grow by exactly 16384, and the chunks go out in increasing offset order. |
| `Chunking.ChunkLengths` | main.js:121-132 | Every chunk holds between 1 and 16384 bytes, and every chunk except the last holds exactly 16384. |
| `Chunking.ChunksTotal` | main.js:126-128 | The chunks' byte lengths add up to the file size. |
| `Protocol.IsImage` | main.ts:122 | `file.type.startsWith('image')`: true exactly when the type is "image" followed by anything. |
| `Protocol.MetadataOf` | main.ts:110-113 | The `{name, size}` record both senders build, with `size` the file's byte count. The round-trip lemmas and the two metadata senders state what the receiver does with it. |
| `Chunking.Slice` | main.ts:167 | `file.slice(offset, offset + 16384)`: the bytes from `start` on, clipped at the end of the file, and empty when `start` is at or past the end. |
| `Protocol.Flatten` | main.ts:179 | `new Blob(receiveBuffer)`: the parts' bytes in order. Its length is the sum of the parts' byteLengths, which is what `receivedSize` counts. |
| `Reassembly.OnBinary` | main.js:139-147 | The binary branch of `onChannelMessage`. It keeps the record, and throws exactly when no record is stored. It completes exactly when the new count equals the record's size; the blob is then the buffered bytes followed by the chunk, and the buffer and counter are reset. Otherwise the chunk is appended and counted. |
| `Reassembly.StoreRecord` | main.js:152-153 | `receivedFile = <record>`: the record is replaced, the buffer and counter are unchanged, and the counter/buffer agreement survives. |
| `Reassembly.OnBinaryKeepsConsistent` | main.js:140-146 | A binary message keeps `receivedSize` equal to the sum of the buffered chunks' lengths, so a reassembled blob is exactly as long as the stored record's `size`. |
| `Reassembly.StepKeepsConsistent` | main.ts:173-185 | For any handler that runs the shared accumulator, one event keeps the counter equal to the buffered bytes, and every blob reassembled has the stored record's size. |
| `Reassembly.RunKeepsConsistent` | main.js:138-157 | For such a handler, the counter equals the buffered bytes after any run of events. |
| `Reassembly.FeedCompletes` | main.ts:173-185 | With a record of size S and k bytes buffered, non-empty chunks totalling S - k give exactly one reassembly, on the last chunk. It equals the buffered bytes followed by the chunks, and leaves an empty buffer and a zero count. |
| `Reassembly.OvershootNeverCompletes` | main.ts:178-183 | Once the count exceeds the announced size, no later chunk completes, because the test is strict equality. |
| `Reassembly.NoRecordNeverCompletes` | main.js:139-142 | Without a stored record every binary message ends in the TypeError, yet each chunk is still appended and counted. |
| `Reassembly.LeftoverBytesSpoilNextTransfer` | main.ts:88-89 | Because a new record keeps leftover bytes, a file whose chunks arrive after such leftovers is never completed by its last chunk. |
| `Reassembly.RunBinary` | main.js:138-148 | For handlers whose binary branch is `onChannelMessage`'s, a run of binary messages is the accumulator fed those chunks one by one. |
| `Reassembly.Receiver.constructor` | main.ts:22-24 | A window starts with no record, an empty buffer and a zero count. |
| `Reassembly.Receiver.Push` | main.ts:174-183 | The in-place binary branch updates the three fields and reports the outcome exactly as `OnBinary` does. |
| `Reassembly.Receiver.Store` | main.js:152-153 | `receivedFile` is replaced; the buffer and the counter are unchanged. |
| `MainTs.Dispatch` | main.ts:72-91 | Only binary channel data touches the buffer and counter. Only a `metadata` window message touches the record, and it sets the record to the message's record. |
| `MainTs.DispatchSharesAccumulator` | main.ts:173-185 | main.ts's handlers run the shared accumulator: binary data goes through `OnBinary`, and no other event touches the buffer or counter. So the consistency lemmas apply to them. |
| `MainTs.OnSignaling` | main.ts:88-90 | The handler changes the receiver state as `Dispatch` does for a window message. |
| `MainTs.OnChannelMessage` | main.ts:173-185 | The handler changes the receiver state and reports the outcome as `Dispatch` does for a channel message. Strings are ignored. |
| `MainTs.SendMetadataToRemoteWindow` | main.ts:109-115 | The posted message, handled by the other window, replaces its record with this file's name and size and nothing else. |
| `MainTs.OnInputChange` | main.ts:117-130 | Nothing is sent without a file or for a non-image type. Otherwise the metadata is posted, then exactly `Chunks(file)` go out as binary messages, which is none for an empty file. |
| `MainTs.RoundTrip` | main.ts:122-125 | A window with an empty accumulator, given the posted metadata and then the chunks of a non-empty image, reassembles exactly once, on the last chunk, to the original bytes. It ends with the record stored and an empty accumulator. |
| `MainJs.Dispatch` | main.js:138-157 | Only binary channel data touches the buffer and counter. Only a `metadata` string on the channel touches the record. Window messages and other strings change nothing. |
| `MainJs.DispatchSharesAccumulator` | main.js:138-157 | main.js's handlers run the shared accumulator: binary data goes through `OnBinary`, and no other event touches the buffer or counter. So the consistency lemmas apply to them. |
| `MainJs.OnChannelMessage` | main.js:138-157 | The handler changes the receiver state and reports the outcome as `Dispatch` does for a channel message. |
| `MainJs.SendMetadata` | main.js:76-82 | The string sent, handled by the other window, replaces its record with this file's name and size and nothing else. |
| `MainJs.OnInputChange` | main.js:84-100 | Nothing is sent without a file or for a non-image type. Otherwise the metadata string goes on the channel strictly before exactly `Chunks(file)` as binary messages, and is the only message for an empty file. |
| `MainJs.RoundTrip` | main.js:116-147 | On one channel, a window with an empty accumulator given one `onInputChange` trace of a non-empty image reassembles exactly once, on the last chunk, to the original bytes. It ends with the record stored and an empty accumulator. |

## Left out

- Peer-connection setup is not modelled: `createConnection`, `setChannel`, the offer, answer and ICE branches of `onSignaling`, `sendOfferToRemoteWindow` and `sendAnswerToRemoteWindow`. They only call the browser's `RTCPeerConnection` API. In the model those messages leave the receiver state alone, and their session descriptions and candidates carry no payload.
- Transport is reduced to sequences of messages: `window.postMessage`, `window.open`/`opener`, and the data channel's `send` and `readyState`. Sending on a channel that is not open is not modelled.
- `insertImage`, `onChannelStateChange` and `onChannelError` are DOM and logging only. A reassembled blob is reported as the outcome `Reassembled` instead of being displayed.
- `FileReader` and `setTimeout` are replaced by a plain loop. So the model does not capture two `sendImage` chains interleaving on the channel when a second file is picked during a transfer.
- `JSON.stringify` and `JSON.parse` are replaced by the message datatypes. A malformed string, or a `metadata` message without its `file`/`fileMetadata` field (which would store `undefined`), is not modelled.
- Sizes and counts are unbounded naturals. JavaScript numbers are exact only up to 2^53, a limit no file here reaches.
- MainTs.RoundTrip: assumes the metadata window message is handled before the first chunk. The window-message path and the data channel are not ordered with respect to each other, so the code itself does not guarantee this.
