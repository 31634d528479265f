# neqo: a verified model of the HTTP/3 core

This project models the parts of neqo in which bytes, frames, streams and settings have to fit together, and
proves what they are for. It has five parts.

- **Huffman strings** (`Huffman.dfy` and `HuffmanTable.dfy`, on top of `Bits.dfy`): the packing loop, the tree construction and the
  bit-by-bit decoder. The reference is one sentence, `IsEncoding`: the codes of the string, one after the other,
  then fewer than eight ones. The encoder produces that, and the decoder accepts exactly that, for every
  prefix-free table whose end-of-string code is thirty ones; the code of RFC 7541 is one.
- **The byte codec** (`Varint.dfy`, `Decoder.dfy`, `Buffers.dfy`, `Encoder.dfy`, `IncrementalDecoder.dfy`):
  varints, the in-place length prefix, buffers on a growing vector or in a fixed slice, and decoders that take
  their input in pieces.
- **The message pipeline**. `Frames.dfy` and `Messages.dfy` say what the bytes of a message stream mean, one byte
  at a time (`Messages.Run`). `FrameReader.dfy` and `RecvMessage.dfy` are the receiver, `BufferedSendStream.dfy`
  and `SendMessage.dfy` the sender, `Headers.dfy` the header checks, `Transport.dfy` the two ends of a QUIC
  stream. `Grammar.dfy` says which sequences of frames are messages, without any states, and that a receiver takes
  exactly those. `Pipeline.dfy` puts a sender and a receiver together: whatever the transport takes and delivers, and
  whatever buffers the application reads with, what was sent is what is received.
- **The connection**: SETTINGS, 0-RTT and resumption (`Settings.dfy`, `Negotiation.dfy`), the stream tables with
  the set of streams that have something to send, and GOAWAY (`StreamTables.dfy`, `Connection.dfy`), and priority
  updates on the control stream (`Priority.dfy`).
- **High-resolution timers** (`HrTime.dfy`): any number of handles and the one timer they share.

What changes in place in neqo is a class here, with a `Valid()` that every operation keeps; the ghost fields are
histories (bytes read, frames sent, ids accepted) that the real fields are proved to agree with. The environment
is a parameter: how many bytes the transport takes (`SendEnd.Allow`), what has arrived (`RecvEnd.Arrive`), whether
QPACK is blocked on a header block (`blocked`), what a header block means (`Config.decode`), the time a timer
handle asks for. Integers are unbounded, with the limits of the code written out where they matter (varints,
16-bit status codes, the QPACK limits, the conversion of durations through a byte).

Five things that the proofs show about the code:

- `send_data` takes the 9-byte frame header into account from 2^30 available bytes on, where the comment beside
  its constants says 2^30 + 8. In between the payload is up to four bytes short of what would fit
  (`SendMessages.ToSendLargest`, `SendMessages.ToSendShort`); everywhere else it is the largest that fits.
- A `SETTINGS` frame can be refused half-way, after the table capacity has been taken over and before the number
  of blocked streams has. After 0-RTT this leaves the encoder without the settings in force exactly if the frame is
  compatible, raises the capacity within its limit, and has too many blocked streams (`Negotiation.HalfWay`;
  `Negotiation.Negotiator.HandleSettings` has both directions, `Negotiation.HalfConfigured` is such a run). In
  every other state, also after any other error, the encoder is configured with the settings in force.
- A failing transport stream ends `send_non_control_streams` early, and the streams that were not served yet are
  then no longer queued. Sending fails for a stream that the transport does not know any more and that has bytes, or
  its end, to send (`SendMessages.Fails`). If no queued stream is such a stream, every message stays queued until it is
  drained. If a queued message is one, the round fails, and that message is left with its bytes and is not queued
  (`Connections.MessageDropped` is such a run). If only streams of sessions are, the round succeeds only if all of
  them have left the tables with their session before their turn (`Connections.FailedGone`); otherwise the messages
  that come later in the hash order are dropped (`Connections.CutShort`).
- Closing a message whose transport stream is gone, after all its bytes have been passed on, removes it without its
  end, and nobody is told (`Connections.Http3Connection.StreamCloseSend`).
- A priority update that is due when the control stream has been closed or is gone is taken from the queue and not
  sent (`Priorities.UpdateLost` is such a run); nothing is lost otherwise
  (`Priorities.ControlStreamLocal.SendPriorityUpdate`). The error closes the connection.

`dafny verify dfyconfig.toml` checks everything.

## Model

| member | source | states |
|---|---|---|
| Huffman.Encode | neqo-qpack/src/huffman.rs:118-161 | the output bits are the concatenated codes followed by fewer than eight ones |
| Huffman.EncodeOne | neqo-qpack/src/huffman.rs:122-152 | one symbol: the packed bits grow by exactly its code, whether it fits the free bits or not |
| Huffman.EncodeRest | neqo-qpack/src/huffman.rs:140-151 | the rest of a long code: whole bytes, then the top bits of the next one |
| Huffman.MakeTree | neqo-qpack/src/huffman_decode_helper.rs:26-61 | every path of the tree is a path of the table: leaves are exactly the codes, missing children start no code |
| Huffman.BitReader.ReadBit | neqo-qpack/src/huffman.rs:28-42 | the next bit of the input, most significant first, or the end, which it remembers |
| Huffman.BitReader.VerifyEnding | neqo-qpack/src/huffman.rs:44-61 | accepted exactly at the end of the input, with at most seven bits since the last symbol, all ones |
| Huffman.BitReader.HasMoreData | neqo-qpack/src/huffman.rs:63-65 | false exactly for an empty input and after the end was noticed |
| Huffman.DecodeCharacter | neqo-qpack/src/huffman.rs:90-112 | the symbol whose code comes next; or the end, if what is left is padding; or an error, if it is neither |
| Huffman.Decode | neqo-qpack/src/huffman.rs:78-88 | returns s for the one string s whose encoding the input is, and an error if there is none; terminates on every input |
| Huffman.DecodeEncoded | neqo-qpack/src/huffman.rs:78-161 | decode after encode is the identity |
| Huffman.EncodeDecoded | neqo-qpack/src/huffman.rs:78-161 | encode after a successful decode returns the same bytes, so over-long padding, zero bits in it and the end-of-string code are all refused |
| Huffman.EncodingUnique | neqo-qpack/src/huffman.rs:78-161 | two strings are equal exactly if their encodings are |
| HuffmanTables.Adjacent | neqo-qpack/src/huffman_table.rs:22-280 | the code is canonical and complete: in increasing order, each code begins where the one before it ends |
| HuffmanTables.PlaceInjective | neqo-qpack/src/huffman_table.rs:22-280 | no two of the 257 symbols share a code |
| HuffmanTables.SymbolsInOrder | neqo-qpack/src/huffman_table.rs:22-280 | among codes of one length the symbols are in increasing order, so the lengths alone give the code |
| HuffmanTables.TableValid | neqo-qpack/src/huffman_table.rs:22-280 | the code of RFC 7541 is bounded and prefix-free, and its end-of-string code is thirty ones |
| HuffmanTables.DecodeString | neqo-qpack/src/huffman.rs:78-88 | with this code: returns s for the one string s whose encoding the input is, and an error if there is none |
| HuffmanTables.RoundTrip | neqo-qpack/src/huffman.rs:78-161 | with this code: decoding an encoded string returns it, and a string has one encoding |
| Varint.VarintRoundTrip | neqo-common/src/codec.rs:151-177 | decoding an encoded varint, with anything behind it, returns the value and its size |
| Varint.ParsePrefix | neqo-common/src/codec.rs:151-177 | a varint is decided by its own bytes; fewer are not enough |
| Varint.Shortest | neqo-common/src/codec.rs:502-510 | no encoding of a value is shorter than the one `varint_len` announces |
| Varint.EncodedInFour | neqo-common/src/codec.rs:341-353 | the four-byte form is 0x80 plus the top byte, and then the other three |
| Decoders.Decoder.Decode | neqo-common/src/codec.rs:113-120 | the next n bytes, or none and no movement |
| Decoders.Decoder.DecodeN | neqo-common/src/codec.rs:122-137 | the big-endian value of the next n bytes, through a zero-padded eight-byte word |
| Decoders.Decoder.DecodeVarint | neqo-common/src/codec.rs:151-177 | three range checks and a mask agree with the reference decoder, and the offset moves by the announced size |
| Decoders.Decoder.DecodeVvec | neqo-common/src/codec.rs:186-207 | the bytes behind a varint length, and what is left after a failure, for every size of `usize` |
| Decoders.Decoder.SkipWhile | neqo-common/src/codec.rs:76-100 | the chunked scan skips exactly the leading bytes equal to the given one, for every alignment |
| Buffers.SliceBuffer.Truncate | neqo-common/src/codec.rs:740-746 | the fixed slice behaves like a vector; what is cut off is zeroed, and nothing behind it changes |
| Buffers.SliceBuffer.Rotate | neqo-common/src/codec.rs:759-762 | rotating part of the slice in place is rotating that part of the contents; nothing behind it changes |
| Buffers.Buffer.WriteAll | neqo-common/src/codec.rs:666-763 | both back ends append |
| Buffers.Buffer.PadTo | neqo-common/src/codec.rs:666-763 | both back ends extend to the length with the byte |
| Buffers.Buffer.RotateRight | neqo-common/src/codec.rs:666-763 | both back ends rotate the contents from `start` on |
| Encoders.Encoder.EncodeVarint | neqo-common/src/codec.rs:341-353 | the varint is appended, and nothing before the start of the encoder changes |
| Encoders.Encoder.EncodeVvec | neqo-common/src/codec.rs:422-424 | length and bytes are appended, and nothing before the start of the encoder changes |
| Encoders.Encoder.PadTo | neqo-common/src/codec.rs:476-481 | padded if shorter, else unchanged |
| Encoders.Encoder.Truncate | neqo-common/src/codec.rs:471-473 | cut if longer, else unchanged |
| Encoders.Encoder.EncodeVvecWith | neqo-common/src/codec.rs:431-468 | reserve, run the closure, put the length in front: refines inserting the varint length before what the closure wrote, nested calls included |
| Encoders.Encoder.RotateIn | neqo-common/src/codec.rs:452-467 | low byte in place, high bytes behind, rotate: the varint of the length stands before the block, for all four sizes |
| Encoders.Encoder.RunAll | neqo-common/src/codec.rs:276-482 | any run of calls that fits the buffer refines the same run on a byte sequence |
| Encoders.RoomIrrelevant | neqo-common/src/codec.rs:666-763 | a run that fits a fixed slice gives the same bytes as on a vector |
| Encoders.VvecWithIsVvec | neqo-common/src/codec.rs:422-468 | for an append-only closure, `encode_vvec_with` yields what `encode_vvec` yields for the bytes it wrote |
| Encoders.VvecRoundTrip | neqo-common/src/codec.rs:204-207 | decoding a length-prefixed block, with anything behind it, returns the block and leaves the rest |
| IncrementalDecoders.IncrementalDecoderUint.Consume | neqo-common/src/incrdecoder.rs:28-57 | takes exactly what is still needed or there; the value comes when the varint is complete, is the one-shot value, and stays below 2^62 |
| IncrementalDecoders.DecodeChunks | neqo-common/src/incrdecoder.rs:17-57 | for every way to cut the input, the value and the number of bytes used are those of decoding it whole |
| IncrementalDecoders.IncrementalDecoderBuffer.Consume | neqo-common/src/incrdecoder.rs:90-96 | the bytes arrive complete and in order, and no more are taken |
| IncrementalDecoders.IncrementalDecoderIgnore.Consume | neqo-common/src/incrdecoder.rs:121-126 | skips exactly the given number of bytes |
| Headers.TrackPseudo | neqo-http3/src/headers_checks.rs:68-89 | one step of the bit set: refused for a pseudo-header that is late, unknown or repeated |
| Headers.HeadersValid | neqo-http3/src/headers_checks.rs:97-175 | the single pass accepts exactly the lists that meet the declarative description `WellFormed` |
| Headers.StatusIsFirst | neqo-http3/src/headers_checks.rs:51-66 | in a well-formed response the only pseudo-header is the first field, `:status`, the one that `is_interim` reads |
| Headers.AnyBadNameByte | neqo-http3/src/headers_checks.rs:117-119 | finds exactly NUL, line feed, carriage return, a colon and upper-case letters |
| Headers.AnyBadValueByte | neqo-http3/src/headers_checks.rs:124-126 | finds exactly NUL, line feed and carriage return |
| Headers.ThreeDigits | neqo-http3/src/headers_checks.rs:51-66 | for a status of three digits: 101 is refused, any other one that starts with a 1 is informational, and the rest are not |
| Headers.OtherStatus | neqo-http3/src/headers_checks.rs:51-66 | refused without a status in front, with an empty one, and with a character that is not a digit, except for a plus sign in front |
| Headers.LargeStatus | neqo-http3/src/headers_checks.rs:51-66 | a number that does not fit 16 bits is refused; any other one from 200 on is final |
| Headers.PlusSign | neqo-http3/src/headers_checks.rs:51-66 | a plus sign in front of the number changes nothing |
| Headers.RetainedConcat | neqo-http3/src/recv_message.rs:155-198 | fields are kept or dropped one by one, in order |
| Headers.RetainedOne | neqo-common/src/header.rs:42-53 | a field is dropped exactly if it has one of seven names |
| Headers.AllRetained | neqo-http3/src/recv_message.rs:155-198 | a well-formed response without `host` and `te` fields loses nothing |
| Headers.OneDropped | neqo-http3/src/recv_message.rs:155-198 | and any other one loses exactly these |
| Headers.TrailersValid | neqo-http3/src/headers_checks.rs:183-190 | accepted exactly without pseudo-headers |
| Settings.HSettings.DecodeFrameContents | neqo-http3/src/settings.rs:145-215 | the loop computes the reference decoding of the remaining bytes, with its errors |
| Settings.EncodeFrameContents | neqo-http3/src/settings.rs:97-140 | the length-prefixed list of pairs, appended through an encoder on a vector, and nothing before its start changes |
| Settings.SettingsRoundTrip | neqo-http3/src/settings.rs:90-215 | for distinct types and legal values, encode then decode keeps every value that `get` returns |
| Settings.BadFrame | neqo-http3/src/settings.rs:145-215 | an identifier from 2 to 5, and a switch above one, are refused wherever they are in the frame |
| Settings.KnownPair | neqo-http3/src/settings.rs:145-215 | what each of the seven known identifiers stands for; of the two for datagrams the first that comes decides |
| Settings.UnknownPair | neqo-http3/src/settings.rs:145-215 | any other identifier is ignored |
| Settings.CutPair | neqo-http3/src/settings.rs:145-215 | a frame that ends within a pair is refused |
| Settings.BothDatagramIds | neqo-http3/src/settings.rs:97-140 | datagram support is announced under both identifiers |
| Settings.FromParametersLegal | neqo-http3/src/settings.rs:225-252 | the settings of a configuration are legal, and `get` returns its values |
| Settings.WebTransportAnnounced | neqo-http3/src/conn_params.rs:118-140 | WebTransport is announced exactly if everything that it needs is there |
| Settings.DefaultValues | neqo-http3/src/settings.rs:49-58 | a value that is missing means no limit, an empty table, or off |
| Settings.Check | neqo-http3/src/settings.rs:287-338 | computes the reference verdict on any token |
| Settings.AcceptedToken | neqo-http3/src/settings.rs:287-338 | accepted are exactly tokens of version 1 with well-formed settings, none of them above what the configuration announces |
| Settings.CheckSaved | neqo-http3/src/settings.rs:268-338 | on a saved configuration the check never fails, and accepts exactly if capacity and blocked streams did not shrink and WebTransport and datagrams were kept |
| Negotiation.Negotiator.SetQpackSettings | neqo-http3/src/connection.rs:1785-1790 | succeeds exactly within the limits of the encoder; the capacity sticks even if the second value is refused |
| Negotiation.Negotiator.SetZeroRttSettings | neqo-http3/src/connection.rs:462-472 | succeeds exactly if the streams can be opened and the settings are within the limits; then the remembered settings are in force, and the encoder is configured with them |
| Negotiation.Negotiator.EnableResumption | neqo-http3/src/connection_client.rs:429-462 | a token is accepted exactly at the beginning, if it parses, the transport takes it and, for 0-RTT, the streams can be opened and its settings are within the limits; its settings are then in force; each refusal has its error, and only a transport that shuts down closes the connection |
| Negotiation.Negotiator.CompareSettings | neqo-http3/src/connection.rs:1808-1848 | the loop accepts exactly compatible settings, and the first offending one decides the error |
| Negotiation.Negotiator.HandleSettings | neqo-http3/src/connection.rs:1792-1859 | the answer to every frame: accepted exactly once, within the limits of the encoder, and after 0-RTT if nothing shrank; each refusal has its error; the whole new state; a refused frame leaves the encoder with the remembered settings exactly if it is not refused half-way, and a second one does not touch it |
| Negotiation.Negotiator.HandleControlFrame | neqo-http3/src/connection.rs:1761-1783 | the answer to every frame: SETTINGS as above; before it all others are refused; after it GOAWAY, a priority update and the three push frames pass, and others are refused; frames that are not SETTINGS leave the settings and the encoder alone |
| Negotiation.Negotiator.HandleZeroRttAccepted | neqo-http3/src/connection.rs:614-624 | a server is in 0-RTT with no settings yet, even if the streams cannot be created |
| Negotiation.Negotiator.HandleConnected | neqo-http3/src/connection.rs:625-635 | connected, unless the control and QPACK streams still have to be created and cannot be |
| Negotiation.Negotiator.HandleZeroRttRejected | neqo-http3/src/connection.rs:658-683 | back to the beginning, in the 0-RTT state only |
| Negotiation.Negotiator.Run | neqo-http3/src/connection.rs:1761-1859 | over every run, with resumption, 0-RTT at either end, rejection, control frames, GOAWAY and a transport that closes: the state is the fold of the events, and the encoder has the settings in force unless a frame was refused half-way, which closes the connection; settings after 0-RTT are no smaller than the remembered ones, SETTINGS is accepted at most once per reset, others only after it |
| Negotiation.ClosingStays | neqo-http3/src/connection.rs:636-651 | no event takes a connection out of closing |
| Negotiation.SettingsStay | neqo-http3/src/connection.rs:1798-1859 | once received, the settings and the encoder's configuration stay, until 0-RTT is rejected |
| Negotiation.RefusedHalfWay | neqo-http3/src/connection.rs:1785-1859 | every SETTINGS frame that is refused half-way takes a resumed connection to a closing state in which the encoder does not have the remembered settings |
| Negotiation.HalfConfigured | neqo-http3/src/connection.rs:1785-1859 | a run with concrete settings that ends there |
| Negotiation.DecodeToken | neqo-http3/src/connection_client.rs:429-445 | the resumption token is parsed as the reference does |
| Negotiation.TokenRoundTrip | neqo-http3/src/connection_client.rs:407-445 | settings and transport token come out of a token as they went in |
| Negotiation.ClientAccepts | neqo-http3/src/connection.rs:1800-1857 | the resuming client accepts exactly if no value shrank and a capacity in use is unchanged |
| Negotiation.Resumed | neqo-http3/src/connection_client.rs:429-462 | a connection that resumes with any token within the limits lives exactly if the new settings are compatible with those in the token, and is then configured with the new ones; otherwise it closes |
| Negotiation.ResumedConnection | neqo-http3/src/connection_client.rs:407-462 | for the token that a connection to one configuration left, and a server that now has another: the resumed connection lives exactly if nothing that the client relied on was taken back, and then its encoder is configured for the server as it is now; otherwise it closes |
| Negotiation.ResumptionAgreement | neqo-http3/src/settings.rs:268-338 | what the client accepts passes the server's own check; the other way round exactly if the capacity was zero or is unchanged and Extended CONNECT is kept |
| Frames.ReadRunConcat | neqo-http3/src/frames/reader.rs:185-227 | reading a byte stream goes on where it stopped |
| FrameReaders.FrameReader.ConsumeType | neqo-http3/src/frames/reader.rs:235-275 | the type is complete, is reserved, or needs more bytes, as the bytes so far say |
| FrameReaders.FrameReader.FrameLengthDecoded | neqo-http3/src/frames/reader.rs:277-315 | DATA is announced, other known frames are buffered up to their limit, unknown ones skipped |
| FrameReaders.FrameReader.Consume | neqo-http3/src/frames/reader.rs:232-267 | a piece that is certainly needed changes the outcome only at its end, to what the bytes of the frame say |
| FrameReaders.FrameReader.Receive | neqo-http3/src/frames/reader.rs:185-227 | for every way in which the bytes arrive, the first frame or error of the byte stream, and no byte beyond it is read |
| Messages.RunConcat | neqo-http3/src/recv_message.rs:227-318 | the meaning of a stream does not depend on where it is cut |
| Messages.RunFrames | neqo-http3/src/recv_message.rs:227-318 | outside a body, a message stream means what its frames mean |
| Messages.RunGrows | neqo-http3/src/recv_message.rs:227-404 | reading on never takes back body or header sections |
| Messages.PartOfWhole | neqo-http3/src/recv_message.rs:360-404 | for every stream, what has been delivered after a part of it is a prefix of what the stream holds |
| Grammar.OtherReceived | neqo-http3/src/frames/hframe.rs:149-246 | a frame that is neither HEADERS nor DATA, by its number, payload and length: ignored, or refused with its error |
| Grammar.DataFrameReceived | neqo-http3/src/recv_message.rs:132-153 | a DATA frame adds its payload to the body after the final header section, and is refused before it and behind trailers |
| Grammar.AfterTrailers | neqo-http3/src/recv_message.rs:108-153 | behind the trailers HEADERS and DATA are refused, and nothing is added |
| Grammar.Accepted | neqo-http3/src/recv_message.rs:108-153 | from any point between two frames, exactly what may follow is taken |
| Grammar.AcceptedStream | neqo-http3/src/recv_message.rs:108-153 | a stream of frames is taken exactly if, but for ignored frames, it is informational sections, a final one, data, and at most one section of trailers, or a beginning of that, or starts an Extended CONNECT; the body is then what is in the DATA frames |
| RecvMessages.RecvMessage.WithFirstFrameType | neqo-http3/src/connection_server.rs:326-336 | a message of a server starts behind the type of its first frame |
| RecvMessages.RecvMessage.HandleFrame | neqo-http3/src/recv_message.rs:108-153 | each frame does in each state what the reference says, with its error |
| RecvMessages.RecvMessage.AddHeaders | neqo-http3/src/recv_message.rs:155-198 | a header section is checked, filtered and delivered as the reference says (`Headers.WellFormed`, `ThreeDigits`, `RetainedOne`); the end of the stream after an informational one is an error |
| RecvMessages.RecvMessage.SetStateToClosePending | neqo-http3/src/recv_message.rs:200-225 | the end of the stream is an error exactly before the header section |
| RecvMessages.RecvMessage.ReceiveInternal | neqo-http3/src/recv_message.rs:227-318 | the loop ends; the message is where the reference is after the bytes that were read, an error is due there, and it stops only for want of bytes, QPACK or the application, which is told exactly if there is something to read |
| RecvMessages.RecvMessage.Receive | neqo-http3/src/recv_message.rs:341-347 | the same, and whether the stream is closed |
| RecvMessages.RecvMessage.Fill | neqo-http3/src/recv_message.rs:371-381 | payload bytes go from the transport to the buffer and to the body, and no others |
| RecvMessages.RecvMessage.ReadData | neqo-http3/src/recv_message.rs:360-404 | the loop ends; what is written to the buffer is exactly what the body grows by; the end is reported once, in the call that closes, and only if nothing is missing; a buffer that is not full means that the transport ran dry |
| BufferedSendStreams.BufferedStream.SendBuffer | neqo-http3/src/buffered_send_stream.rs:66-84 | the prefix that the transport takes leaves the buffer; sent and buffered bytes together do not change |
| BufferedSendStreams.BufferedStream.SendAtomic | neqo-http3/src/buffered_send_stream.rs:105-121 | all of it behind what was buffered, or nothing; the answer for every buffer, room and state of the stream |
| BufferedSendStreams.BufferedStream.SendAtomicWith | neqo-http3/src/buffered_send_stream.rs:129-147 | the same, and the scratch space is empty again |
| SendMessages.ToSendFits | neqo-http3/src/send_message.rs:192-216 | from three available bytes on the frame fits, and carries something if there is something |
| SendMessages.ToSendLargest | neqo-http3/src/send_message.rs:204-216 | the payload is the largest that fits, except for 2^30 to 2^30 + 7 available bytes, where it is at most four short |
| SendMessages.ToSendShort | neqo-http3/src/send_message.rs:28-34 | and there it is short whenever there is more to send |
| SendMessages.DataLogged | neqo-http3/src/send_message.rs:183-229 | that function is the log: what was pending goes first and the frame follows |
| SendMessages.DataAccepted | neqo-http3/src/send_message.rs:183-229 | data goes behind what is there, an empty buffer stays empty, and nothing happens outside the data state |
| SendMessages.ViewsKeep | neqo-http3/src/send_message.rs:250-296 | sending and closing lose, add and reorder no byte, and pass on the end in the very step in which a finished message becomes empty, unless the stream is gone |
| SendMessages.SendMessage.NewHeaders | neqo-http3/src/send_message.rs:62-87 | which header section comes next, and which are refused; for a response the status decides (`Headers.ThreeDigits`) |
| SendMessages.SendMessage.SendHeaders | neqo-http3/src/send_message.rs:320-327 | a HEADERS frame is queued behind everything before it and the message goes on to the next state, exactly if a section of this kind is expected; otherwise nothing changes |
| SendMessages.SendMessage.SendData | neqo-http3/src/send_message.rs:183-229 | both atomic sends succeed; exactly the accepted prefix is in a DATA frame; nothing is accepted only if the buffer or the transport is full; an empty buffer is an error that leaves an empty frame; the new view of the message is a function of the old one, the room and the data |
| SendMessages.SendMessage.Send | neqo-http3/src/send_message.rs:250-266 | buffered bytes are passed on in order, and the end follows the last one of a finished message; fails, without a change, exactly if the stream is gone and there are bytes or the end to send |
| SendMessages.SendMessage.Commit | neqo-http3/src/send_message.rs:268-278 | succeeds exactly if everything queued has been passed on and the stream exists |
| SendMessages.SendMessage.Close | neqo-http3/src/send_message.rs:287-296 | possible once and after headers; the end is passed on at once if nothing is buffered, and if it is refused then the message is done but nobody is told |
| SendMessages.SendMessage.SendDataAtomic | neqo-http3/src/send_message.rs:308-316 | one DATA frame with all of the data is queued; refused exactly after the end or if the stream is gone |
| Pipeline.DataFrameRun | neqo-http3/src/send_message.rs:220-225 | the header that the sender writes is read back as a DATA frame of that length |
| Pipeline.HeadersFrameRun | neqo-http3/src/frames/hframe.rs:112-114 | a HEADERS frame is read back with its block if the block is at most 384 KiB, and refused otherwise |
| Pipeline.UnknownFrameIgnored | neqo-http3/src/frames/reader.rs:303-311 | between two frames, a frame of an unknown type changes nothing, whatever its payload |
| Pipeline.LogReceived | neqo-http3/src/recv_message.rs:108-404 | everything that a sender can have queued is received without error, as the same sections and body |
| Pipeline.StatusReceived | neqo-http3/src/recv_message.rs:155-198 | on both sides the status decides: 1xx other than 101 lets more header sections follow, 200 to 599 the body, and 101 is refused |
| Pipeline.SameListReceived | neqo-http3/src/recv_message.rs:155-198 | a response without `host` and `te` fields reaches the application as the very list that was sent |
| Pipeline.ShorterListReceived | neqo-http3/src/recv_message.rs:155-198 | any other one reaches it as the list without these fields |
| Pipeline.PrefixReceived | neqo-http3/src/recv_message.rs:108-404 | a receiver that has read a part has seen no error and has a part of the message |
| Pipeline.NeverFails | neqo-http3/src/recv_message.rs:227-318 | no error is ever due to a receiver of a sender's bytes, nor at their end |
| Pipeline.Link.Correct | neqo-http3/src/recv_message.rs:360-404 | in every reachable state of the two ends: a prefix of the accepted data has been delivered, and all of it once the receiver is closed |
| Pipeline.Link.Receive | neqo-http3/src/recv_message.rs:341-347 | the receiver never fails |
| Pipeline.Link.Read | neqo-http3/src/recv_message.rs:360-404 | reading never fails, returns the next bytes of the body, and reports the end only when everything was read; once the end has arrived, a buffer that is not filled means the end |
| Pipeline.Link.Finish | neqo-http3/src/recv_message.rs:341-404 | delivery completes: once everything has arrived and no header block has to wait, an application that goes on reading, with buffers of any size, gets the whole body and the end |
| Pipeline.FirstTypeRun | neqo-http3/src/connection_server.rs:316-336 | a receiver that starts with the first frame type is where one that has read it would be |
| Pipeline.Link.OpenAtServer | neqo-http3/src/connection_server.rs:316-336 | a link whose receiver is created after the first frame type was read is in the invariant, so all of the above holds for requests at a server |
| Pipeline.Link.SendData | neqo-http3/src/send_message.rs:183-229 | what is accepted is what the receiver will get |
| StreamTables.RemoveSendExplained | neqo-http3/src/connection.rs:1988-2004 | removing a stream takes it, or a session with its streams |
| StreamTables.RemoveRecvExplained | neqo-http3/src/connection.rs:1971-1986 | the same for the receiving side |
| StreamTables.SessionRemoved | neqo-http3/src/connection.rs:1936-2004 | whichever half of a session is removed, no stream of the session is left in the tables |
| StreamTables.OthersNotRemoved | neqo-http3/src/connection.rs:1936-2004 | and every other stream stays |
| Connections.Http3Connection.RemoveExtendedConnect | neqo-http3/src/connection.rs:1936-1969 | exactly the streams of the session leave the tables |
| Connections.Http3Connection.RemoveSendStream | neqo-http3/src/connection.rs:1988-2004 | the tables after the removal, early returns included |
| Connections.Http3Connection.RemoveRecvStream | neqo-http3/src/connection.rs:1971-1986 | the tables after the removal, early returns included |
| Connections.Http3Connection.AddStreams | neqo-http3/src/connection.rs:1862-1873 | a stream with something to send is queued |
| Connections.Http3Connection.SendNonControlStreams | neqo-http3/src/connection.rs:419-440 | if no queued stream fails, every queued message is served once, stays queued exactly while it has bytes left, and leaves the table with one FIN after the last byte; if a queued message fails, so does the round, and the message is left as it was, with bytes, and not queued; a stream of any kind that is still there after a successful round was served or is unchanged, and none of them would have failed; messages that are not queued are untouched |
| Connections.Interrupted | neqo-http3/src/connection.rs:420-440 | what an interrupted round did: each queued message was served, and is queued if it has bytes left, or is as it was and not queued |
| Connections.FailedIsLost | neqo-http3/src/connection.rs:420-440 | a message that failed is in the table with bytes that no later round sends |
| Connections.MessageDropped | neqo-http3/src/connection.rs:419-440 | a run that ends with a message that has bytes left and is not queued |
| Connections.Http3Connection.Drain | neqo-http3/src/connection.rs:419-440 | liveness: as many rounds as the longest queue has bytes, each taking at least a byte of every stream, empty the queue; every message has then been passed on completely, and every closed one has left with its FIN |
| Connections.RoundKeeps | neqo-http3/src/connection.rs:419-440 | through any such round a message keeps its bytes: it is in the table with all of them, or has left it with all of them and its FIN |
| Connections.Http3Connection.StreamCloseSend | neqo-http3/src/connection.rs:1188-1209 | a closed message is gone with its FIN, or without it if its stream is gone, or queued until it is drained |
| Connections.Http3Connection.StreamSendData | neqo-http3/src/connection_client.rs:654-673 | writing does to a message what the message itself does, with its errors and that of a transport stream that is gone, and keeps it queued or drained |
| Connections.Http3Connection.SendHeaders | neqo-http3/src/connection_server.rs:97-113 | a header section goes behind what the message has, accepted and with the next state as in the message itself, and queues the stream; nothing else changes |
| Connections.Http3Connection.CreateBidiTransportStream | neqo-http3/src/connection.rs:922-936 | a stream for a request or session is created exactly while connected or in 0-RTT, if the transport has one, and never after a GOAWAY |
| Connections.Http3Connection.Request | neqo-http3/src/connection.rs:902-997 | refused without a change unless the connection takes requests, the transport has a stream and the header section is valid; otherwise the message is in the tables with its header section queued or passed on, also if the first send fails, and nothing else changes |
| Connections.Http3Connection.HandleStreamStopSending | neqo-http3/src/connection.rs:589-603 | the sending side is removed, unless it is critical |
| Connections.Http3Connection.HandleStreamReset | neqo-http3/src/connection.rs:578-587 | the receiving side is removed |
| Connections.Http3Connection.HandleGoaway | neqo-http3/src/connection_client.rs:989-1065 | in numbers: refused exactly if the id is not a multiple of four, or larger than the last; on success every bidirectional id that is left, in both tables, is below it, every message below it stays, and every stream that is gone is one from the id on or belongs to such a session; accepted ids never increase |
| Priorities.UpdateFrameInjective | neqo-http3/src/frames/hframe.rs:129-137 | the frame determines stream and priority, with anything behind it |
| Priorities.TextRead | neqo-http3/src/priority.rs:77-99 | a reader of the field, written in bytes, gets the priority that was written |
| Priorities.UpdateFrameType | neqo-http3/src/frames/hframe.rs:129-137 | the frame starts with the type of RFC 9218 in four bytes |
| Priorities.PriorityHandler.MaybeUpdatePriority | neqo-http3/src/priority.rs:120-127 | an update is due exactly if the priority changes |
| Priorities.ControlStreamLocal.QueueUpdatePriority | neqo-http3/src/connection.rs:1879-1897 | a changed priority is in the queue, at its end |
| Priorities.ControlStreamLocal.SendPriorityUpdate | neqo-http3/src/control_stream_local.rs:56-87 | exactly the frames of the updates in the log are sent; what remains is in order and starts with an update that is due and has to wait, because bytes are buffered, the stream does not exist, or its frame does not fit; with room for all of them nothing remains; no stream whose priority differs from the last one sent is missing from the queue; it fails exactly if the stream has been closed or is gone and an update is due, and then the first such update has left the queue |
| Priorities.ControlStreamLocal.Send | neqo-http3/src/control_stream_local.rs:46-54 | buffered control data first, then the updates, with the same reasons to wait; fails exactly if the stream has been closed or is gone and there is something of either |
| Priorities.UpdateLost | neqo-http3/src/control_stream_local.rs:56-87 | a run that ends with an update that is due and not in the queue |
| Priorities.ControlStreamLocal.Drained | neqo-http3/src/control_stream_local.rs:41-87 | when the queue is empty, the last frame sent for each request carries its current priority |
| Priorities.ControlStreamLocal.Drain | neqo-http3/src/control_stream_local.rs:46-87 | liveness: with room for what is buffered and for one frame for each request that is due, one call empties the queue and the buffer, and the last frame sent for every request carries its priority |
| HrTime.FromMillisClamps | neqo-common/src/hrtime.rs:37-42 | the detour through a byte is a clamp to 1..16, and monotone |
| HrTime.PeriodSet.Add | neqo-common/src/hrtime.rs:56-60 | the counts are those of the live handles, with the new one |
| HrTime.PeriodSet.Remove | neqo-common/src/hrtime.rs:62-68 | the count is positive before it is taken down |
| HrTime.PeriodSet.Min | neqo-common/src/hrtime.rs:70-77 | the first count that is not zero |
| HrTime.FirstIsNeeded | neqo-common/src/hrtime.rs:70-77 | which is the smallest period of a live handle below the maximum, or none |
| HrTime.Smooth | neqo-common/src/hrtime.rs:180-189 | the one-pass loop finds the second smallest slot |
| HrTime.SecondSmallestUnique | neqo-common/src/hrtime.rs:180-189 | of which there is only one |
| HrTime.Time.Update | neqo-common/src/hrtime.rs:267-274 | the period in force is the one that is needed, and system calls are balanced |
| HrTime.Handle.Update | neqo-common/src/hrtime.rs:175-198 | one slot of the ring changes, the handle asks for the second smallest, and the shared timer follows |
| HrTime.Handle.UpdateAll | neqo-common/src/hrtime.rs:175-198 | whatever it asked for before, a handle that is updated eight times with the same period asks for that |
| HrTime.Thread.Get | neqo-common/src/hrtime.rs:290-305 | a new handle, and a new timer if there was none |
| HrTime.Thread.Drop | neqo-common/src/hrtime.rs:201-205 | the last handle takes the timer with it |
| HrTime.Thread.Correct | neqo-common/src/hrtime.rs:267-319 | over every run: the system has begun exactly the smallest period of a live handle below the maximum, once, and nothing if there is none |

## Left out

- The QUIC transport, TLS and packet handling: the two ends of a stream are modelled by what they accept and deliver.
- QPACK: a header block and its meaning are parameters; that the receiver decodes what the sender encoded is a condition of the composition (`Pipeline.Deliverable`), together with the size limit of the receiver.
- Frames.DecodePayload: does not parse the priority field of a PRIORITY_UPDATE frame, because the parser is an external library; such a frame on a message stream is an error anyway, with a different code if the field is malformed.
- Grammar.OtherReceived: for the same reason, a PRIORITY_UPDATE frame with a malformed field has the code of a well-formed one.
- Huffman.Decode: takes the decoding tree as an argument that represents the table; `HuffmanTables.DecodeString` has both.
- `Encoder::encode_vec_with`, `reserve` and `overwrite`: the first reserves too little in a non-empty encoder, the others record absolute positions; both only add members for special cases.
- Messages.RunFrames: the receiver ignores the contents of trailers, so nothing is stated about them.
- Extended CONNECT sessions: their streams are modelled as far as removing them needs it, not their contents, datagrams or events.
- RecvMessages.RecvMessage.Receive: does not model `reset` and `cancel_stream`; a stream that is reset leaves the tables (`Connections.Http3Connection.HandleStreamReset`).
- Connections.Http3Connection.SendNonControlStreams: the tables hold the view of each message (`SendMessages.SendView`) instead of the message object; `SendMessages.SendMessage.SendHeaders`, `SendData`, `Send` and `Close` are proved to change that view by the same functions. Which object a table entry aliases is not captured.
- HrTime.Time.Update: models the begin and end calls of Windows; on macOS a policy is set instead, elsewhere nothing is called.
- Events to the application: counts and lists instead of the event queue; the draining event of sessions is left out.
- `mtu`, `neqo-udp`, `neqo-bin`, qlog, logging, benches and fuzz targets: input and output only.
- The server's event plumbing, `connect_udp.rs` and header-list conversions: they would only add easy members.
