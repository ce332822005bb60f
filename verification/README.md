# Verification of v2ray-core's multiplexing, chunk streams, routing and small state machines

A Dafny model of the parts of v2ray-core whose correctness is hardest to see from one function
at a time, with proofs that hold for every input, every interleaving and every reachable state.

* **Mux** (`Mux*.dfy`). Many sessions share one byte stream. `MuxSystem` is the step system of
  writers, link and receiver; `MuxSafety` proves isolation and order over all its runs, and
  `MuxComplete` that undisturbed runs deliver everything. `MuxFrame` is the frame codec with its
  exact domain, `MuxWriter` and `MuxWorker` are the imperative writer and demultiplexer over
  bytes, and `MuxRun` proves that the worker, reading bytes that arrive fragmented in any way,
  follows a run of the step system. `MuxEndToEnd` composes them: what is written at one end of a
  link arrives at the other, and `MuxClose` is about how sessions end. `MuxSessions` and `MuxPicker` are the session table and the choice
  of a connection.
* **Streams** (`Buffers`, `MultiBuffers`, `BufferedIO`, `ChunkStream`, `Auth*`, `ShakeSuite`,
  `OutOfTune`, `Nonces`, `AeadSuite`). Buffers and their content, and the plain chunk stream with
  its round trip under every fragmentation. For the authenticated stream `AuthStream` is the
  reader on whatever arrives, `AuthWriter` the writer with every draw it makes, `AuthWalk` and
  `AuthTune` say exactly when what was written comes out, `AuthDamage` what is left of a stream
  that was cut or damaged, and `AuthRoundTrip` composes both ends.
  `ShakeSuite` is the case of VMess, where sizes and padding share one stream of draws;
  `AeadSuite` and `Nonces` are the case where sizes are sealed too.
* **Routing** (`Masks`, `GeoIP`, `DomainLabels`, `DomainTrie`, `Matchers`, `RoutingRules`,
  `Conditions`, `Routing`). Rules as declared, the compiled indexes (sorted CIDR arrays with
  binary search, a trie of reversed labels on the heap), and the proof that the compiled router
  picks the first rule that holds as declared.
* **Machines** (`AntiReplay`, `DnsCache`, `DnsHistory`, `ServerPicker`, `BytesPool`). Four small
  stateful objects with guarantees over whole runs.

What changes step by step in the program is a class or a loop here, proved against a function or
a step relation; the theorems are about those. A property that the code does not have on all
inputs is given with the exact condition under which it has it, and an input on which it fails.

The AEAD is a pair of functions that are inverse under equal nonces; pools of the replay window
are exact sets; regular expressions, attribute programs, the parsing of IP literals, DNS lookups
and the validity of a server are functions passed in. Clocks, dispatch answers, refused writes,
dropped sessions, the slice a pool hands out and every split of a transport into reads are
parameters, and the contracts hold for all of them. A transport read returns data or an error,
never both.

Where code and documentation differ the code is followed. The index of a matcher is documented
never to be 0; it is a 32-bit counter that wraps (`Matchers.IdOf`). `Compact`, `WriteTo` and the
replay window have the exceptions listed in the table.

## Model

| member | source | states |
|---|---|---|
| `Buffers.ByteBuffer.Write` | common/buf/buffer.go:138-142 | appends to the window the part of the data that fits into the array and reports how much that was |
| `Buffers.ByteBuffer.WriteByte` | common/buf/buffer.go:145-152 | appends one byte exactly when the window does not reach the end of the array |
| `Buffers.ByteBuffer.Read` | common/buf/buffer.go:160-171 | the bytes returned and the bytes left are the old content; an empty buffer is at its end, an emptied one starts over at offset 0 |
| `Buffers.ByteBuffer.Advance` | common/buf/buffer.go:112-117 | moves the front of the window, counting a negative position from its end, for every position; the window stays one if and only if the new front is not beyond its ends |
| `Buffers.ByteBuffer.ReadFrom` | common/buf/buffer.go:174-178 | moving bytes between two buffers in place is the value operation ReadInto, and loses none of the bytes of the two |
| `Buffers.ByteBuffer.ReadFullFrom` | common/buf/buffer.go:181-190 | exactly the next `size` bytes of the reader go behind the window, or all there are; a size that does not fit is refused and then nothing is read |
| `MultiBuffers.SplitSize` | common/buf/multi_buffer.go:173-204 | the loop returns the cut described by SplitSizeSpec |
| `MultiBuffers.SplitSizePartitions` | common/buf/multi_buffer.go:173-204 | front and rest together are the content, the front has at most `size` bytes and is as long as whole buffers allow |
| `MultiBuffers.SplitSizeProgress` | common/buf/multi_buffer.go:173-204 | with room for one buffer, a cut of a non-empty multi-buffer takes bytes and leaves strictly fewer |
| `MultiBuffers.SplitSizeShrinks` | common/buf/multi_buffer.go:173-204 | a cut without bytes still takes a buffer with it |
| `MultiBuffers.SplitBytes` | common/buf/multi_buffer.go:100-123 | takes exactly the first min(n, total) bytes and leaves the rest |
| `MultiBuffers.Fill` | common/buf/multi_buffer.go:46-51 | spreads bytes over new buffers, all full except perhaps the last |
| `MultiBuffers.MergeBytes` | common/buf/multi_buffer.go:39-54 | appends the bytes to the content |
| `MultiBuffers.TopUp` | common/buf/multi_buffer.go:40-45 | the last buffer takes what it has room for, and is full if anything is left |
| `MultiBuffers.Compact` | common/buf/multi_buffer.go:137-158 | the loop computes CompactSpec; None is the panic on merging an empty buffer |
| `MultiBuffers.CompactKeepsContent` | common/buf/multi_buffer.go:137-158 | compacting keeps the content if and only if every merge fits behind the window it is merged into |
| `MultiBuffers.FreshBuffersFit` | common/buf/multi_buffer.go:137-158 | non-empty buffers that start at offset 0 always meet that condition |
| `MultiBuffers.CompactIsDense` | common/buf/multi_buffer.go:137-158 | any two neighbours of the result are together longer than 2048 bytes |
| `MultiBuffers.CompactCanLose` | common/buf/multi_buffer.go:137-158 | a concrete advanced buffer whose neighbour's bytes are lost |
| `BufferedIO.BufferedReader.BufferedBytes` | common/buf/reader.go:49-51 | the number of bytes held, never more than are left to read |
| `BufferedIO.BufferedReader.Read` | common/buf/reader.go:61-86 | what is returned plus what is left is what was left, for every fragmentation of the source |
| `BufferedIO.BufferedReader.ReadFull` | common/crypto/auth.go:119-121 | io.ReadFull takes exactly n bytes, and tells the end of the stream from a stream cut short, for every fragmentation |
| `BufferedIO.BufferedReader.ReadAtMost` | common/buf/reader.go:100-115 | returns the next bytes, at most `size` of them, and makes progress |
| `ChunkStream.SlicesCarryContent` | common/crypto/chunk.go:140-160 | the slices of a write are its content in order, none longer than 8192 bytes, none but the last with room for another buffer, and none empty unless the write is |
| `ChunkStream.WriteMultiBuffer` | common/crypto/chunk.go:140-160 | the wire bytes of a write are its slices, each behind its 16-bit length |
| `ChunkStream.ChunkStreamReader.ReadMultiBuffer` | common/crypto/chunk.go:95-126 | what is returned, consumed and still due of a chunk, also after the transport ended inside it, and when the reader is at its end or fails |
| `ChunkStream.ReadAll` | common/crypto/chunk.go:95-126 | reading until EOF yields the chunks before the terminator and stops right behind it |
| `ChunkStream.WriteAll` | common/crypto/chunk.go:140-160 | a series of writes and a final empty one put all slices and then one terminator on the wire |
| `ChunkStream.RoundTrip` | common/crypto/chunk.go:95-160 | for every fragmentation of the wire the reader returns exactly the bytes that were written |
| `MuxFrame.WriteTo` | common/mux/frame.go:63-90 | writes the length-prefixed metadata, and refuses only over-long domains |
| `MuxFrame.Unmarshal` | common/mux/frame.go:92-108 | consumes the length and the metadata it announces, and nothing else, for every fragmentation |
| `MuxFrame.AddressRoundTrip` | common/protocol/address.go:173-258 | an address is read back if and only if it is IPv4, unmapped IPv6, or a valid domain of 1 to 255 bytes that is no IP literal |
| `MuxFrame.MetaRoundTrip` | common/mux/frame.go:63-145 | metadata is read back if and only if its target can be represented |
| `MuxFrame.RepresentableIsWritten` | common/mux/frame.go:63-90 | metadata with a representable target is never refused |
| `MuxFrame.BodyLength` | common/mux/frame.go:97-99 | written metadata stays under the limit of 512 bytes |
| `MuxFrame.MetaLayout` | common/mux/frame.go:63-90 | what each byte on the wire is: length, id, status and option, and for a new session network, port and address, numbers big-endian |
| `MuxFrame.ParsedLayout` | common/mux/frame.go:110-145 | what is read is what those bytes say, and nothing else is accepted |
| `MuxFrame.MetaLimit` | common/mux/frame.go:92-108 | metadata of up to 512 bytes is read, longer metadata is refused before it is read |
| `MuxFrame.CharacterClasses` | common/protocol/address.go:154-165 | which bytes make a domain and which may begin an IP literal |
| `MuxFrame.UnmarshalUndoesWriteTo` | common/mux/frame.go:63-145 | reading what was written restores it and stops exactly behind it |
| `MuxFrame.DomainOf256IsLost` | common/protocol/address.go:241-252 | a 256-byte domain is written and cannot be read back |
| `MuxSystem.KeepBytes` | common/mux/writer.go:39-77 | a data frame of an open session on the link, byte by byte |
| `MuxSafety.FramesOfCarry` | common/mux/writer.go:39-110 | the frames of one write carry its payloads in order; only the first can open the session |
| `MuxSafety.StepKeeps` | common/mux/server.go:104-229 | every action of writers, closing writers, link, receiver and outside world keeps the session invariant |
| `MuxSafety.NotifyKeeps` | common/mux/server.go:163-180 | a closing End frame under any id, live or not, keeps the session invariant |
| `MuxSafety.RunKeeps` | common/mux/server.go:231-252 | so does every run |
| `MuxSafety.PayloadsAreGiven` | common/mux/writer.go:87-110 | the payloads of a writer are the bytes it was given, packet by packet for packet sessions |
| `MuxSafety.Isolation` | common/mux/server.go:111-229 | for every interleaving, closing End frames of the other end included, every output holds, in order, a prefix of what its own writer was given, and there are no other outputs |
| `MuxSafety.CompleteAtEnd` | common/mux/server.go:190-202 | a session still registered when the End frame of its own writer is next has received everything |
| `MuxSafety.NewOnlyOnce` | common/mux/writer.go:39-53 | no second New frame arrives for a session |
| `MuxSafety.DroppedIsFinal` | common/mux/server.go:157-188 | a dropped session's output never grows again, whatever still arrives |
| `MuxClose.EndBytes` | common/mux/writer.go:112-126 | a close is exactly six bytes on the link, and the error bit is set exactly for a writer that failed |
| `MuxClose.EndsTellTheTruth` | common/mux/writer.go:112-126 | in every run an End frame that a writer put on the link has the error bit if and only if that writer was closed with an error, and a closing notice never has it |
| `MuxClose.EndedForGood` | common/mux/server.go:190-202 | once an End frame is received for a session nothing is ever delivered to it again |
| `MuxComplete.StepWhole` | common/mux/server.go:104-229 | every action without refusal, closing notice or early drop keeps each output equal to all that was read for it, and the session registered until its End |
| `MuxComplete.EverythingArrives` | common/mux/server.go:111-229 | in every such run, once all frames are handled each output holds exactly what its writer was given |
| `MuxWorker.PacketReader.ReadMultiBuffer` | common/mux/reader.go:26-48 | returns one packet and consumes exactly its length and bytes, then EOF |
| `MuxWorker.CopyPacket` | common/mux/reader.go:26-48 | a packet reaches the output whole or not at all, and is consumed in both cases |
| `MuxWorker.CopyStream` | common/mux/reader.go:50-52 | copies a prefix of the chunk to the output; after a refused write the rest can still be drained |
| `MuxWorker.Discard` | common/mux/server.go:104-109 | consumes exactly the payload |
| `MuxWorker.CopyToSession` | common/mux/server.go:171-187 | whatever the output accepts, the reader ends behind the payload |
| `MuxWorker.Worker.HandleKeepAlive` | common/mux/server.go:104-109 | leaves the reader at the next frame |
| `MuxWorker.Worker.HandleEnd` | common/mux/server.go:190-202 | unregisters the session if known, interrupts it exactly if the error bit is set, and leaves the reader at the next frame |
| `MuxWorker.Worker.HandleKeep` | common/mux/server.go:157-188 | the known, unknown and failing session cases all leave the reader at the next frame, and the state is the one the step system allows |
| `MuxWorker.Worker.HandleNew` | common/mux/server.go:111-155 | registers the session with its output, or fails on a refused dispatch |
| `MuxWorker.Worker.HandleFrame` | common/mux/server.go:204-229 | on every frame a writer can emit the reader ends exactly at the next header and the worker has made the step of the model |
| `MuxRun.RunFits` | common/mux/writer.go:39-126 | every frame of every run is one the byte format can carry |
| `MuxRun.Round` | common/mux/server.go:204-229 | one frame handled by the worker is one receive action of the step system |
| `MuxRun.Run` | common/mux/server.go:231-252 | the worker's loop follows a run of the step system through all frames the link took, or to a refused dispatch |
| `MuxRun.Demultiplex` | common/mux/server.go:231-252 | from the bytes of the first frames that the link took, fragmented in any way, on either end every session gets a prefix of what its own writer was given, and all of it when nothing is refused or dropped; only sessions whose writers were closed with an error are interrupted |
| `MuxWriter.ImagesAreWire` | common/mux/writer.go:64-77 | the writes to the link, one for each frame, are together the wire bytes of the frames |
| `MuxWriter.Writer.Put` | common/mux/writer.go:55-85 | one frame goes to the link as one write, whole or not at all |
| `MuxWriter.WrittenTakes` | common/mux/writer.go:64-77 | a link that begins to refuse holds the first writes whole and none after them |
| `MuxWriter.Writer.WriteMultiBuffer` | common/mux/writer.go:87-110 | the loop sends exactly the frames of the model, or those before the first that the link refuses or the format cannot carry |
| `MuxWriter.Writer.Close` | common/mux/writer.go:112-126 | sends the six bytes of the End frame, with the error bit if and only if a write had failed, unless the link refuses |
| `MuxEndToEnd.CallRuns` | common/mux/writer.go:39-126 | what one call on a writer puts on the link is a run of the step system, and leads to the sessions the call describes |
| `MuxEndToEnd.Multiplex` | common/mux/writer.go:39-126 | any sequence of opening, writing, closing and refusing by the writers of one link leaves there the wire of a run of the step system, or as much of it as the link took before it began to refuse |
| `MuxEndToEnd.EndToEnd` | common/mux/server.go:231-252 | writers, one link that may begin to refuse anywhere and is cut into reads in any way, and the worker at its other end: every output is in order a prefix of what its own session was given, and all of it when nothing is refused or dropped; only a session that was finished with an error is interrupted |
| `MuxSessions.RunKeeps` | common/mux/session.go:46-136 | every run of allocations, additions and closings keeps the table numbered, counted and sound |
| `MuxSessions.IdsAreFresh` | common/mux/session.go:46-73 | ids given out are never reissued while at most 65536 sessions were registered; if all were allocated here, if and only if |
| `MuxSessions.TableIsSound` | common/mux/session.go:46-152 | in every run keys are ids and, below 65536 sessions, size never exceeds count; while ids differ, closing a session, even twice, removes no other |
| `MuxSessions.ReissuedIdIsHazardous` | common/mux/session.go:46-88 | a run of 65537 allocations after which closing the first session again removes the live one that got its id |
| `MuxSessions.IssueMany` | common/mux/session.go:46-61 | a manager issues as many sessions as it is asked for, numbered in order |
| `MuxSessions.ClosedIsFinal` | common/mux/session.go:118-136 | a closed manager never holds or issues a session again |
| `MuxSessions.ClosingIsFinal` | common/mux/session.go:102-135 | after any run, closing the table, or closing it when it is empty, leaves it closed and empty whatever follows, and no session is issued any more |
| `MuxSessions.ComesIn` | common/mux/session.go:46-73 | until then a session that is allocated or added is found under its id, and no other entry changes |
| `MuxSessions.CloseAndAsk` | common/mux/session.go:118-135 | after Close a manager issues no session and finds none |
| `MuxSessions.AddAndAsk` | common/mux/session.go:63-100 | an open manager finds the session it was given until that is removed |
| `MuxSessions.SessionManager.AllocateSession` | common/mux/session.go:46-61 | is the Allocate step, and null if and only if the manager is closed |
| `MuxSessions.SessionManager.Add` | common/mux/session.go:63-73 | is the AddSession step |
| `MuxSessions.SessionManager.Remove` | common/mux/session.go:75-88 | is the Remove step |
| `MuxSessions.SessionManager.Get` | common/mux/session.go:90-100 | returns the registered session, and nothing once closed |
| `MuxSessions.SessionManager.CloseIfEmpty` | common/mux/session.go:102-116 | closes an empty manager and no other; says whether it is closed |
| `MuxSessions.SessionManager.Close` | common/mux/session.go:118-136 | is the CloseAll step; every registered session has its input and output closed |
| `MuxSessions.Close` | common/mux/session.go:147-153 | closes the input and output of the session and removes its id from the parent |
| `MuxPicker.ClientWorker.Dispatch` | common/mux/client.go:269-303 | a session is opened if and only if the worker is neither done nor at one of its two limits, and the limits are kept |
| `MuxPicker.BoundedIdsAreFresh` | common/mux/client.go:269-275 | a connection limit below 65536 keeps the ids of a worker distinct |
| `MuxPicker.IncrementalWorkerPicker.FindAvailable` | common/mux/client.go:76-84 | the first worker that is not full, or -1 if there is none |
| `MuxPicker.IncrementalWorkerPicker.Cleanup` | common/mux/client.go:66-74 | keeps exactly the workers that are not done, in their order |
| `MuxPicker.LiveMembers` | common/mux/client.go:66-74 | the kept workers are those that are not done |
| `MuxPicker.IncrementalWorkerPicker.PickAvailable` | common/mux/client.go:86-124 | swaps the first worker that is not full to the end and returns the one that was there; creates only when none is available |
| `MuxPicker.Dispatch` | common/mux/client.go:28-40 | opens a session within two picks whenever some worker is not full, creates no worker then, keeps the multiset of workers and touches no other session table |
| `Nonces.NthValue` | common/crypto/auth.go:29-40 | the k-th nonce is the little-endian number start + k modulo 256^length |
| `Nonces.NoncesRepeat` | common/crypto/auth.go:29-40 | two nonces are equal if and only if a multiple of 256^length lies between them |
| `Nonces.NoncesAreDistinct` | common/crypto/auth.go:29-40 | the first 256^length nonces are pairwise distinct, as section 3.1 of RFC 5116 requires |
| `Nonces.InitialNonce` | common/crypto/auth.go:42-44 | the all-ones initial nonce first yields zero |
| `Nonces.NonceGenerator.Next` | common/crypto/auth.go:29-40 | call number k returns the k-th nonce, for every k |
| `AuthStream.AuthenticationReader.ReadInternal` | common/crypto/auth.go:148-199 | does what the reference step ReadChunk says, whatever is on the wire: wrong sizes, swallowed failures and the end included; in soft mode it may give up instead, and then nothing is lost |
| `AuthStream.ParkedWalks` | common/crypto/auth.go:170-175 | a size that was parked changes nothing in what is read in the end |
| `AuthStream.AuthenticationReader.ReadMultiBuffer` | common/crypto/auth.go:201-221 | hands out the beginning of what there is to read, at most 16 chunks, small ones each in a buffer of its own, and the rest is still to be read; an error is that of the chunk it belongs to |
| `AuthStream.ReadAll` | common/crypto/auth.go:114-221 | for every fragmentation of whatever arrives, reading until something ends it ends with the error of the reference walk, and at EOF with its pieces and its final state |
| `AuthWalk.WalksAll` | common/crypto/auth.go:114-221 | if every chunk is read as it was written, all texts come out, and then the end with the reader in step right behind the size of the terminator |
| `AuthWalk.Bounded` | common/crypto/auth.go:148-199 | if nothing opens but what was sealed, a reader that ends with as many nonces used as texts were sent gets from wherever it stands no more bytes than the texts it has nonces left for |
| `AuthWalk.MustWalk` | common/crypto/auth.go:114-221 | then a reader that gets everything and ends in step has read every chunk as it was written |
| `AuthDamage.WalkThrough` | common/crypto/auth.go:148-199 | chunks that are read as they were written come out, whatever is behind them |
| `AuthDamage.LargeDamageIsFatal` | common/crypto/auth.go:183-194 | a stream that is cut inside a chunk larger than a buffer, or whose such chunk does not open, ends with an error, for any draws, and only what was before it is handed out |
| `AuthDamage.OneTextIsMissing` | common/crypto/auth.go:174-181 | of a stream in which a chunk that fits into a buffer does not open exactly that text is missing |
| `AuthDamage.SmallCutShort` | common/crypto/auth.go:174-181 | a stream cut inside such a chunk ends as the transport does, without its text and without having met the end |
| `AuthDamage.CutInSize` | common/crypto/auth.go:119-121 | a transport that ends where a size should be is an end of file, in the middle of one an error |
| `AuthDamage.BadSize` | common/crypto/auth.go:158-161 | a size that cannot be decoded is an error |
| `AuthDamage.CutBelowZero` | common/crypto/auth.go:132-146 | a padding length of more than twice the size breaks the bounds of the buffer |
| `AuthDamage.ReadLargeDamage` | common/crypto/auth.go:183-194 | the reader reports the error of such a stream for every fragmentation |
| `AuthDamage.ReadCutShort` | common/crypto/auth.go:183-187 | in particular for a size above 2048 and fewer bytes behind it |
| `AuthDamage.ReadSmallDamage` | common/crypto/auth.go:174-181 | the reader hands out all other texts and reports the end |
| `AuthWriter.AuthenticationWriter.Seal` | common/crypto/auth.go:244-270 | one chunk with its size, sealed text and padding, and the draws used up; a refusal uses up a padding length and nothing else |
| `AuthWriter.AuthenticationWriter.WriteStream` | common/crypto/auth.go:272-305 | the wire bytes of a write are chunks of non-empty pieces, none refused, that carry its content; all but the last fill a buffer |
| `AuthWriter.AuthenticationWriter.WritePacket` | common/crypto/auth.go:307-331 | the wire bytes are the chunks of the non-empty packets that fit, and the generators stand where refused and accepted packets have brought them |
| `AuthWriter.AuthenticationWriter.WriteMultiBuffer` | common/crypto/auth.go:333-345 | an empty write seals the one empty chunk; any other is written as a stream or as packets |
| `AuthWriter.ChunksConcat` | common/crypto/auth.go:307-331 | two writes in a row put the chunks of both lists of packets on the wire |
| `AuthTune.SuitsReads` | common/crypto/auth.go:114-146 | a chunk is read as it was written if and only if its size is unmasked right and the expected padding is the real one, or is longer by just what the negative bound of the cut takes back |
| `AuthTune.TunedWalks` | common/crypto/auth.go:114-331 | the condition Tuned on the draws says exactly that every chunk and the terminator are read as they were written, after any refusals |
| `AuthTune.TunedDelivers` | common/crypto/auth.go:114-331 | in tune, all packets that were not refused come out one by one, and then the end |
| `AuthTune.DeliveredIsTuned` | common/crypto/auth.go:114-331 | only in tune, unless something opens that was not sealed |
| `AuthTune.UnrefusedIsTuned` | common/crypto/auth.go:114-331 | without a refusal both ends are in tune |
| `AuthTune.SteadyIsTuned` | common/crypto/auth.go:124-127 | without padding, or with padding of one length drawn apart from the sizes, both ends are in tune whatever is refused, and what is sent are exactly the packets that fit |
| `AuthRoundTrip.WriteAll` | common/crypto/auth.go:272-345 | a series of writes and a final empty one make one stream of chunks and its terminator, for streams and for packets with any refusals |
| `AuthRoundTrip.RoundTrip` | common/crypto/auth.go:114-345 | for every fragmentation of the wire the reader returns exactly the bytes written and then is at the end |
| `AuthRoundTrip.PacketRoundTrip` | common/crypto/auth.go:114-345 | for all packets, refused ones anywhere among them, and every fragmentation: the packets sent arrive, each in its own buffer, with the reader in step at the end, if both ends are in tune; and only if, unless something opens that was not sealed |
| `AuthRoundTrip.UnrefusedRoundTrip` | common/crypto/auth.go:114-345 | if no packet is refused, exactly the non-empty packets arrive |
| `AuthRoundTrip.SteadyRoundTrip` | common/crypto/auth.go:114-345 | with no or steady padding exactly the non-empty packets that fit arrive, whatever else is written |
| `ShakeSuite.XorUndone` | proxy/vmess/encoding/auth.go:98-109 | one mask uncovers what another hid if and only if they are equal |
| `ShakeSuite.ShakeIsIdeal` | proxy/vmess/encoding/auth.go:79-119 | sizes masked and padding drawn from one stream meet every assumption of the stream proof |
| `ShakeSuite.ShakeTuned` | proxy/vmess/encoding/auth.go:93-119 | for sizes and padding from one stream of draws, in tune is a condition on the draws alone, for refusals at any place |
| `ShakeSuite.ShakeRoundTrip` | proxy/vmess/encoding/client.go:145-152 | packets over such a stream arrive if that condition holds, and only if, unless something opens that was not sealed |
| `ShakeSuite.LostAfterRefusal` | proxy/vmess/encoding/auth.go:93-119 | draws 5, 5, 128: a packet behind a refused one is lost without an error, with any AEAD of 16 bytes, although it has the padding the reader expects |
| `OutOfTune.UnforgedAndOutOfTune` | common/crypto/auth.go:307-331 | a concrete stream on which nothing opens but what was sealed, and both ends are out of tune |
| `AeadSuite.SizeRoundTrip` | common/crypto/chunk.go:43-64 | a sealed size opens to itself |
| `AeadSuite.SealedSizeIsLength` | common/crypto/chunk.go:51-56 | the sealed size of a chunk opens to the length of its text in two bytes, without the overhead |
| `AeadSuite.NoncesInTurn` | common/crypto/auth.go:42-44 | from the initial nonce, chunk k seals its size with the number 2k and its text with 2k + 1 |
| `AeadSuite.ChunkOnWire` | common/crypto/chunk.go:51-56 | a chunk on the wire is its sealed length followed by its sealed text |
| `AeadSuite.SharedSuiteIsIdeal` | proxy/shadowsocks/config.go:173-196 | one nonce generator shared by sizes and payloads meets every assumption of the stream proof |
| `AeadSuite.StreamNoncesAreDistinct` | common/crypto/chunk.go:43-64 | no nonce serves two seals of one stream, sizes and payloads together, before the counter wraps |
| `Masks.MaskIsShift` | app/router/condition_geoip.go:25-27 | the mask of the model is the shift right and left of the code |
| `GeoIP.LessThan` | app/router/config.go:20-43 | the byte loop decides the order Less |
| `GeoIP.LessIsNumeric` | app/router/config.go:20-43 | Less compares length, then the address as a number, then the prefix |
| `GeoIP.Sort` | app/router/condition_geoip.go:55-56 | a sorted permutation |
| `GeoIP.WordsAreNumbers` | app/router/condition_geoip.go:115-117 | less6 and equality on word pairs are those of 128-bit numbers |
| `GeoIP.Normalize6Masks` | app/router/condition_geoip.go:29-37 | normalize6 masks the 128-bit number |
| `GeoIP.WordsOfBytes` | app/router/condition_geoip.go:71-74 | two words read from 16 bytes are one big-endian number |
| `GeoIP.SortedMeansOrdered` | app/router/condition_geoip.go:55-80 | sorting before normalising leaves the blocks of a stepped list in order |
| `GeoIP.ApartIsStepped` | app/router/condition_geoip.go:55-80 | disjoint CIDRs are stepped |
| `GeoIP.SearchFinds` | app/router/condition_geoip.go:85-113 | a hit of the binary search is justified by a block; if no block begins or ends before an earlier one it hits if and only if a block holds the address |
| `GeoIP.SearchIsExact` | app/router/condition_geoip.go:85-113 | however many blocks there are and however they lie, the search is right for all addresses if and only if they are Searchable: no place where a search ends leaves addresses of a block between the probes on the way |
| `GeoIP.Match4` | app/router/condition_geoip.go:85-113 | the loop is that search over the blocks its arrays hold |
| `GeoIP.Match6` | app/router/condition_geoip.go:119-146 | the same for IPv6 |
| `GeoIP.PairSearchIsExact` | app/router/condition_geoip.go:85-113 | over two blocks the search is right for all addresses if and only if the second neither begins nor ends before the first |
| `GeoIP.CoveredMeansContained` | app/router/condition_geoip.go:149-161 | an address lies in a block of the index if and only if some CIDR of its family contains it (section 3.1 of RFC 4632) |
| `GeoIP.GeoIPMatcher.Init` | app/router/condition_geoip.go:39-83 | fails exactly on an address of another length; otherwise the arrays index a sorted permutation of the list |
| `GeoIP.GeoIPMatcher.Match` | app/router/condition_geoip.go:149-161 | the search over the blocks of the sorted list: true only if some CIDR contains the address; if and only if, when the blocks are Searchable, and so when the CIDRs are stepped or disjoint |
| `GeoIP.GeoIPMatcherContainer.Add` | app/router/condition_geoip.go:170-189 | one matcher for each country code, with the contents that came first; an empty code is never shared |
| `DomainLabels.MatchesByLabels` | common/strmatcher/matchers.go:30-36 | a domain pattern accepts a name if and only if its reversed labels are a prefix of the name's |
| `DomainTrie.DomainMatcherGroup.Add` | common/strmatcher/domain_matcher.go:20-41 | in the trie of heap nodes, adds the pattern and changes no other |
| `DomainTrie.NextPart` | common/strmatcher/domain_matcher.go:57-64 | the last dot before a position |
| `DomainTrie.DomainMatcherGroup.Match` | common/strmatcher/domain_matcher.go:47-98 | the walk returns the ids of all patterns along the labels, the deepest first |
| `Matchers.TrieStep` | common/strmatcher/domain_matcher.go:20-98 | one more pattern adds its id to exactly the non-empty names it accepts, once |
| `Matchers.TrieOrder` | common/strmatcher/domain_matcher.go:85-97 | longer patterns come first, equal ones in the order they were added |
| `Matchers.GroupMatchesScan` | common/strmatcher/strmatcher.go:91-101 | a group answers like asking every matcher in turn, up to order |
| `Matchers.GroupAgrees` | common/strmatcher/strmatcher.go:91-101 | it does so if and only if the name is not empty or no domain pattern is |
| `Matchers.EmptyDomainIsMissed` | common/strmatcher/domain_matcher.go:48-50 | the empty domain pattern accepts the empty name and is not found |
| `Matchers.GroupIsExact` | common/strmatcher/strmatcher.go:71-101 | every accepting matcher's id is returned exactly once, and no other id |
| `Matchers.GroupFindsAny` | app/router/condition.go:86-88 | something is found if and only if some matcher accepts, unless the name and a domain pattern are empty |
| `Matchers.FullMatcherGroup.Add` | common/strmatcher/full_matcher.go:7-13 | appends the id to the name's list |
| `Matchers.FullMatcherGroup.Match` | common/strmatcher/full_matcher.go:19-25 | the ids added under exactly this name, in order |
| `Matchers.MatcherGroup.Add` | common/strmatcher/strmatcher.go:71-88 | numbers the matcher, modulo 2^32, and keeps it by its kind |
| `Matchers.MatcherGroup.Match` | common/strmatcher/strmatcher.go:91-101 | is GroupSpec of everything added |
| `RoutingRules.FieldsMeanRule` | app/router/config.go:68-148 | a rule is the conjunction of the fields that are compiled for it |
| `RoutingRules.ResolvingOnlyHelps` | app/router/router.go:138-157 | resolving the target never makes a rule fail and helps only rules about target addresses |
| `RoutingRules.ResolvedExactly` | app/router/router.go:138-157 | a rule holds of the resolved target if and only if its other fields hold and some address, of all that the target came with or else its name has, is in some of its sets |
| `RoutingRules.NewerPortsCount` | app/router/config.go:87-91 | a port list makes the port range irrelevant |
| `RoutingRules.NewerNetworksCount` | app/router/config.go:97-101 | networks make the network list irrelevant |
| `RoutingRules.NewerSetsCount` | app/router/config.go:103-129 | geoip sets make the CIDR list beside them irrelevant, for targets and sources |
| `RoutingRules.OlderFieldsCount` | app/router/config.go:87-129 | alone, the older field counts |
| `RoutingRules.PortsInclusive` | app/router/condition.go:146-161 | a range of ports includes both its ends |
| `RoutingRules.PatternKinds` | app/router/condition.go:46-65 | the kinds of domain pattern by example |
| `RoutingRules.ProtocolsByPrefix` | app/router/condition.go:243-269 | a protocol matches by how its name begins |
| `RoutingRules.SharingIsInvisible` | app/router/condition_geoip.go:170-189 | with equal contents for equal country codes, sharing matchers changes neither what a rule says nor whether its CIDRs are valid and stepped |
| `Conditions.RoutingContext.GetTargetIPs` | app/router/router.go:138-157 | the addresses the target came with, or else all addresses the lookup has for its name; a remembered answer is the answer of the lookup |
| `Conditions.ApplyDomain` | app/router/condition.go:86-97 | true if and only if some declared pattern accepts the target name |
| `Conditions.ApplyGeoIP` | app/router/condition.go:123-138 | true only if some address lies in some declared set, when the CIDRs are valid; if and only if, when they are stepped |
| `Conditions.DropEmpty` | app/router/condition.go:183-193 | copies a list without its empty names |
| `Conditions.ApplyName` | app/router/condition.go:196-207 | a non-empty name that was declared |
| `Conditions.ApplyProtocol` | app/router/condition.go:258-269 | some non-empty declared protocol is a prefix |
| `Conditions.NewPorts` | common/net/port.go:80-86 | cuts the ranges to 16 bits |
| `Conditions.ApplyPort` | common/net/port.go:88-95 | the port lies in some declared range |
| `Conditions.NewTable` | app/router/condition.go:166-172 | a table true at exactly the declared networks |
| `Conditions.Apply` | app/router/condition.go:16-18 | a yes of a compiled condition means that its field holds, when its CIDRs are valid; a no that it does not, when they are stepped |
| `Conditions.ApplyAll` | app/router/condition.go:33-40 | a yes is a yes of all fields, a no is a no of some field |
| `Routing.BuildGroup` | app/router/condition.go:71-84 | a group of all declared patterns, or an error if and only if one does not compile |
| `Routing.BuildMatchers` | app/router/condition.go:104-120 | matchers built from what the sets stand for, or an error if and only if one cannot be |
| `Routing.BuildCondition` | app/router/config.go:68-148 | compiles the given fields, or fails if and only if there is none or one cannot be compiled |
| `Routing.Router.Init` | app/router/router.go:39-74 | compiles all rules, or fails if and only if one cannot be compiled or names an unknown balancer |
| `Routing.Router.FirstRule` | app/router/router.go:90-94 | the first rule all of whose fields say yes; every rule before it has a field that says no |
| `Routing.PickedIsFirst` | app/router/router.go:85-94 | over stepped CIDRs a picked rule is the first that holds |
| `Routing.Router.PickRoute` | app/router/router.go:85-110 | on rules as declared: a picked rule with valid CIDRs holds, a rule passed over with stepped CIDRs does not; if all are stepped it is the lowest-index rule that holds; resolving on demand, or in a second pass made only when no rule holds without, that is the first rule whose other fields hold and one of whose sets has any address the lookup gives |
| `Routing.SecondPassNeedsAddresses` | app/router/router.go:96-109 | a rule found by resolving is about target addresses, and the name has such an address |
| `AntiReplay.AntiReplayWindow.Check` | common/antireplay/antireplay.go:24-50 | one call is one step of the two-pool window |
| `AntiReplay.CallRemembers` | common/antireplay/antireplay.go:36-47 | each call keeps what must be remembered of an acceptance, and refuses the value for more than T seconds |
| `AntiReplay.AcceptancesAreApart` | common/antireplay/antireplay.go:24-50 | in every run whose clock does not go back or read 0 where it is used, two acceptances of one value are more than T seconds apart |
| `AntiReplay.ApartExactly` | common/antireplay/antireplay.go:24-50 | that holds for all runs of non-decreasing clocks from `lo` on if and only if T is negative, or T is positive and so is `lo` |
| `AntiReplay.ClockAtZeroForgets` | common/antireplay/antireplay.go:27-31 | a clock that reads 0 sets the window up again and accepts the value twice |
| `AntiReplay.UnseenIsAccepted` | common/antireplay/antireplay.go:47 | a value never presented before is accepted |
| `AntiReplay.AcceptedAgain` | common/antireplay/antireplay.go:24-50 | no value is refused for ever: it is accepted again when two calls, each T seconds after the one before, have followed its last presentation |
| `DnsCache.ClassicNameServer.FindIPsForDomain` | app/dns/udpns.go:204-240 | combines the families asked for, addresses before errors and the later error before the earlier; `DnsHistory` says what that is in terms of what came in |
| `DnsCache.ClassicNameServer.UpdateIP` | app/dns/udpns.go:143-170 | each family keeps the record that expires later |
| `DnsCache.ClassicNameServer.AddPendingRequest` | app/dns/udpns.go:176-183 | the request expires 8 seconds later |
| `DnsCache.ClassicNameServer.HandleResponse` | app/dns/udpns.go:107-141 | the answer to a pending request is recorded, and the request is gone |
| `DnsCache.ClassicNameServer.Cleanup` | app/dns/udpns.go:66-105 | drops exactly the expired records and requests, and says whether there was nothing to do |
| `DnsCache.StepAlike` | app/dns/udpns.go:66-183 | every event keeps the cleaned and the uncleaned server alike: equal, or expired in both |
| `DnsCache.CleanupIsInvisible` | app/dns/udpns.go:66-105 | a run in which answers come before their requests expire gives the same answers with its cleanups as without them |
| `DnsCache.InvisibleToTimelyAnswers` | app/dns/udpns.go:66-141 | that holds for all runs whose answers come at most d seconds after their requests if and only if d is at most 8 |
| `DnsCache.InvisibleToQuestions` | app/dns/udpns.go:204-240 | that holds for all runs if and only if the questions enable an address family |
| `DnsCache.LateAnswerSeesCleanup` | app/dns/udpns.go:107-141 | a run with a later answer in which the next question is answered with addresses, and with a cleanup with nothing found |
| `DnsHistory.StoresTheLatest` | app/dns/udpns.go:107-170 | over every run, what is stored for a name and family is the record that expires last of all that came in for them, by update or in response to a request |
| `DnsHistory.AnswersWhatWasHeard` | app/dns/udpns.go:204-240 | a question for one family is answered from that record of this family: its addresses, its code, or not found once it has expired; one for both with the IPv4 addresses followed by the IPv6 addresses |
| `DnsHistory.AnswersWhatWasHeardCleaned` | app/dns/udpns.go:66-105 | also with cleanups on the way, if no response came too late |
| `DnsHistory.ResponseIsTheAnswer` | app/dns/udpns.go:107-170 | a response that expires later than what is stored answers the next question for its name and family, and no other question is answered differently |
| `DnsHistory.RespondAndAsk` | app/dns/udpns.go:107-240 | the same at a server |
| `ServerPicker.ServerList.AddServer` | common/protocol/server_picker.go:16-21 | appends a server |
| `ServerPicker.ServerList.GetServer` | common/protocol/server_picker.go:30-47 | the loop of swap removals leaves and returns what Kept and Got say |
| `ServerPicker.ServerList.RemoveServer` | common/protocol/server_picker.go:49-53 | the last server takes the removed one's place |
| `ServerPicker.RemovedAt` | common/protocol/server_picker.go:49-53 | every other server stays where it was |
| `ServerPicker.GetServerFinds` | common/protocol/server_picker.go:30-53 | nothing is found if and only if no server from the index on is valid; only invalid servers are dropped |
| `ServerPicker.RoundRobinServerPicker.PickServer` | common/protocol/server_picker.go:72-89 | one pick is PickSpec of list and index |
| `ServerPicker.PickFindsAny` | common/protocol/server_picker.go:72-89 | nil if and only if no listed server is valid; a picked server is valid; only invalid ones are dropped |
| `ServerPicker.RoundVisitsAll` | common/protocol/server_picker.go:72-89 | n picks on n valid servers visit every server exactly once, from any index |
| `BytesPool.GetPool` | common/bytespool/pool.go:40-47 | the smallest pool that is large enough, or none |
| `BytesPool.BytesPool.Alloc` | common/bytespool/pool.go:52-58 | returns at least what was asked for, a slice that leaves its pool or a new one |
| `BytesPool.BytesPool.Free` | common/bytespool/pool.go:63-72 | the slice goes to the largest of the pools of 2048, 8192, 32768 and 131072 bytes that it is long enough for, and to no other; the pools stay exact if and only if it could have been allocated or is too short to keep |
| `BytesPool.Serve` | common/bytespool/pool.go:20-72 | over any sequence of uses every slice is at least as long as was asked for and than 2048 bytes; without foreign slices the three smaller pools hold exact sizes |

## Left out

- Update in place and sharing of buffers inside multi-buffers: lists of buffers are values, so aliasing between a multi-buffer and its parts is not captured; `Buffers.ByteBuffer` covers one buffer and the transfer between two.
- Pool release in the buffer operations (`Release`, `ReleaseMulti`): ownership of arrays is not tracked.
- `Buffer.Resize`, `Extend` and the other accessors of a buffer, and `MergeMulti`, `Copy` and `SplitFirst`: they would only add easy members.
- Buffers.ByteBuffer.ReadFrom: reads from another buffer only, because what any other reader returns is its own business.
- BufferedIO.BufferedReader.Read: without a `Spliter`; the only other one, which takes one buffer of a packet at a time, is not modelled.
- MuxWorker.Worker.HandleEnd: which sessions are interrupted is recorded; what an interruption does to data that waits in a link is not modelled, because links are queues here.
- MuxWorker.Worker.HandleKeep: the closing End frame is noted as due; that it travels on the other direction of the link, where it may come under a live id, is the `Notify` action of `MuxSystem`.
- Logging.
- The pipe behind a link: it is a queue that takes whole writes or refuses them.
- Goroutine scheduling inside one worker: sends and receives are steps of one system, and `MuxPicker.Dispatch` is about one request at a time.
- MuxRun.Demultiplex: the frames are on the link before the worker starts; sessions that open while frames arrive are covered by the step system (`MuxSafety.Isolation`).
- MuxEndToEnd.Multiplex: one call on a writer ends before the next begins; frames of two calls that alternate on the link are covered by `MuxRun.Demultiplex`, which is about any run.
- MuxEndToEnd.EndToEnd: calls follow one another as in `Multiplex`. An id is used for one session.
- Additional data of the AEAD and the legacy stream ciphers.
- The chunk counter of a chunk stream reader is not cut to 32 bits.
- Routing.BuildCondition: the straight-line sequence of field tests in the source is a list of fields here (`RoutingRules.Fields`, in the same order) that is compiled one by one.
- AuthStream.AuthenticationReader.ReadInternal: a padding length above the size of a chunk that does not fit into one buffer, where the source's 16-bit subtraction wraps, is an error here; no padding generator of the source is that large.
- AuthRoundTrip.PacketRoundTrip: which packets of a stream that is out of tune still arrive is not stated, only whether all that were sent do.
- Balancers: only that an unknown balancer tag fails `Init`; the random choice of an outbound is not modelled.
- Subscriptions and retries of a DNS query, the building of DNS messages, and when the periodic cleanup runs.
- AntiReplay.AcceptancesAreApart: the cuckoo filter's false positives and overflow are not modelled; pools are exact sets.
- Capacities above 32 bits are cut in `BytesPool`; lengths of server lists and multi-buffers are not.
- Garbage collection of pooled slices: a pool may hand out a new slice at any time, but held slices are not dropped.
- Proxies, transports, configuration files, command line tools and generated code.
