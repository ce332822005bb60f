/** The byte level of the mux: reading payloads, buf.Copy, and the handlers of the frames (common/mux). */
module MuxWorker {
  import opened Bytes
  import opened MultiBuffers
  import opened BufferedIO
  import opened ChunkStream
  import opened MuxFrame
  import opened MuxSystem

  // ----- readers and buf.Copy

  /** Next to be read is a payload behind its length, and then `rest`. */
  ghost predicate Waiting(reader: BufferedReader, payload: seq<byte>, rest: seq<byte>)
    reads reader
  {
    |payload| < 0x1_0000 && reader.Unread() == PutUint16(|payload|) + (payload + rest)
  }

  /** What PacketReader finds: the outcome, whether a packet was read, and what stays unread. */
  function PacketSpec(unread: seq<byte>): (Outcome, bool, seq<byte>) {
    if |unread| < 2 then
      (if unread == [] then Eof else Failed, false, [])
    else
      var size, body := GetUint16(unread[..2]), unread[2..];
      if size > BUFFER_SIZE then (Failed, false, body)
      else if size > |body| then (if body == [] then Eof else Failed, false, [])
      else (Outcome.Data([Window(0, body[..size])]), true, body[size..])
  }

  class PacketReader {
    const reader: BufferedReader
    var eof: bool

    constructor (reader: BufferedReader)
      ensures this.reader == reader && !eof
    {
      this.reader := reader;
      eof := false;
    }

    method ReadMultiBuffer() returns (r: Outcome)
      modifies this, reader
      ensures old(eof) ==> r == Eof && eof && reader.Unread() == old(reader.Unread())
      ensures !old(eof) ==> (r, eof, reader.Unread()) == PacketSpec(old(reader.Unread()))
    {
      if eof {
        return Eof;
      }
      var header := reader.ReadFull(2);
      if !header.Full? {
        return if header.EndOfStream? then Eof else Failed;
      }
      var size := GetUint16(header.bytes);
      if size > BUFFER_SIZE {
        return Failed;
      }
      var b := reader.ReadFull(size);
      if !b.Full? {
        return if b.EndOfStream? then Eof else Failed;
      }
      eof := true;
      r := Outcome.Data([Window(0, b.bytes)]);
    }
  }

  datatype CopyResult = Done | ReadFailed | WriteFailed

  /** buf.Copy from a packet reader. On a whole packet of a size a buffer can hold it leaves exactly what follows. */
  method CopyPacket(rr: PacketReader, out: Output, ghost payload: seq<byte>, ghost rest: seq<byte>)
    returns (result: CopyResult, out': Output)
    modifies rr, rr.reader
    ensures |rr.reader.Unread()| <= old(|rr.reader.Unread()|)
    ensures old(rr.eof) ==> result == Done && out' == out && rr.reader.Unread() == old(rr.reader.Unread())
    ensures out.allowance.None? ==> result != WriteFailed && out'.allowance.None?
    ensures !old(rr.eof) && |payload| <= BUFFER_SIZE && old(Waiting(rr.reader, payload, rest)) ==>
              && rr.reader.Unread() == rest && rr.eof && result != ReadFailed
              && CopyPossible(true, out.written, payload, Copied(out'.written, result == Done))
  {
    out' := out;
    while true
      invariant old(rr.eof) ==> rr.eof && out' == out && rr.reader.Unread() == old(rr.reader.Unread())
      invariant |rr.reader.Unread()| <= old(|rr.reader.Unread()|)
      invariant out.allowance.None? ==> out'.allowance.None?
      invariant !rr.eof ==> out' == out && rr.reader.Unread() == old(rr.reader.Unread())
      invariant rr.eof && !old(rr.eof) ==>
                  var (r, _, unread) := PacketSpec(old(rr.reader.Unread()));
                  && rr.reader.Unread() == unread && r.Data?
                  && out'.written == out.written + if r.mb[0].bytes == [] then [] else [r.mb[0].bytes]
      decreases !rr.eof
    {
      if !old(rr.eof) && |payload| <= BUFFER_SIZE && old(Waiting(rr.reader, payload, rest)) {
        PacketOnWire(payload, rest);
      }
      var r := rr.ReadMultiBuffer();
      if r.Data? && r.mb[0].bytes != [] {
        var (next, ok) := out'.Write(r.mb[0].bytes);
        if !ok {
          return WriteFailed, out';
        }
        out' := next;
      }
      if r.Failed? {
        return ReadFailed, out';
      }
      if r.Eof? {
        return Done, out';
      }
    }
  }

  lemma PacketOnWire(payload: seq<byte>, rest: seq<byte>)
    requires |payload| <= BUFFER_SIZE
    ensures PacketSpec(PutUint16(|payload|) + (payload + rest)) == (Outcome.Data([Window(0, payload)]), true, rest)
  {
    var unread := PutUint16(|payload|) + (payload + rest);
    assert unread[..2] == PutUint16(|payload|) && unread[2..] == payload + rest;
    assert (payload + rest)[..|payload|] == payload && (payload + rest)[|payload|..] == rest;
  }

  /** A stream reader made for one frame, standing before the payload (with its size) or inside it. */
  ghost predicate InFrame(rr: ChunkStreamReader, sized: bool, payload: seq<byte>, rest: seq<byte>)
    reads rr, rr.reader
  {
    rr.maxNumChunk == 1 && if sized then rr.At([], [payload], rest) else rr.At(payload, [], rest)
  }

  /** One read inside a frame. It moves on by a piece of the payload, or stops exactly behind the frame. */
  method ReadInFrame(rr: ChunkStreamReader, ghost sized: bool, ghost payload: seq<byte>, ghost rest: seq<byte>)
    returns (r: Outcome)
    modifies rr, rr.reader
    ensures |rr.reader.Unread()| <= old(|rr.reader.Unread()|)
    ensures old(InFrame(rr, sized, payload, rest)) ==>
              && !r.Failed?
              && (r.Eof? <==> payload == [])
              && (r.Eof? ==> rr.reader.Unread() == rest)
              && (r.Data? ==> Content(r.mb) <= payload && InFrame(rr, false, payload[|Content(r.mb)|..], rest))
    ensures r.Data? ==> |rr.reader.Unread()| + |Content(r.mb)| <= old(|rr.reader.Unread()|)
    ensures r.Data? && Content(r.mb) == [] ==>
              || |rr.reader.Unread()| < old(|rr.reader.Unread()|)
              || |rr.reader.source| < old(|rr.reader.source|)
              || (|rr.reader.source| == old(|rr.reader.source|) && |rr.reader.buffer| < old(|rr.reader.buffer|))
  {
    ghost var within := InFrame(rr, sized, payload, rest);
    if within {
      DueInFrame(rr, sized, payload, rest);
    }
    r := rr.ReadMultiBuffer();
    if within && r.Data? {
      StillInFrame(rr, Content(r.mb), payload, rest);
    }
  }

  /** What a read inside a frame finds. */
  lemma DueInFrame(rr: ChunkStreamReader, sized: bool, payload: seq<byte>, rest: seq<byte>)
    requires InFrame(rr, sized, payload, rest)
    ensures var due := NextDue(rr.leftOverSize, rr.Exhausted(), rr.reader.Unread());
            if payload != [] then due == Chunk(|payload|, payload + rest)
            else if sized then due == Terminator && rr.reader.Unread()[2..] == rest
            else due == Limit && rr.reader.Unread() == rest
  {
    rr.DueAt(if sized then [] else payload, if sized then [payload] else [], rest);
    NoChunks(payload, rest);
  }

  lemma StillInFrame(rr: ChunkStreamReader, got: seq<byte>, payload: seq<byte>, rest: seq<byte>)
    requires rr.maxNumChunk == 1 && rr.Exhausted()
    requires |got| <= |payload| && rr.leftOverSize == |payload| - |got| && got + rr.reader.Unread() == payload + rest
    ensures got <= payload && InFrame(rr, false, payload[|got|..], rest)
  {
    TakeFront(got, rr.reader.Unread(), payload, rest);
    NoChunks(payload, rest);
  }

  lemma NoChunks(payload: seq<byte>, rest: seq<byte>)
    ensures [payload][1..] == []
    ensures EncodeChunks([]) + rest == rest
  {
    assert EncodeChunks([]) == [];
  }

  /** buf.Copy from a stream reader to an output, or to buf.Discard (None), which never refuses. */
  method CopyStream(rr: ChunkStreamReader, out: Option<Output>, ghost sized: bool, ghost payload: seq<byte>,
                    ghost rest: seq<byte>)
    returns (result: CopyResult, out': Option<Output>, ghost left: seq<byte>)
    modifies rr, rr.reader
    ensures out.Some? == out'.Some? && (out.None? ==> result != WriteFailed)
    ensures out.Some? && out.value.allowance.None? ==> result != WriteFailed && out'.value.allowance.None?
    ensures |rr.reader.Unread()| <= old(|rr.reader.Unread()|)
    ensures old(InFrame(rr, sized, payload, rest)) ==>
              && result != ReadFailed
              && (result == Done ==> rr.reader.Unread() == rest)
              && (result == WriteFailed ==> InFrame(rr, false, left, rest))
              && (out.Some? ==>
                    CopyPossible(false, out.value.written, payload, Copied(out'.value.written, result == Done)))
  {
    out', left := out, payload;
    ghost var whole, fresh' := InFrame(rr, sized, payload, rest), sized;
    ghost var pieces: seq<seq<byte>> := [];
    while true
      invariant out.Some? == out'.Some? && (out.Some? && out.value.allowance.None? ==> out'.value.allowance.None?)
      invariant |rr.reader.Unread()| <= old(|rr.reader.Unread()|)
      invariant whole ==> InFrame(rr, fresh', left, rest) && Flatten(pieces) + left == payload
      invariant out.Some? ==> out'.value.written == out.value.written + pieces
      decreases |rr.reader.Unread()|, |rr.reader.source|, |rr.reader.buffer|
    {
      var r := ReadInFrame(rr, fresh', left, rest);
      if !r.Data? {
        return if r.Eof? then Done else ReadFailed, out', left;
      }
      var piece := Content(r.mb);
      if whole {
        PiecesMore(pieces, piece, left);
        fresh', left := false, left[|piece|..];
      }
      var ok;
      ok, out' := PutPiece(out', piece);
      if !ok {
        return WriteFailed, out', left;
      }
      pieces := if piece == [] then pieces else pieces + [piece];
    }
  }

  /** Writes a piece, if there is anything in it; buf.Discard (None) takes everything. */
  method PutPiece(out: Option<Output>, piece: seq<byte>) returns (ok: bool, out': Option<Output>)
    ensures out.Some? == out'.Some? && (out.None? || out.value.allowance.None? ==> ok)
    ensures out.Some? && out.value.allowance.None? ==> out'.value.allowance.None?
    ensures !ok || piece == [] ==> out' == out
    ensures out.Some? && ok && piece != [] ==> out'.value.written == out.value.written + [piece]
  {
    ok, out' := true, out;
    if piece != [] && out.Some? {
      var (next, accepted) := out.value.Write(piece);
      ok, out' := accepted, Some(next);
    }
  }

  lemma PiecesMore(pieces: seq<seq<byte>>, piece: seq<byte>, left: seq<byte>)
    requires piece <= left
    ensures Flatten(if piece == [] then pieces else pieces + [piece]) + left[|piece|..] == Flatten(pieces) + left
    ensures Flatten(pieces) <= Flatten(pieces) + left
  {
    FlattenConcat(pieces, [piece]);
    FlattenOne(piece);
    assert left == piece + left[|piece|..];
    ConcatAssociative(Flatten(pieces), piece, left[|piece|..]);
  }

  /** The payload part of a frame on the wire, as a stream reader for that frame sees it. */
  lemma FrameForStream(rr: ChunkStreamReader, payload: seq<byte>, rest: seq<byte>)
    requires rr.maxNumChunk == 1 && rr.numChunk == 0 && rr.leftOverSize == 0
    requires Waiting(rr.reader, payload, rest)
    ensures InFrame(rr, true, payload, rest)
  {
    EncodeChunksAppend([], payload);
    assert [] + [payload] == [payload] && EncodeChunks([]) == [];
    ConcatAssociative(PutUint16(|payload|), payload, rest);
  }

  /** Reads one payload into nothing: buf.Copy(NewStreamReader(reader), buf.Discard). */
  method Discard(reader: BufferedReader, ghost payload: seq<byte>, ghost rest: seq<byte>) returns (ok: bool)
    modifies reader
    ensures old(Waiting(reader, payload, rest)) ==> ok && reader.Unread() == rest
    ensures |reader.Unread()| <= old(|reader.Unread()|)
  {
    var rr := new ChunkStreamReader(reader, 1);
    if Waiting(reader, payload, rest) {
      FrameForStream(rr, payload, rest);
    }
    var result, _, left := CopyStream(rr, None, true, payload, rest);
    ok := result != ReadFailed;
  }

  /**
    Copies one payload to a session's output with the reader its transfer type calls for, and
    drains what the output refused. A frame whose payload fits the reader is always consumed exactly.
   */
  method CopyToSession(reader: BufferedReader, packet: bool, out: Output, drainAlways: bool,
                       ghost payload: seq<byte>, ghost rest: seq<byte>)
    returns (result: CopyResult, out': Output, drained: bool)
    modifies reader
    ensures out.allowance.None? ==> result != WriteFailed && out'.allowance.None?
    ensures |reader.Unread()| <= old(|reader.Unread()|)
    ensures old(Waiting(reader, payload, rest)) && (packet ==> |payload| <= BUFFER_SIZE) ==>
              && result != ReadFailed && drained && reader.Unread() == rest
              && CopyPossible(packet, out.written, payload, Copied(out'.written, result == Done))
  {
    drained := true;
    ghost var left;
    if packet {
      var rr := new PacketReader(reader);
      result, out' := CopyPacket(rr, out, payload, rest);
      if result == WriteFailed || (drainAlways && result == ReadFailed) {
        var drain, _ := CopyPacket(rr, Output([], None), payload, rest);
        drained := drain != ReadFailed;
      }
    } else {
      var rr := new ChunkStreamReader(reader, 1);
      if Waiting(reader, payload, rest) {
        FrameForStream(rr, payload, rest);
      }
      var accepted;
      result, accepted, left := CopyStream(rr, Some(out), true, payload, rest);
      out' := accepted.value;
      if result == WriteFailed || (drainAlways && result == ReadFailed) {
        var drain, _, _ := CopyStream(rr, None, false, left, rest);
        drained := drain != ReadFailed;
      }
    }
  }

  // ----- the frame handlers

  /** What the dispatcher answers to a New frame: the output of a fresh link, or a failure. */
  datatype Dispatched = Linked(allowance: Option<nat>) | Refused

  /** A frame that a reader of this end can take: readable metadata, and packets no larger than a buffer. */
  ghost predicate Takes(asServer: bool, r: Receiver, f: Frame, literals: Literals) {
    && Writable(f) && Representable(f.meta, literals)
    && STATUS_NEW <= f.meta.status <= STATUS_KEEP_ALIVE
    && (Delivers(asServer, r, f) && IsPacket(r, f) ==> |f.payload.value| <= BUFFER_SIZE)
  }

  /** An End frame with the error bit interrupts its session, if that is registered. */
  function Interrupts(r: Receiver, f: Frame): seq<uint16> {
    if f.meta.status == STATUS_END && HasError(f.meta.option) && f.meta.id in r.sessions then [f.meta.id] else []
  }

  class Worker {
    const asServer: bool
    const reader: BufferedReader
    const literals: Literals
    var sessions: map<uint16, bool>
    var outputs: map<uint16, Output>
    var notices: seq<uint16>
    // The sessions whose input and output an End frame has interrupted.
    var interrupted: seq<uint16>

    constructor (asServer: bool, reader: BufferedReader, literals: Literals)
      ensures this.asServer == asServer && this.reader == reader && this.literals == literals
      ensures Valid() && sessions == map[] && outputs == map[] && notices == [] && interrupted == []
    {
      this.asServer, this.reader, this.literals := asServer, reader, literals;
      sessions, outputs, notices, interrupted := map[], map[], [], [];
    }

    ghost predicate Valid()
      reads this
    {
      sessions.Keys <= outputs.Keys
    }

    ghost function View(): Receiver
      reads this
    {
      Receiver(sessions, map id | id in outputs :: outputs[id].written)
    }

    /** No output ever refuses a write. */
    ghost predicate Unlimited()
      reads this
    {
      forall id :: id in outputs ==> outputs[id].allowance.None?
    }

    /** Session data, stored as the manager and the link hold it. */
    method Store(id: uint16, packet: bool, out: Output, keep: bool)
      requires Valid()
      modifies this
      ensures Valid() && notices == old(notices) && interrupted == old(interrupted)
      ensures View() == Receiver(if keep then old(sessions)[id := packet] else old(sessions) - {id},
                                 old(View()).outputs[id := out.written])
      ensures old(Unlimited()) && out.allowance.None? ==> Unlimited()
    {
      sessions := if keep then sessions[id := packet] else sessions - {id};
      outputs := outputs[id := out];
    }

    method HandleKeepAlive(meta: Meta, ghost payload: seq<byte>, ghost rest: seq<byte>) returns (ok: bool)
      modifies reader
      ensures HasData(meta.option) && old(Waiting(reader, payload, rest)) ==> ok && reader.Unread() == rest
      ensures |reader.Unread()| <= old(|reader.Unread()|)
      ensures !HasData(meta.option) ==> ok && reader.Unread() == old(reader.Unread())
    {
      ok := true;
      if HasData(meta.option) {
        ok := Discard(reader, payload, rest);
      }
    }

    method HandleEnd(meta: Meta, ghost payload: seq<byte>, ghost rest: seq<byte>) returns (ok: bool)
      requires Valid()
      modifies this, reader
      ensures Valid() && View() == old(View()).(sessions := old(sessions) - {meta.id}) && outputs == old(outputs)
      ensures interrupted ==
              old(interrupted) + if meta.id in old(sessions) && HasError(meta.option) then [meta.id] else []
      ensures HasData(meta.option) && old(Waiting(reader, payload, rest)) ==> ok && reader.Unread() == rest
      ensures |reader.Unread()| <= old(|reader.Unread()|)
      ensures !HasData(meta.option) ==> ok && reader.Unread() == old(reader.Unread())
    {
      if meta.id in sessions {
        if HasError(meta.option) {
          interrupted := interrupted + [meta.id];
        }
        sessions := sessions - {meta.id};
      }
      assert sessions == old(sessions) - {meta.id};
      ok := true;
      if HasData(meta.option) {
        ok := Discard(reader, payload, rest);
      }
    }

    method HandleKeep(meta: Meta, ghost payload: seq<byte>, ghost rest: seq<byte>)
      returns (ok: bool, ghost c: Copied)
      requires Valid()
      modifies this, reader
      ensures Valid() && interrupted == old(interrupted)
      ensures |reader.Unread()| <= old(|reader.Unread()|)
      ensures !HasData(meta.option) ==> ok && View() == old(View()) && reader.Unread() == old(reader.Unread())
      ensures HasData(meta.option) && old(Waiting(reader, payload, rest)) && meta.id !in old(sessions) ==>
                ok && reader.Unread() == rest && View() == old(View()) && notices == old(notices) + [meta.id]
      ensures HasData(meta.option) && old(Waiting(reader, payload, rest)) && meta.id in old(sessions) &&
              (old(sessions)[meta.id] ==> |payload| <= BUFFER_SIZE) ==>
                && ok && reader.Unread() == rest
                && CopyPossible(old(sessions)[meta.id], old(outputs)[meta.id].written, payload, c)
                && View() == Receiver(if c.ok then old(sessions) else old(sessions) - {meta.id},
                                      old(View()).outputs[meta.id := c.output])
                && notices == if c.ok then old(notices) else old(notices) + [meta.id]
      ensures old(Unlimited()) ==> Unlimited() && (ok ==> c.ok)
    {
      c := Copied([], true);
      if !HasData(meta.option) {
        return true, c;
      }
      if meta.id !in sessions {
        notices := notices + [meta.id];
        ok := Discard(reader, payload, rest);
        return;
      }
      var packet := sessions[meta.id];
      var result, out, drained := CopyToSession(reader, packet, outputs[meta.id], false, payload, rest);
      c := Copied(out.written, result == Done);
      Store(meta.id, packet, out, result != WriteFailed);
      assert old(sessions)[meta.id := packet] == old(sessions);
      if result == WriteFailed {
        notices := notices + [meta.id];
        return drained, c;
      }
      ok := result == Done;
    }

    method HandleNew(meta: Meta, dispatched: Dispatched, ghost payload: seq<byte>, ghost rest: seq<byte>)
      returns (ok: bool, ghost c: Copied)
      requires Valid() && asServer && meta.target.Some?
      modifies this, reader
      ensures Valid() && notices == old(notices) && interrupted == old(interrupted)
      ensures |reader.Unread()| <= old(|reader.Unread()|)
      ensures !HasData(meta.option) ==> reader.Unread() == old(reader.Unread())
      ensures dispatched.Refused? ==> !ok && View() == old(View())
      ensures dispatched.Refused? && HasData(meta.option) && old(Waiting(reader, payload, rest)) ==>
                reader.Unread() == rest
      ensures dispatched.Linked? && !HasData(meta.option) ==>
                && ok
                && View() == Receiver(old(sessions)[meta.id := meta.target.value.network == UDP],
                                      old(View()).outputs[meta.id := []])
      ensures dispatched.Linked? && HasData(meta.option) && old(Waiting(reader, payload, rest)) &&
              (meta.target.value.network == UDP ==> |payload| <= BUFFER_SIZE) ==>
                && ok && reader.Unread() == rest
                && CopyPossible(meta.target.value.network == UDP, [], payload, c)
                && View() == Receiver(if c.ok then old(sessions)[meta.id := meta.target.value.network == UDP]
                                      else old(sessions) - {meta.id},
                                      old(View()).outputs[meta.id := c.output])
      ensures old(Unlimited()) && dispatched == Linked(None) ==> Unlimited()
      ensures dispatched == Linked(None) && (!HasData(meta.option) || old(Waiting(reader, payload, rest))) ==>
                (meta.target.value.network == UDP ==> |payload| <= BUFFER_SIZE) ==> c.ok
    {
      c := Copied([], true);
      if dispatched.Refused? {
        if HasData(meta.option) {
          var _ := Discard(reader, payload, rest);
        }
        return false, c;
      }
      var packet := meta.target.value.network == UDP;
      var out := Output([], dispatched.allowance);
      if !HasData(meta.option) {
        Store(meta.id, packet, out, true);
        return true, c;
      }
      var result, out', drained := CopyToSession(reader, packet, out, true, payload, rest);
      c := Copied(out'.written, result == Done);
      Store(meta.id, packet, out', result == Done);
      ok := true;
    }

    /** A frame at the front of the unread bytes, which this end can take. */
    ghost predicate FrameNext(f: Frame, rest: seq<byte>)
      reads this, reader
    {
      && Takes(asServer, View(), f, literals)
      && reader.Unread() == FrameBytes(f) + rest
    }

    /** The frame's metadata; a frame at the front is split into it and the payload that waits behind it. */
    method ReadMeta(ghost f: Frame, ghost rest: seq<byte>) returns (r: MetaResult)
      modifies reader
      ensures r.Parsed? ==> |reader.Unread()| < old(|reader.Unread()|)
      ensures old(reader.Unread()) == [] ==> r == NoMoreFrames
      ensures r.Parsed? && r.meta.status == STATUS_NEW ==> r.meta.target.Some?
      ensures old(FrameNext(f, rest)) && DenoteIPs(literals) ==>
                && r == Parsed(f.meta)
                && (if f.payload.Some? then Waiting(reader, f.payload.value, rest) else reader.Unread() == rest)
    {
      if FrameNext(f, rest) && DenoteIPs(literals) {
        FrameOnWire(f, rest, literals);
      }
      ParsedMeta(reader.Unread(), literals);
      r := Unmarshal(reader, literals);
    }

    /** The payload of a frame, if it has one, at the front of the unread bytes. */
    ghost predicate PayloadNext(f: Frame, rest: seq<byte>)
      reads this, reader
    {
      && Takes(asServer, View(), f, literals)
      && (if f.payload.Some? then Waiting(reader, f.payload.value, rest) else reader.Unread() == rest)
    }

    /** What a handled frame leaves behind. */
    ghost predicate Went(ok: bool, dispatched: Dispatched, f: Frame, c: Copied, before: Receiver)
      reads this
    {
      && (ok <==> !(asServer && f.meta.status == STATUS_NEW && dispatched.Refused?))
      && (ok ==> Possible(asServer, before, f, c) && View() == Handled(asServer, before, f, c))
      && (!ok ==> View() == before)
    }

    /** The handlers that deliver nothing. */
    method HandleQuiet(m: Meta, ghost f: Frame, ghost rest: seq<byte>) returns (ok: bool)
      requires Valid() && (m.status == STATUS_KEEP_ALIVE || m.status == STATUS_END || m.status == STATUS_NEW)
      modifies this, reader
      ensures Valid() && |reader.Unread()| <= old(|reader.Unread()|) && outputs == old(outputs)
      ensures old(PayloadNext(f, rest)) && m == f.meta && !(asServer && m.status == STATUS_NEW) ==>
                && ok && reader.Unread() == rest && View() == Handled(asServer, old(View()), f, Copied([], true))
                && interrupted == old(interrupted) + Interrupts(old(View()), f)
    {
      ghost var payload := if f.payload.Some? then f.payload.value else [];
      if m.status == STATUS_END {
        ok := HandleEnd(m, payload, rest);
      } else {
        ok := HandleKeepAlive(m, payload, rest);
      }
    }

    /** The handler of a frame's status; a client takes New frames for keep-alives. */
    method HandleStatus(m: Meta, dispatched: Dispatched, ghost f: Frame, ghost rest: seq<byte>)
      returns (ok: bool, ghost c: Copied)
      requires Valid() && (m.status == STATUS_NEW ==> m.target.Some?)
      modifies this, reader
      ensures Valid() && |reader.Unread()| <= old(|reader.Unread()|)
      ensures old(PayloadNext(f, rest)) && m == f.meta ==>
                && reader.Unread() == rest && Went(ok, dispatched, f, c, old(View()))
                && interrupted == old(interrupted) + Interrupts(old(View()), f)
      ensures old(PayloadNext(f, rest) && Unlimited()) && m == f.meta && dispatched == Linked(None) ==>
                Unlimited() && c.ok
    {
      c := Copied([], true);
      ghost var payload := if f.payload.Some? then f.payload.value else [];
      if m.status == STATUS_NEW && asServer {
        ok, c := HandleNew(m, dispatched, payload, rest);
      } else if m.status == STATUS_KEEP {
        ok, c := HandleKeep(m, payload, rest);
      } else if m.status == STATUS_KEEP_ALIVE || m.status == STATUS_END || m.status == STATUS_NEW {
        ok := HandleQuiet(m, f, rest);
      } else {
        ok := false;
      }
    }

    /**
      handleFrame. Every branch that succeeds leaves the reader exactly behind the frame and moves
      the receiver as the session layer says, whether the session is known, unknown or refuses the
      data half-way. Only a failed dispatch stops the worker, and then the frame is consumed too.
     */
    method HandleFrame(dispatched: Dispatched, ghost f: Frame, ghost rest: seq<byte>)
      returns (ok: bool, ghost c: Copied)
      requires Valid()
      modifies this, reader
      ensures Valid()
      ensures ok ==> |reader.Unread()| < old(|reader.Unread()|)
      ensures old(reader.Unread()) == [] ==> !ok && View() == old(View()) && interrupted == old(interrupted)
      ensures old(FrameNext(f, rest)) && DenoteIPs(literals) ==>
                && reader.Unread() == rest
                && (ok <==> !(asServer && f.meta.status == STATUS_NEW && dispatched.Refused?))
                && (ok ==> Possible(asServer, old(View()), f, c) && View() == Handled(asServer, old(View()), f, c))
                && (!ok ==> View() == old(View()))
                && interrupted == old(interrupted) + Interrupts(old(View()), f)
      ensures old(FrameNext(f, rest)) && DenoteIPs(literals) && old(Unlimited()) && dispatched == Linked(None) ==>
                Unlimited() && c.ok
    {
      c := Copied([], true);
      var meta := ReadMeta(f, rest);
      if !meta.Parsed? {
        return false, c;
      }
      ok, c := HandleStatus(meta.meta, dispatched, f, rest);
    }
  }

  lemma ParsedMeta(unread: seq<byte>, literals: Literals)
    ensures var r := UnmarshalSpec(unread, literals).0;
            r.Parsed? ==>
              && |UnmarshalSpec(unread, literals).1| < |unread|
              && (r.meta.status == STATUS_NEW ==> r.meta.target.Some?)
  {
  }

  lemma FrameOnWire(f: Frame, rest: seq<byte>, literals: Literals)
    requires Writable(f) && Representable(f.meta, literals) && DenoteIPs(literals)
    ensures UnmarshalSpec(FrameBytes(f) + rest, literals) == (Parsed(f.meta), PayloadBytes(f) + rest)
    ensures f.payload.Some? ==>
              PayloadBytes(f) + rest == PutUint16(|f.payload.value|) + (f.payload.value + rest)
    ensures f.payload.None? ==> PayloadBytes(f) + rest == rest
  {
    ConcatAssociative(MetaBytes(f.meta).value, PayloadBytes(f), rest);
    UnmarshalUndoesWriteTo(f.meta, literals, PayloadBytes(f) + rest);
  }
}
