/**
  Many sessions over one link (common/mux). Senders cut what they are given into frames, the
  frames of all senders reach the link in any interleaving, and the receiver routes them by
  session id. MuxSafety states what every reachable state of that system keeps.
 */
module MuxSystem {
  import opened Bytes
  import opened MultiBuffers
  import opened ChunkStream
  import opened MuxFrame

  // ----- the frames of one writer

  /** The state of a mux Writer. A response writer starts with `followup` set and has no target. */
  datatype WriterState = WriterState(id: uint16, dest: Destination, followup: bool, packet: bool)

  /** getNextFrameMeta, with the data option when there is a payload. */
  function NextMeta(w: WriterState, data: bool): Meta {
    Meta(w.id, if w.followup then STATUS_KEEP else STATUS_NEW, if data then OPTION_DATA else 0,
         if w.followup then None else Some(w.dest))
  }

  function EndMeta(id: uint16, hasError: bool): Meta {
    Meta(id, STATUS_END, if hasError then OPTION_ERROR else 0, None)
  }

  /** A data frame of a session that is open: six bytes of metadata, the length of the payload, and the payload. */
  lemma KeepBytes(w: WriterState, payload: seq<byte>)
    requires w.followup && |payload| < 0x1_0000
    ensures var f := Frame(NextMeta(w, true), Some(payload));
            && Writable(f)
            && FrameBytes(f) == [0, 4, w.id / 0x100, w.id % 0x100, 2, 1, |payload| / 0x100, |payload| % 0x100] + payload
    ensures var f := Frame(NextMeta(w, false), None);
            Writable(f) && FrameBytes(f) == [0, 4, w.id / 0x100, w.id % 0x100, 2, 0]
  {
    assert PutUint16(4) == [0, 4];
    assert PutUint16(|payload|) == [|payload| / 0x100, |payload| % 0x100];
  }

  /** The packets of a multi-buffer up to the last non-empty one. */
  function Packets(mb: MultiBuffer): seq<seq<byte>> {
    if IsEmpty(mb) then [] else [mb[0].bytes] + Packets(mb[1..])
  }

  /** The payloads one non-empty write is cut into: slices of a stream, or one payload a packet. */
  function Payloads(packet: bool, mb: MultiBuffer): seq<seq<byte>> {
    if IsEmpty(mb) then [] else if packet then Packets(mb) else Slices(mb)
  }

  function DataFrames(w: WriterState, payloads: seq<seq<byte>>): seq<Frame>
    decreases payloads
  {
    if payloads == [] then []
    else [Frame(NextMeta(w, true), Some(payloads[0]))] + DataFrames(w.(followup := true), payloads[1..])
  }

  /** The frames of one WriteMultiBuffer call. */
  function FramesOf(w: WriterState, mb: MultiBuffer): seq<Frame> {
    if IsEmpty(mb) then [Frame(NextMeta(w, false), None)] else DataFrames(w, Payloads(w.packet, mb))
  }

  // ----- the receiver

  /** Registered sessions (true: packet session) and what each session's output has accepted so far. */
  datatype Receiver = Receiver(sessions: map<uint16, bool>, outputs: map<uint16, seq<seq<byte>>>)

  /** What the output holds after a frame's payload was copied to it, and whether it took everything. */
  datatype Copied = Copied(output: seq<seq<byte>>, ok: bool)

  /**
    buf.Copy of one payload: a packet is written in one piece unless it is empty; stream bytes
    are written in pieces that depend on the fragmentation, and a refusal loses the rest.
   */
  predicate CopyPossible(packet: bool, output: seq<seq<byte>>, payload: seq<byte>, c: Copied) {
    && output <= c.output
    && var pieces := c.output[|output|..];
       if packet then
         pieces == if c.ok && payload != [] then [payload] else []
       else
         Flatten(pieces) <= payload && (c.ok ==> Flatten(pieces) == payload)
  }

  /** Which frames make the receiver copy a payload, and into what kind of session. */
  predicate Delivers(asServer: bool, r: Receiver, f: Frame) {
    && f.payload.Some?
    && ((f.meta.status == STATUS_NEW && asServer && f.meta.target.Some?) ||
        (f.meta.status == STATUS_KEEP && f.meta.id in r.sessions))
  }

  predicate IsPacket(r: Receiver, f: Frame)
    requires f.meta.status == STATUS_KEEP ==> f.meta.id in r.sessions
  {
    if f.meta.status == STATUS_KEEP then r.sessions[f.meta.id]
    else f.meta.target.Some? && f.meta.target.value.network == UDP
  }

  /** The output a frame's payload is appended to: a New frame brings a fresh one. */
  function OutputBefore(r: Receiver, f: Frame): seq<seq<byte>> {
    if f.meta.status == STATUS_KEEP && f.meta.id in r.outputs then r.outputs[f.meta.id] else []
  }

  predicate Possible(asServer: bool, r: Receiver, f: Frame, c: Copied) {
    Delivers(asServer, r, f) ==> CopyPossible(IsPacket(r, f), OutputBefore(r, f), f.payload.value, c)
  }

  /** The receiver after a frame: the four handleStatus functions of the server, or of the client. */
  function Handled(asServer: bool, r: Receiver, f: Frame, c: Copied): Receiver {
    var id := f.meta.id;
    if Delivers(asServer, r, f) then
      Receiver(if c.ok then r.sessions[id := IsPacket(r, f)] else r.sessions - {id}, r.outputs[id := c.output])
    else if f.meta.status == STATUS_NEW && asServer then
      Receiver(r.sessions[id := IsPacket(r, f)], r.outputs[id := []])
    else if f.meta.status == STATUS_END then
      Receiver(r.sessions - {id}, r.outputs)
    else
      r
  }

  // ----- the system

  /** One writer, everything it was given, and the frames it still has to put on the link. */
  datatype Sender = Sender(w: WriterState, given: seq<MultiBuffer>, pending: seq<Frame>, closed: bool)

  /**
    A frame on the link and whether the writer of its session put it there; the other frames are End
    frames by which an end tells the peer that it no longer knows a session.
   */
  datatype Wired = Wired(frame: Frame, own: bool)

  /** The frames on the link, whoever put them there. */
  function Frames(wire: seq<Wired>): (fs: seq<Frame>)
    ensures |fs| == |wire| && forall i :: 0 <= i < |wire| ==> fs[i] == wire[i].frame
  {
    if wire == [] then [] else [wire[0].frame] + Frames(wire[1..])
  }

  /** `asServer`: frames flow to the server, which learns of sessions from New frames; otherwise to the client. */
  datatype System = System(
    asServer: bool, senders: map<uint16, Sender>, wire: seq<Wired>, read: nat, receiver: Receiver)

  datatype Action =
    | Open(w: WriterState)
    | Give(id: uint16, mb: MultiBuffer)
    | Close(id: uint16, hasError: bool)
    | Emit(id: uint16)
    | Receive(c: Copied)
    | Forget(id: uint16)
    | Notify(id: uint16)

  predicate Enabled(s: System, a: Action) {
    match a
    case Open(w) => w.id !in s.senders && w.followup == !s.asServer && w.packet == (w.dest.network == UDP)
    case Give(id, mb) => id in s.senders && !s.senders[id].closed && s.senders[id].pending == []
    case Close(id, _) => id in s.senders && !s.senders[id].closed && s.senders[id].pending == []
    case Emit(id) => id in s.senders && s.senders[id].pending != []
    case Receive(c) => s.read < |s.wire| && Possible(s.asServer, s.receiver, s.wire[s.read].frame, c)
    case Forget(_) => true
    case Notify(_) => true
  }

  /**
    A session is opened with a new id (on the client its output exists from then on); its writer is
    given data, closed, and puts one frame at a time on the link; the receiver handles the next
    frame; either side may drop a session at any moment because its other direction ended; and the
    sending side may send an End frame for any id at any moment, because a frame for a session it
    does not know, or whose output failed, arrived from the peer.
   */
  function Step(s: System, a: Action): System
    requires Enabled(s, a)
  {
    match a
    case Open(w) =>
      var started := s.(senders := s.senders[w.id := Sender(w, [], [], false)]);
      if s.asServer then started
      else started.(receiver := Receiver(s.receiver.sessions[w.id := w.packet], s.receiver.outputs[w.id := []]))
    case Give(id, mb) =>
      var x := s.senders[id];
      s.(senders := s.senders[id := Sender(x.w.(followup := true), x.given + [mb], FramesOf(x.w, mb), false)])
    case Close(id, hasError) =>
      var x := s.senders[id];
      s.(senders := s.senders[id := Sender(x.w, x.given, [Frame(EndMeta(id, hasError), None)], true)])
    case Emit(id) =>
      var x := s.senders[id];
      s.(senders := s.senders[id := x.(pending := x.pending[1..])], wire := s.wire + [Wired(x.pending[0], true)])
    case Receive(c) =>
      s.(read := s.read + 1, receiver := Handled(s.asServer, s.receiver, s.wire[s.read].frame, c))
    case Forget(id) =>
      s.(receiver := s.receiver.(sessions := s.receiver.sessions - {id}))
    case Notify(id) =>
      s.(wire := s.wire + [Notice(id)])
  }

  function Initial(asServer: bool): System {
    System(asServer, map[], [], 0, Receiver(map[], map[]))
  }

  /** What a closing writer sends for a session it has no other use for. */
  function Notice(id: uint16): Wired { Wired(Frame(EndMeta(id, false), None), false) }

  /** A run: every action is enabled where it is taken. */
  predicate Runs(s: System, actions: seq<Action>)
    decreases actions
  {
    actions == [] || (Enabled(s, actions[0]) && Runs(Step(s, actions[0]), actions[1..]))
  }

  function After(s: System, actions: seq<Action>): System
    requires Runs(s, actions)
    decreases actions
  {
    if actions == [] then s else After(Step(s, actions[0]), actions[1..])
  }
}
