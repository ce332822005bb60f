/** Isolation, order and completeness of mux sessions, over every run of the system. */
module MuxSafety {
  import opened Bytes
  import opened MultiBuffers
  import opened BufferedIO
  import opened ChunkStream
  import opened MuxFrame
  import opened MuxSystem

  // ----- projections

  predicate IsOf(w: Wired, id: uint16) { w.own && w.frame.meta.id == id }

  /** The frames of one session's writer, in order. */
  function Of(ws: seq<Wired>, id: uint16): seq<Frame> {
    if ws == [] then []
    else Of(ws[..|ws| - 1], id) + (if IsOf(ws[|ws| - 1], id) then [ws[|ws| - 1].frame] else [])
  }

  /** The payloads carried by frames. */
  function Data(fs: seq<Frame>): seq<seq<byte>> {
    if fs == [] then []
    else Data(fs[..|fs| - 1]) + (if fs[|fs| - 1].payload.Some? then [fs[|fs| - 1].payload.value] else [])
  }

  /** The payloads a writer's input is cut into. */
  function GivenPayloads(packet: bool, given: seq<MultiBuffer>): seq<seq<byte>> {
    if given == [] then []
    else GivenPayloads(packet, given[..|given| - 1]) + Payloads(packet, given[|given| - 1])
  }

  lemma OfAppend(ws: seq<Wired>, w: Wired, id: uint16)
    ensures Of(ws + [w], id) == if IsOf(w, id) then Of(ws, id) + [w.frame] else Of(ws, id)
  {
    assert (ws + [w])[..|ws|] == ws;
  }

  lemma DataAppend(fs: seq<Frame>, f: Frame)
    ensures Data(fs + [f]) == if f.payload.Some? then Data(fs) + [f.payload.value] else Data(fs)
  {
    assert (fs + [f])[..|fs|] == fs;
  }

  lemma {:induction false} DataConcat(a: seq<Frame>, b: seq<Frame>)
    ensures Data(a + b) == Data(a) + Data(b)
  {
    if b == [] {
      assert a + b == a;
    } else {
      var init, f := b[..|b| - 1], b[|b| - 1];
      assert (a + b)[..|a + b| - 1] == a + init;
      DataConcat(a, init);
      ConcatAssociative(Data(a), Data(init), if f.payload.Some? then [f.payload.value] else []);
    }
  }

  lemma GivenAppend(packet: bool, given: seq<MultiBuffer>, mb: MultiBuffer)
    ensures GivenPayloads(packet, given + [mb]) == GivenPayloads(packet, given) + Payloads(packet, mb)
  {
    assert (given + [mb])[..|given|] == given;
  }

  /** The frames read so far of a session are a prefix of its frames on the wire, and the next one is next. */
  lemma {:induction false} OfPrefix(wire: seq<Wired>, k: nat, id: uint16)
    requires k <= |wire|
    ensures Of(wire[..k], id) <= Of(wire, id)
    ensures k < |wire| && IsOf(wire[k], id) ==>
              |Of(wire[..k], id)| < |Of(wire, id)| && Of(wire, id)[|Of(wire[..k], id)|] == wire[k].frame
    decreases |wire|
  {
    if k == |wire| {
      assert wire[..k] == wire;
    } else if k + 1 < |wire| {
      var init := wire[..|wire| - 1];
      assert init[..k] == wire[..k];
      OfPrefix(init, k, id);
    }
  }

  // ----- what a writer's frames carry

  lemma {:induction false} DataFramesCarry(w: WriterState, payloads: seq<seq<byte>>)
    ensures Data(DataFrames(w, payloads)) == payloads
    ensures |DataFrames(w, payloads)| == |payloads|
    ensures forall i :: 0 <= i < |payloads| ==>
              DataFrames(w, payloads)[i] ==
              Frame(NextMeta(if i == 0 then w else w.(followup := true), true), Some(payloads[i]))
    decreases payloads
  {
    if payloads != [] {
      var w' := w.(followup := true);
      var first, rest := Frame(NextMeta(w, true), Some(payloads[0])), payloads[1..];
      var tail := DataFrames(w', rest);
      DataFramesCarry(w', rest);
      DataConcat([first], tail);
      DataOne(first, payloads[0]);
      assert payloads == [payloads[0]] + rest;
      forall i | 0 < i < |payloads|
        ensures ([first] + tail)[i] == Frame(NextMeta(w', true), Some(payloads[i]))
      {
        assert ([first] + tail)[i] == tail[i - 1] && payloads[i] == rest[i - 1];
      }
    }
  }

  lemma DataOne(f: Frame, payload: seq<byte>)
    requires f.payload == Some(payload)
    ensures Data([f]) == [payload]
  {
    DataAppend([], f);
    assert [] + [f] == [f];
  }

  /** One write: its frames carry its payloads, the first continues or opens the session, the others continue it. */
  lemma FramesOfCarry(w: WriterState, mb: MultiBuffer)
    ensures Data(FramesOf(w, mb)) == Payloads(w.packet, mb)
    ensures FramesOf(w, mb) != []
    ensures forall i :: 0 <= i < |FramesOf(w, mb)| ==>
              var m := FramesOf(w, mb)[i].meta;
              && m.id == w.id
              && m.status == (if i == 0 && !w.followup then STATUS_NEW else STATUS_KEEP)
              && m.target == (if i == 0 && !w.followup then Some(w.dest) else None)
  {
    if IsEmpty(mb) {
      DataAppend([], Frame(NextMeta(w, false), None));
      assert [] + [Frame(NextMeta(w, false), None)] == FramesOf(w, mb);
    } else {
      DataFramesCarry(w, Payloads(w.packet, mb));
    }
  }

  // ----- the invariant

  function NonEmpty(ss: seq<seq<byte>>): seq<seq<byte>> {
    if ss == [] then []
    else NonEmpty(ss[..|ss| - 1]) + if ss[|ss| - 1] == [] then [] else [ss[|ss| - 1]]
  }

  lemma NonEmptyAppend(ss: seq<seq<byte>>, s: seq<byte>)
    ensures NonEmpty(ss + [s]) == if s == [] then NonEmpty(ss) else NonEmpty(ss) + [s]
  {
    assert (ss + [s])[..|ss|] == ss;
  }

  /** What an output has accepted is, in order, the beginning of the payloads: packet by packet, or byte by byte. */
  predicate Within(packet: bool, output: seq<seq<byte>>, payloads: seq<seq<byte>>) {
    if packet then output <= NonEmpty(payloads) else Flatten(output) <= Flatten(payloads)
  }

  /** ... and all of them. */
  predicate Complete(packet: bool, output: seq<seq<byte>>, payloads: seq<seq<byte>>) {
    if packet then output == NonEmpty(payloads) else Flatten(output) == Flatten(payloads)
  }

  /** New comes first if at all, End comes last, and nothing else opens or ends the session. */
  predicate Shaped(asServer: bool, x: Sender, sent: seq<Frame>) {
    && (forall i :: 0 <= i < |sent| ==> sent[i].meta.id == x.w.id)
    && (forall i :: 0 <= i < |sent| ==> sent[i].meta.status in {STATUS_NEW, STATUS_KEEP, STATUS_END})
    && (forall i :: 0 <= i < |sent| && sent[i].meta.status == STATUS_NEW ==>
          i == 0 && asServer && sent[i].meta.target == Some(x.w.dest))
    && (forall i :: 0 <= i < |sent| ==> (sent[i].meta.status == STATUS_END <==> x.closed && i == |sent| - 1))
    && (x.closed ==> sent != [] && sent[|sent| - 1].payload.None?)
    && (!x.closed && !x.w.followup ==> sent == [])
    && (!x.w.followup ==> asServer)
  }

  predicate SenderOk(asServer: bool, id: uint16, x: Sender, onWire: seq<Frame>) {
    && x.w.id == id
    && x.w.packet == (x.w.dest.network == UDP)
    && Shaped(asServer, x, onWire + x.pending)
    && Data(onWire + x.pending) == GivenPayloads(x.w.packet, x.given)
  }

  predicate ReceiverOk(asServer: bool, id: uint16, packet: bool, seen: seq<Frame>, r: Receiver) {
    && (id in r.outputs ==> Within(packet, r.outputs[id], Data(seen)))
    && (id in r.sessions ==> id in r.outputs && r.sessions[id] == packet && Complete(packet, r.outputs[id], Data(seen)))
    && (asServer && seen == [] ==> id !in r.outputs)
    && (!asServer ==> id in r.outputs)
  }

  predicate SessionOk(s: System, id: uint16)
    requires id in s.senders && s.read <= |s.wire|
  {
    && SenderOk(s.asServer, id, s.senders[id], Of(s.wire, id))
    && ReceiverOk(s.asServer, id, s.senders[id].w.packet, Of(s.wire[..s.read], id), s.receiver)
  }

  ghost predicate Inv(s: System) {
    && s.read <= |s.wire|
    && (forall id :: id in s.senders ==> SessionOk(s, id))
    && IdsKnown(s)
  }

  /** Nothing is received for, or travels under, an id that was never opened. */
  ghost predicate IdsKnown(s: System) {
    && (forall id :: id in s.receiver.outputs || id in s.receiver.sessions ==> id in s.senders)
    && (forall i :: 0 <= i < |s.wire| && s.wire[i].own ==> s.wire[i].frame.meta.id in s.senders)
    && (forall i :: 0 <= i < |s.wire| && !s.wire[i].own ==> s.wire[i] == Notice(s.wire[i].frame.meta.id))
  }

  // ----- every action keeps the invariant

  lemma {:induction false} OfNone(ws: seq<Wired>, id: uint16)
    requires forall i :: 0 <= i < |ws| ==> !IsOf(ws[i], id)
    ensures Of(ws, id) == []
  {
    if ws != [] {
      OfNone(ws[..|ws| - 1], id);
    }
  }

  lemma OpenedSession(s: System, w: WriterState)
    requires s.read <= |s.wire| && Enabled(s, Open(w)) && Of(s.wire, w.id) == [] && Of(s.wire[..s.read], w.id) == []
    requires w.id !in s.receiver.outputs && w.id !in s.receiver.sessions
    ensures SessionOk(Step(s, Open(w)), w.id)
  {
  }

  lemma OpenedOthers(s: System, w: WriterState, id: uint16)
    requires s.read <= |s.wire| && Enabled(s, Open(w)) && id in s.senders && id != w.id && SessionOk(s, id)
    ensures SessionOk(Step(s, Open(w)), id)
  {
  }

  lemma OpenedNew(s: System, w: WriterState)
    requires s.read <= |s.wire| && IdsKnown(s) && Enabled(s, Open(w))
    ensures SessionOk(Step(s, Open(w)), w.id) && IdsKnown(Step(s, Open(w)))
  {
    OfNone(s.wire, w.id);
    OfNone(s.wire[..s.read], w.id);
    OpenedSession(s, w);
  }

  lemma OpenKeeps(s: System, w: WriterState)
    requires Inv(s) && Enabled(s, Open(w))
    ensures Inv(Step(s, Open(w)))
  {
    OpenedNew(s, w);
    forall id | id in s.senders && id != w.id
      ensures SessionOk(Step(s, Open(w)), id)
    {
      OpenedOthers(s, w, id);
    }
  }

  /** New frames put behind well-shaped ones of a session that is not closed. */
  lemma ShapedConcat(asServer: bool, x: Sender, y: Sender, a: seq<Frame>, b: seq<Frame>)
    requires Shaped(asServer, x, a) && !x.closed && b != [] && y.w == x.w.(followup := y.w.followup)
    requires forall i :: 0 <= i < |b| ==>
               && b[i].meta.id == x.w.id
               && b[i].meta.status in {STATUS_NEW, STATUS_KEEP, STATUS_END}
               && (b[i].meta.status == STATUS_NEW ==> i == 0 && !x.w.followup && b[i].meta.target == Some(x.w.dest))
               && (b[i].meta.status == STATUS_END <==> y.closed && i == |b| - 1)
    requires y.closed ==> b[|b| - 1].payload.None?
    requires y.closed || y.w.followup
    requires !y.w.followup ==> asServer
    ensures Shaped(asServer, y, a + b)
  {
    var sent := a + b;
    forall i | 0 <= i < |sent|
      ensures sent[i].meta.id == x.w.id
      ensures sent[i].meta.status in {STATUS_NEW, STATUS_KEEP, STATUS_END}
      ensures sent[i].meta.status == STATUS_NEW ==> i == 0 && asServer && sent[i].meta.target == Some(x.w.dest)
      ensures sent[i].meta.status == STATUS_END <==> y.closed && i == |sent| - 1
    {
      assert sent[i] == if i < |a| then a[i] else b[i - |a|];
    }
  }

  lemma GivenSender(asServer: bool, id: uint16, x: Sender, onWire: seq<Frame>, mb: MultiBuffer)
    requires SenderOk(asServer, id, x, onWire) && !x.closed && x.pending == []
    ensures SenderOk(asServer, id, Sender(x.w.(followup := true), x.given + [mb], FramesOf(x.w, mb), false), onWire)
  {
    var frames := FramesOf(x.w, mb);
    assert onWire + x.pending == onWire;
    FramesOfCarry(x.w, mb);
    DataConcat(onWire, frames);
    GivenAppend(x.w.packet, x.given, mb);
    ShapedConcat(asServer, x, Sender(x.w.(followup := true), x.given + [mb], frames, false), onWire, frames);
  }

  lemma ClosedSender(asServer: bool, id: uint16, x: Sender, onWire: seq<Frame>, hasError: bool)
    requires SenderOk(asServer, id, x, onWire) && !x.closed && x.pending == []
    ensures SenderOk(asServer, id, Sender(x.w, x.given, [Frame(EndMeta(id, hasError), None)], true), onWire)
  {
    var end := Frame(EndMeta(id, hasError), None);
    assert onWire + x.pending == onWire;
    DataAppend(onWire, end);
    ShapedConcat(asServer, x, Sender(x.w, x.given, [end], true), onWire, [end]);
  }

  lemma WrittenSession(s: System, a: Action, id: uint16)
    requires Enabled(s, a) && (a.Give? || a.Close?) && s.read <= |s.wire| && id in s.senders && SessionOk(s, id)
    ensures SessionOk(Step(s, a), id)
  {
    if id == a.id && a.Give? {
      GivenSender(s.asServer, id, s.senders[id], Of(s.wire, id), a.mb);
    } else if id == a.id {
      ClosedSender(s.asServer, id, s.senders[id], Of(s.wire, id), a.hasError);
    }
  }

  lemma WriterKeeps(s: System, a: Action)
    requires Inv(s) && Enabled(s, a) && (a.Give? || a.Close?)
    ensures Inv(Step(s, a))
  {
    var t := Step(s, a);
    forall id | id in t.senders
      ensures SessionOk(t, id)
    {
      WrittenSession(s, a, id);
    }
  }

  /** Putting the first pending frame on the wire moves it from one half of the sent frames to the other. */
  lemma EmittedSender(asServer: bool, id: uint16, x: Sender, onWire: seq<Frame>)
    requires SenderOk(asServer, id, x, onWire) && x.pending != []
    ensures SenderOk(asServer, id, x.(pending := x.pending[1..]), onWire + [x.pending[0]])
  {
    assert (onWire + [x.pending[0]]) + x.pending[1..] == onWire + x.pending;
  }

  lemma PendingFrame(s: System, id: uint16)
    requires s.read <= |s.wire| && id in s.senders && SessionOk(s, id) && s.senders[id].pending != []
    ensures s.senders[id].pending[0].meta.id == id
  {
    var onWire, pending := Of(s.wire, id), s.senders[id].pending;
    assert (onWire + pending)[|onWire|] == pending[0];
  }

  lemma SameFront<T>(s: seq<T>, x: T, n: nat)
    requires n <= |s|
    ensures (s + [x])[..n] == s[..n]
  {
  }

  lemma EmittedOwn(s: System, a: Action)
    requires Enabled(s, a) && a.Emit? && s.read <= |s.wire|
    requires SessionOk(s, a.id) && s.senders[a.id].pending[0].meta.id == a.id
    ensures SessionOk(Step(s, a), a.id)
  {
    var x := s.senders[a.id];
    SameFront(s.wire, Wired(x.pending[0], true), s.read);
    OfAppend(s.wire, Wired(x.pending[0], true), a.id);
    EmittedSender(s.asServer, a.id, x, Of(s.wire, a.id));
  }

  lemma EmittedOther(s: System, a: Action, id: uint16)
    requires Enabled(s, a) && a.Emit? && s.read <= |s.wire| && id in s.senders && id != a.id
    requires SessionOk(s, id) && s.senders[a.id].pending[0].meta.id == a.id
    ensures SessionOk(Step(s, a), id)
  {
    var x := s.senders[a.id];
    SameFront(s.wire, Wired(x.pending[0], true), s.read);
    OfAppend(s.wire, Wired(x.pending[0], true), id);
  }

  lemma EmittedIds(s: System, a: Action)
    requires Enabled(s, a) && a.Emit? && IdsKnown(s) && s.senders[a.id].pending[0].meta.id == a.id
    ensures IdsKnown(Step(s, a))
  {
  }

  lemma EmitKeeps(s: System, a: Action)
    requires Inv(s) && Enabled(s, a) && a.Emit?
    ensures Inv(Step(s, a))
  {
    var t := Step(s, a);
    PendingFrame(s, a.id);
    EmittedIds(s, a);
    forall id | id in t.senders
      ensures SessionOk(t, id)
    {
      if id == a.id {
        EmittedOwn(s, a);
      } else {
        EmittedOther(s, a, id);
      }
    }
  }

  lemma ForgetKeeps(s: System, a: Action)
    requires Inv(s) && Enabled(s, a) && a.Forget?
    ensures Inv(Step(s, a))
  {
    var t := Step(s, a);
    forall id | id in t.senders
      ensures SessionOk(t, id)
    {
      assert SessionOk(s, id);
    }
  }

  lemma NotifyKeeps(s: System, a: Action)
    requires Inv(s) && Enabled(s, a) && a.Notify?
    ensures Inv(Step(s, a))
  {
    var t := Step(s, a);
    forall id | id in t.senders
      ensures SessionOk(t, id)
    {
      assert SessionOk(s, id);
      SameFront(s.wire, Notice(a.id), s.read);
      OfAppend(s.wire, Notice(a.id), id);
    }
  }

  /** Appending a payload extends what an output may hold, and a full copy keeps it complete. */
  lemma CopyKeeps(packet: bool, output: seq<seq<byte>>, payloads: seq<seq<byte>>, payload: seq<byte>, c: Copied)
    requires Complete(packet, output, payloads) && CopyPossible(packet, output, payload, c)
    ensures Within(packet, c.output, payloads + [payload])
    ensures c.ok ==> Complete(packet, c.output, payloads + [payload])
  {
    var pieces := c.output[|output|..];
    assert c.output == output + pieces;
    if packet {
      NonEmptyAppend(payloads, payload);
    } else {
      FlattenConcat(output, pieces);
      FlattenConcat(payloads, [payload]);
      FlattenOne(payload);
    }
  }

  lemma WithinGrows(packet: bool, output: seq<seq<byte>>, payloads: seq<seq<byte>>, payload: seq<byte>)
    requires Within(packet, output, payloads)
    ensures Within(packet, output, payloads + [payload])
  {
    NonEmptyAppend(payloads, payload);
    FlattenConcat(payloads, [payload]);
  }

  /** The receiver handles the next frame of session `id`, of which it has seen the frames `seen`. */
  lemma HandledOwn(asServer: bool, x: Sender, sent: seq<Frame>, seen: seq<Frame>, r: Receiver, f: Frame, c: Copied)
    requires Shaped(asServer, x, sent) && x.w.packet == (x.w.dest.network == UDP)
    requires seen <= sent && |seen| < |sent| && f == sent[|seen|]
    requires ReceiverOk(asServer, x.w.id, x.w.packet, seen, r) && Possible(asServer, r, f, c)
    ensures ReceiverOk(asServer, x.w.id, x.w.packet, seen + [f], Handled(asServer, r, f, c))
  {
    var id, packet, t := x.w.id, x.w.packet, Handled(asServer, r, f, c);
    DataAppend(seen, f);
    assert f.meta.status == STATUS_NEW ==> seen == [];
    if f.payload.Some? {
      var before := if id in r.outputs && f.meta.status != STATUS_NEW then r.outputs[id] else [];
      if Delivers(asServer, r, f) {
        CopyKeeps(packet, before, Data(seen), f.payload.value, c);
      } else if id in r.outputs {
        WithinGrows(packet, r.outputs[id], Data(seen), f.payload.value);
      }
    } else {
      assert Data(seen + [f]) == Data(seen);
    }
  }

  /** Handling a frame of another session changes nothing for this one. */
  lemma HandledOther(asServer: bool, id: uint16, packet: bool, seen: seq<Frame>, r: Receiver, f: Frame, c: Copied)
    requires ReceiverOk(asServer, id, packet, seen, r) && f.meta.id != id
    ensures ReceiverOk(asServer, id, packet, seen, Handled(asServer, r, f, c))
    ensures var t := Handled(asServer, r, f, c);
            && (id in t.outputs <==> id in r.outputs) && (id in r.outputs ==> t.outputs[id] == r.outputs[id])
            && (id in t.sessions <==> id in r.sessions)
  {
  }

  /** A notice makes the receiver drop the session, and no more. */
  lemma HandledNotice(asServer: bool, id: uint16, packet: bool, seen: seq<Frame>, r: Receiver, from: uint16, c: Copied)
    requires ReceiverOk(asServer, id, packet, seen, r)
    ensures ReceiverOk(asServer, id, packet, seen, Handled(asServer, r, Notice(from).frame, c))
  {
  }

  /** The next frame of a session on the wire is the next its writer sent. */
  lemma SeenNext(wire: seq<Wired>, read: nat, id: uint16, pending: seq<Frame>)
    requires read < |wire|
    ensures Of(wire[..read + 1], id) ==
            if IsOf(wire[read], id) then Of(wire[..read], id) + [wire[read].frame] else Of(wire[..read], id)
    ensures IsOf(wire[read], id) ==>
              var seen, sent := Of(wire[..read], id), Of(wire, id) + pending;
              seen <= sent && |seen| < |sent| && wire[read].frame == sent[|seen|]
  {
    assert wire[..read + 1] == wire[..read] + [wire[read]];
    OfAppend(wire[..read], wire[read], id);
    OfPrefix(wire, read, id);
  }

  lemma ReceivedSession(s: System, a: Action, id: uint16)
    requires Enabled(s, a) && a.Receive? && id in s.senders && SessionOk(s, id) && IdsKnown(s)
    ensures SessionOk(Step(s, a), id)
  {
    ReceivedFrame(s, a, id);
    var t := Step(s, a);
    assert t.senders == s.senders && t.wire == s.wire && t.read == s.read + 1;
  }

  /** Any frame on the wire, of this session or not. */
  lemma HandledAny(asServer: bool, x: Sender, sent: seq<Frame>, seen: seq<Frame>, r: Receiver, w: Wired, c: Copied)
    requires ReceiverOk(asServer, x.w.id, x.w.packet, seen, r) && Possible(asServer, r, w.frame, c)
    requires w.own || w == Notice(w.frame.meta.id)
    requires IsOf(w, x.w.id) ==>
               && Shaped(asServer, x, sent) && x.w.packet == (x.w.dest.network == UDP)
               && seen <= sent && |seen| < |sent| && w.frame == sent[|seen|]
    ensures ReceiverOk(asServer, x.w.id, x.w.packet, if IsOf(w, x.w.id) then seen + [w.frame] else seen,
                       Handled(asServer, r, w.frame, c))
  {
    if IsOf(w, x.w.id) {
      HandledOwn(asServer, x, sent, seen, r, w.frame, c);
    } else if !w.own {
      HandledNotice(asServer, x.w.id, x.w.packet, seen, r, w.frame.meta.id, c);
    } else {
      HandledOther(asServer, x.w.id, x.w.packet, seen, r, w.frame, c);
    }
  }

  lemma ReceivedFrame(s: System, a: Action, id: uint16)
    requires Enabled(s, a) && a.Receive? && id in s.senders && SessionOk(s, id)
    requires s.wire[s.read].own || s.wire[s.read] == Notice(s.wire[s.read].frame.meta.id)
    ensures ReceiverOk(s.asServer, id, s.senders[id].w.packet, Of(s.wire[..s.read + 1], id), Step(s, a).receiver)
  {
    var w, x, seen := s.wire[s.read], s.senders[id], Of(s.wire[..s.read], id);
    SeenNext(s.wire, s.read, id, x.pending);
    HandledAny(s.asServer, x, Of(s.wire, id) + x.pending, seen, s.receiver, w, a.c);
  }

  lemma ReceiveKeeps(s: System, a: Action)
    requires Inv(s) && Enabled(s, a) && a.Receive?
    ensures Inv(Step(s, a))
  {
    var t := Step(s, a);
    forall id | id in t.senders
      ensures SessionOk(t, id)
    {
      ReceivedSession(s, a, id);
    }
  }

  lemma StepKeeps(s: System, a: Action)
    requires Inv(s) && Enabled(s, a)
    ensures Inv(Step(s, a))
  {
    match a
    case Open(w) => OpenKeeps(s, w);
    case Give(_, _) => WriterKeeps(s, a);
    case Close(_, _) => WriterKeeps(s, a);
    case Emit(_) => EmitKeeps(s, a);
    case Receive(_) => ReceiveKeeps(s, a);
    case Forget(_) => ForgetKeeps(s, a);
    case Notify(_) => NotifyKeeps(s, a);
  }

  lemma {:induction false} RunKeeps(s: System, actions: seq<Action>)
    requires Inv(s) && Runs(s, actions)
    ensures Inv(After(s, actions))
    decreases actions
  {
    if actions != [] {
      StepKeeps(s, actions[0]);
      RunKeeps(Step(s, actions[0]), actions[1..]);
    }
  }

  // ----- what the invariant means

  /** The non-empty packets a writer was given, in order. */
  function GivenPackets(given: seq<MultiBuffer>): seq<seq<byte>> {
    if given == [] then [] else GivenPackets(given[..|given| - 1]) + NonEmptyPackets(given[|given| - 1])
  }

  lemma {:induction false} NonEmptyConcat(a: seq<seq<byte>>, b: seq<seq<byte>>)
    ensures NonEmpty(a + b) == NonEmpty(a) + NonEmpty(b)
  {
    if b == [] {
      assert a + b == a;
    } else {
      var init, last := b[..|b| - 1], b[|b| - 1];
      assert a + b == (a + init) + [last] && b == init + [last];
      NonEmptyAppend(a + init, last);
      NonEmptyAppend(init, last);
      NonEmptyConcat(a, init);
    }
  }

  lemma {:induction false} PacketsAreGiven(mb: MultiBuffer)
    ensures NonEmpty(Packets(mb)) == NonEmptyPackets(mb)
  {
    if mb != [] {
      PacketsAreGiven(mb[1..]);
      if IsEmpty(mb) {
        assert IsEmpty(mb[1..]);
      } else {
        NonEmptyConcat([mb[0].bytes], Packets(mb[1..]));
        NonEmptyAppend([], mb[0].bytes);
        assert [] + [mb[0].bytes] == [mb[0].bytes];
      }
    }
  }

  lemma {:induction false} DeliveryAppend(given: seq<MultiBuffer>, mb: MultiBuffer)
    ensures Delivery(given + [mb]) == Delivery(given) + Content(mb)
  {
    if given == [] {
      assert given + [mb] == [mb] && Delivery([mb][1..]) == [];
    } else {
      assert (given + [mb])[1..] == given[1..] + [mb];
      DeliveryAppend(given[1..], mb);
    }
  }

  /** Cutting into payloads keeps every non-empty packet of a packet session and every byte of a stream. */
  lemma {:induction false} PacketPayloads(given: seq<MultiBuffer>)
    ensures NonEmpty(GivenPayloads(true, given)) == GivenPackets(given)
  {
    if given != [] {
      var init, mb := given[..|given| - 1], given[|given| - 1];
      PacketPayloads(init);
      NonEmptyConcat(GivenPayloads(true, init), Payloads(true, mb));
      PacketsAreGiven(mb);
    }
  }

  lemma StreamMore(given: seq<MultiBuffer>, mb: MultiBuffer)
    requires Flatten(GivenPayloads(false, given)) == Delivery(given)
    ensures Flatten(GivenPayloads(false, given + [mb])) == Delivery(given + [mb])
  {
    GivenAppend(false, given, mb);
    FlattenConcat(GivenPayloads(false, given), Payloads(false, mb));
    SlicesAreGiven(mb);
    DeliveryAppend(given, mb);
  }

  lemma {:induction false} StreamPayloads(given: seq<MultiBuffer>)
    ensures Flatten(GivenPayloads(false, given)) == Delivery(given)
  {
    if given != [] {
      var init, mb := given[..|given| - 1], given[|given| - 1];
      StreamPayloads(init);
      StreamMore(init, mb);
      assert given == init + [mb];
    }
  }

  lemma PayloadsAreGiven(packet: bool, given: seq<MultiBuffer>)
    ensures packet ==> NonEmpty(GivenPayloads(packet, given)) == GivenPackets(given)
    ensures !packet ==> Flatten(GivenPayloads(packet, given)) == Delivery(given)
  {
    if packet {
      PacketPayloads(given);
    } else {
      StreamPayloads(given);
    }
  }

  lemma SlicesAreGiven(mb: MultiBuffer)
    ensures Flatten(Payloads(false, mb)) == Content(mb)
  {
    EmptyContent(mb);
    SlicesCarryContent(mb);
  }

  /** `output` holds, in order, the first of what `x` was given: whole packets, or stream bytes. */
  predicate DeliveredPrefix(x: Sender, output: seq<seq<byte>>) {
    if x.w.packet then output <= GivenPackets(x.given) else Flatten(output) <= Delivery(x.given)
  }

  predicate DeliveredAll(x: Sender, output: seq<seq<byte>>) {
    if x.w.packet then output == GivenPackets(x.given) else Flatten(output) == Delivery(x.given)
  }

  lemma {:induction false} NonEmptyPrefix(a: seq<seq<byte>>, b: seq<seq<byte>>)
    requires a <= b
    ensures NonEmpty(a) <= NonEmpty(b)
  {
    assert b == a + b[|a|..];
    NonEmptyConcat(a, b[|a|..]);
  }

  lemma DataPrefix(a: seq<Frame>, b: seq<Frame>)
    requires a <= b
    ensures Data(a) <= Data(b)
  {
    assert b == a + b[|a|..];
    DataConcat(a, b[|a|..]);
  }

  lemma SessionDelivers(s: System, id: uint16)
    requires s.read <= |s.wire| && id in s.senders && SessionOk(s, id) && id in s.receiver.outputs
    ensures DeliveredPrefix(s.senders[id], s.receiver.outputs[id])
  {
    var x, seen := s.senders[id], Of(s.wire[..s.read], id);
    OfPrefix(s.wire, s.read, id);
    DataPrefix(seen, Of(s.wire, id) + x.pending);
    NonEmptyPrefix(Data(seen), GivenPayloads(x.w.packet, x.given));
    FlattenPrefix(Data(seen), GivenPayloads(x.w.packet, x.given));
    PayloadsAreGiven(x.w.packet, x.given);
  }

  /**
    Isolation and order, for every run: whatever the interleaving of the writers, the refusals of
    outputs and the sessions dropped on the way, each output holds a prefix of what its own
    writer was given, and there is no output without a writer.
   */
  lemma Isolation(asServer: bool, actions: seq<Action>, id: uint16)
    requires Runs(Initial(asServer), actions)
    requires id in After(Initial(asServer), actions).receiver.outputs
    ensures var s := After(Initial(asServer), actions);
            id in s.senders && DeliveredPrefix(s.senders[id], s.receiver.outputs[id])
  {
    var s := After(Initial(asServer), actions);
    RunKeeps(Initial(asServer), actions);
    SessionDelivers(s, id);
  }

  /** Completeness: a session that is still registered when its writer's End frame is next has received everything. */
  lemma CompleteAtEnd(asServer: bool, actions: seq<Action>, id: uint16)
    requires Runs(Initial(asServer), actions)
    requires var s := After(Initial(asServer), actions);
             && s.read < |s.wire| && IsOf(s.wire[s.read], id) && s.wire[s.read].frame.meta.status == STATUS_END
             && id in s.receiver.sessions
    ensures var s := After(Initial(asServer), actions);
            && id in s.senders && id in s.receiver.outputs
            && DeliveredAll(s.senders[id], s.receiver.outputs[id])
  {
    var s := After(Initial(asServer), actions);
    RunKeeps(Initial(asServer), actions);
    EndMeansAll(s, id);
  }

  lemma EndMeansAll(s: System, id: uint16)
    requires s.read < |s.wire| && id in s.senders && SessionOk(s, id) && id in s.receiver.sessions
    requires IsOf(s.wire[s.read], id) && s.wire[s.read].frame.meta.status == STATUS_END
    ensures DeliveredAll(s.senders[id], s.receiver.outputs[id])
  {
    var x, f := s.senders[id], s.wire[s.read].frame;
    var seen, sent := Of(s.wire[..s.read], id), Of(s.wire, id) + x.pending;
    OfPrefix(s.wire, s.read, id);
    assert sent[|seen|] == f && sent == seen + [f];
    DataAppend(seen, f);
    PayloadsAreGiven(x.w.packet, x.given);
  }

  /** A second New frame never arrives for a session. */
  lemma NewOnlyOnce(s: System, id: uint16)
    requires s.read < |s.wire| && id in s.senders && SessionOk(s, id)
    requires IsOf(s.wire[s.read], id) && id in s.receiver.outputs
    ensures !(s.wire[s.read].frame.meta.status == STATUS_NEW && s.asServer)
  {
    var x, seen := s.senders[id], Of(s.wire[..s.read], id);
    OfPrefix(s.wire, s.read, id);
    assert (Of(s.wire, id) + x.pending)[|seen|] == s.wire[s.read].frame;
  }

  lemma HandledDropped(asServer: bool, r: Receiver, f: Frame, c: Copied, id: uint16)
    requires id in r.outputs && id !in r.sessions
    requires f.meta.id == id ==> !(f.meta.status == STATUS_NEW && asServer)
    ensures var t := Handled(asServer, r, f, c);
            id in t.outputs && id !in t.sessions && t.outputs[id] == r.outputs[id]
  {
  }

  /** A dropped session stays dropped: its output never grows again, whatever frames still arrive for it. */
  lemma DroppedIsFinal(s: System, a: Action, id: uint16)
    requires Inv(s) && Enabled(s, a) && id in s.receiver.outputs && id !in s.receiver.sessions
    ensures var t := Step(s, a).receiver;
            id in t.outputs && id !in t.sessions && t.outputs[id] == s.receiver.outputs[id]
  {
    match a
    case Receive(c) =>
      if IsOf(s.wire[s.read], id) {
        NewOnlyOnce(s, id);
      }
      HandledDropped(s.asServer, s.receiver, s.wire[s.read].frame, c, id);
    case Open(_) =>
    case Give(_, _) =>
    case Close(_, _) =>
    case Emit(_) =>
    case Forget(_) =>
    case Notify(_) =>
  }
}
