/** From the shared wire to the sessions: the worker's loop on the bytes of any interleaving of writers. */
module MuxRun {
  import opened Bytes
  import opened MultiBuffers
  import opened BufferedIO
  import opened ChunkStream
  import opened MuxFrame
  import opened MuxSystem
  import opened MuxSafety
  import opened MuxClose
  import opened MuxComplete
  import opened MuxWorker

  // ----- frames of a writer can be written and read back

  predicate WriterFits(w: WriterState, literals: Literals) {
    w.followup || (w.dest.address.WellFormed() && !w.dest.network.Unknown? && Carried(w.dest.address, literals))
  }

  predicate FrameFits(packet: bool, f: Frame, literals: Literals) {
    && Writable(f) && Representable(f.meta, literals)
    && STATUS_NEW <= f.meta.status <= STATUS_KEEP_ALIVE
    && (packet && f.payload.Some? ==> |f.payload.value| <= BUFFER_SIZE)
  }

  ghost predicate Fits(s: System, literals: Literals) {
    && (forall id :: id in s.senders ==> SenderFits(s.senders[id], literals))
    && (forall i :: 0 <= i < |s.wire| ==> WiredFits(s, s.wire[i], literals))
  }

  ghost predicate WiredFits(s: System, w: Wired, literals: Literals) {
    if w.own then w.frame.meta.id in s.senders && FrameFits(s.senders[w.frame.meta.id].w.packet, w.frame, literals)
    else w == Notice(w.frame.meta.id) && FrameFits(false, w.frame, literals)
  }

  lemma {:induction false} PacketsFit(mb: MultiBuffer)
    ensures forall i :: 0 <= i < |Packets(mb)| ==> |Packets(mb)[i]| <= BUFFER_SIZE
  {
    if !IsEmpty(mb) {
      PacketsFit(mb[1..]);
    }
  }

  lemma NextMetaFits(w: WriterState, data: bool, literals: Literals)
    requires WriterFits(w, literals)
    ensures var m := NextMeta(w, data);
            && m.WellFormed() && Representable(m, literals) && MetaBytes(m).Some?
            && STATUS_NEW <= m.status <= STATUS_KEEP_ALIVE && (HasData(m.option) <==> data)
  {
    RepresentableIsWritten(NextMeta(w, data), literals);
  }

  lemma DataFrameFits(w: WriterState, payload: seq<byte>, literals: Literals)
    requires WriterFits(w, literals) && |payload| <= if w.packet then BUFFER_SIZE else SLICE_SIZE
    ensures FrameFits(w.packet, Frame(NextMeta(w, true), Some(payload)), literals)
  {
    NextMetaFits(w, true, literals);
  }

  lemma PayloadsFit(packet: bool, mb: MultiBuffer, i: nat)
    requires i < |Payloads(packet, mb)|
    ensures |Payloads(packet, mb)[i]| <= if packet then BUFFER_SIZE else SLICE_SIZE
  {
    PacketsFit(mb);
    SlicesCarryContent(mb);
  }

  /** Every frame a mux writer emits can be written and is read back as it was. */
  lemma FramesOfFit(w: WriterState, mb: MultiBuffer, literals: Literals)
    requires WriterFits(w, literals)
    ensures forall i :: 0 <= i < |FramesOf(w, mb)| ==> FrameFits(w.packet, FramesOf(w, mb)[i], literals)
  {
    if IsEmpty(mb) {
      NextMetaFits(w, false, literals);
    } else {
      var frames, payloads := FramesOf(w, mb), Payloads(w.packet, mb);
      DataFramesCarry(w, payloads);
      forall i | 0 <= i < |frames|
        ensures FrameFits(w.packet, frames[i], literals)
      {
        PayloadsFit(w.packet, mb, i);
        DataFrameFits(if i == 0 then w else w.(followup := true), payloads[i], literals);
      }
    }
  }

  lemma EndFits(packet: bool, id: uint16, hasError: bool, literals: Literals)
    ensures FrameFits(packet, Frame(EndMeta(id, hasError), None), literals)
  {
    RepresentableIsWritten(EndMeta(id, hasError), literals);
  }

  predicate SenderFits(x: Sender, literals: Literals) {
    && WriterFits(x.w, literals)
    && forall i :: 0 <= i < |x.pending| ==> FrameFits(x.w.packet, x.pending[i], literals)
  }

  lemma EmitFits(s: System, a: Action, literals: Literals)
    requires Fits(s, literals) && Enabled(s, a) && a.Emit? && s.senders[a.id].pending[0].meta.id == a.id
    ensures Fits(Step(s, a), literals)
  {
    var t := Step(s, a);
    forall i | 0 <= i < |t.wire|
      ensures WiredFits(t, t.wire[i], literals)
    {
      if i < |s.wire| {
        assert t.wire[i] == s.wire[i];
      } else {
        assert t.wire[i] == Wired(s.senders[a.id].pending[0], true);
      }
    }
  }

  lemma WriteFits(s: System, a: Action, literals: Literals)
    requires Fits(s, literals) && Enabled(s, a) && (a.Give? || a.Close?)
    ensures Fits(Step(s, a), literals)
  {
    var x := s.senders[a.id];
    if a.Give? {
      FramesOfFit(x.w, a.mb, literals);
    } else {
      EndFits(x.w.packet, a.id, a.hasError, literals);
    }
    assert SenderFits(Step(s, a).senders[a.id], literals);
  }

  lemma StepFits(s: System, a: Action, literals: Literals)
    requires Inv(s) && Fits(s, literals) && Enabled(s, a) && (a.Open? ==> WriterFits(a.w, literals))
    ensures Fits(Step(s, a), literals)
  {
    if a.Give? || a.Close? {
      WriteFits(s, a, literals);
    } else if a.Emit? {
      PendingFrame(s, a.id);
      EmitFits(s, a, literals);
    } else if a.Open? {
      OpenFits(s, a.w, literals);
    } else if a.Notify? {
      NotifyFits(s, a, literals);
    } else {
      QuietFits(s, a, literals);
    }
  }

  lemma OpenFits(s: System, w: WriterState, literals: Literals)
    requires Fits(s, literals) && Enabled(s, Open(w)) && WriterFits(w, literals)
    ensures Fits(Step(s, Open(w)), literals)
  {
    assert SenderFits(Step(s, Open(w)).senders[w.id], literals);
  }

  lemma NotifyFits(s: System, a: Action, literals: Literals)
    requires Fits(s, literals) && Enabled(s, a) && a.Notify?
    ensures Fits(Step(s, a), literals)
  {
    var t := Step(s, a);
    EndFits(false, a.id, false, literals);
    forall i | 0 <= i < |t.wire|
      ensures WiredFits(t, t.wire[i], literals)
    {
      if i < |s.wire| {
        assert t.wire[i] == s.wire[i];
      } else {
        assert t.wire[i] == Notice(a.id);
      }
    }
  }

  lemma QuietFits(s: System, a: Action, literals: Literals)
    requires Fits(s, literals) && Enabled(s, a) && (a.Receive? || a.Forget?)
    ensures Fits(Step(s, a), literals)
  {
    assert Step(s, a).senders == s.senders && Step(s, a).wire == s.wire;
  }

  /** Every session is opened to a target the frame format can carry. */
  predicate Carries(actions: seq<Action>, literals: Literals) {
    forall i :: 0 <= i < |actions| && actions[i].Open? ==> WriterFits(actions[i].w, literals)
  }

  lemma {:induction false} RunFits(s: System, actions: seq<Action>, literals: Literals)
    requires Inv(s) && Fits(s, literals) && Runs(s, actions) && Carries(actions, literals)
    ensures Inv(After(s, actions)) && Fits(After(s, actions), literals) && After(s, actions).asServer == s.asServer
    decreases actions
  {
    if actions != [] {
      StepKeeps(s, actions[0]);
      StepFits(s, actions[0], literals);
      RunFits(Step(s, actions[0]), actions[1..], literals);
    }
  }

  /** The next frame of a reachable state is one the receiving end can take. */
  lemma NextIsTaken(s: System, literals: Literals)
    requires Inv(s) && Fits(s, literals) && s.read < |s.wire|
    ensures Takes(s.asServer, s.receiver, s.wire[s.read].frame, literals)
  {
    var w := s.wire[s.read];
    assert WiredFits(s, w, literals);
    if w.own {
      assert SessionOk(s, w.frame.meta.id);
      if w.frame.meta.status == STATUS_NEW {
        NewTarget(s, w.frame.meta.id);
      }
    }
  }

  lemma NewTarget(s: System, id: uint16)
    requires s.read < |s.wire| && id in s.senders && SessionOk(s, id)
    requires IsOf(s.wire[s.read], id) && s.wire[s.read].frame.meta.status == STATUS_NEW
    ensures s.wire[s.read].frame.meta.target == Some(s.senders[id].w.dest)
  {
    var x, seen := s.senders[id], Of(s.wire[..s.read], id);
    OfPrefix(s.wire, s.read, id);
    assert (Of(s.wire, id) + x.pending)[|seen|] == s.wire[s.read].frame;
  }

  /** The frames that are still to be read, if the link took no more than the first `till`. */
  function Ahead(s: System, till: nat): seq<Frame> {
    if s.read <= till <= |s.wire| then Frames(s.wire[s.read..till]) else []
  }

  lemma AheadStep(s: System, till: nat)
    requires s.read < till <= |s.wire|
    ensures Ahead(s, till) == [s.wire[s.read].frame] + Ahead(s.(read := s.read + 1), till)
  {
    assert s.wire[s.read..till][1..] == s.wire[s.read + 1..till];
  }

  // ----- the loop

  lemma {:induction false} RunsAppend(s: System, actions: seq<Action>, a: Action)
    requires Runs(s, actions) && Enabled(After(s, actions), a)
    ensures Runs(s, actions + [a]) && After(s, actions + [a]) == Step(After(s, actions), a)
    decreases actions
  {
    if actions == [] {
      assert actions + [a] == [a] && [a][1..] == [];
    } else {
      assert (actions + [a])[0] == actions[0] && (actions + [a])[1..] == actions[1..] + [a];
      RunsAppend(Step(s, actions[0]), actions[1..], a);
    }
  }

  /** Every interruption comes from an End frame on the link that has the error bit. */
  ghost predicate Blamed(interrupted: seq<uint16>, wire: seq<Wired>) {
    forall k :: 0 <= k < |interrupted| ==> exists i :: 0 <= i < |wire| && Fails(wire[i].frame, interrupted[k])
  }

  predicate Fails(f: Frame, id: uint16) { IsEnd(f) && HasError(f.meta.option) && f.meta.id == id }

  lemma BlamedMore(interrupted: seq<uint16>, wire: seq<Wired>, i: nat, r: Receiver)
    requires Blamed(interrupted, wire) && i < |wire|
    ensures Blamed(interrupted + Interrupts(r, wire[i].frame), wire)
  {
    var more := interrupted + Interrupts(r, wire[i].frame);
    forall k | 0 <= k < |more|
      ensures exists i :: 0 <= i < |wire| && Fails(wire[i].frame, more[k])
    {
      if k < |interrupted| {
        assert more[k] == interrupted[k];
      } else {
        assert Fails(wire[i].frame, more[k]);
      }
    }
  }

  /** The worker is the receiver of `s` and has the bytes of the frames not read yet in front of it. */
  ghost predicate Mirrors(w: Worker, s: System, till: nat)
    reads w, w.reader
  {
    && s.read <= till <= |s.wire|
    && Inv(s) && Fits(s, w.literals) && DenoteIPs(w.literals)
    && w.Valid() && w.asServer == s.asServer && w.View() == s.receiver
    && AllWritable(Ahead(s, till)) && w.reader.Unread() == WireBytes(Ahead(s, till))
    && Blamed(w.interrupted, s.wire)
  }

  /** One round of the loop follows the system by a Receive. */
  method Round(w: Worker, dispatched: Dispatched, ghost s: System, ghost till: nat)
    returns (ok: bool, ghost a: Action)
    requires w.Valid()
    modifies w, w.reader
    ensures w.Valid()
    ensures ok ==> |w.reader.Unread()| < old(|w.reader.Unread()|)
    ensures old(Mirrors(w, s, till)) && ok ==> a.Receive? && Enabled(s, a) && Mirrors(w, Step(s, a), till)
    ensures old(Mirrors(w, s, till)) && !ok ==> w.View() == s.receiver && Blamed(w.interrupted, s.wire)
    ensures old(Mirrors(w, s, till)) && s.read < till && dispatched.Linked? ==> ok
    ensures old(Mirrors(w, s, till) && w.Unlimited()) && ok && dispatched == Linked(None) ==>
              w.Unlimited() && Undisturbed(a)
  {
    ghost var left := Ahead(s, till);
    ghost var f := if left == [] then Frame(Meta(0, 0, 0, None), None) else left[0];
    ghost var rest := if left != [] && AllWritable(left) then WireBytes(left[1..]) else [];
    ghost var mirrors := Mirrors(w, s, till);
    if mirrors && left != [] {
      NextIsTaken(s, w.literals);
      AheadStep(s, till);
      BlamedMore(w.interrupted, s.wire, s.read, s.receiver);
      assert w.FrameNext(f, rest);
    }
    ghost var c;
    ok, c := w.HandleFrame(dispatched, f, rest);
    a := Receive(c);
    if mirrors && left != [] && ok {
      StepKeeps(s, a);
      StepFits(s, a, w.literals);
      assert Ahead(Step(s, a), till) == left[1..];
    }
  }

  /** The response side of a session ends: it closes the session while frames may still arrive for it. */
  method Drop(w: Worker, id: uint16, ghost s: System, ghost till: nat)
    requires w.Valid()
    modifies w
    ensures w.Valid() && w.reader.Unread() == old(w.reader.Unread())
    ensures old(Mirrors(w, s, till)) ==> Mirrors(w, Step(s, Forget(id)), till)
  {
    if Mirrors(w, s, till) {
      StepKeeps(s, Forget(id));
      StepFits(s, Forget(id), w.literals);
    }
    w.sessions := w.sessions - {id};
  }

  /** The worker mirrors what `s` has become by receiving frames and dropping sessions. */
  ghost predicate Follows(w: Worker, s: System, till: nat, actions: seq<Action>)
    reads w, w.reader
  {
    && Runs(s, actions) && Mirrors(w, After(s, actions), till)
    && After(s, actions).senders == s.senders && After(s, actions).wire == s.wire
  }

  /** What the loop leaves behind when it stops. */
  ghost predicate Stopped(w: Worker, s: System, till: nat, actions: seq<Action>, answer: Dispatched)
    reads w
  {
    && Runs(s, actions) && w.View() == After(s, actions).receiver && Inv(After(s, actions))
    && After(s, actions).senders == s.senders && After(s, actions).wire == s.wire
    && (answer.Linked? ==> After(s, actions).read == till) && Blamed(w.interrupted, s.wire)
  }

  /** A session may be dropped before a frame. */
  method MayDrop(w: Worker, drop: Option<uint16>, ghost s: System, ghost till: nat, ghost actions: seq<Action>)
    returns (ghost actions': seq<Action>)
    requires w.Valid()
    modifies w
    ensures w.Valid() && w.reader.Unread() == old(w.reader.Unread())
    ensures old(Follows(w, s, till, actions)) ==> Follows(w, s, till, actions')
    ensures drop.None? ==> actions' == actions && unchanged(w)
  {
    actions' := actions;
    if drop.Some? {
      ghost var follows, t := Follows(w, s, till, actions), if Runs(s, actions) then After(s, actions) else s;
      Drop(w, drop.value, t, till);
      if follows {
        RunsAppend(s, actions, Forget(drop.value));
        actions' := actions + [Forget(drop.value)];
      }
    }
  }

  /** A frame is handled. */
  method Handle(w: Worker, answer: Dispatched, ghost s: System, ghost till: nat, ghost actions: seq<Action>)
    returns (ok: bool, ghost actions': seq<Action>)
    requires w.Valid()
    modifies w, w.reader
    ensures w.Valid() && (ok ==> |w.reader.Unread()| < old(|w.reader.Unread()|))
    ensures old(Follows(w, s, till, actions)) ==>
              if ok then Follows(w, s, till, actions') else Stopped(w, s, till, actions', answer)
    ensures old(Follows(w, s, till, actions) && w.Unlimited()) && AllUndisturbed(actions) && answer == Linked(None) ==>
              AllUndisturbed(actions') && (ok ==> w.Unlimited())
  {
    actions' := actions;
    ghost var follows, t := Follows(w, s, till, actions), if Runs(s, actions) then After(s, actions) else s;
    ghost var calm := follows && w.Unlimited() && AllUndisturbed(actions) && answer == Linked(None);
    ghost var a;
    ok, a := Round(w, answer, t, till);
    if follows && ok {
      RunsAppend(s, actions, a);
      actions' := actions + [a];
      if calm {
        UndisturbedMore(actions, a);
      }
    }
  }

  lemma UndisturbedMore(actions: seq<Action>, a: Action)
    requires AllUndisturbed(actions) && Undisturbed(a)
    ensures AllUndisturbed(actions + [a])
  {
  }

  /** A session may be dropped, then a frame is handled. */
  method Turn(w: Worker, answer: Dispatched, drop: Option<uint16>, ghost s: System, ghost till: nat,
              ghost actions: seq<Action>)
    returns (ok: bool, ghost actions': seq<Action>)
    requires w.Valid()
    modifies w, w.reader
    ensures w.Valid() && (ok ==> |w.reader.Unread()| < old(|w.reader.Unread()|))
    ensures old(Follows(w, s, till, actions)) ==>
              if ok then Follows(w, s, till, actions') else Stopped(w, s, till, actions', answer)
    ensures old(Follows(w, s, till, actions) && w.Unlimited()) && answer == Linked(None) && drop.None? ==>
              AllUndisturbed(actions) ==> AllUndisturbed(actions') && (ok ==> w.Unlimited())
  {
    actions' := MayDrop(w, drop, s, till, actions);
    ok, actions' := Handle(w, answer, s, till, actions');
  }

  /** Every dispatch succeeds with a link that takes everything, and nothing is dropped. */
  ghost predicate Calm(answers: nat -> Dispatched, drops: nat -> Option<uint16>) {
    (forall i :: answers(i) == Linked(None)) && (forall i :: drops(i) == None)
  }

  /**
    ServerWorker.run and ClientWorker.fetchOutput. `answers` are the dispatcher's, `drops` the
    sessions dropped before a frame. On the bytes of what the senders put on the link the loop is
    a run of the system: it takes every frame the link took unless a dispatch is refused.
   */
  method Run(w: Worker, answers: nat -> Dispatched, drops: nat -> Option<uint16>, ghost s: System, ghost till: nat)
    returns (ghost actions: seq<Action>)
    requires w.Valid()
    modifies w, w.reader
    ensures w.Valid() && w.sessions == map[]
    ensures old(Mirrors(w, s, till)) ==>
              && Runs(s, actions) && w.View().outputs == After(s, actions).receiver.outputs
              && Inv(After(s, actions)) && After(s, actions).senders == s.senders && After(s, actions).wire == s.wire
              && Blamed(w.interrupted, s.wire)
    ensures old(Mirrors(w, s, till)) && (forall i :: answers(i).Linked?) ==> After(s, actions).read == till
    ensures old(Mirrors(w, s, till) && w.Unlimited()) && Calm(answers, drops) ==> AllUndisturbed(actions)
  {
    actions := [];
    ghost var mirrors, calm := Mirrors(w, s, till), Mirrors(w, s, till) && w.Unlimited() && Calm(answers, drops);
    var n: nat := 0;
    var ok := true;
    while ok
      invariant w.Valid()
      invariant mirrors && ok ==> Follows(w, s, till, actions)
      invariant mirrors && !ok ==> n > 0 && Stopped(w, s, till, actions, answers(n - 1))
      invariant calm ==> AllUndisturbed(actions) && (ok ==> w.Unlimited())
      decreases ok, |w.reader.Unread()|
    {
      ok, actions := Turn(w, answers(n), drops(n), s, till, actions);
      n := n + 1;
    }
    w.sessions := map[];
  }

  /** Of the frames that `actions` put on the link, it took the first `till`, and the transport delivers their bytes. */
  ghost predicate OnLink(asServer: bool, actions: seq<Action>, till: nat, begun: map<uint16, bool>,
                         source: seq<MultiBuffer>, literals: Literals)
  {
    && Runs(Initial(asServer), actions) && Carries(actions, literals) && DenoteIPs(literals)
    && var s := After(Initial(asServer), actions);
       && s.read == 0 && s.receiver == Receiver(begun, map id | id in begun :: [])
       && till <= |s.wire| && AllWritable(Frames(s.wire[..till]))
       && Delivery(source) == WireBytes(Frames(s.wire[..till]))
  }

  /** Something was written to the session, and all its frames are on the link. */
  ghost predicate Sent(s: System, id: uint16) {
    id in s.senders && s.senders[id].pending == [] && (s.asServer ==> s.senders[id].given != [])
  }

  /** A worker with the sessions this end has opened itself: none on the server. */
  method NewWorker(asServer: bool, begun: map<uint16, bool>, allowances: uint16 -> Option<nat>, reader: BufferedReader,
                   literals: Literals)
    returns (w: Worker)
    ensures fresh(w) && w.Valid() && w.asServer == asServer && w.reader == reader && w.literals == literals
    ensures w.View() == Receiver(begun, map id | id in begun :: []) && w.interrupted == []
    ensures (forall id :: allowances(id).None?) ==> w.Unlimited()
  {
    w := new Worker(asServer, reader, literals);
    w.sessions := begun;
    w.outputs := map id | id in begun :: Output([], allowances(id));
  }

  /**
    The mux delivers: whatever an end reads from the link, fragmented in any way, after any
    interleaving of any writers, each session's output holds a prefix of what its own writer was
    given. There are no other outputs, and only sessions whose writers failed are interrupted. If
    dispatches succeed, links take everything and nothing is dropped, every session that has put its
    frames on the link arrives whole.
   */
  method Demultiplex(asServer: bool, source: seq<MultiBuffer>, literals: Literals, begun: map<uint16, bool>,
                     allowances: uint16 -> Option<nat>, answers: nat -> Dispatched, drops: nat -> Option<uint16>,
                     ghost actions: seq<Action>, ghost till: nat)
    returns (outputs: map<uint16, Output>, interrupted: seq<uint16>)
    requires OnLink(asServer, actions, till, begun, source, literals)
    ensures forall id :: id in outputs ==>
              && id in After(Initial(asServer), actions).senders
              && DeliveredPrefix(After(Initial(asServer), actions).senders[id], outputs[id].written)
    ensures forall id :: id in interrupted ==> Close(id, true) in actions
    ensures AllUndisturbed(actions) && Calm(answers, drops) && (forall id :: allowances(id).None?) &&
            till == |After(Initial(asServer), actions).wire| ==>
              forall id :: Sent(After(Initial(asServer), actions), id) ==>
                id in outputs && DeliveredAll(After(Initial(asServer), actions).senders[id], outputs[id].written)
  {
    ghost var s := After(Initial(asServer), actions);
    RunFits(Initial(asServer), actions, literals);
    RunKeeps(Initial(asServer), actions);
    SideIsFixed(Initial(asServer), actions);
    var reader := new BufferedReader(source);
    var w := NewWorker(asServer, begun, allowances, reader, literals);
    assert s.wire[s.read..till] == s.wire[..till];
    assert Mirrors(w, s, till);
    ghost var received := Run(w, answers, drops, s, till);
    outputs, interrupted := w.outputs, w.interrupted;
    BlamedFailed(asServer, actions, interrupted);
    AllDelivered(w, s, After(s, received));
    if AllUndisturbed(actions) && Calm(answers, drops) && (forall id :: allowances(id).None?) && till == |s.wire| {
      AllWholeDelivered(w, asServer, actions, received);
    }
  }

  lemma BlamedFailed(asServer: bool, actions: seq<Action>, interrupted: seq<uint16>)
    requires Runs(Initial(asServer), actions) && Blamed(interrupted, After(Initial(asServer), actions).wire)
    ensures forall id :: id in interrupted ==> Close(id, true) in actions
  {
    var wire := After(Initial(asServer), actions).wire;
    forall id | id in interrupted
      ensures Close(id, true) in actions
    {
      var k :| 0 <= k < |interrupted| && interrupted[k] == id;
      var i :| 0 <= i < |wire| && Fails(wire[i].frame, interrupted[k]);
      EndsTellTheTruth(asServer, actions, i);
    }
  }

  lemma AllWholeDelivered(w: Worker, asServer: bool, actions: seq<Action>, received: seq<Action>)
    requires Runs(Initial(asServer), actions) && AllUndisturbed(actions)
    requires Runs(After(Initial(asServer), actions), received) && AllUndisturbed(received)
    requires var t := After(After(Initial(asServer), actions), received);
             && t.read == |t.wire| && t.senders == After(Initial(asServer), actions).senders
             && w.View().outputs == t.receiver.outputs
    ensures forall id :: Sent(After(Initial(asServer), actions), id) ==>
              id in w.outputs && DeliveredAll(After(Initial(asServer), actions).senders[id], w.outputs[id].written)
  {
    var s := After(Initial(asServer), actions);
    var t := After(s, received);
    RunWhole(Initial(asServer), actions);
    RunWhole(s, received);
    SideIsFixed(Initial(asServer), actions);
    SideIsFixed(s, received);
    forall id | Sent(s, id)
      ensures id in w.outputs && DeliveredAll(s.senders[id], w.outputs[id].written)
    {
      AllArrived(t, id);
      assert id in w.View().outputs;
    }
  }

  lemma AllDelivered(w: Worker, s: System, t: System)
    requires Inv(t) && t.senders == s.senders && w.View().outputs == t.receiver.outputs
    ensures forall id :: id in w.outputs ==> id in s.senders && DeliveredPrefix(s.senders[id], w.outputs[id].written)
  {
    forall id | id in w.outputs
      ensures id in s.senders && DeliveredPrefix(s.senders[id], w.outputs[id].written)
    {
      assert id in w.View().outputs;
      SessionDelivers(t, id);
    }
  }
}
