/** Runs in which nothing is refused and no session is dropped early deliver everything (common/mux). */
module MuxComplete {
  import opened Bytes
  import opened MultiBuffers
  import opened MuxFrame
  import opened MuxSystem
  import opened MuxSafety

  /** No output refuses data, and no session is dropped from outside or by a notice. */
  predicate Undisturbed(a: Action) { (a.Receive? ==> a.c.ok) && !a.Forget? && !a.Notify? }

  predicate AllUndisturbed(actions: seq<Action>) {
    forall i :: 0 <= i < |actions| ==> Undisturbed(actions[i])
  }

  predicate Opens(f: Frame) { f.meta.status == STATUS_NEW && f.meta.target.Some? }

  predicate Ends(f: Frame) { f.meta.status == STATUS_END }

  /** A server's session begins with New if anything was written, and is at most an End frame otherwise. */
  predicate Begun(asServer: bool, x: Sender, sent: seq<Frame>) {
    && (x.given != [] ==> x.w.followup)
    && (asServer && x.w.followup ==> sent != [] && Opens(sent[0]))
    && (asServer && !x.w.followup ==> forall i :: 0 <= i < |sent| ==> Ends(sent[i]))
  }

  /** The output has everything seen so far, and the session is registered until its End frame. */
  predicate Whole(asServer: bool, id: uint16, packet: bool, seen: seq<Frame>, r: Receiver) {
    (asServer ==> seen != [] && Opens(seen[0])) ==>
      && id in r.outputs && Complete(packet, r.outputs[id], Data(seen))
      && (id in r.sessions || (seen != [] && Ends(seen[|seen| - 1])))
  }

  predicate SessionWhole(s: System, id: uint16)
    requires id in s.senders && s.read <= |s.wire|
  {
    && Begun(s.asServer, s.senders[id], Of(s.wire, id) + s.senders[id].pending)
    && Whole(s.asServer, id, s.senders[id].w.packet, Of(s.wire[..s.read], id), s.receiver)
  }

  predicate AllOwn(wire: seq<Wired>) { forall i :: 0 <= i < |wire| ==> wire[i].own }

  ghost predicate AllWhole(s: System) {
    s.read <= |s.wire| && AllOwn(s.wire) && forall id :: id in s.senders ==> SessionWhole(s, id)
  }

  // ----- writing

  lemma BegunMore(asServer: bool, x: Sender, y: Sender, a: seq<Frame>, b: seq<Frame>)
    requires Begun(asServer, x, a) && Shaped(asServer, x, a) && !x.closed && b != []
    requires y.given != [] ==> y.w.followup
    requires x.w.followup ==> y.w.followup
    requires !x.w.followup && y.w.followup && asServer ==> Opens(b[0])
    requires !y.w.followup && asServer ==> forall i :: 0 <= i < |b| ==> Ends(b[i])
    ensures Begun(asServer, y, a + b)
  {
    if asServer && y.w.followup {
      assert (a + b)[0] == if a == [] then b[0] else a[0];
    }
  }

  lemma GivenBegun(asServer: bool, id: uint16, x: Sender, onWire: seq<Frame>, mb: MultiBuffer)
    requires SenderOk(asServer, id, x, onWire) && Begun(asServer, x, onWire + x.pending) && !x.closed && x.pending == []
    ensures Begun(asServer, Sender(x.w.(followup := true), x.given + [mb], FramesOf(x.w, mb), false),
                  onWire + FramesOf(x.w, mb))
  {
    assert onWire + x.pending == onWire;
    FramesOfCarry(x.w, mb);
    var y := Sender(x.w.(followup := true), x.given + [mb], FramesOf(x.w, mb), false);
    BegunMore(asServer, x, y, onWire, FramesOf(x.w, mb));
  }

  lemma ClosedBegun(asServer: bool, id: uint16, x: Sender, onWire: seq<Frame>, hasError: bool)
    requires SenderOk(asServer, id, x, onWire) && Begun(asServer, x, onWire + x.pending) && !x.closed && x.pending == []
    ensures var end := Frame(EndMeta(id, hasError), None);
            Begun(asServer, Sender(x.w, x.given, [end], true), onWire + [end])
  {
    var end := Frame(EndMeta(id, hasError), None);
    assert onWire + x.pending == onWire;
    BegunMore(asServer, x, Sender(x.w, x.given, [end], true), onWire, [end]);
  }

  lemma WrittenWhole(s: System, a: Action, id: uint16)
    requires Enabled(s, a) && (a.Give? || a.Close?) && s.read <= |s.wire| && id in s.senders
    requires SessionOk(s, id) && SessionWhole(s, id)
    ensures SessionWhole(Step(s, a), id)
  {
    if id == a.id && a.Give? {
      GivenBegun(s.asServer, id, s.senders[id], Of(s.wire, id), a.mb);
    } else if id == a.id {
      ClosedBegun(s.asServer, id, s.senders[id], Of(s.wire, id), a.hasError);
    }
  }

  lemma EmittedWhole(s: System, a: Action)
    requires Enabled(s, a) && a.Emit? && s.read <= |s.wire|
    requires SessionWhole(s, a.id) && s.senders[a.id].pending[0].meta.id == a.id
    ensures SessionWhole(Step(s, a), a.id)
  {
    var x, onWire := s.senders[a.id], Of(s.wire, a.id);
    SameFront(s.wire, Wired(x.pending[0], true), s.read);
    OfAppend(s.wire, Wired(x.pending[0], true), a.id);
    assert (onWire + [x.pending[0]]) + x.pending[1..] == onWire + x.pending;
  }

  lemma EmittedElsewhere(s: System, a: Action, id: uint16)
    requires Enabled(s, a) && a.Emit? && s.read <= |s.wire| && id in s.senders && id != a.id
    requires SessionWhole(s, id) && s.senders[a.id].pending[0].meta.id == a.id
    ensures SessionWhole(Step(s, a), id)
  {
    var f := s.senders[a.id].pending[0];
    SameFront(s.wire, Wired(f, true), s.read);
    OfAppend(s.wire, Wired(f, true), id);
  }

  lemma OpenedWhole(s: System, w: WriterState, id: uint16)
    requires Inv(s) && Enabled(s, Open(w)) && id in Step(s, Open(w)).senders && (id != w.id ==> SessionWhole(s, id))
    ensures SessionWhole(Step(s, Open(w)), id)
  {
    if id == w.id {
      OfNone(s.wire, w.id);
      OfNone(s.wire[..s.read], w.id);
    }
  }

  // ----- receiving

  /** A session that has more frames to come is registered. */
  lemma StillRegistered(asServer: bool, x: Sender, sent: seq<Frame>, seen: seq<Frame>, r: Receiver)
    requires Shaped(asServer, x, sent) && seen <= sent && |seen| < |sent|
    requires Whole(asServer, x.w.id, x.w.packet, seen, r) && (asServer ==> seen != [] && Opens(seen[0]))
    ensures x.w.id in r.sessions && x.w.id in r.outputs && Complete(x.w.packet, r.outputs[x.w.id], Data(seen))
  {
    if seen != [] {
      assert seen[|seen| - 1] == sent[|seen| - 1];
    }
  }

  /** The receiver takes the next frame of a session. */
  lemma HandledWhole(asServer: bool, x: Sender, sent: seq<Frame>, seen: seq<Frame>, r: Receiver, f: Frame, c: Copied)
    requires Shaped(asServer, x, sent) && x.w.packet == (x.w.dest.network == UDP)
    requires seen <= sent && |seen| < |sent| && f == sent[|seen|] && c.ok && Possible(asServer, r, f, c)
    requires Whole(asServer, x.w.id, x.w.packet, seen, r)
    requires x.w.id in r.sessions ==> r.sessions[x.w.id] == x.w.packet
    ensures Whole(asServer, x.w.id, x.w.packet, seen + [f], Handled(asServer, r, f, c))
  {
    DataAppend(seen, f);
    if asServer && seen == [] {
      if Opens(f) && f.payload.Some? {
        CopyKeeps(x.w.packet, [], Data(seen), f.payload.value, c);
      }
    } else if asServer ==> Opens(seen[0]) {
      StillRegistered(asServer, x, sent, seen, r);
      if f.payload.Some? {
        CopyKeeps(x.w.packet, r.outputs[x.w.id], Data(seen), f.payload.value, c);
      }
    }
  }

  lemma ReceivedWhole(s: System, a: Action, id: uint16)
    requires Enabled(s, a) && a.Receive? && a.c.ok && id in s.senders && SessionOk(s, id) && SessionWhole(s, id)
    requires s.wire[s.read].own
    ensures SessionWhole(Step(s, a), id)
  {
    var f, x, seen := s.wire[s.read].frame, s.senders[id], Of(s.wire[..s.read], id);
    assert s.wire[..s.read + 1] == s.wire[..s.read] + [s.wire[s.read]];
    OfAppend(s.wire[..s.read], s.wire[s.read], id);
    OfPrefix(s.wire, s.read, id);
    if f.meta.id == id {
      HandledWhole(s.asServer, x, Of(s.wire, id) + x.pending, seen, s.receiver, f, a.c);
    } else {
      HandledOther(s.asServer, id, x.w.packet, seen, s.receiver, f, a.c);
    }
  }

  // ----- runs

  lemma StepWhole(s: System, a: Action)
    requires Inv(s) && AllWhole(s) && Enabled(s, a) && Undisturbed(a)
    ensures AllWhole(Step(s, a))
  {
    if a.Emit? {
      PendingFrame(s, a.id);
    }
    StepOwn(s, a);
    forall id | id in Step(s, a).senders
      ensures SessionWhole(Step(s, a), id)
    {
      SessionStepWhole(s, a, id);
    }
  }

  lemma StepOwn(s: System, a: Action)
    requires s.read <= |s.wire| && AllOwn(s.wire) && Enabled(s, a) && Undisturbed(a)
    ensures AllOwn(Step(s, a).wire) && Step(s, a).read <= |Step(s, a).wire|
  {
  }

  lemma SessionStepWhole(s: System, a: Action, id: uint16)
    requires Inv(s) && AllWhole(s) && Enabled(s, a) && Undisturbed(a) && id in Step(s, a).senders
    requires a.Emit? ==> s.senders[a.id].pending[0].meta.id == a.id
    ensures SessionWhole(Step(s, a), id)
  {
    match a
    case Open(w) => OpenedWhole(s, w, id);
    case Give(_, _) => WrittenWhole(s, a, id);
    case Close(_, _) => WrittenWhole(s, a, id);
    case Emit(_) =>
      if id == a.id {
        EmittedWhole(s, a);
      } else {
        EmittedElsewhere(s, a, id);
      }
    case Receive(_) => ReceivedWhole(s, a, id);
  }

  lemma {:induction false} RunWhole(s: System, actions: seq<Action>)
    requires Inv(s) && AllWhole(s) && Runs(s, actions) && AllUndisturbed(actions)
    ensures AllWhole(After(s, actions)) && Inv(After(s, actions))
    decreases actions
  {
    if actions != [] {
      assert Undisturbed(actions[0]);
      StepKeeps(s, actions[0]);
      StepWhole(s, actions[0]);
      RunWhole(Step(s, actions[0]), actions[1..]);
    }
  }

  /** When all frames are handled, every output holds all that its writer was given. */
  lemma AllArrived(s: System, id: uint16)
    requires s.read == |s.wire| && id in s.senders && SessionOk(s, id) && SessionWhole(s, id)
    requires s.senders[id].pending == [] && (s.asServer ==> s.senders[id].given != [])
    ensures id in s.receiver.outputs && DeliveredAll(s.senders[id], s.receiver.outputs[id])
  {
    var x := s.senders[id];
    assert s.wire[..s.read] == s.wire && Of(s.wire, id) + x.pending == Of(s.wire, id);
    PayloadsAreGiven(x.w.packet, x.given);
  }

  /**
    Completeness, for every run that is not disturbed: once every frame has been handled, each
    output holds exactly what its writer was given, byte by byte or packet by packet.
   */
  lemma EverythingArrives(asServer: bool, actions: seq<Action>, id: uint16)
    requires Runs(Initial(asServer), actions) && AllUndisturbed(actions)
    requires var s := After(Initial(asServer), actions);
             && s.read == |s.wire| && id in s.senders && s.senders[id].pending == []
             && (asServer ==> s.senders[id].given != [])
    ensures var s := After(Initial(asServer), actions);
            id in s.receiver.outputs && DeliveredAll(s.senders[id], s.receiver.outputs[id])
  {
    var s := After(Initial(asServer), actions);
    RunWhole(Initial(asServer), actions);
    assert s.asServer == asServer by {
      SideIsFixed(Initial(asServer), actions);
    }
    AllArrived(s, id);
  }

  lemma {:induction false} SideIsFixed(s: System, actions: seq<Action>)
    requires Runs(s, actions)
    ensures After(s, actions).asServer == s.asServer
    decreases actions
  {
    if actions != [] {
      SideIsFixed(Step(s, actions[0]), actions[1..]);
    }
  }
}
