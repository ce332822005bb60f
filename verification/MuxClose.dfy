/**
  How sessions end (common/mux): an End frame tells whether its writer failed, and a session it
  was received for is over.
 */
module MuxClose {
  import opened Bytes
  import opened MultiBuffers
  import opened MuxFrame
  import opened MuxSystem
  import opened MuxSafety

  /** The one bit that tells a close from a failure. */
  lemma EndBit(id: uint16, hasError: bool)
    ensures var m := EndMeta(id, hasError);
            && m.id == id && m.status == STATUS_END && m.target.None? && !HasData(m.option)
            && (HasError(m.option) <==> hasError)
  {
  }

  /** Closing puts exactly these six bytes on the link. */
  lemma EndBytes(id: uint16, hasError: bool)
    ensures var f := Frame(EndMeta(id, hasError), None);
            && Writable(f)
            && FrameBytes(f) == [0, 4, id / 0x100, id % 0x100, 3, if hasError then 2 else 0]
  {
    assert PutUint16(4) == [0, 4];
  }

  predicate IsEnd(f: Frame) { f.meta.status == STATUS_END }

  lemma {:induction false} DataIsNoEnd(w: WriterState, payloads: seq<seq<byte>>)
    ensures forall i :: 0 <= i < |DataFrames(w, payloads)| ==> !IsEnd(DataFrames(w, payloads)[i])
    decreases payloads
  {
    if payloads != [] {
      DataIsNoEnd(w.(followup := true), payloads[1..]);
    }
  }

  lemma WritesAreNoEnd(w: WriterState, mb: MultiBuffer)
    ensures forall i :: 0 <= i < |FramesOf(w, mb)| ==> !IsEnd(FramesOf(w, mb)[i])
  {
    DataIsNoEnd(w, Payloads(w.packet, mb));
  }

  // ----- over a run

  /** An End frame of session `id` says what its writer was closed with. */
  predicate Honest(f: Frame, id: uint16, actions: seq<Action>) {
    IsEnd(f) ==> f.meta.id == id && Close(id, HasError(f.meta.option)) in actions
  }

  /** The End frames of writers are honest, those of closing notices report no error, and a writer is closed once. */
  ghost predicate Told(s: System, actions: seq<Action>) {
    && (forall i :: 0 <= i < |s.wire| ==>
          if s.wire[i].own then Honest(s.wire[i].frame, s.wire[i].frame.meta.id, actions)
          else !HasError(s.wire[i].frame.meta.option))
    && (forall id, i :: id in s.senders && 0 <= i < |s.senders[id].pending| ==>
          Honest(s.senders[id].pending[i], id, actions))
    && (forall id, e :: Close(id, e) in actions ==> id in s.senders && s.senders[id].closed)
    && (forall id :: !(Close(id, true) in actions && Close(id, false) in actions))
  }

  lemma HonestMore(f: Frame, id: uint16, actions: seq<Action>, a: Action)
    requires Honest(f, id, actions)
    ensures Honest(f, id, actions + [a])
  {
  }

  lemma InMore(x: Action, actions: seq<Action>, a: Action)
    ensures x in actions + [a] <==> x in actions || x == a
  {
  }

  lemma WireTold(s: System, actions: seq<Action>, a: Action)
    requires Told(s, actions) && Enabled(s, a)
    ensures var t := Step(s, a);
            forall i :: 0 <= i < |t.wire| ==>
              if t.wire[i].own then Honest(t.wire[i].frame, t.wire[i].frame.meta.id, actions + [a])
              else !HasError(t.wire[i].frame.meta.option)
  {
    var t := Step(s, a);
    forall i | 0 <= i < |t.wire|
      ensures if t.wire[i].own then Honest(t.wire[i].frame, t.wire[i].frame.meta.id, actions + [a])
              else !HasError(t.wire[i].frame.meta.option)
    {
      if i < |s.wire| {
        assert t.wire[i] == s.wire[i];
      } else if a.Emit? {
        assert Honest(s.senders[a.id].pending[0], a.id, actions);
      } else {
        EndBit(a.id, false);
      }
    }
  }

  lemma PendingTold(s: System, actions: seq<Action>, a: Action, id: uint16, i: nat)
    requires Told(s, actions) && Enabled(s, a)
    requires id in Step(s, a).senders && i < |Step(s, a).senders[id].pending|
    ensures Honest(Step(s, a).senders[id].pending[i], id, actions + [a])
  {
    if a.Give? && a.id == id {
      WritesAreNoEnd(s.senders[id].w, a.mb);
    } else if a.Close? && a.id == id {
      EndBit(id, a.hasError);
      InMore(a, actions, a);
    } else if a.Emit? && a.id == id {
      HonestMore(s.senders[id].pending[i + 1], id, actions, a);
    } else {
      assert id in s.senders && Step(s, a).senders[id] == s.senders[id];
      HonestMore(s.senders[id].pending[i], id, actions, a);
    }
  }

  lemma StepTells(s: System, actions: seq<Action>, a: Action)
    requires Told(s, actions) && Enabled(s, a)
    ensures Told(Step(s, a), actions + [a])
  {
    var t := Step(s, a);
    WireTold(s, actions, a);
    forall id, i | id in t.senders && 0 <= i < |t.senders[id].pending|
      ensures Honest(t.senders[id].pending[i], id, actions + [a])
    {
      PendingTold(s, actions, a, id, i);
    }
    forall id, e | Close(id, e) in actions + [a]
      ensures id in t.senders && t.senders[id].closed
    {
      InMore(Close(id, e), actions, a);
    }
  }

  lemma {:induction false} RunTells(s: System, before: seq<Action>, actions: seq<Action>)
    requires Told(s, before) && Runs(s, actions)
    ensures Told(After(s, actions), before + actions)
    decreases actions
  {
    if actions == [] {
      assert before + actions == before;
    } else {
      StepTells(s, before, actions[0]);
      RunTells(Step(s, actions[0]), before + [actions[0]], actions[1..]);
      assert before + [actions[0]] + actions[1..] == before + actions;
    }
  }

  /**
    In every run, an End frame on the link that the writer of its session put there has the error
    bit if and only if that writer was closed with an error, and a closing notice never has it.
   */
  lemma EndsTellTheTruth(asServer: bool, actions: seq<Action>, i: nat)
    requires Runs(Initial(asServer), actions) && i < |After(Initial(asServer), actions).wire|
    requires IsEnd(After(Initial(asServer), actions).wire[i].frame)
    ensures var w := After(Initial(asServer), actions).wire[i];
            if w.own then
              && Close(w.frame.meta.id, HasError(w.frame.meta.option)) in actions
              && (HasError(w.frame.meta.option) <==> Close(w.frame.meta.id, true) in actions)
            else !HasError(w.frame.meta.option)
  {
    RunTells(Initial(asServer), [], actions);
    assert [] + actions == actions;
  }

  // ----- at the receiver

  lemma {:induction false} DroppedForGood(s: System, actions: seq<Action>, id: uint16)
    requires Inv(s) && Runs(s, actions) && id in s.receiver.outputs && id !in s.receiver.sessions
    ensures var t := After(s, actions).receiver;
            id in t.outputs && id !in t.sessions && t.outputs[id] == s.receiver.outputs[id]
    decreases actions
  {
    if actions != [] {
      DroppedIsFinal(s, actions[0], id);
      StepKeeps(s, actions[0]);
      DroppedForGood(Step(s, actions[0]), actions[1..], id);
    }
  }

  /** When an End frame is received its session is over: nothing is ever delivered to it again. */
  lemma EndedForGood(s: System, c: Copied, actions: seq<Action>)
    requires Inv(s) && Enabled(s, Receive(c)) && IsEnd(s.wire[s.read].frame)
    requires s.wire[s.read].frame.meta.id in s.receiver.outputs && Runs(Step(s, Receive(c)), actions)
    ensures var id, t := s.wire[s.read].frame.meta.id, After(Step(s, Receive(c)), actions).receiver;
            id in t.outputs && id !in t.sessions && t.outputs[id] == s.receiver.outputs[id]
  {
    StepKeeps(s, Receive(c));
    DroppedForGood(Step(s, Receive(c)), actions, s.wire[s.read].frame.meta.id);
  }
}
