/** Writers and demultiplexer composed: from what is written to what arrives (common/mux). */
module MuxEndToEnd {
  import opened Bytes
  import opened MultiBuffers
  import opened BufferedIO
  import opened MuxFrame
  import opened MuxSystem
  import opened MuxSafety
  import opened MuxComplete
  import opened MuxWorker
  import opened MuxRun
  import opened MuxWriter

  /** What is done with the writers of one link, one call after another. */
  datatype Use =
    | Start(id: uint16, dest: Destination)
    | Write(id: uint16, mb: MultiBuffer)
    | Finish(id: uint16, hasError: bool)
    | Refuse(id: uint16)

  type Senders = map<uint16, Sender>

  /** The sessions after one more call; a call on a session that is not open does nothing. */
  function Used(asServer: bool, x: Senders, u: Use): Senders {
    match u
    case Start(id, dest) =>
      if id in x then x else x[id := Sender(WriterState(id, dest, !asServer, dest.network == UDP), [], [], false)]
    case Write(id, mb) =>
      if id in x && !x[id].closed then x[id := Sender(x[id].w.(followup := true), x[id].given + [mb], [], false)] else x
    case Finish(id, _) =>
      if id in x && !x[id].closed then x[id := x[id].(closed := true)] else x
    case Refuse(_) => x
  }

  /** Everything each session was given. */
  function Sessions(asServer: bool, uses: seq<Use>): Senders {
    if uses == [] then map[] else Used(asServer, Sessions(asServer, uses[..|uses| - 1]), uses[|uses| - 1])
  }

  // ----- the run behind the calls

  function Owned(fs: seq<Frame>): seq<Wired> {
    if fs == [] then [] else [Wired(fs[0], true)] + Owned(fs[1..])
  }

  lemma {:induction false} FramesOfOwned(fs: seq<Frame>)
    ensures Frames(Owned(fs)) == fs
  {
    if fs != [] {
      FramesOfOwned(fs[1..]);
      assert Owned(fs)[1..] == Owned(fs[1..]);
    }
  }

  lemma {:induction false} FramesConcat(a: seq<Wired>, b: seq<Wired>)
    ensures Frames(a + b) == Frames(a) + Frames(b)
  {
    if a == [] {
      assert a + b == b;
    } else {
      assert (a + b)[0] == a[0] && (a + b)[1..] == a[1..] + b;
      FramesConcat(a[1..], b);
    }
  }

  lemma {:induction false} RunsConcat(s: System, a: seq<Action>, b: seq<Action>)
    requires Runs(s, a) && Runs(After(s, a), b)
    ensures Runs(s, a + b) && After(s, a + b) == After(After(s, a), b)
    decreases a
  {
    if a == [] {
      assert a + b == b;
    } else {
      assert (a + b)[0] == a[0] && (a + b)[1..] == a[1..] + b;
      RunsConcat(Step(s, a[0]), a[1..], b);
    }
  }

  function Emits(id: uint16, n: nat): seq<Action> {
    if n == 0 then [] else [Emit(id)] + Emits(id, n - 1)
  }

  /** The system when a session's pending frames have all been put on the link. */
  function Flushed(s: System, id: uint16): System
    requires id in s.senders
  {
    s.(senders := s.senders[id := s.senders[id].(pending := [])], wire := s.wire + Owned(s.senders[id].pending))
  }

  lemma FlushedStep(s: System, id: uint16)
    requires id in s.senders && s.senders[id].pending != []
    ensures Flushed(Step(s, Emit(id)), id) == Flushed(s, id)
  {
    var t, pending := Step(s, Emit(id)), s.senders[id].pending;
    assert t.senders[id := t.senders[id].(pending := [])] == s.senders[id := s.senders[id].(pending := [])];
    ConcatAssociative(s.wire, [Wired(pending[0], true)], Owned(pending[1..]));
  }

  lemma {:induction false} EmitAll(s: System, id: uint16)
    requires id in s.senders
    ensures var n := |s.senders[id].pending|;
            Runs(s, Emits(id, n)) && After(s, Emits(id, n)) == Flushed(s, id)
    decreases |s.senders[id].pending|
  {
    var pending := s.senders[id].pending;
    if pending == [] {
      assert s.senders[id := s.senders[id].(pending := [])] == s.senders && s.wire + [] == s.wire;
    } else {
      var t := Step(s, Emit(id));
      EmitAll(t, id);
      FlushedStep(s, id);
      assert Emits(id, |pending|)[1..] == Emits(id, |pending| - 1);
    }
  }

  /** The actions of one call. */
  function ActionsOf(s: System, u: Use): seq<Action> {
    match u
    case Start(id, dest) =>
      if id in s.senders then [] else [Open(WriterState(id, dest, !s.asServer, dest.network == UDP))]
    case Write(id, mb) =>
      if id in s.senders && !s.senders[id].closed then [Give(id, mb)] + Emits(id, |FramesOf(s.senders[id].w, mb)|)
      else []
    case Finish(id, hasError) =>
      if id in s.senders && !s.senders[id].closed then [Close(id, hasError)] + Emits(id, 1) else []
    case Refuse(id) => [Notify(id)]
  }

  /** Every frame of every session is on the link. */
  predicate NonePending(x: Senders) { forall id :: id in x ==> x[id].pending == [] }

  /** What one call puts on the link. */
  function Added(s: System, u: Use): seq<Wired> {
    match u
    case Start(_, _) => []
    case Write(id, mb) => if id in s.senders && !s.senders[id].closed then Owned(FramesOf(s.senders[id].w, mb)) else []
    case Finish(id, e) =>
      if id in s.senders && !s.senders[id].closed then Owned([Frame(EndMeta(id, e), None)]) else []
    case Refuse(id) => [Notice(id)]
  }

  /** A write or a close is a step that leaves frames pending, and then they go out. */
  lemma StepAndFlush(s: System, a: Action, id: uint16)
    requires Enabled(s, a) && (a.Give? || a.Close?) && a.id == id
    ensures var t := Step(s, a);
            var actions := [a] + Emits(id, |t.senders[id].pending|);
            Runs(s, actions) && After(s, actions) == Flushed(t, id)
  {
    var t := Step(s, a);
    EmitAll(t, id);
    var actions := [a] + Emits(id, |t.senders[id].pending|);
    assert actions[1..] == Emits(id, |t.senders[id].pending|);
  }

  /** A client has registered the sessions whose answers it expects, a server none. */
  ghost predicate Registered(asServer: bool, x: Senders, r: Receiver) {
    && (forall id :: id in r.outputs <==> !asServer && id in x)
    && (forall id :: id in r.sessions <==> !asServer && id in x)
    && (forall id :: id in r.sessions && id in x ==> r.sessions[id] == x[id].w.packet)
    && (forall id :: id in r.outputs ==> r.outputs[id] == [])
  }

  /** A state between two calls. */
  ghost predicate Idle(s: System) {
    s.read == 0 && NonePending(s.senders) && Registered(s.asServer, s.senders, s.receiver)
  }

  predicate Moves(s: System, u: Use, t: System) {
    t.senders == Used(s.asServer, s.senders, u) && t.wire == s.wire + Added(s, u)
  }

  /** A call leads from one to another. */
  ghost predicate Leads(s: System, u: Use, t: System) {
    Moves(s, u, t) && Idle(t) && t.asServer == s.asServer
  }

  /** A session that is written to stays where it is. */
  lemma StillIdle(s: System, t: System, id: uint16, y: Sender)
    requires Idle(s) && id in s.senders && y.pending == [] && y.w.packet == s.senders[id].w.packet
    requires t.senders == s.senders[id := y] && t.read == s.read && t.receiver == s.receiver && t.asServer == s.asServer
    ensures Idle(t)
  {
  }

  lemma WriteRuns(s: System, u: Use)
    requires Idle(s) && u.Write? && u.id in s.senders && !s.senders[u.id].closed
    ensures Runs(s, ActionsOf(s, u)) && Leads(s, u, After(s, ActionsOf(s, u)))
  {
    var x := s.senders[u.id];
    StepAndFlush(s, Give(u.id, u.mb), u.id);
    var t, y := After(s, ActionsOf(s, u)), Sender(x.w.(followup := true), x.given + [u.mb], [], false);
    assert t.senders == s.senders[u.id := y];
    StillIdle(s, t, u.id, y);
  }

  lemma FinishRuns(s: System, u: Use)
    requires Idle(s) && u.Finish? && u.id in s.senders && !s.senders[u.id].closed
    ensures Runs(s, ActionsOf(s, u)) && Leads(s, u, After(s, ActionsOf(s, u)))
  {
    var x := s.senders[u.id];
    StepAndFlush(s, Close(u.id, u.hasError), u.id);
    var t, y := After(s, ActionsOf(s, u)), x.(closed := true);
    assert t.senders == s.senders[u.id := y];
    StillIdle(s, t, u.id, y);
  }

  lemma OneAction(s: System, a: Action)
    requires Enabled(s, a)
    ensures Runs(s, [a]) && After(s, [a]) == Step(s, a)
  {
    assert [a][1..] == [];
  }

  lemma StartRuns(s: System, u: Use)
    requires Idle(s) && u.Start? && u.id !in s.senders
    ensures Runs(s, ActionsOf(s, u)) && Leads(s, u, After(s, ActionsOf(s, u)))
  {
    OneAction(s, Open(WriterState(u.id, u.dest, !s.asServer, u.dest.network == UDP)));
    assert s.wire + [] == s.wire;
  }

  /** A call is a run of the system. */
  lemma CallRuns(s: System, u: Use)
    requires Idle(s)
    ensures Runs(s, ActionsOf(s, u)) && Leads(s, u, After(s, ActionsOf(s, u)))
  {
    if u.Refuse? {
      OneAction(s, Notify(u.id));
    } else if u.Start? && u.id !in s.senders {
      StartRuns(s, u);
    } else if u.Write? && u.id in s.senders && !s.senders[u.id].closed {
      WriteRuns(s, u);
    } else if u.Finish? && u.id in s.senders && !s.senders[u.id].closed {
      FinishRuns(s, u);
    } else {
      assert s.wire + [] == s.wire;
    }
  }

  // ----- the writers

  /** Every session goes to a target the frame format can carry. */
  predicate Fit(asServer: bool, u: Use, literals: Literals) {
    u.Start? ==>
      && u.dest.address.WellFormed()
      && WriterFits(WriterState(u.id, u.dest, !asServer, u.dest.network == UDP), literals)
  }

  predicate AllFit(asServer: bool, uses: seq<Use>, literals: Literals) {
    forall i :: 0 <= i < |uses| ==> Fit(asServer, uses[i], literals)
  }

  ghost predicate OnWire(link: Link, wire: seq<Wired>)
    reads link
  {
    AllWritable(Frames(wire)) && link.queue == Written(Output([], link.room), Images(Frames(wire)))
  }

  ghost predicate Serves(w: Writer, link: Link, x: Sender, literals: Literals)
    reads w
  {
    w.link == link && w.State() == x.w && w.dest.address.WellFormed() && WriterFits(x.w, literals)
  }

  /** The open sessions have their writers, and the link carries what they sent. */
  ghost predicate AllServed(writers: map<uint16, Writer>, link: Link, s: System, literals: Literals)
    reads link, writers.Values
  {
    && OnWire(link, s.wire)
    && (forall id :: id in writers <==> id in s.senders && !s.senders[id].closed)
    && (forall id :: id in writers ==> writers[id].id == id && Serves(writers[id], link, s.senders[id], literals))
  }

  /** More frames on a link, as far as it takes them. */
  lemma WiredMore(link: Link, wire: seq<Wired>, more: seq<Wired>)
    requires OnWire(link, wire) && AllWritable(Frames(more))
    ensures AllWritable(Frames(wire + more))
    ensures Written(Output([], link.room), Images(Frames(wire + more))) == Written(link.queue, Images(Frames(more)))
  {
    FramesConcat(wire, more);
    ImagesConcat(Frames(wire), Frames(more));
    WrittenConcat(Output([], link.room), Images(Frames(wire)), Images(Frames(more)));
  }

  /** A write by the session's writer puts its frames behind what is on the link. */
  method DoWrite(w: Writer, mb: MultiBuffer, ghost wire: seq<Wired>, ghost x: Sender, literals: Literals)
    requires Serves(w, w.link, x, literals) && OnWire(w.link, wire)
    modifies w, w.link
    ensures Serves(w, w.link, x.(w := x.w.(followup := true)), literals)
    ensures OnWire(w.link, wire + Owned(FramesOf(x.w, mb)))
  {
    ghost var frames := FramesOf(x.w, mb);
    FramesOfFit(x.w, mb, literals);
    FramesOfOwned(frames);
    assert forall i :: 0 <= i < |frames| ==> FrameFits(x.w.packet, frames[i], literals);
    assert AllWritable(frames);
    WiredMore(w.link, wire, Owned(frames));
    var _, _ := w.WriteMultiBuffer(mb);
  }

  method DoFinish(w: Writer, hasError: bool, ghost wire: seq<Wired>, ghost x: Sender, literals: Literals)
    requires Serves(w, w.link, x, literals) && OnWire(w.link, wire)
    modifies w, w.link
    ensures OnWire(w.link, wire + Owned([Frame(EndMeta(x.w.id, hasError), None)]))
  {
    w.hasError := hasError;
    ghost var end := Frame(EndMeta(x.w.id, hasError), None);
    FramesOfOwned([end]);
    EndFits(x.w.packet, x.w.id, hasError, literals);
    WiredMore(w.link, wire, Owned([end]));
    ImagesAppend([], end);
    assert [] + [end] == [end];
    w.Close();
  }

  /** The closing writer of a session that is not known: NewResponseWriter and Close. */
  method DoRefuse(link: Link, id: uint16, dest: Destination, ghost wire: seq<Wired>, literals: Literals)
    requires OnWire(link, wire)
    modifies link
    ensures OnWire(link, wire + [Notice(id)])
  {
    var w := new Writer(id, dest, false, true, link);
    ghost var end := Notice(id).frame;
    EndFits(false, id, false, literals);
    assert Frames([Notice(id)]) == [end] by {
      assert [Notice(id)][1..] == [];
    }
    ImagesAppend([], end);
    assert [] + [end] == [end];
    WiredMore(link, wire, [Notice(id)]);
    w.Close();
  }

  // One method for each kind of call.

  method CallWrite(writers: map<uint16, Writer>, link: Link, u: Use, ghost s: System, ghost t: System,
                   literals: Literals)
    requires AllServed(writers, link, s, literals) && u.Write? && u.id in writers && Moves(s, u, t)
    modifies link, writers[u.id]
    ensures AllServed(writers, link, t, literals)
  {
    ghost var x := s.senders[u.id];
    DoWrite(writers[u.id], u.mb, s.wire, x, literals);
    forall id | id in writers && id != u.id
      ensures Serves(writers[id], link, t.senders[id], literals)
    {
      assert old(Serves(writers[id], link, s.senders[id], literals)) && writers[id] != writers[u.id];
    }
  }

  method CallFinish(writers: map<uint16, Writer>, link: Link, u: Use, ghost s: System, ghost t: System,
                    literals: Literals)
    returns (writers': map<uint16, Writer>)
    requires AllServed(writers, link, s, literals) && u.Finish? && u.id in writers && Moves(s, u, t)
    modifies link, writers[u.id]
    ensures AllServed(writers', link, t, literals) && writers'.Values <= writers.Values
  {
    DoFinish(writers[u.id], u.hasError, s.wire, s.senders[u.id], literals);
    writers' := writers - {u.id};
    forall id | id in writers'
      ensures writers'[id] in writers.Values && Serves(writers'[id], link, t.senders[id], literals)
    {
      assert old(Serves(writers[id], link, s.senders[id], literals)) && writers[id] != writers[u.id];
    }
  }

  method CallStart(asServer: bool, writers: map<uint16, Writer>, link: Link, u: Use, ghost s: System, ghost t: System,
                   literals: Literals)
    returns (writers': map<uint16, Writer>)
    requires AllServed(writers, link, s, literals) && u.Start? && u.id !in s.senders && Moves(s, u, t)
    requires asServer == s.asServer && Fit(asServer, u, literals)
    ensures AllServed(writers', link, t, literals) && fresh(writers'.Values - writers.Values)
  {
    var w := new Writer(u.id, u.dest, u.dest.network == UDP, !asServer, link);
    writers' := writers[u.id := w];
    assert s.wire + [] == s.wire;
    forall id | id in writers'
      ensures Serves(writers'[id], link, t.senders[id], literals)
    {
      if id != u.id {
        assert Serves(writers[id], link, s.senders[id], literals);
      }
    }
  }

  /** One call on the writers of a link. */
  method Call(asServer: bool, begun: map<uint16, bool>, writers: map<uint16, Writer>, link: Link, u: Use,
              ghost s: System, ghost t: System, literals: Literals)
    returns (writers': map<uint16, Writer>)
    requires AllServed(writers, link, s, literals) && Moves(s, u, t) && asServer == s.asServer
    requires Fit(asServer, u, literals)
    requires forall id :: id in begun <==> id in s.senders
    modifies link, writers.Values
    ensures AllServed(writers', link, t, literals) && fresh(writers'.Values - writers.Values)
  {
    writers' := writers;
    assert s.wire + [] == s.wire;
    match u
    case Start(id, dest) =>
      if id !in begun {
        writers' := CallStart(asServer, writers, link, u, s, t, literals);
      }
    case Write(id, mb) =>
      if id in writers {
        CallWrite(writers, link, u, s, t, literals);
      }
    case Finish(id, hasError) =>
      if id in writers {
        writers' := CallFinish(writers, link, u, s, t, literals);
      }
    case Refuse(id) =>
      DoRefuse(link, id, Destination(TCP, IPv4([0, 0, 0, 0]), 0), s.wire, literals);
  }

  /** The sessions begun, each with its kind. */
  predicate Begins(begun: map<uint16, bool>, x: Senders) {
    && (forall id :: id in begun ==> id in x && begun[id] == x[id].w.packet)
    && (forall id :: id in x ==> id in begun)
  }

  lemma BeginsMore(asServer: bool, begun: map<uint16, bool>, x: Senders, u: Use)
    requires Begins(begun, x)
    ensures Begins(if u.Start? && u.id !in begun then begun[u.id := u.dest.network == UDP] else begun,
                   Used(asServer, x, u))
  {
  }

  /** Where the calls have led: to a state of a run in which the sessions were given what they were. */
  ghost predicate Led(asServer: bool, uses: seq<Use>, actions: seq<Action>, s: System) {
    && Runs(Initial(asServer), actions) && s == After(Initial(asServer), actions)
    && Idle(s) && s.asServer == asServer && s.senders == Sessions(asServer, uses)
  }

  lemma LedMore(asServer: bool, uses: seq<Use>, actions: seq<Action>, s: System, u: Use)
    requires Led(asServer, uses, actions, s)
    ensures Runs(s, ActionsOf(s, u)) && Led(asServer, uses + [u], actions + ActionsOf(s, u), After(s, ActionsOf(s, u)))
    ensures Leads(s, u, After(s, ActionsOf(s, u)))
  {
    CallRuns(s, u);
    RunsConcat(Initial(asServer), actions, ActionsOf(s, u));
    assert (uses + [u])[..|uses|] == uses;
  }

  /** Calls that fit make runs that fit, and calls that refuse nothing make runs without notices. */
  ghost predicate Gentle(uses: seq<Use>, actions: seq<Action>, literals: Literals) {
    && Carries(actions, literals)
    && (NoneRefused(uses) ==> AllUndisturbed(actions))
    && ClosesAsTold(uses, actions)
  }

  /** A writer is closed with an error only where a call says so. */
  ghost predicate ClosesAsTold(uses: seq<Use>, actions: seq<Action>) {
    forall id, e :: Close(id, e) in actions ==> Finish(id, e) in uses
  }

  predicate NoneRefused(uses: seq<Use>) { forall i :: 0 <= i < |uses| ==> !uses[i].Refuse? }

  lemma {:induction false} EmitsAreGentle(id: uint16, n: nat)
    ensures forall i :: 0 <= i < |Emits(id, n)| ==> Emits(id, n)[i] == Emit(id)
  {
    if n > 0 {
      EmitsAreGentle(id, n - 1);
    }
  }

  lemma CallIsGentle(s: System, u: Use, literals: Literals)
    requires Fit(s.asServer, u, literals)
    ensures Carries(ActionsOf(s, u), literals) && (!u.Refuse? ==> AllUndisturbed(ActionsOf(s, u)))
    ensures ClosesAsTold([u], ActionsOf(s, u))
  {
    if u.Write? && u.id in s.senders {
      EmitsAreGentle(u.id, |FramesOf(s.senders[u.id].w, u.mb)|);
    } else if u.Finish? {
      EmitsAreGentle(u.id, 1);
    }
  }

  lemma GentleMore(uses: seq<Use>, actions: seq<Action>, u: Use, more: seq<Action>, literals: Literals)
    requires Gentle(uses, actions, literals) && Carries(more, literals) && (!u.Refuse? ==> AllUndisturbed(more))
    requires ClosesAsTold([u], more)
    ensures Gentle(uses + [u], actions + more, literals)
  {
    if NoneRefused(uses + [u]) {
      assert (uses + [u])[|uses|] == u;
      assert forall i :: 0 <= i < |uses| ==> (uses + [u])[i] == uses[i];
    }
    forall id, e | Close(id, e) in actions + more
      ensures Finish(id, e) in uses + [u]
    {
      if Close(id, e) !in actions {
        assert Close(id, e) in more && Finish(id, e) in [u];
      }
    }
  }

  /** The writers after some calls. */
  ghost predicate Working(asServer: bool, uses: seq<Use>, actions: seq<Action>, s: System, begun: map<uint16, bool>,
                          writers: map<uint16, Writer>, link: Link, literals: Literals)
    reads link, writers.Values
  {
    && Led(asServer, uses, actions, s) && Gentle(uses, actions, literals)
    && Begins(begun, s.senders) && AllServed(writers, link, s, literals)
  }

  method Proceed(asServer: bool, begun: map<uint16, bool>, writers: map<uint16, Writer>, link: Link, u: Use,
                 ghost uses: seq<Use>, ghost actions: seq<Action>, ghost s: System, literals: Literals)
    returns (begun': map<uint16, bool>, writers': map<uint16, Writer>, ghost actions': seq<Action>, ghost t: System)
    requires Working(asServer, uses, actions, s, begun, writers, link, literals) && Fit(asServer, u, literals)
    modifies link, writers.Values
    ensures fresh(writers'.Values - writers.Values)
    ensures Working(asServer, uses + [u], actions', t, begun', writers', link, literals)
  {
    LedMore(asServer, uses, actions, s, u);
    BeginsMore(asServer, begun, s.senders, u);
    CallIsGentle(s, u, literals);
    GentleMore(uses, actions, u, ActionsOf(s, u), literals);
    actions', t := actions + ActionsOf(s, u), After(s, ActionsOf(s, u));
    writers' := Call(asServer, begun, writers, link, u, s, t, literals);
    begun' := if u.Start? && u.id !in begun then begun[u.id := u.dest.network == UDP] else begun;
  }

  method Connect(asServer: bool, room: Option<nat>, literals: Literals)
    returns (link: Link, writers: map<uint16, Writer>, begun: map<uint16, bool>,
             ghost actions: seq<Action>, ghost s: System)
    ensures fresh(link) && link.room == room && writers.Values == {}
    ensures Working(asServer, [], actions, s, begun, writers, link, literals)
  {
    link := new Link(room);
    writers, begun, actions, s := map[], map[], [], Initial(asServer);
  }

  lemma WorkedOut(asServer: bool, uses: seq<Use>, actions: seq<Action>, s: System, begun: map<uint16, bool>,
                  writers: map<uint16, Writer>, link: Link, literals: Literals)
    requires Working(asServer, uses, actions, s, begun, writers, link, literals)
    ensures Led(asServer, uses, actions, s) && OnWire(link, s.wire) && Begins(begun, s.senders)
    ensures Gentle(uses, actions, literals)
  {
  }

  /** All calls in a row, on one link. */
  method Multiplex(asServer: bool, uses: seq<Use>, room: Option<nat>, literals: Literals)
    returns (link: Link, begun: map<uint16, bool>, ghost actions: seq<Action>, ghost s: System)
    requires AllFit(asServer, uses, literals)
    ensures Led(asServer, uses, actions, s) && OnWire(link, s.wire) && Begins(begun, Sessions(asServer, uses))
    ensures Gentle(uses, actions, literals) && link.room == room
  {
    var writers;
    link, writers, begun, actions, s := Connect(asServer, room, literals);
    var i := 0;
    while i < |uses|
      invariant 0 <= i <= |uses| && fresh(link) && link.room == room && fresh(writers.Values)
      invariant Working(asServer, uses[..i], actions, s, begun, writers, link, literals)
    {
      var u := uses[i];
      assert uses[..i + 1] == uses[..i] + [u];
      begun, writers, actions, s := Proceed(asServer, begun, writers, link, u, uses[..i], actions, s, literals);
      i := i + 1;
    }
    assert uses[..i] == uses;
    WorkedOut(asServer, uses, actions, s, begun, writers, link, literals);
  }

  /** What each session's output must hold: a prefix of what its writer was given. */
  ghost predicate InOrder(x: Senders, outputs: map<uint16, Output>) {
    forall id :: id in outputs ==> id in x && DeliveredPrefix(x[id], outputs[id].written)
  }

  /** ... or all of it, for every session that was written to, and on a client for every session. */
  ghost predicate Whole(asServer: bool, x: Senders, outputs: map<uint16, Output>) {
    forall id :: id in x && (asServer ==> x[id].given != []) ==>
      id in outputs && DeliveredAll(x[id], outputs[id].written)
  }

  lemma ReceiverBegun(asServer: bool, x: Senders, r: Receiver, begun: map<uint16, bool>)
    requires Registered(asServer, x, r) && Begins(begun, x)
    ensures var known: map<uint16, bool> := if asServer then map[] else begun;
            r == Receiver(known, map id | id in known :: [])
  {
    var known: map<uint16, bool> := if asServer then map[] else begun;
    assert r.sessions == known;
    assert r.outputs == map id | id in known :: [];
  }

  /** What a link took is the bytes of the first frames. */
  lemma LinkTook(link: Link, wire: seq<Wired>)
    requires OnWire(link, wire)
    ensures var till := Taken(link.room, |wire|);
            AllWritable(Frames(wire[..till])) && Flatten(link.queue.written) == WireBytes(Frames(wire[..till]))
  {
    var till := Taken(link.room, |wire|);
    ImagesTake(Frames(wire), till);
    WrittenTakes(Output([], link.room), Images(Frames(wire)));
    assert [] + Images(Frames(wire))[..till] == Images(Frames(wire))[..till];
    assert Frames(wire)[..till] == Frames(wire[..till]);
    ImagesAreWire(Frames(wire[..till]));
  }

  lemma LinkCarries(asServer: bool, uses: seq<Use>, actions: seq<Action>, s: System, begun: map<uint16, bool>,
                    link: Link, source: seq<MultiBuffer>, literals: Literals)
    requires Led(asServer, uses, actions, s) && Gentle(uses, actions, literals) && Begins(begun, s.senders)
    requires DenoteIPs(literals) && OnWire(link, s.wire) && Delivery(source) == Flatten(link.queue.written)
    ensures OnLink(asServer, actions, Taken(link.room, |s.wire|), if asServer then map[] else begun, source, literals)
  {
    ReceiverBegun(asServer, s.senders, s.receiver, begun);
    LinkTook(link, s.wire);
  }

  /**
    From end to end: whatever is written to whatever sessions in whatever order, wherever the link
    begins to refuse, and however the transport cuts its bytes, every output at the other end holds,
    in order, a prefix of what its own session was given. If nothing is refused or dropped it holds
    all of it. Only a session that was finished with an error is interrupted.
   */
  method EndToEnd(asServer: bool, uses: seq<Use>, room: Option<nat>, cut: seq<byte> -> seq<MultiBuffer>,
                  literals: Literals, allowances: uint16 -> Option<nat>, answers: nat -> Dispatched,
                  drops: nat -> Option<uint16>)
    returns (outputs: map<uint16, Output>, interrupted: seq<uint16>)
    requires AllFit(asServer, uses, literals) && DenoteIPs(literals)
    requires forall wire :: Delivery(cut(wire)) == wire
    ensures InOrder(Sessions(asServer, uses), outputs)
    ensures forall id :: id in interrupted ==> Finish(id, true) in uses
    ensures room.None? && Calm(answers, drops) && (forall id :: allowances(id).None?) && NoneRefused(uses) ==>
              Whole(asServer, Sessions(asServer, uses), outputs)
  {
    var link, begun;
    ghost var actions, s;
    link, begun, actions, s := Multiplex(asServer, uses, room, literals);
    var source := cut(Flatten(link.queue.written));
    LinkCarries(asServer, uses, actions, s, begun, link, source, literals);
    var known: map<uint16, bool> := if asServer then map[] else begun;
    outputs, interrupted := Demultiplex(asServer, source, literals, known, allowances, answers, drops, actions,
                                        Taken(room, |s.wire|));
    if room.None? && AllUndisturbed(actions) && Calm(answers, drops) && forall id :: allowances(id).None? {
      forall id | id in s.senders && (asServer ==> s.senders[id].given != [])
        ensures id in outputs && DeliveredAll(s.senders[id], outputs[id].written)
      {
        assert Sent(s, id);
      }
    }
  }
}
