/** The session table of one mux connection (common/mux/session.go). */
module MuxSessions {
  import opened Bytes

  const ID_COUNT: nat := 0x1_0000

  /** A session, known to the manager by its identity; its id is fixed at birth. */
  class Session {
    const id: uint16
    var inputOpen: bool
    var outputOpen: bool

    constructor (id: uint16)
      ensures this.id == id && inputOpen && outputOpen
    {
      this.id, inputOpen, outputOpen := id, true, true;
    }
  }

  /**
    The table, its 16-bit counter, and every session it was ever given, oldest first; `chosen` are
    the places of those whose id the peer chose.
   */
  datatype Table = Table(
    sessions: map<uint16, Session>, count: uint16, closed: bool, issued: seq<Session>, chosen: set<nat>)

  datatype Op =
    | Allocate(s: Session)
    | AddSession(s: Session)
    | CloseSession(s: Session)
    | CloseIfNoSession
    | CloseAll

  const EMPTY_TABLE: Table := Table(map[], 0, false, [], {})

  function NextId(count: uint16): uint16 { (count + 1) % ID_COUNT }

  /** A session comes in as a new object, and a session of our own gets the next id; only known sessions are closed. */
  predicate Enabled(t: Table, op: Op) {
    match op
    case Allocate(s) => s !in t.issued && s.id == NextId(t.count)
    case AddSession(s) => s !in t.issued
    case CloseSession(s) => s in t.issued
    case CloseIfNoSession => true
    case CloseAll => true
  }

  function Removed(t: Table, id: uint16): Table {
    if t.closed then t else t.(sessions := t.sessions - {id})
  }

  function Step(t: Table, op: Op): Table {
    match op
    case Allocate(s) =>
      if t.closed then t
      else Table(t.sessions[s.id := s], NextId(t.count), false, t.issued + [s], t.chosen)
    case AddSession(s) =>
      if t.closed then t
      else Table(t.sessions[s.id := s], NextId(t.count), false, t.issued + [s], t.chosen + {|t.issued|})
    case CloseSession(s) => Removed(t, s.id)
    case CloseIfNoSession => if t.closed || |t.sessions| != 0 then t else t.(closed := true)
    case CloseAll => if t.closed then t else t.(closed := true, sessions := map[])
  }

  predicate Runs(t: Table, ops: seq<Op>)
    decreases ops
  {
    ops == [] || (Enabled(t, ops[0]) && Runs(Step(t, ops[0]), ops[1..]))
  }

  function After(t: Table, ops: seq<Op>): Table
    decreases ops
  {
    if ops == [] then t else After(Step(t, ops[0]), ops[1..])
  }

  predicate Numbered(issued: seq<Session>, chosen: set<nat>) {
    && (forall k :: k in chosen ==> k < |issued|)
    && (forall k :: 0 <= k < |issued| && k !in chosen ==> issued[k].id == (k + 1) % ID_COUNT)
    && (forall i, j :: 0 <= i < j < |issued| ==> issued[i] != issued[j])
  }

  predicate Holds(sessions: map<uint16, Session>, issued: seq<Session>) {
    forall id :: id in sessions ==> sessions[id].id == id && sessions[id] in issued
  }

  /** The k-th session, if it is ours, has id k + 1 in 16 bits; the table holds sessions under their own ids. */
  ghost predicate Inv(t: Table) {
    && t.count == |t.issued| % ID_COUNT
    && Numbered(t.issued, t.chosen)
    && Holds(t.sessions, t.issued)
    && |t.sessions| <= |t.issued|
    && (t.closed ==> t.sessions == map[])
  }

  lemma SmallerMap(m: map<uint16, Session>, id: uint16)
    ensures |m - {id}| <= |m|
  {
    assert (m - {id}).Keys == m.Keys - {id};
  }

  lemma NumberedAppend(issued: seq<Session>, chosen: set<nat>, s: Session)
    requires Numbered(issued, chosen) && s !in issued
    ensures s.id == (|issued| + 1) % ID_COUNT ==> Numbered(issued + [s], chosen)
    ensures Numbered(issued + [s], chosen + {|issued|})
  {
  }

  lemma HoldsMore(sessions: map<uint16, Session>, issued: seq<Session>, s: Session)
    requires Holds(sessions, issued)
    ensures Holds(sessions[s.id := s], issued + [s]) && |sessions[s.id := s]| <= |sessions| + 1
  {
    assert sessions[s.id := s].Keys == sessions.Keys + {s.id};
    assert |sessions.Keys + {s.id}| <= |sessions.Keys| + 1;
    assert (issued + [s])[|issued|] == s;
  }

  lemma NextIsModular(n: nat)
    ensures NextId(n % ID_COUNT) == (n + 1) % ID_COUNT
  {
  }

  lemma GrowKeeps(t: Table, op: Op)
    requires Inv(t) && Enabled(t, op) && !t.closed && (op.Allocate? || op.AddSession?)
    ensures Inv(Step(t, op))
  {
    NextIsModular(|t.issued|);
    NumberedAppend(t.issued, t.chosen, op.s);
    HoldsMore(t.sessions, t.issued, op.s);
  }

  lemma RemoveKeeps(t: Table, id: uint16)
    requires Inv(t)
    ensures Inv(Removed(t, id))
  {
    SmallerMap(t.sessions, id);
  }

  lemma StepKeeps(t: Table, op: Op)
    requires Inv(t) && Enabled(t, op)
    ensures Inv(Step(t, op))
  {
    match op
    case Allocate(_) =>
      if !t.closed {
        GrowKeeps(t, op);
      }
    case AddSession(_) =>
      if !t.closed {
        GrowKeeps(t, op);
      }
    case CloseSession(s) =>
      RemoveKeeps(t, s.id);
    case CloseIfNoSession =>
    case CloseAll =>
  }

  lemma {:induction false} RunKeeps(t: Table, ops: seq<Op>)
    requires Inv(t) && Runs(t, ops)
    ensures Inv(After(t, ops))
    decreases ops
  {
    if ops != [] {
      StepKeeps(t, ops[0]);
      RunKeeps(Step(t, ops[0]), ops[1..]);
    }
  }

  // ----- what holds over every run

  predicate DistinctIds(ss: seq<Session>) {
    forall i, j :: 0 <= i < j < |ss| ==> ss[i].id != ss[j].id
  }

  lemma ModDistinct(i: nat, j: nat)
    requires i < j < ID_COUNT
    ensures (i + 1) % ID_COUNT != (j + 1) % ID_COUNT
  {
  }

  /** No two sessions of our own have the same id. */
  predicate OwnIdsDiffer(t: Table) {
    forall i, j :: 0 <= i < j < |t.issued| && i !in t.chosen && j !in t.chosen ==> t.issued[i].id != t.issued[j].id
  }

  /**
    Ids we give are never reissued while no more than 65536 sessions came in; if all of them are
    ours, not a single one longer.
   */
  lemma IdsAreFresh(ops: seq<Op>)
    requires Runs(EMPTY_TABLE, ops)
    ensures var t := After(EMPTY_TABLE, ops);
            && (|t.issued| <= ID_COUNT ==> OwnIdsDiffer(t))
            && (t.chosen == {} ==> (DistinctIds(t.issued) <==> |t.issued| <= ID_COUNT))
  {
    var t := After(EMPTY_TABLE, ops);
    RunKeeps(EMPTY_TABLE, ops);
    if |t.issued| <= ID_COUNT {
      forall i, j | 0 <= i < j < |t.issued| && i !in t.chosen && j !in t.chosen
        ensures t.issued[i].id != t.issued[j].id
      {
        ModDistinct(i, j);
      }
    } else if t.chosen == {} {
      assert t.issued[0].id == 1 == t.issued[ID_COUNT].id;
    }
  }

  /**
    Every live key is its session's own id. With fewer than 65536 sessions the table is no larger
    than the counter says. While all ids differ, closing any session, however often, removes no other.
   */
  lemma TableIsSound(ops: seq<Op>, s: Session)
    requires Runs(EMPTY_TABLE, ops) && s in After(EMPTY_TABLE, ops).issued
    ensures var t := After(EMPTY_TABLE, ops);
            && (forall id :: id in t.sessions ==> t.sessions[id].id == id)
            && (|t.issued| < ID_COUNT ==> |t.sessions| <= t.count)
            && (DistinctIds(t.issued) ==> ClosedAlone(t, s))
  {
    RunKeeps(EMPTY_TABLE, ops);
    var t := After(EMPTY_TABLE, ops);
    if |t.issued| < ID_COUNT {
      CountIsExact(t);
    }
    if DistinctIds(t.issued) {
      ClosingIsLocal(t, s);
    }
  }

  /** Closing `s` takes it out of the table and leaves the others there; doing it again changes nothing. */
  predicate ClosedAlone(t: Table, s: Session) {
    var u := Step(t, CloseSession(s));
    && s.id !in u.sessions
    && (forall id :: id in t.sessions && t.sessions[id] != s ==> id in u.sessions && u.sessions[id] == t.sessions[id])
    && Step(u, CloseSession(s)) == u
  }

  lemma CountIsExact(t: Table)
    requires Inv(t) && |t.issued| < ID_COUNT
    ensures t.count == |t.issued| >= |t.sessions|
  {
  }

  lemma ClosingIsLocal(t: Table, s: Session)
    requires Inv(t) && DistinctIds(t.issued) && s in t.issued
    ensures ClosedAlone(t, s)
  {
    forall id | id in t.sessions && t.sessions[id] != s
      ensures id != s.id
    {
      SameIdSameSession(t.issued, t.sessions[id], s);
    }
    var u := Step(t, CloseSession(s));
    assert u.sessions - {s.id} == u.sessions;
  }

  lemma SameIdSameSession(issued: seq<Session>, a: Session, b: Session)
    requires DistinctIds(issued) && a in issued && b in issued && a != b
    ensures a.id != b.id
  {
    var i :| 0 <= i < |issued| && issued[i] == a;
    var j :| 0 <= j < |issued| && issued[j] == b;
    assert if i < j then issued[i].id != issued[j].id else issued[j].id != issued[i].id;
  }

  function Allocations(ss: seq<Session>): seq<Op> {
    if ss == [] then [] else [Allocate(ss[0])] + Allocations(ss[1..])
  }

  lemma {:induction false} AllocationsRun(t: Table, ss: seq<Session>)
    requires Inv(t) && !t.closed && t.chosen == {} && Numbered(t.issued + ss, {})
    ensures Runs(t, Allocations(ss))
    ensures var u := After(t, Allocations(ss));
            && !u.closed && u.issued == t.issued + ss
            && (ss != [] ==> var s := ss[|ss| - 1]; s.id in u.sessions && u.sessions[s.id] == s)
    decreases ss
  {
    if ss == [] {
      assert t.issued + ss == t.issued;
    } else {
      var n := |t.issued|;
      assert (t.issued + ss)[n] == ss[0];
      NextIsModular(n);
      var u := Step(t, Allocate(ss[0]));
      StepKeeps(t, Allocate(ss[0]));
      assert t.issued + [ss[0]] + ss[1..] == t.issued + ss;
      AllocationsRun(u, ss[1..]);
      assert Allocations(ss)[1..] == Allocations(ss[1..]);
    }
  }

  /**
    One allocation too many: a session is closed, 65536 others are opened, and closing the first
    once more removes the live session that got its id.
   */
  lemma ReissuedIdIsHazardous(ss: seq<Session>)
    requires Numbered(ss, {}) && |ss| == ID_COUNT + 1
    ensures var ops := [Allocate(ss[0]), CloseSession(ss[0])] + Allocations(ss[1..]);
            && Runs(EMPTY_TABLE, ops)
            && var t := After(EMPTY_TABLE, ops);
               && 1 in t.sessions && t.sessions[1] == ss[ID_COUNT] != ss[0]
               && Enabled(t, CloseSession(ss[0])) && 1 !in Step(t, CloseSession(ss[0])).sessions
  {
    var t, u := Step(EMPTY_TABLE, Allocate(ss[0])), Step(Step(EMPTY_TABLE, Allocate(ss[0])), CloseSession(ss[0]));
    var ops := [Allocate(ss[0]), CloseSession(ss[0])] + Allocations(ss[1..]);
    StepKeeps(EMPTY_TABLE, Allocate(ss[0]));
    StepKeeps(t, CloseSession(ss[0]));
    assert u.issued + ss[1..] == ss;
    AllocationsRun(u, ss[1..]);
    assert ops[1..] == [CloseSession(ss[0])] + Allocations(ss[1..]) && ops[1..][1..] == Allocations(ss[1..]);
    assert After(EMPTY_TABLE, ops) == After(u, Allocations(ss[1..]));
    assert ss[1..][|ss[1..]| - 1] == ss[ID_COUNT] && ss[ID_COUNT].id == 1 == ss[0].id;
  }

  /** There are such sessions: a manager issues as many as it is asked for. */
  method IssueMany(n: nat) returns (ss: seq<Session>)
    ensures |ss| == n && Numbered(ss, {})
  {
    var m := new SessionManager();
    ss := [];
    while |ss| < n
      invariant |ss| <= n && m.issued == ss && m.chosen == {} && Inv(m.View()) && !m.closed
      decreases n - |ss|
    {
      ghost var before := m.View();
      var s := m.AllocateSession();
      StepKeeps(before, Allocate(s));
      ss := ss + [s];
    }
  }

  /** Closed is for ever: no session is in the table again, and none is issued. */
  lemma {:induction false} ClosedIsFinal(t: Table, ops: seq<Op>)
    requires Inv(t) && t.closed && Runs(t, ops)
    ensures After(t, ops) == t && t.sessions == map[]
    decreases ops
  {
    if ops != [] {
      ClosedIsFinal(Step(t, ops[0]), ops[1..]);
    }
  }

  /** After every run, closing leaves the table closed and empty for good, and so does closing it when it is empty. */
  lemma ClosingIsFinal(ops: seq<Op>, op: Op, more: seq<Op>)
    requires Runs(EMPTY_TABLE, ops + [op] + more)
    requires op.CloseAll? || (op.CloseIfNoSession? && After(EMPTY_TABLE, ops).sessions == map[])
    ensures var t := After(EMPTY_TABLE, ops + [op] + more);
            t.closed && t.sessions == map[] && t.issued == After(EMPTY_TABLE, ops).issued
  {
    RunsSplit(EMPTY_TABLE, ops + [op], more);
    RunsSplit(EMPTY_TABLE, ops, [op]);
    assert [op][1..] == [];
    RunKeeps(EMPTY_TABLE, ops);
    StepKeeps(After(EMPTY_TABLE, ops), op);
    ClosedIsFinal(After(EMPTY_TABLE, ops + [op]), more);
  }

  lemma {:induction false} RunsSplit(t: Table, a: seq<Op>, b: seq<Op>)
    requires Runs(t, a + b)
    ensures Runs(t, a) && Runs(After(t, a), b) && After(t, a + b) == After(After(t, a), b)
    decreases a
  {
    if a == [] {
      assert a + b == b;
    } else {
      assert (a + b)[0] == a[0] && (a + b)[1..] == a[1..] + b;
      RunsSplit(Step(t, a[0]), a[1..], b);
    }
  }

  /** Until then a session that comes in is found under its id, and the others stay where they were. */
  lemma ComesIn(t: Table, op: Op, id: uint16)
    requires !t.closed && (op.Allocate? || op.AddSession?)
    ensures var u := Step(t, op);
            && !u.closed && op.s.id in u.sessions && u.sessions[op.s.id] == op.s
            && (id != op.s.id ==> (id in u.sessions <==> id in t.sessions))
            && (id != op.s.id && id in t.sessions ==> u.sessions[id] == t.sessions[id])
  {
  }

  // ----- the manager

  class SessionManager {
    var sessions: map<uint16, Session>
    var count: uint16
    var closed: bool
    ghost var issued: seq<Session>
    ghost var chosen: set<nat>

    constructor ()
      ensures View() == EMPTY_TABLE
    {
      sessions, count, closed, issued, chosen := map[], 0, false, [], {};
    }

    ghost function View(): Table
      reads this
    {
      Table(sessions, count, closed, issued, chosen)
    }

    method AllocateSession() returns (s: Session?)
      modifies this
      ensures s == null <==> old(closed)
      ensures s == null ==> View() == old(View())
      ensures s != null ==> fresh(s) && s.id == NextId(old(count)) && View() == Step(old(View()), Allocate(s))
    {
      if closed {
        return null;
      }
      count := (count + 1) % ID_COUNT;
      s := new Session(count);
      sessions := sessions[s.id := s];
      issued := issued + [s];
    }

    /** Add registers a session under the id its peer chose. */
    method Add(s: Session)
      modifies this
      ensures View() == Step(old(View()), AddSession(s))
    {
      if closed {
        return;
      }
      count := (count + 1) % ID_COUNT;
      sessions := sessions[s.id := s];
      issued, chosen := issued + [s], chosen + {|issued|};
    }

    method Remove(id: uint16)
      modifies this
      ensures View() == Removed(old(View()), id)
    {
      if closed {
        return;
      }
      sessions := sessions - {id};
      if |sessions| == 0 {
        sessions := map[];
      }
    }

    method Get(id: uint16) returns (s: Session?)
      ensures closed || id !in sessions ==> s == null
      ensures !closed && id in sessions ==> s == sessions[id]
    {
      if closed || id !in sessions {
        return null;
      }
      s := sessions[id];
    }

    method CloseIfEmpty() returns (isClosed: bool)
      modifies this
      ensures View() == Step(old(View()), CloseIfNoSession) && isClosed == closed
      ensures isClosed <==> old(closed) || |old(sessions)| == 0
    {
      if closed {
        return true;
      }
      if |sessions| != 0 {
        return false;
      }
      closed := true;
      isClosed := true;
    }

    /** Close ends every session's input and output and empties the table. */
    method Close()
      modifies this, sessions.Values
      ensures View() == Step(old(View()), CloseAll) && closed && (!old(closed) ==> sessions == map[])
      ensures !old(closed) ==> forall s :: s in old(sessions.Values) ==> !s.inputOpen && !s.outputOpen
      ensures old(closed) ==> forall s :: s in old(sessions.Values) ==> unchanged(s)
    {
      if closed {
        return;
      }
      closed := true;
      var left := sessions.Values;
      while left != {}
        invariant left <= sessions.Values && sessions == old(sessions)
        invariant View() == old(View()).(closed := true)
        invariant forall s :: s in sessions.Values - left ==> !s.inputOpen && !s.outputOpen
        decreases left
      {
        var s :| s in left;
        s.inputOpen, s.outputOpen := false, false;
        left := left - {s};
      }
      sessions := map[];
    }
  }

  /** Session.Close: it may be called from both directions of a session, and more than once. */
  method Close(s: Session, parent: SessionManager)
    modifies s, parent
    ensures !s.inputOpen && !s.outputOpen
    ensures parent.View() == Step(old(parent.View()), CloseSession(s))
  {
    s.outputOpen, s.inputOpen := false, false;
    parent.Remove(s.id);
  }

  /** A manager that was closed gives no session and knows none. */
  method CloseAndAsk(m: SessionManager, id: uint16) returns (issued: Session?, known: Session?)
    modifies m, m.sessions.Values
    ensures issued == null && known == null
  {
    m.Close();
    issued := m.AllocateSession();
    known := m.Get(id);
  }

  /** One that is not closed finds a session it was given until that is removed. */
  method AddAndAsk(m: SessionManager, s: Session) returns (known: Session?, gone: Session?)
    requires !m.closed
    modifies m
    ensures known == s && gone == null
  {
    ComesIn(m.View(), AddSession(s), s.id);
    m.Add(s);
    known := m.Get(s.id);
    m.Remove(s.id);
    gone := m.Get(s.id);
  }
}
