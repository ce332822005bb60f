/** Finding a mux connection for a new session (common/mux/client.go), one request at a time. */
module MuxPicker {
  import opened Bytes
  import opened MuxSessions

  /** Zero means no limit. */
  datatype Strategy = Strategy(maxConcurrency: nat, maxConnection: nat)

  class ClientWorker {
    const manager: SessionManager
    const strategy: Strategy
    var done: bool

    constructor (strategy: Strategy)
      ensures this.strategy == strategy && !done
      ensures fresh(manager) && manager.View() == EMPTY_TABLE && Limited()
    {
      manager := new SessionManager();
      this.strategy := strategy;
      done := false;
    }

    /** The manager is closed only after, or together with, the worker. */
    ghost predicate Valid()
      reads this, manager
    {
      manager.closed ==> done
    }

    predicate IsClosing()
      reads manager
    {
      strategy.maxConnection > 0 && manager.count >= strategy.maxConnection
    }

    predicate IsFull()
      reads this, manager
    {
      IsClosing() || done || (strategy.maxConcurrency > 0 && |manager.sessions| >= strategy.maxConcurrency)
    }

    /** A connection limit that fits into 16 bits bounds the sessions ever issued, so their ids stay distinct. */
    ghost predicate Bounded()
      reads manager
    {
      BoundedTable(strategy.maxConnection, manager.View())
    }

    /** No more sessions at a time than allowed. */
    ghost predicate Limited()
      reads manager
    {
      strategy.maxConcurrency > 0 ==> |manager.sessions| <= strategy.maxConcurrency
    }

    /** A new session, unless the worker is full. */
    method Dispatch() returns (s: Session?)
      requires Valid()
      modifies manager
      ensures Valid() && (s == null <==> old(IsFull()))
      ensures s == null ==> unchanged(manager)
      ensures s != null ==> fresh(s) && manager.View() == Step(old(manager.View()), Allocate(s))
      ensures old(Bounded()) ==> Bounded()
      ensures old(Limited()) ==> Limited()
      ensures s != null <==>
                && !old(done)
                && (strategy.maxConnection == 0 || old(manager.count) < strategy.maxConnection)
                && (strategy.maxConcurrency == 0 || |old(manager.sessions)| < strategy.maxConcurrency)
    {
      if IsFull() {
        return null;
      }
      s := manager.AllocateSession();
      assert manager.sessions.Keys == old(manager.sessions.Keys) + {s.id};
      if old(Bounded()) {
        DispatchKeeps(strategy.maxConnection, old(manager.View()), s);
      }
    }
  }

  ghost predicate BoundedTable(limit: nat, t: Table) {
    Inv(t) && t.chosen == {} && (0 < limit < ID_COUNT ==> |t.issued| <= limit)
  }

  lemma DispatchKeeps(limit: nat, t: Table, s: Session)
    requires BoundedTable(limit, t) && !(limit > 0 && t.count >= limit)
    requires !t.closed && s !in t.issued && s.id == NextId(t.count)
    ensures BoundedTable(limit, Step(t, Allocate(s)))
  {
    StepKeeps(t, Allocate(s));
    if 0 < limit < ID_COUNT {
      CountIsExact(t);
    }
  }

  /** Under a connection limit of at most 65535, ids of one connection are never reissued. */
  lemma BoundedIdsAreFresh(w: ClientWorker)
    requires w.Bounded() && 0 < w.strategy.maxConnection < ID_COUNT
    ensures DistinctIds(w.manager.issued)
  {
    var issued := w.manager.issued;
    forall i, j | 0 <= i < j < |issued|
      ensures issued[i].id != issued[j].id
    {
      ModDistinct(i, j);
    }
  }

  function Swapped<T>(s: seq<T>, i: nat, j: nat): seq<T>
    requires i < |s| && j < |s|
  {
    s[i := s[j]][j := s[i]]
  }

  lemma SwapKeepsMultiset<T>(s: seq<T>, i: nat, j: nat)
    requires i < |s| && j < |s|
    ensures multiset(Swapped(s, i, j)) == multiset(s)
  {
  }

  // ----- lists of workers

  /** No two workers are the same or share a session table. */
  ghost predicate Separate(ws: seq<ClientWorker>) {
    forall i, j :: 0 <= i < j < |ws| ==> ws[i] != ws[j] && ws[i].manager != ws[j].manager
  }

  /** The workers that are not closed, in their order. */
  function Live(ws: seq<ClientWorker>): seq<ClientWorker>
    reads ws
  {
    if ws == [] then []
    else Live(ws[..|ws| - 1]) + if ws[|ws| - 1].done then [] else [ws[|ws| - 1]]
  }

  lemma {:induction false} LiveMembers(ws: seq<ClientWorker>)
    ensures forall k :: 0 <= k < |Live(ws)| ==> Live(ws)[k] in ws && !Live(ws)[k].done
    ensures forall k :: 0 <= k < |ws| && !ws[k].done ==> ws[k] in Live(ws)
  {
    if ws != [] {
      LiveMembers(ws[..|ws| - 1]);
      assert ws == ws[..|ws| - 1] + [ws[|ws| - 1]];
    }
  }

  lemma {:induction false} LiveSeparate(ws: seq<ClientWorker>)
    requires Separate(ws)
    ensures Separate(Live(ws))
  {
    if ws != [] {
      var init := ws[..|ws| - 1];
      LiveSeparate(init);
      LiveMembers(init);
      forall k | 0 <= k < |Live(init)|
        ensures Live(init)[k] != ws[|ws| - 1] && Live(init)[k].manager != ws[|ws| - 1].manager
      {
        var i :| 0 <= i < |init| && init[i] == Live(init)[k];
        assert ws[i] == init[i];
      }
    }
  }

  lemma SwapSeparate(ws: seq<ClientWorker>, i: nat, j: nat)
    requires i < |ws| && j < |ws| && Separate(ws)
    ensures Separate(Swapped(ws, i, j))
  {
    var ts := Swapped(ws, i, j);
    forall k, l | 0 <= k < l < |ts|
      ensures ts[k] != ts[l] && ts[k].manager != ts[l].manager
    {
      var k', l' := Place(k, i, j), Place(l, i, j);
      assert ts[k] == ws[k'] && ts[l] == ws[l'] && k' != l';
      assert if k' < l' then ws[k'].manager != ws[l'].manager else ws[l'].manager != ws[k'].manager;
    }
  }

  lemma SwapTables(ws: seq<ClientWorker>, i: nat, j: nat)
    requires i < |ws| && j < |ws|
    ensures forall w :: w in Swapped(ws, i, j) <==> w in ws
    ensures (set w | w in Swapped(ws, i, j) :: w.manager) == (set w | w in ws :: w.manager)
  {
    SwapKeepsMultiset(ws, i, j);
    SameMembers(Swapped(ws, i, j), ws);
  }

  /** Where the element at `k` was before the swap. */
  function Place(k: nat, i: nat, j: nat): nat {
    if k == i then j else if k == j then i else k
  }

  class IncrementalWorkerPicker {
    const strategy: Strategy
    var workers: seq<ClientWorker>

    ghost predicate Valid()
      reads this, workers, set w | w in workers :: w.manager
    {
      Separate(workers) && forall w :: w in workers ==> w.Valid()
    }

    ghost predicate SomeAvailable()
      reads this, workers, set w | w in workers :: w.manager
    {
      exists i :: 0 <= i < |workers| && !workers[i].IsFull()
    }

    /** The session tables of the workers. */
    ghost function Tables(): set<SessionManager>
      reads this
    {
      set w | w in workers :: w.manager
    }

    constructor (strategy: Strategy)
      ensures Valid() && workers == [] && this.strategy == strategy
    {
      this.strategy := strategy;
      workers := [];
    }

    /** The first worker that is not full, or -1. */
    method FindAvailable() returns (idx: int)
      ensures SomeAvailable() <==> idx >= 0
      ensures idx >= 0 ==> idx < |workers| && !workers[idx].IsFull()
      ensures forall k :: 0 <= k < idx ==> workers[k].IsFull()
    {
      var i := 0;
      while i < |workers|
        invariant 0 <= i <= |workers|
        invariant forall k :: 0 <= k < i ==> workers[k].IsFull()
      {
        if !workers[i].IsFull() {
          return i;
        }
        i := i + 1;
      }
      idx := -1;
    }

    /** Drops closed workers and keeps the others in order. */
    method Cleanup()
      requires Valid()
      modifies this
      ensures Valid() && workers == old(Live(workers))
    {
      var active: seq<ClientWorker> := [];
      var i := 0;
      while i < |workers|
        invariant 0 <= i <= |workers| && workers == old(workers) && active == Live(workers[..i])
      {
        assert workers[..i + 1][..i] == workers[..i];
        if !workers[i].done {
          active := active + [workers[i]];
        }
        i := i + 1;
      }
      assert workers[..i] == workers;
      LiveMembers(workers);
      LiveSeparate(workers);
      workers := active;
    }

    /** The worker at `idx` takes the last place, and the one that was there is handed out. */
    method MoveLast(idx: nat) returns (w: ClientWorker)
      requires Valid() && idx < |workers|
      modifies this
      ensures Valid()
      ensures multiset(workers) == multiset(old(workers)) && |workers| == |old(workers)| && Tables() == old(Tables())
      ensures w == old(workers)[|workers| - 1] && workers[|workers| - 1] == old(workers)[idx]
    {
      var n := |workers|;
      SwapKeepsMultiset(workers, idx, n - 1);
      SwapSeparate(workers, idx, n - 1);
      SwapTables(workers, idx, n - 1);
      if n > 1 && idx != n - 1 {
        workers := Swapped(workers, idx, n - 1);
      }
      w := workers[idx];
    }

    /** A new worker behind the others. */
    method Append() returns (w: ClientWorker)
      requires Valid()
      modifies this
      ensures Valid() && workers == old(workers) + [w]
      ensures fresh(w) && fresh(w.manager) && w.Valid() && !w.IsFull() && w.manager.View() == EMPTY_TABLE
    {
      w := new ClientWorker(strategy);
      workers := workers + [w];
    }

    /**
      pickInternal. When a worker is available the pick is the last worker, full or not, and the
      first available one takes the last place: the swap comes before the return. Otherwise a worker
      is created.
     */
    method PickAvailable(canCreate: bool) returns (w: ClientWorker?, ghost first: int)
      requires Valid()
      modifies this
      ensures Valid()
      ensures old(SomeAvailable()) <==> 0 <= first < |old(workers)|
      ensures old(SomeAvailable()) ==>
                && !old(workers)[first].IsFull() && (forall k :: 0 <= k < first ==> old(workers)[k].IsFull())
                && multiset(workers) == multiset(old(workers)) && |workers| == |old(workers)|
                && Tables() == old(Tables())
                && w == old(workers)[|workers| - 1] && workers[|workers| - 1] == old(workers)[first]
      ensures !old(SomeAvailable()) && !canCreate ==> w == null && workers == old(Live(workers))
      ensures !old(SomeAvailable()) && canCreate ==>
                && w != null && fresh(w) && fresh(w.manager) && w.Valid() && !w.IsFull()
                && w.manager.View() == EMPTY_TABLE && workers == old(Live(workers)) + [w]
    {
      var idx := FindAvailable();
      first := idx;
      if idx >= 0 {
        w := MoveLast(idx);
        return;
      }
      assert !old(SomeAvailable());
      Cleanup();
      if !canCreate {
        return null, first;
      }
      w := Append();
    }
  }

  /**
    One turn of the retry loop: a pick and an attempt to dispatch on it. If it fails, `next` is an
    available worker, and in the last place.
   */
  method TryOnce(picker: IncrementalWorkerPicker, canCreate: bool)
    returns (w: ClientWorker?, s: Session?, ghost next: ClientWorker?)
    requires picker.Valid()
    modifies picker, picker.Tables()
    ensures w == null <==> !old(picker.SomeAvailable()) && !canCreate
    ensures old(picker.SomeAvailable()) ==>
              && multiset(picker.workers) == multiset(old(picker.workers)) && picker.Tables() == old(picker.Tables())
              && old(|picker.workers|) > 0 && w == old(picker.workers[|picker.workers| - 1])
              && (s == null <==> old(w.IsFull()))
              && (s != null ==> w.manager.View() == Step(old(w.manager.View()), Allocate(s)))
    ensures old(picker.SomeAvailable()) && s == null ==>
              && picker.Valid() && picker.SomeAvailable() && next in old(picker.workers) && !old(next.IsFull())
              && picker.workers != [] && next == picker.workers[|picker.workers| - 1]
    ensures !old(picker.SomeAvailable()) ==>
              && picker.workers == old(Live(picker.workers)) + (if w == null then [] else [w])
              && (w != null ==> s != null && fresh(w) && w.manager.View() == Step(EMPTY_TABLE, Allocate(s)))
    ensures s != null ==> w != null && fresh(s)
    ensures forall m :: m in old(picker.Tables()) && (s == null || m != w.manager) ==> unchanged(m)
  {
    ghost var first;
    w, first := picker.PickAvailable(canCreate);
    next := w;
    if w == null {
      return null, null, null;
    }
    if 0 <= first < |old(picker.workers)| {
      next := old(picker.workers)[first];
    }
    s := w.Dispatch();
    assert next != w && s == null ==> !picker.workers[|picker.workers| - 1].IsFull();
  }

  /**
    ClientManager.Dispatch opens a session within two picks: on a worker that was not full when
    there is one, and then no worker is created and none is lost; otherwise on a new one if one can
    be made. No other worker's session table changes.
   */
  method Dispatch(picker: IncrementalWorkerPicker, canCreate: bool)
    returns (chosen: ClientWorker?, s: Session?, picks: nat)
    requires picker.Valid()
    modifies picker, picker.Tables()
    ensures chosen == null <==> !old(picker.SomeAvailable()) && !canCreate
    ensures picks <= 2 && (!old(picker.SomeAvailable()) ==> picks == 1)
    ensures chosen != null ==> s != null && fresh(s)
    ensures old(picker.SomeAvailable()) ==>
              && chosen in old(picker.workers) && !old(chosen.IsFull())
              && chosen.manager.View() == Step(old(chosen.manager.View()), Allocate(s))
              && multiset(picker.workers) == multiset(old(picker.workers))
    ensures !old(picker.SomeAvailable()) ==>
              && picker.workers == old(Live(picker.workers)) + (if chosen == null then [] else [chosen])
              && (chosen != null ==> fresh(chosen) && chosen.manager.View() == Step(EMPTY_TABLE, Allocate(s)))
    ensures forall m :: m in old(picker.Tables()) && (chosen == null || m != chosen.manager) ==> unchanged(m)
  {
    picks := 0;
    ghost var next: ClientWorker? := null;
    while picks < 16
      invariant picks <= 1 && picker.Valid() && picker.Tables() == old(picker.Tables())
      invariant picks == 0 ==>
                picker.workers == old(picker.workers) && Live(picker.workers) == old(Live(picker.workers))
      invariant picker.SomeAvailable() == old(picker.SomeAvailable())
      invariant picks == 1 ==>
                  && next in old(picker.workers) && !old(next.IsFull())
                  && picker.workers != [] && next == picker.workers[|picker.workers| - 1]
                  && multiset(picker.workers) == multiset(old(picker.workers))
      invariant forall m :: m in old(picker.Tables()) ==> unchanged(m)
    {
      chosen, s, next := TryOnce(picker, canCreate);
      picks := picks + 1;
      if chosen == null || s != null {
        return;
      }
    }
    chosen, s := null, null;
  }
}
