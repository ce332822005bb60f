/** The server list that drops invalid servers as it meets them, and its round-robin picker (common/protocol). */
module ServerPicker {
  import opened Bytes

  /** removeServer: the last server takes the place of the one removed. */
  function Removed<S>(servers: seq<S>, idx: nat): seq<S>
    requires idx < |servers|
  {
    var n := |servers|;
    servers[idx := servers[n - 1]][..n - 1]
  }

  /** What GetServer leaves of the list. */
  function Kept<S>(servers: seq<S>, idx: nat, valid: S -> bool): seq<S>
    decreases |servers|
  {
    if idx >= |servers| || valid(servers[idx]) then servers else Kept(Removed(servers, idx), idx, valid)
  }

  /** What GetServer returns. */
  function Got<S>(servers: seq<S>, idx: nat, valid: S -> bool): Option<S> {
    var kept := Kept(servers, idx, valid);
    if idx < |kept| then Some(kept[idx]) else None
  }

  ghost predicate NoneValid<S>(servers: seq<S>, idx: nat, valid: S -> bool) {
    forall k :: idx <= k < |servers| ==> !valid(servers[k])
  }

  /** The lists have the same valid servers, and `kept` has no more of any other. */
  ghost predicate OnlyInvalidDropped<S(!new)>(servers: seq<S>, kept: seq<S>, valid: S -> bool) {
    forall s ::
      if valid(s) then multiset(kept)[s] == multiset(servers)[s] else multiset(kept)[s] <= multiset(servers)[s]
  }

  lemma RemovedOne<S>(servers: seq<S>, idx: nat)
    requires idx < |servers|
    ensures multiset(servers) == multiset(Removed(servers, idx)) + multiset{servers[idx]}
    ensures Removed(servers, idx)[..idx] == servers[..idx]
  {
    var n, rest := |servers|, Removed(servers, idx);
    if idx == n - 1 {
      assert rest == servers[..n - 1] && servers == rest + [servers[idx]];
    } else {
      var head, tail, x, y := servers[..idx], servers[idx + 1..n - 1], servers[idx], servers[n - 1];
      CutUp(servers, idx);
      LastTakesPlace(head, x, tail, y);
    }
  }

  /** Every other server stays where it was. */
  lemma RemovedAt<S>(servers: seq<S>, idx: nat, k: nat)
    requires idx < |servers| && k < |servers| - 1
    ensures |Removed(servers, idx)| == |servers| - 1
    ensures Removed(servers, idx)[k] == if k == idx then servers[|servers| - 1] else servers[k]
  {
  }

  lemma CutUp<S>(servers: seq<S>, idx: nat)
    requires idx < |servers| - 1
    ensures var n := |servers|; servers == servers[..idx] + [servers[idx]] + servers[idx + 1..n - 1] + [servers[n - 1]]
    ensures var n := |servers|;
            Removed(servers, idx) == servers[..idx] + [servers[n - 1]] + servers[idx + 1..n - 1]
  {
  }

  lemma LastTakesPlace<S>(head: seq<S>, x: S, tail: seq<S>, y: S)
    ensures multiset(head + [x] + tail + [y]) == multiset(head + [y] + tail) + multiset{x}
  {
  }

  lemma RemovedNoneValid<S>(servers: seq<S>, idx: nat, valid: S -> bool)
    requires idx < |servers| && !valid(servers[idx])
    ensures NoneValid(servers, idx, valid) <==> NoneValid(Removed(servers, idx), idx, valid)
  {
    var rest := Removed(servers, idx);
    if NoneValid(rest, idx, valid) {
      forall k | idx <= k < |servers|
        ensures !valid(servers[k])
      {
        if idx < k {
          assert servers[k] == if k == |servers| - 1 then rest[idx] else rest[k];
        }
      }
    }
  }

  /** GetServer finds a server exactly if one at or behind the index is valid, and loses only invalid ones. */
  lemma {:induction false} GetServerFinds<S(!new)>(servers: seq<S>, idx: nat, valid: S -> bool)
    ensures Got(servers, idx, valid).None? <==> NoneValid(servers, idx, valid)
    ensures Got(servers, idx, valid).Some? ==> valid(Got(servers, idx, valid).value)
    ensures Got(servers, idx, valid).None? && idx <= |servers| ==> Kept(servers, idx, valid) == servers[..idx]
    ensures OnlyInvalidDropped(servers, Kept(servers, idx, valid), valid)
    decreases |servers|
  {
    if idx < |servers| && !valid(servers[idx]) {
      GetServerFinds(Removed(servers, idx), idx, valid);
      RemovedOne(servers, idx);
      RemovedNoneValid(servers, idx, valid);
    }
  }

  class ServerList<S> {
    var servers: seq<S>

    constructor ()
      ensures servers == []
    {
      servers := [];
    }

    method AddServer(server: S)
      modifies this
      ensures servers == old(servers) + [server]
    {
      servers := servers + [server];
    }

    method GetServer(idx: nat, valid: S -> bool) returns (r: Option<S>)
      modifies this
      ensures servers == Kept(old(servers), idx, valid) && r == Got(old(servers), idx, valid)
    {
      while idx < |servers|
        invariant Kept(servers, idx, valid) == Kept(old(servers), idx, valid)
        decreases |servers|
      {
        var server := servers[idx];
        if valid(server) {
          return Some(server);
        }
        RemoveServer(idx);
      }
      r := None;
    }

    method RemoveServer(idx: nat)
      requires idx < |servers|
      modifies this
      ensures servers == Removed(old(servers), idx)
    {
      var n := |servers|;
      servers := servers[idx := servers[n - 1]];
      servers := servers[..n - 1];
    }
  }

  // ----- picking

  datatype Pick<S> = Pick(servers: seq<S>, next: nat, server: Option<S>)

  function Advanced(next: nat, size: nat): nat { if next + 1 >= size then 0 else next + 1 }

  function PickSpec<S>(servers: seq<S>, next: nat, valid: S -> bool): Pick<S> {
    var kept, got := Kept(servers, next, valid), Got(servers, next, valid);
    if got.Some? then Pick(kept, Advanced(next, |kept|), got)
    else
      var again := Kept(kept, 0, valid);
      Pick(again, Advanced(0, |again|), Got(kept, 0, valid))
  }

  /** A pick fails exactly if no server is valid, returns a valid server, and loses only invalid ones. */
  lemma PickFindsAny<S(!new)>(servers: seq<S>, next: nat, valid: S -> bool)
    ensures var p := PickSpec(servers, next, valid);
            && (p.server.None? <==> NoneValid(servers, 0, valid))
            && (p.server.Some? ==> valid(p.server.value) && p.server.value in servers)
            && OnlyInvalidDropped(servers, p.servers, valid)
            && (p.next < |p.servers| || p.next == 0)
  {
    GetServerFinds(servers, next, valid);
    var kept, got := Kept(servers, next, valid), Got(servers, next, valid);
    var p := PickSpec(servers, next, valid);
    if got.Some? {
      InList(servers, kept, got.value, valid);
    } else {
      GetServerFinds(kept, 0, valid);
      if next <= |servers| {
        assert forall k :: 0 <= k < |kept| ==> kept[k] == servers[k];
      } else {
        assert kept == servers;
      }
      DroppedTwice(servers, kept, Kept(kept, 0, valid), valid);
      if p.server.Some? {
        InList(servers, p.servers, p.server.value, valid);
      }
    }
  }

  lemma InList<S(!new)>(servers: seq<S>, kept: seq<S>, s: S, valid: S -> bool)
    requires OnlyInvalidDropped(servers, kept, valid) && s in kept
    ensures s in servers
  {
    assert s in multiset(kept);
    assert multiset(kept)[s] <= multiset(servers)[s];
    assert s in multiset(servers);
  }

  lemma DroppedTwice<S(!new)>(a: seq<S>, b: seq<S>, c: seq<S>, valid: S -> bool)
    requires OnlyInvalidDropped(a, b, valid) && OnlyInvalidDropped(b, c, valid)
    ensures OnlyInvalidDropped(a, c, valid)
  {
  }

  class RoundRobinServerPicker<S> {
    const serverList: ServerList<S>
    var nextIndex: nat

    constructor (serverList: ServerList<S>)
      ensures this.serverList == serverList && nextIndex == 0
    {
      this.serverList, nextIndex := serverList, 0;
    }

    method PickServer(valid: S -> bool) returns (server: Option<S>)
      modifies this, serverList
      ensures Pick(serverList.servers, nextIndex, server) == PickSpec(old(serverList.servers), old(nextIndex), valid)
    {
      var next := nextIndex;
      server := serverList.GetServer(next, valid);
      if server.None? {
        next := 0;
        server := serverList.GetServer(0, valid);
      }
      next := next + 1;
      if next >= |serverList.servers| {
        next := 0;
      }
      nextIndex := next;
    }
  }

  // ----- round robin

  /** The servers of k picks in a row. */
  function Picks<S>(servers: seq<S>, next: nat, valid: S -> bool, k: nat): seq<Option<S>>
    decreases k
  {
    if k == 0 then []
    else
      var p := PickSpec(servers, next, valid);
      [p.server] + Picks(p.servers, p.next, valid, k - 1)
  }

  ghost predicate AllValid<S>(servers: seq<S>, valid: S -> bool) {
    forall k :: 0 <= k < |servers| ==> valid(servers[k])
  }

  function Found<S>(servers: seq<S>): seq<Option<S>> {
    if servers == [] then [] else [Some(servers[0])] + Found(servers[1..])
  }

  /** On a list of valid servers a pick takes the server at the index and steps on. */
  lemma StablePick<S>(servers: seq<S>, next: nat, valid: S -> bool)
    requires AllValid(servers, valid) && next < |servers|
    ensures PickSpec(servers, next, valid) == Pick(servers, Advanced(next, |servers|), Some(servers[next]))
  {
  }

  /** Picks up to the end of the list. */
  lemma {:induction false} PicksAhead<S>(servers: seq<S>, next: nat, valid: S -> bool, k: nat)
    requires AllValid(servers, valid) && next + k <= |servers| && servers != []
    ensures next < |servers| ==> Picks(servers, next, valid, k) == Found(servers[next..next + k])
    decreases k
  {
    if k > 0 {
      StablePick(servers, next, valid);
      assert servers[next..next + k][0] == servers[next] && servers[next..next + k][1..] == servers[next + 1..next + k];
      PicksAhead(servers, next + 1, valid, k - 1);
    }
  }

  /** Once round: every server exactly once, starting at the index, or at the front if it is out of range. */
  lemma {:induction false} PicksRound<S>(servers: seq<S>, next: nat, valid: S -> bool, k: nat, start: nat)
    requires AllValid(servers, valid) && start <= next < |servers| && k == |servers| - (next - start)
    ensures Picks(servers, next, valid, k) == Found(servers[next..] + servers[..start])
    decreases |servers| - next
  {
    StablePick(servers, next, valid);
    var all := servers[next..] + servers[..start];
    assert all[0] == servers[next];
    if next + 1 < |servers| {
      assert all[1..] == servers[next + 1..] + servers[..start];
      PicksRound(servers, next + 1, valid, k - 1, start);
    } else {
      assert all[1..] == servers[0..start];
      PicksAhead(servers, 0, valid, start);
    }
  }

  lemma RoundVisitsAll<S>(servers: seq<S>, next: nat, valid: S -> bool)
    requires AllValid(servers, valid)
    ensures var start := if next < |servers| then next else 0;
            && Picks(servers, next, valid, |servers|) == Found(servers[start..] + servers[..start])
            && multiset(servers[start..] + servers[..start]) == multiset(servers)
  {
    var start := if next < |servers| then next else 0;
    assert servers == servers[..start] + servers[start..];
    if servers != [] {
      if next < |servers| {
        PicksRound(servers, next, valid, |servers|, next);
      } else {
        assert Kept(servers, next, valid) == servers && Got(servers, next, valid).None?;
        assert PickSpec(servers, next, valid) == PickSpec(servers, 0, valid);
        PicksRound(servers, 0, valid, |servers|, 0);
      }
    }
  }
}
