/** The replay window of two alternating pools (common/antireplay/antireplay.go), with pools that are exact sets. */
module AntiReplay {

  datatype Window<V> = Window(poolA: set<V>, poolB: set<V>, lastSwapTime: int, poolSwap: bool)

  /** One call of Check: the clock is read once to set the window up, and once more in any case. */
  datatype Call<V> = Call(sum: V, first: int, now: int)

  function Initial<V>(): Window<V> { Window({}, {}, 0, false) }

  /** A window that was never swapped is set up. */
  function SetUp<V>(w: Window<V>, first: int): Window<V> {
    if w.lastSwapTime == 0 then w.(poolA := {}, poolB := {}, lastSwapTime := first) else w
  }

  /** After T seconds the older pool is emptied. */
  function Swap<V>(w: Window<V>, T: int, now: int): Window<V> {
    if now - w.lastSwapTime < T then w
    else if w.poolSwap then w.(poolSwap := false, poolA := {}, lastSwapTime := now)
    else w.(poolSwap := true, poolB := {}, lastSwapTime := now)
  }

  /** A value enters the second pool only if it was new to the first. */
  function Insert<V(==)>(w: Window<V>, sum: V): (Window<V>, bool) {
    if sum in w.poolA then (w, false)
    else (w.(poolA := w.poolA + {sum}, poolB := w.poolB + {sum}), sum !in w.poolB)
  }

  function Ready<V>(T: int, w: Window<V>, c: Call<V>): Window<V> { Swap(SetUp(w, c.first), T, c.now) }

  function Next<V(==)>(T: int, w: Window<V>, c: Call<V>): Window<V> { Insert(Ready(T, w, c), c.sum).0 }

  predicate Accepts<V(==)>(T: int, w: Window<V>, c: Call<V>) { Insert(Ready(T, w, c), c.sum).1 }

  class AntiReplayWindow<V(==)> {
    var poolA: set<V>
    var poolB: set<V>
    var lastSwapTime: int
    var poolSwap: bool
    const antiReplayTime: int

    constructor (antiReplayTime: int)
      ensures this.antiReplayTime == antiReplayTime && View() == Initial()
    {
      poolA, poolB, lastSwapTime, poolSwap := {}, {}, 0, false;
      this.antiReplayTime := antiReplayTime;
    }

    ghost function View(): Window<V>
      reads this
    {
      Window(poolA, poolB, lastSwapTime, poolSwap)
    }

    method InsertUnique(first: bool, sum: V) returns (isNew: bool)
      modifies this
      ensures isNew == (sum !in if first then old(poolA) else old(poolB))
      ensures View() == if first then old(View()).(poolA := old(poolA) + {sum})
                        else old(View()).(poolB := old(poolB) + {sum})
    {
      if first {
        isNew := sum !in poolA;
        poolA := poolA + {sum};
      } else {
        isNew := sum !in poolB;
        poolB := poolB + {sum};
      }
    }

    method Check(sum: V, first: int, now: int) returns (ok: bool)
      modifies this
      ensures View() == Next(antiReplayTime, old(View()), Call(sum, first, now))
      ensures ok == Accepts(antiReplayTime, old(View()), Call(sum, first, now))
    {
      if lastSwapTime == 0 {
        lastSwapTime := first;
        poolA := {};
        poolB := {};
      }
      var timediff := now - lastSwapTime;
      if timediff >= antiReplayTime {
        if poolSwap {
          poolSwap := false;
          poolA := {};
        } else {
          poolSwap := true;
          poolB := {};
        }
        lastSwapTime := now;
      }
      ghost var ready := View();
      ok := InsertUnique(true, sum);
      if ok {
        ok := InsertUnique(false, sum);
      } else {
        assert ready.poolA + {sum} == ready.poolA;
      }
    }
  }

  // ----- runs

  function After<V(==)>(T: int, calls: seq<Call<V>>): Window<V> {
    if calls == [] then Initial() else Next(T, After(T, calls[..|calls| - 1]), calls[|calls| - 1])
  }

  predicate Accepted<V(==)>(T: int, calls: seq<Call<V>>, i: nat)
    requires i < |calls|
  {
    Accepts(T, After(T, calls[..i]), calls[i])
  }

  /** The readings of the clock, the first call's first one included, start at `lo` or later and never go back. */
  ghost predicate Steady<V>(lo: int, calls: seq<Call<V>>) {
    && (forall i :: 0 <= i < |calls| ==> lo <= calls[i].now)
    && (forall i, j :: 0 <= i < j < |calls| ==> calls[i].now <= calls[j].now)
    && (calls != [] ==> lo <= calls[0].first <= calls[0].now)
  }

  /** The clock never goes back and never reads zero. */
  ghost predicate Clock<V>(calls: seq<Call<V>>) {
    && (forall i :: 0 <= i < |calls| ==> calls[i].now != 0)
    && (forall i, j :: 0 <= i < j < |calls| ==> calls[i].now <= calls[j].now)
    && (calls != [] ==> 0 != calls[0].first <= calls[0].now)
  }

  /** What the window remembers of a value accepted at time t: in both pools, in the older pool, or long past. */
  ghost predicate Remembers<V>(T: int, w: Window<V>, sum: V, t: int) {
    && w.lastSwapTime != 0
    && (|| (sum in w.poolA && sum in w.poolB && w.lastSwapTime <= t < w.lastSwapTime + T)
        || (w.lastSwapTime > t && if w.poolSwap then sum in w.poolA else sum in w.poolB)
        || w.lastSwapTime > t + T)
  }

  /** An acceptance is remembered. */
  lemma AcceptanceIsRemembered<V>(T: int, w: Window<V>, c: Call<V>)
    requires T > 0 && c.now != 0 && Accepts(T, w, c)
    requires if w.lastSwapTime == 0 then 0 != c.first <= c.now else w.lastSwapTime <= c.now
    ensures Remembers(T, Next(T, w, c), c.sum, c.now)
  {
  }

  /** Every later call keeps it in mind, and refuses the value until more than T seconds have passed. */
  lemma CallRemembers<V>(T: int, w: Window<V>, c: Call<V>, sum: V, t: int)
    requires T > 0 && Remembers(T, w, sum, t) && c.now != 0 && w.lastSwapTime <= c.now && t <= c.now
    ensures Remembers(T, Next(T, w, c), sum, t)
    ensures c.sum == sum && Accepts(T, w, c) ==> c.now > t + T
  {
  }

  /** The last swap is not in the future. */
  lemma {:induction false} SwapIsPast<V>(T: int, calls: seq<Call<V>>)
    requires Clock(calls) && calls != []
    ensures After(T, calls).lastSwapTime != 0 && After(T, calls).lastSwapTime <= calls[|calls| - 1].now
  {
    var front := calls[..|calls| - 1];
    if front != [] {
      SwapIsPast(T, front);
    }
  }

  lemma {:induction false} AfterMore<V>(T: int, calls: seq<Call<V>>, n: nat)
    requires n < |calls|
    ensures After(T, calls[..n + 1]) == Next(T, After(T, calls[..n]), calls[n])
  {
    assert calls[..n + 1][..n] == calls[..n] && calls[..n + 1][n] == calls[n];
  }

  /** No call finds a swap in its future, and only the first finds none at all. */
  lemma SwapBefore<V>(T: int, calls: seq<Call<V>>, n: nat)
    requires Clock(calls) && n < |calls|
    ensures var last := After(T, calls[..n]).lastSwapTime;
            if n == 0 then last == 0 else last != 0 && last <= calls[n].now
  {
    if n == 0 {
      assert calls[..n] == [];
    } else {
      var before := calls[..n];
      assert before[n - 1] == calls[n - 1] && before[0] == calls[0];
      SwapIsPast(T, before);
    }
  }

  lemma {:induction false} FirstRemembers<V>(T: int, calls: seq<Call<V>>, i: nat)
    requires T > 0 && Clock(calls) && i < |calls| && Accepted(T, calls, i)
    ensures Remembers(T, After(T, calls[..i + 1]), calls[i].sum, calls[i].now)
  {
    AfterMore(T, calls, i);
    SwapBefore(T, calls, i);
    AcceptanceIsRemembered(T, After(T, calls[..i]), calls[i]);
  }

  lemma {:induction false} RunRemembers<V>(T: int, calls: seq<Call<V>>, i: nat, n: nat)
    requires T > 0 && Clock(calls) && i < n <= |calls| && Accepted(T, calls, i)
    ensures Remembers(T, After(T, calls[..n]), calls[i].sum, calls[i].now)
    decreases n
  {
    if i == n - 1 {
      FirstRemembers(T, calls, i);
    } else {
      RunRemembers(T, calls, i, n - 1);
      StillRemembers(T, calls, n - 1, calls[i].sum, calls[i].now);
    }
  }

  lemma {:induction false} StillRemembers<V>(T: int, calls: seq<Call<V>>, n: nat, sum: V, t: int)
    requires T > 0 && Clock(calls) && 0 < n < |calls| && t <= calls[n].now && Remembers(T, After(T, calls[..n]), sum, t)
    ensures Remembers(T, After(T, calls[..n + 1]), sum, t)
  {
    AfterMore(T, calls, n);
    SwapBefore(T, calls, n);
    CallRemembers(T, After(T, calls[..n]), calls[n], sum, t);
  }

  /** Two acceptances of the same value are more than T seconds apart. */
  lemma {:induction false} AcceptancesAreApart<V>(T: int, calls: seq<Call<V>>, i: nat, j: nat)
    requires T != 0 && Clock(calls) && i < j < |calls| && calls[i].sum == calls[j].sum
    requires Accepted(T, calls, i) && Accepted(T, calls, j)
    ensures calls[j].now - calls[i].now > T
  {
    if T > 0 {
      RunRemembers(T, calls, i, j);
      SwapBefore(T, calls, j);
      CallRemembers(T, After(T, calls[..j]), calls[j], calls[i].sum, calls[i].now);
    }
  }

  /** The guarantee, over all runs of clocks that start at `lo` or later. */
  ghost predicate KeepsApart<V(!new)>(T: int, lo: int) {
    forall calls: seq<Call<V>>, i: nat, j: nat
      {:trigger Accepted(T, calls, i), Accepted(T, calls, j), Steady(lo, calls)} ::
      && Steady(lo, calls) && i < j < |calls| && calls[i].sum == calls[j].sum
      && Accepted(T, calls, i) && Accepted(T, calls, j)
      ==> calls[j].now - calls[i].now > T
  }

  /** A window of no length accepts a value again at once, on the fourth call. */
  lemma {:induction false} ZeroWindowRepeats<V>(v: V, t: int)
    requires t != 0
    ensures var c := Call(v, t, t); Accepted(0, [c, c, c, c], 0) && Accepted(0, [c, c, c, c], 3)
  {
    var c := Call(v, t, t);
    var calls := [c, c, c, c];
    assert calls[..0] == [] && calls[..1] == [c] && calls[..2] == [c, c] && calls[..3] == [c, c, c];
    assert [c][..0] == [] && [c, c][..1] == [c] && [c, c, c][..2] == [c, c];
    var w1 := Next(0, Initial(), c);
    assert After(0, [c]) == w1 && w1 == Window({v}, {v}, t, true);
    var w2 := Next(0, w1, c);
    assert After(0, [c, c]) == w2 && w2 == Window({v}, {v}, t, false);
    var w3 := Next(0, w2, c);
    assert After(0, [c, c, c]) == w3 && w3 == Window({v}, {}, t, true);
  }

  /** A clock at zero sets the window up anew on every call. */
  lemma {:induction false} ClockAtZeroForgets<V>(T: int, v: V)
    requires T > 0
    ensures var c := Call(v, 0, 0); Accepted(T, [c, c], 0) && Accepted(T, [c, c], 1)
  {
    var c := Call(v, 0, 0);
    assert [c, c][..0] == [] && [c, c][..1] == [c] && [c][..0] == [];
    assert After(T, [c]) == Next(T, Initial(), c);
  }

  lemma ApartFrom<V(!new)>(T: int, lo: int)
    requires T < 0 || (T > 0 && lo > 0)
    ensures KeepsApart<V>(T, lo)
  {
    forall calls: seq<Call<V>>, i: nat, j: nat |
      && Steady(lo, calls) && i < j < |calls| && calls[i].sum == calls[j].sum
      && Accepted(T, calls, i) && Accepted(T, calls, j)
      ensures calls[j].now - calls[i].now > T
    {
      if T > 0 {
        AcceptancesAreApart(T, calls, i, j);
      }
    }
  }

  /** The window lengths and clocks for which the guarantee holds: no others give it. */
  lemma ApartExactly<V(!new)>(T: int, lo: int, v: V)
    ensures KeepsApart<V>(T, lo) <==> T < 0 || (T > 0 && lo > 0)
  {
    if T < 0 || (T > 0 && lo > 0) {
      ApartFrom<V>(T, lo);
    } else if T == 0 {
      var t := if lo > 0 then lo else 1;
      var c := Call(v, t, t);
      var calls := [c, c, c, c];
      ZeroWindowRepeats(v, t);
      assert Steady(lo, calls) && Accepted(T, calls, 0) && Accepted(T, calls, 3) && calls[0].sum == calls[3].sum;
    } else {
      var c := Call(v, 0, 0);
      var calls := [c, c];
      ClockAtZeroForgets(T, v);
      assert Steady(lo, calls) && Accepted(T, calls, 0) && Accepted(T, calls, 1) && calls[0].sum == calls[1].sum;
    }
  }

  /** The pools hold only values that were presented. */
  lemma {:induction false} PoolsWerePresented<V>(T: int, calls: seq<Call<V>>, sum: V)
    requires forall k :: 0 <= k < |calls| ==> calls[k].sum != sum
    ensures sum !in After(T, calls).poolA && sum !in After(T, calls).poolB
  {
    if calls != [] {
      PoolsWerePresented(T, calls[..|calls| - 1], sum);
    }
  }

  /** A value never presented before is accepted, whatever the clock does. */
  lemma UnseenIsAccepted<V>(T: int, calls: seq<Call<V>>, i: nat)
    requires i < |calls| && forall k :: 0 <= k < i ==> calls[k].sum != calls[i].sum
    ensures Accepted(T, calls, i)
  {
    PoolsWerePresented(T, calls[..i], calls[i].sum);
  }

  // ----- what is forgotten

  /** The pool that was emptied last does not have the value. */
  predicate OutOfNewer<V(==)>(w: Window<V>, sum: V) { if w.poolSwap then sum !in w.poolB else sum !in w.poolA }

  predicate Forgotten<V(==)>(w: Window<V>, sum: V) { sum !in w.poolA && sum !in w.poolB }

  /** Since time t the pools were swapped, or T seconds after it they will be. */
  predicate OnTheWayOut<V(==)>(w: Window<V>, sum: V, t: int) {
    w.lastSwapTime != 0 && (OutOfNewer(w, sum) || w.lastSwapTime <= t)
  }

  /** ... and the same once more. */
  predicate AlmostForgotten<V(==)>(w: Window<V>, sum: V, t: int) {
    w.lastSwapTime != 0 && (Forgotten(w, sum) || (OutOfNewer(w, sum) && w.lastSwapTime <= t))
  }

  lemma CallForgets<V>(T: int, w: Window<V>, c: Call<V>, sum: V, t: int)
    requires T > 0 && w.lastSwapTime != 0 && w.lastSwapTime <= c.now && c.now != 0
    ensures OnTheWayOut(w, sum, t) && t + T <= c.now ==> OutOfNewer(Ready(T, w, c), sum)
    ensures AlmostForgotten(w, sum, t) && t + T <= c.now ==> Forgotten(Ready(T, w, c), sum)
    ensures OnTheWayOut(w, sum, t) ==> OnTheWayOut(Ready(T, w, c), sum, t)
    ensures AlmostForgotten(w, sum, t) ==> AlmostForgotten(Ready(T, w, c), sum, t)
    ensures Forgotten(w, sum) ==> Forgotten(Ready(T, w, c), sum)
    ensures c.sum != sum ==>
              var r, n := Ready(T, w, c), Next(T, w, c);
              && (OutOfNewer(r, sum) ==> OutOfNewer(n, sum)) && (Forgotten(r, sum) ==> Forgotten(n, sum))
              && n.lastSwapTime == r.lastSwapTime && n.poolSwap == r.poolSwap
  {
  }

  /** One more call, which is about another value. */
  lemma StepForgets<V>(T: int, calls: seq<Call<V>>, n: nat, sum: V, t: int)
    requires T > 0 && Clock(calls) && 0 < n < |calls| && calls[n].sum != sum
    ensures var w, v := After(T, calls[..n]), After(T, calls[..n + 1]);
            && (OnTheWayOut(w, sum, t) ==> OnTheWayOut(v, sum, t))
            && (AlmostForgotten(w, sum, t) ==> AlmostForgotten(v, sum, t))
            && (OnTheWayOut(w, sum, t) && t + T <= calls[n].now ==> OutOfNewer(v, sum))
  {
    AfterMore(T, calls, n);
    SwapBefore(T, calls, n);
    CallForgets(T, After(T, calls[..n]), calls[n], sum, t);
  }

  /** After a call the last swap is not later than it. */
  lemma SwapBy<V>(T: int, calls: seq<Call<V>>, n: nat)
    requires Clock(calls) && n < |calls|
    ensures After(T, calls[..n + 1]).lastSwapTime != 0 && After(T, calls[..n + 1]).lastSwapTime <= calls[n].now
  {
    var before := calls[..n + 1];
    assert before[0] == calls[0] && before[n] == calls[n];
    SwapIsPast(T, before);
  }

  /** From the value's last presentation at call i on. */
  lemma {:induction false} FirstSwap<V>(T: int, calls: seq<Call<V>>, i: nat, n: nat)
    requires T > 0 && Clock(calls) && i <= n < |calls|
    requires forall k :: i < k <= n ==> calls[k].sum != calls[i].sum
    ensures OnTheWayOut(After(T, calls[..n + 1]), calls[i].sum, calls[i].now)
    decreases n
  {
    if n == i {
      SwapBy(T, calls, i);
    } else {
      FirstSwap(T, calls, i, n - 1);
      StepForgets(T, calls, n, calls[i].sum, calls[i].now);
    }
  }

  /** From a call a that comes T seconds later on. */
  lemma {:induction false} SecondSwap<V>(T: int, calls: seq<Call<V>>, i: nat, a: nat, n: nat)
    requires T > 0 && Clock(calls) && i < a <= n < |calls| && calls[i].now + T <= calls[a].now
    requires forall k :: i < k <= n ==> calls[k].sum != calls[i].sum
    ensures AlmostForgotten(After(T, calls[..n + 1]), calls[i].sum, calls[a].now)
    decreases n
  {
    if n == a {
      FirstSwap(T, calls, i, a - 1);
      StepForgets(T, calls, a, calls[i].sum, calls[i].now);
      SwapBy(T, calls, a);
    } else {
      SecondSwap(T, calls, i, a, n - 1);
      StepForgets(T, calls, n, calls[i].sum, calls[a].now);
    }
  }

  /**
    Nothing is refused for ever: a value is accepted again when, since it was last presented, a call
    came T seconds later and this one comes T seconds after that call.
   */
  lemma AcceptedAgain<V>(T: int, calls: seq<Call<V>>, i: nat, a: nat, j: nat)
    requires T > 0 && Clock(calls) && i < a < j < |calls| && calls[i].sum == calls[j].sum
    requires calls[i].now + T <= calls[a].now && calls[a].now + T <= calls[j].now
    requires forall k :: i < k < j ==> calls[k].sum != calls[i].sum
    ensures Accepted(T, calls, j)
  {
    SecondSwap(T, calls, i, a, j - 1);
    SwapBefore(T, calls, j);
    CallForgets(T, After(T, calls[..j]), calls[j], calls[i].sum, calls[a].now);
  }
}
