/** Byte slices recycled by size class (common/bytespool/pool.go). */
module BytesPool {
  import opened Bytes

  const NUM_POOLS := 4

  const SIZE_MULTI := 4

  /** Pool i holds slices of at least 2048 * 4^i bytes. */
  function PoolSize(i: nat): nat {
    if i == 0 then 2048 else SIZE_MULTI * PoolSize(i - 1)
  }

  type Int32 = n: int | -0x8000_0000 <= n < 0x8000_0000

  /** The conversion of a capacity to 32 bits. */
  function ToInt32(n: nat): (r: Int32)
    ensures r <= n && (n < 0x8000_0000 ==> r == n)
  {
    if n < 0x8000_0000 then n
    else
      var m := n % 0x1_0000_0000;
      if m < 0x8000_0000 then m else m - 0x1_0000_0000
  }

  lemma PoolSizes()
    ensures PoolSize(0) == 2048 && PoolSize(1) == 8192 && PoolSize(2) == 32768 && PoolSize(3) == 131072
  {
    assert PoolSize(1) == 4 * PoolSize(0);
    assert PoolSize(2) == 4 * PoolSize(1);
  }

  lemma {:induction false} SizePositive(i: nat)
    ensures PoolSize(i) >= 2048
  {
    if i > 0 {
      SizePositive(i - 1);
    }
  }

  /** The lengths of the slices each pool holds. */
  type Pools = p: seq<seq<nat>> | |p| == NUM_POOLS witness [[], [], [], []]

  /** Every slice is long enough for its pool. */
  ghost predicate LongEnough(pools: Pools) {
    forall i, k :: 0 <= i < NUM_POOLS && 0 <= k < |pools[i]| ==> pools[i][k] >= PoolSize(i)
  }

  /** A length that belongs into pool i: its size, and in the largest pool any that could be asked for. */
  ghost predicate Belongs(i: nat, length: nat) {
    if i < NUM_POOLS - 1 then length == PoolSize(i) else length < 0x8000_0000
  }

  ghost predicate AllBelong(i: nat, lengths: seq<nat>) {
    forall k :: 0 <= k < |lengths| ==> Belongs(i, lengths[k])
  }

  /** The three smaller pools hold slices of exactly their size, the largest any that could be asked for. */
  ghost predicate Exact(pools: Pools) {
    forall i :: 0 <= i < NUM_POOLS ==> AllBelong(i, pools[i])
  }

  /** GetPool: the smallest pool that is large enough. */
  method GetPool(size: Int32) returns (i: Option<nat>)
    ensures i.Some? ==>
              i.value < NUM_POOLS && size <= PoolSize(i.value) && forall k :: 0 <= k < i.value ==> size > PoolSize(k)
    ensures i.None? ==> forall k :: 0 <= k < NUM_POOLS ==> size > PoolSize(k)
  {
    for idx := 0 to NUM_POOLS
      invariant forall k :: 0 <= k < idx ==> size > PoolSize(k)
    {
      if size <= PoolSize(idx) {
        return Some(idx);
      }
    }
    i := None;
  }

  /** A length that an allocation can have: a size class, or more than the largest asks for. */
  ghost predicate Allocatable(length: nat) {
    (exists i :: 0 <= i < NUM_POOLS - 1 && length == PoolSize(i)) || PoolSize(NUM_POOLS - 1) <= length < 0x8000_0000
  }

  lemma BelongPut(i: nat, lengths: seq<nat>, length: nat)
    requires AllBelong(i, lengths)
    ensures AllBelong(i, lengths + [length]) <==> Belongs(i, length)
  {
    assert (lengths + [length])[|lengths|] == length;
  }

  lemma ExactPut(pools: Pools, i: nat, capacity: nat)
    requires Exact(pools) && i < NUM_POOLS
    ensures Exact(pools[i := pools[i] + [capacity]]) <==> Belongs(i, capacity)
  {
    BelongPut(i, pools[i], capacity);
    var after := pools[i := pools[i] + [capacity]];
    assert after[i] == pools[i] + [capacity];
    assert forall j :: 0 <= j < NUM_POOLS && j != i ==> after[j] == pools[j];
  }

  /** The pool a slice lands in is its own exactly if it could have been allocated. */
  lemma BelongsWhereItLands(i: nat, capacity: nat, size: Int32)
    requires i < NUM_POOLS && size == ToInt32(capacity) && PoolSize(i) <= size
    requires forall k :: i < k < NUM_POOLS ==> size < PoolSize(k)
    ensures Belongs(i, capacity) <==> Allocatable(capacity)
  {
    PoolSizes();
    if i < NUM_POOLS - 1 {
      assert size < PoolSize(i + 1);
    }
  }

  /** One slice has left its pool, and nothing else changed. */
  ghost predicate Taken(before: Pools, after: Pools, length: nat) {
    exists i, k :: TakenAt(before, after, length, i, k)
  }

  predicate TakenAt(before: Pools, after: Pools, length: nat, i: nat, k: nat) {
    && i < NUM_POOLS && k < |before[i]| && before[i][k] == length
    && after == before[i := before[i][..k] + before[i][k + 1..]]
  }

  /** Pool i is the largest that a slice is long enough for. */
  predicate Lands(i: nat, size: Int32) {
    match i
    case 0 => 2048 <= size < 8192
    case 1 => 8192 <= size < 32768
    case 2 => 32768 <= size < 131072
    case _ => i == 3 && 131072 <= size
  }

  class BytesPool {
    var pools: Pools

    constructor ()
      ensures LongEnough(pools) && Exact(pools)
    {
      pools := [[], [], [], []];
    }

    /** A pool hands out any slice it holds, or makes a new one. */
    method Get(i: nat, choice: Option<nat>) returns (length: nat)
      requires i < NUM_POOLS && LongEnough(pools)
      modifies this
      ensures LongEnough(pools) && length >= PoolSize(i)
      ensures old(Exact(pools)) ==> Exact(pools) && Allocatable(length)
      ensures Taken(old(pools), pools, length) || (pools == old(pools) && length == PoolSize(i))
    {
      PoolSizes();
      if choice.Some? && choice.value < |pools[i]| {
        var held := pools[i];
        length := held[choice.value];
        pools := pools[i := held[..choice.value] + held[choice.value + 1..]];
        assert TakenAt(old(pools), pools, length, i, choice.value);
      } else {
        length := PoolSize(i);
      }
    }

    /** Alloc never returns less than was asked for, nor less than 2048 bytes. */
    method Alloc(size: Int32, choice: Option<nat>) returns (length: nat)
      requires LongEnough(pools)
      modifies this
      ensures LongEnough(pools) && length >= size && length >= 2048
      ensures old(Exact(pools)) ==> Exact(pools) && Allocatable(length)
      ensures pools == old(pools) || Taken(old(pools), pools, length)
    {
      var i := GetPool(size);
      if i.Some? {
        SizePositive(i.value);
        length := Get(i.value, choice);
      } else {
        PoolSizes();
        length := size;
      }
    }

    /** Free puts a slice of any capacity into the largest pool it is long enough for. */
    method Free(capacity: nat)
      requires LongEnough(pools)
      modifies this
      ensures LongEnough(pools)
      ensures old(Exact(pools)) ==> (Exact(pools) <==> Allocatable(capacity) || ToInt32(capacity) < 2048)
      ensures forall i :: 0 <= i < NUM_POOLS ==>
                pools[i] == if Lands(i, ToInt32(capacity)) then old(pools[i]) + [capacity] else old(pools[i])
    {
      PoolSizes();
      var size := ToInt32(capacity);
      var i := NUM_POOLS - 1;
      while i >= 0
        invariant -1 <= i < NUM_POOLS && pools == old(pools)
        invariant forall k :: i < k < NUM_POOLS ==> size < PoolSize(k)
      {
        if size >= PoolSize(i) {
          Put(i, capacity);
          if old(Exact(pools)) {
            ExactPut(old(pools), i, capacity);
            BelongsWhereItLands(i, capacity, size);
          }
          return;
        }
        i := i - 1;
      }
      assert size < PoolSize(0);
    }

    method Put(i: nat, capacity: nat)
      requires i < NUM_POOLS && LongEnough(pools) && capacity >= PoolSize(i)
      modifies this
      ensures LongEnough(pools) && pools == old(pools)[i := old(pools)[i] + [capacity]]
    {
      pools := pools[i := pools[i] + [capacity]];
    }
  }

  // ----- any use of the pools

  datatype Use = Allocate(size: Int32, choice: Option<nat>) | Return(k: nat) | Foreign(capacity: nat)

  /** The sizes asked for, in order. */
  function Requests(uses: seq<Use>): seq<Int32> {
    if uses == [] then []
    else Requests(uses[..|uses| - 1]) + if uses[|uses| - 1].Allocate? then [uses[|uses| - 1].size] else []
  }

  /** Every slice is as long as was asked for, and never shorter than 2048 bytes. */
  predicate Enough(lengths: seq<nat>, sizes: seq<Int32>) {
    |lengths| == |sizes| && forall k :: 0 <= k < |sizes| ==> lengths[k] >= sizes[k] && lengths[k] >= 2048
  }

  ghost predicate AllAllocatable(lengths: seq<nat>) {
    forall k :: 0 <= k < |lengths| ==> Allocatable(lengths[k])
  }

  /** One use. */
  method ServeNext(p: BytesPool, use: Use, lengths: seq<nat>, ghost sizes: seq<Int32>) returns (lengths': seq<nat>)
    requires LongEnough(p.pools) && Enough(lengths, sizes)
    modifies p
    ensures LongEnough(p.pools) && Enough(lengths', sizes + if use.Allocate? then [use.size] else [])
    ensures old(Exact(p.pools)) && AllAllocatable(lengths) && !use.Foreign? ==>
              Exact(p.pools) && AllAllocatable(lengths')
  {
    lengths' := lengths;
    match use {
      case Allocate(size, choice) =>
        var length := p.Alloc(size, choice);
        lengths' := lengths + [length];
      case Return(k) =>
        if k < |lengths| {
          p.Free(lengths[k]);
        }
      case Foreign(capacity) =>
        p.Free(capacity);
    }
  }

  /** A client that allocates, gives back what it got, or frees slices from elsewhere. */
  method Serve(uses: seq<Use>) returns (lengths: seq<nat>, p: BytesPool)
    ensures LongEnough(p.pools) && Enough(lengths, Requests(uses))
    ensures (forall i :: 0 <= i < |uses| ==> !uses[i].Foreign?) ==> Exact(p.pools) && AllAllocatable(lengths)
  {
    p := new BytesPool();
    lengths := [];
    var i := 0;
    while i < |uses|
      invariant 0 <= i <= |uses| && fresh(p) && LongEnough(p.pools) && Enough(lengths, Requests(uses[..i]))
      invariant (forall j :: 0 <= j < i ==> !uses[j].Foreign?) ==> Exact(p.pools) && AllAllocatable(lengths)
    {
      lengths := ServeNext(p, uses[i], lengths, Requests(uses[..i]));
      assert uses[..i + 1][..i] == uses[..i];
      i := i + 1;
    }
    assert uses[..i] == uses;
  }
}
