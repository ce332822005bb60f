/** Sets of CIDR blocks compiled into sorted arrays (app/router/condition_geoip.go, app/router/config.go). */
module GeoIP {
  import opened Bytes
  import opened Masks
  import opened Nonces

  /** An address of 4 or 16 bytes and a prefix length; host bits may be set. */
  datatype CIDR = CIDR(ip: seq<byte>, prefix: nat)

  predicate HasLength(c: CIDR) { |c.ip| == 4 || |c.ip| == 16 }

  predicate ValidPrefix(c: CIDR) { HasLength(c) && c.prefix <= 8 * |c.ip| }

  /** A block as numbers: some address in it and the number of host bits. */
  datatype Block = Block(addr: nat, host: nat) {
    function Base(): nat { Mask(addr, host) }

    function End(): nat { Base() + Pow2(host) }
  }

  function BlockOf(c: CIDR): Block
    requires ValidPrefix(c)
  {
    Block(BigEndian(c.ip), 8 * |c.ip| - c.prefix)
  }

  /** Section 3.1 of RFC 4632: the leading prefix bits agree. */
  predicate In(b: Block, x: nat) { Mask(x, b.host) == Mask(b.addr, b.host) }

  predicate Contains(c: CIDR, ip: seq<byte>)
    requires ValidPrefix(c)
  {
    |ip| == |c.ip| && In(BlockOf(c), BigEndian(ip))
  }

  /** Two blocks are the same block or have no address in common. */
  ghost predicate Apart(b: Block, c: Block) {
    (b.host == c.host && b.Base() == c.Base()) || (forall x :: !(In(b, x) && In(c, x)))
  }

  // ----- order

  /** CIDRList.Less. */
  predicate Less(a: CIDR, b: CIDR) {
    || |a.ip| < |b.ip|
    || (|a.ip| == |b.ip| && (LexLess(a.ip, b.ip) || (a.ip == b.ip && a.prefix < b.prefix)))
  }

  /** Less with its loop over the bytes. */
  method LessThan(a: CIDR, b: CIDR) returns (r: bool)
    ensures r == Less(a, b)
  {
    if |a.ip| < |b.ip| {
      return true;
    }
    if |a.ip| > |b.ip| {
      return false;
    }
    var k := 0;
    while k < |a.ip|
      invariant 0 <= k <= |a.ip| && a.ip[..k] == b.ip[..k]
      invariant LexLess(a.ip, b.ip) <==> LexLess(a.ip[k..], b.ip[k..])
    {
      assert a.ip[k..][1..] == a.ip[k + 1..] && b.ip[k..][1..] == b.ip[k + 1..];
      if a.ip[k] < b.ip[k] {
        return true;
      }
      if a.ip[k] > b.ip[k] {
        return false;
      }
      k := k + 1;
    }
    assert a.ip == a.ip[..k] && b.ip == b.ip[..k];
    r := a.prefix < b.prefix;
  }

  /** Less compares lengths, then addresses as numbers, then prefixes. */
  lemma LessIsNumeric(a: CIDR, b: CIDR)
    ensures Less(a, b) <==>
            || |a.ip| < |b.ip|
            || (|a.ip| == |b.ip| && BigEndian(a.ip) < BigEndian(b.ip))
            || (|a.ip| == |b.ip| && BigEndian(a.ip) == BigEndian(b.ip) && a.prefix < b.prefix)
  {
    if |a.ip| == |b.ip| {
      LexIsNumeric(a.ip, b.ip);
    }
  }

  predicate Sorted(cs: seq<CIDR>) {
    forall i, j :: 0 <= i < j < |cs| ==> !Less(cs[j], cs[i])
  }

  lemma LessTransitive(a: CIDR, b: CIDR, c: CIDR)
    requires !Less(b, a) && !Less(c, b)
    ensures !Less(c, a)
  {
    LessIsNumeric(b, a);
    LessIsNumeric(c, b);
    LessIsNumeric(c, a);
  }

  lemma LessAsymmetric(a: CIDR, b: CIDR)
    requires Less(a, b)
    ensures !Less(b, a)
  {
    LessIsNumeric(a, b);
    LessIsNumeric(b, a);
  }

  /** sort.Sort. Elements that compare equal are equal, so every sort has this result. */
  method Sort(cs: seq<CIDR>) returns (r: seq<CIDR>)
    ensures Sorted(r) && multiset(r) == multiset(cs)
  {
    r := [];
    var i := 0;
    while i < |cs|
      invariant 0 <= i <= |cs|
      invariant Sorted(r) && multiset(r) == multiset(cs[..i])
    {
      assert cs[..i + 1] == cs[..i] + [cs[i]];
      r := Insert(r, cs[i]);
      i := i + 1;
    }
    assert cs[..i] == cs;
  }

  method Insert(r: seq<CIDR>, c: CIDR) returns (r': seq<CIDR>)
    requires Sorted(r)
    ensures Sorted(r') && multiset(r') == multiset(r) + multiset{c}
  {
    var k := |r|;
    while k > 0
      invariant 0 <= k <= |r|
      invariant forall j :: k <= j < |r| ==> !Less(r[j], c)
    {
      var before := LessThan(c, r[k - 1]);
      if !before {
        break;
      }
      LessAsymmetric(c, r[k - 1]);
      k := k - 1;
    }
    InsertedIsSorted(r, k, c);
    InsertedOnce(r, k, c);
    r' := r[..k] + [c] + r[k..];
  }

  lemma InsertedOnce<T>(r: seq<T>, k: nat, c: T)
    requires k <= |r|
    ensures multiset(r[..k] + [c] + r[k..]) == multiset(r) + multiset{c}
  {
    assert r == r[..k] + r[k..];
  }

  lemma InsertedIsSorted(r: seq<CIDR>, k: nat, c: CIDR)
    requires Sorted(r) && k <= |r|
    requires forall j :: k <= j < |r| ==> !Less(r[j], c)
    requires k > 0 ==> !Less(c, r[k - 1])
    ensures Sorted(r[..k] + [c] + r[k..])
  {
    var s := r[..k] + [c] + r[k..];
    forall i, j | 0 <= i < j < |s|
      ensures !Less(s[j], s[i])
    {
      if j == k && i < k - 1 {
        LessTransitive(r[i], r[k - 1], c);
      }
    }
  }

  // ----- normalising

  /** normalize4: a shift by 32 or more, as 8-bit 32 - prefix gives for larger prefixes, leaves nothing. */
  function Normalize4(ip: nat, prefix: byte): nat {
    if prefix <= 32 then Mask(ip, 32 - prefix as int) else 0
  }

  const TWO_TO_64: nat := 0x1_0000_0000_0000_0000

  lemma WordSize()
    ensures TWO_TO_64 == Pow2(64)
  {
    assert Pow2(8) == 0x100;
    Pow2Sum(8, 8);
    Pow2Sum(16, 16);
    Pow2Sum(32, 32);
  }

  /** A 128-bit number in two 64-bit words. */
  datatype IPv6 = IPv6(a: nat, b: nat) {
    predicate Valid() { a < TWO_TO_64 && b < TWO_TO_64 }

    function Number(): nat { a * TWO_TO_64 + b }
  }

  function Normalize6(ip: IPv6, prefix: byte): IPv6 {
    if prefix <= 64 then IPv6(Mask(ip.a, 64 - prefix as int), 0)
    else if prefix <= 128 then IPv6(ip.a, Mask(ip.b, 128 - prefix as int))
    else IPv6(ip.a, 0)
  }

  predicate Less6(x: IPv6, y: IPv6) { x.a < y.a || (x.a == y.a && x.b < y.b) }

  /** On word pairs, order and equality are those of the 128-bit numbers. */
  lemma {:induction false} WordsAreNumbers(x: IPv6, y: IPv6)
    requires x.Valid() && y.Valid()
    ensures Less6(x, y) <==> x.Number() < y.Number()
    ensures x == y <==> x.Number() == y.Number()
  {
  }

  /** normalize6 masks the 128-bit number. */
  lemma {:induction false} Normalize6Masks(ip: IPv6, prefix: byte)
    requires ip.Valid() && prefix <= 128
    ensures Normalize6(ip, prefix).Valid()
    ensures Normalize6(ip, prefix).Number() == Mask(ip.Number(), 128 - prefix as int)
  {
    WordSize();
    if prefix <= 64 {
      MaskHigh(ip.a, ip.b, 64, 64 - prefix as int);
      MaskBounds(ip.a, 64 - prefix as int);
    } else {
      MaskLow(ip.a, ip.b, 128 - prefix as int, prefix as int - 64);
      MaskBounds(ip.b, 128 - prefix as int);
    }
  }

  /** Reading 16 bytes as two words reads one number. */
  function Words(ip: seq<byte>): IPv6
    requires |ip| == 16
  {
    IPv6(BigEndian(ip[..8]), BigEndian(ip[8..]))
  }

  lemma {:induction false} WordsOfBytes(ip: seq<byte>)
    requires |ip| == 16
    ensures Words(ip).Valid() && Words(ip).Number() == BigEndian(ip)
  {
    assert ip == ip[..8] + ip[8..];
    BigEndianConcat(ip[..8], ip[8..]);
    BigEndianBound(ip[..8]);
    BigEndianBound(ip[8..]);
    Pow256IsPow2(8);
    WordSize();
  }

  // ----- searching

  /** What match4 answers: the path of its binary search between l and r. */
  predicate Probe4(ip4: seq<nat>, prefix4: seq<byte>, ip: nat, l: nat, r: nat)
    requires |ip4| == |prefix4| && l <= r <= |ip4|
    decreases r - l
  {
    if l == r then
      l > 0 && Normalize4(ip, prefix4[l - 1]) == ip4[l - 1]
    else
      var x := (l + r) / 2;
      if ip < ip4[x] then Probe4(ip4, prefix4, ip, l, x)
      else Normalize4(ip, prefix4[x]) == ip4[x] || Probe4(ip4, prefix4, ip, x + 1, r)
  }

  predicate Search4(ip4: seq<nat>, prefix4: seq<byte>, ip: nat)
    requires |ip4| == |prefix4|
  {
    |ip4| > 0 && ip4[0] <= ip && Probe4(ip4, prefix4, ip, 0, |ip4|)
  }

  ghost predicate Covered(blocks: seq<Block>, x: nat) {
    exists i :: 0 <= i < |blocks| && In(blocks[i], x)
  }

  /** c begins no earlier and ends no earlier than b. */
  predicate Rises(b: Block, c: Block) { b.Base() <= c.Base() && b.End() <= c.End() }

  /** Blocks in order, by where they begin and by where they end. */
  predicate Ordered(blocks: seq<Block>) {
    forall i, j :: 0 <= i < j < |blocks| ==> Rises(blocks[i], blocks[j])
  }

  lemma InBounds(b: Block, x: nat)
    ensures In(b, x) <==> b.Base() <= x < b.End()
  {
    SameMask(b.addr, x, b.host);
  }

  /** An address at or above the base of a block that does not hold it is in no earlier block. */
  lemma NotBefore(blocks: seq<Block>, i: nat, x: nat)
    requires Ordered(blocks) && i < |blocks| && blocks[i].Base() <= x && !In(blocks[i], x)
    ensures forall j :: 0 <= j <= i ==> !In(blocks[j], x)
  {
    forall j | 0 <= j <= i
      ensures !In(blocks[j], x)
    {
      InBounds(blocks[j], x);
      InBounds(blocks[i], x);
    }
  }

  /** An address below the base of a block is in no later block. */
  lemma NotBehind(blocks: seq<Block>, i: nat, x: nat)
    requires Ordered(blocks) && i < |blocks| && x < blocks[i].Base()
    ensures forall j :: i <= j < |blocks| ==> !In(blocks[j], x)
  {
    forall j | i <= j < |blocks|
      ensures !In(blocks[j], x)
    {
      InBounds(blocks[j], x);
    }
  }

  // The search, on blocks.

  /** The path of a binary search between l and r. */
  predicate Probe(blocks: seq<Block>, ip: nat, l: nat, r: nat)
    requires l <= r <= |blocks|
    decreases r - l
  {
    if l == r then
      l > 0 && In(blocks[l - 1], ip)
    else
      var x := (l + r) / 2;
      if ip < blocks[x].Base() then Probe(blocks, ip, l, x) else In(blocks[x], ip) || Probe(blocks, ip, x + 1, r)
  }

  predicate Search(blocks: seq<Block>, ip: nat) {
    |blocks| > 0 && blocks[0].Base() <= ip && Probe(blocks, ip, 0, |blocks|)
  }

  /** A hit of the search is a block that holds the address. */
  lemma {:induction false} ProbeHits(blocks: seq<Block>, ip: nat, l: nat, r: nat)
    requires l <= r <= |blocks| && Probe(blocks, ip, l, r)
    ensures Covered(blocks, ip)
    decreases r - l
  {
    if l < r {
      var x := (l + r) / 2;
      if ip < blocks[x].Base() {
        ProbeHits(blocks, ip, l, x);
      } else if !In(blocks[x], ip) {
        ProbeHits(blocks, ip, x + 1, r);
      }
    }
  }

  /** A search that misses leaves no block that could hold the address. */
  lemma {:induction false} ProbeMisses(blocks: seq<Block>, ip: nat, l: nat, r: nat)
    requires Ordered(blocks) && l <= r <= |blocks| && !Probe(blocks, ip, l, r)
    requires forall i :: 0 <= i < l || r <= i < |blocks| ==> !In(blocks[i], ip)
    ensures !Covered(blocks, ip)
    decreases r - l
  {
    if l < r {
      var x := (l + r) / 2;
      if ip < blocks[x].Base() {
        NotBehind(blocks, x, ip);
        ProbeMisses(blocks, ip, l, x);
      } else {
        NotBefore(blocks, x, ip);
        ProbeMisses(blocks, ip, x + 1, r);
      }
    }
  }

  lemma SearchFinds(blocks: seq<Block>, ip: nat)
    ensures Search(blocks, ip) ==> Covered(blocks, ip)
    ensures Ordered(blocks) ==> (Search(blocks, ip) <==> Covered(blocks, ip))
  {
    if Search(blocks, ip) {
      ProbeHits(blocks, ip, 0, |blocks|);
    } else if Ordered(blocks) && |blocks| > 0 {
      if ip < blocks[0].Base() {
        NotBehind(blocks, 0, ip);
      } else {
        ProbeMisses(blocks, ip, 0, |blocks|);
      }
    }
  }

  // When it is right.

  /** No block has an address between two bounds. */
  predicate Bare(blocks: seq<Block>, from: nat, to: nat) {
    forall i :: 0 <= i < |blocks| ==> blocks[i].End() <= from || to <= blocks[i].Base() || to <= from
  }

  /**
    Of the addresses between two bounds, the search between l and r loses none: those on the left of
    its probe go left, those in it are found, those behind it go right, and where it ends there must
    be nothing to find.
   */
  predicate LosesNone(blocks: seq<Block>, l: nat, r: nat, from: nat, to: nat)
    requires l <= r <= |blocks|
    decreases r - l
  {
    if l == r then
      Bare(blocks, from, to)
    else
      var x := (l + r) / 2;
      && LosesNone(blocks, l, x, from, Lower(to, blocks[x].Base()))
      && LosesNone(blocks, x + 1, r, Higher(from, blocks[x].End()), to)
  }

  function Lower(a: nat, b: nat): nat { if a < b then a else b }

  function Higher(a: nat, b: nat): nat { if a < b then b else a }

  ghost predicate Right(blocks: seq<Block>, l: nat, r: nat, from: nat, to: nat)
    requires l <= r <= |blocks|
  {
    forall ip: nat :: from <= ip < to ==> (Probe(blocks, ip, l, r) <==> Covered(blocks, ip))
  }

  lemma BareHolds(blocks: seq<Block>, from: nat, to: nat, ip: nat)
    requires Bare(blocks, from, to) && from <= ip < to
    ensures !Covered(blocks, ip)
  {
    forall i | 0 <= i < |blocks|
      ensures !In(blocks[i], ip)
    {
      InBounds(blocks[i], ip);
    }
  }

  lemma {:induction false} BareIsUncovered(blocks: seq<Block>, from: nat, to: nat)
    ensures Bare(blocks, from, to) <==> forall ip: nat :: from <= ip < to ==> !Covered(blocks, ip)
  {
    if Bare(blocks, from, to) {
      forall ip: nat | from <= ip < to
        ensures !Covered(blocks, ip)
      {
        BareHolds(blocks, from, to, ip);
      }
    } else {
      var i :| 0 <= i < |blocks| && !(blocks[i].End() <= from || to <= blocks[i].Base() || to <= from);
      var ip := Higher(from, blocks[i].Base());
      InBounds(blocks[i], ip);
      assert Covered(blocks, ip);
    }
  }

  /** The left half of a search is right exactly below its probe, the right half exactly behind it. */
  lemma {:induction false} RightHalves(blocks: seq<Block>, l: nat, r: nat, from: nat, to: nat)
    requires l < r <= |blocks|
    ensures var x := (l + r) / 2;
            Right(blocks, l, r, from, to) <==>
            && Right(blocks, l, x, from, Lower(to, blocks[x].Base()))
            && Right(blocks, x + 1, r, Higher(from, blocks[x].End()), to)
  {
    var x := (l + r) / 2;
    forall ip: nat
      ensures ip < blocks[x].Base() ==> (Probe(blocks, ip, l, r) <==> Probe(blocks, ip, l, x))
      ensures blocks[x].End() <= ip ==> (Probe(blocks, ip, l, r) <==> Probe(blocks, ip, x + 1, r))
      ensures blocks[x].Base() <= ip < blocks[x].End() ==> Probe(blocks, ip, l, r) && Covered(blocks, ip)
    {
      InBounds(blocks[x], ip);
    }
  }

  lemma {:induction false} ProbeIsRight(blocks: seq<Block>, l: nat, r: nat, from: nat, to: nat)
    requires l <= r <= |blocks| && (l > 0 ==> blocks[l - 1].End() <= from)
    ensures Right(blocks, l, r, from, to) <==> LosesNone(blocks, l, r, from, to)
    decreases r - l
  {
    if l == r {
      BareIsUncovered(blocks, from, to);
      forall ip: nat | from <= ip < to
        ensures !Probe(blocks, ip, l, r)
      {
        if l > 0 {
          InBounds(blocks[l - 1], ip);
        }
      }
    } else {
      var x := (l + r) / 2;
      RightHalves(blocks, l, r, from, to);
      ProbeIsRight(blocks, l, x, from, Lower(to, blocks[x].Base()));
      ProbeIsRight(blocks, x + 1, r, Higher(from, blocks[x].End()), to);
    }
  }

  /** Nothing below the first block, and nothing lost above. */
  predicate Searchable(blocks: seq<Block>, top: nat) {
    |blocks| > 0 ==>
      var first := blocks[0].Base();
      Bare(blocks, 0, Lower(first, top)) && LosesNone(blocks, 0, |blocks|, first, top)
  }

  /** However the blocks lie, the search is right for every address below `top` exactly if they are searchable. */
  lemma {:induction false} SearchIsExact(blocks: seq<Block>, top: nat)
    ensures (forall ip: nat :: ip < top ==> (Search(blocks, ip) <==> Covered(blocks, ip))) <==> Searchable(blocks, top)
  {
    if |blocks| > 0 {
      var first := blocks[0].Base();
      ProbeIsRight(blocks, 0, |blocks|, first, top);
      BareIsUncovered(blocks, 0, Lower(first, top));
      forall ip: nat
        ensures ip < first ==> !Search(blocks, ip)
        ensures first <= ip ==> (Search(blocks, ip) <==> Probe(blocks, ip, 0, |blocks|))
      {
      }
    }
  }

  /** The address a search over two blocks out of order gets wrong. */
  lemma {:induction false} PairMisses(a: Block, b: Block) returns (ip: nat)
    requires !Rises(a, b)
    ensures Covered([a, b], ip) && !Search([a, b], ip)
  {
    var blocks := [a, b];
    assert blocks[0] == a && blocks[1] == b;
    if b.Base() < a.Base() {
      ip := b.Base();
      InBounds(b, ip);
      assert In(blocks[1], ip);
    } else {
      ip := b.End();
      InBounds(a, ip);
      InBounds(b, ip);
      assert In(blocks[0], ip);
      assert !Probe(blocks, ip, 2, 2);
      assert !Probe(blocks, ip, 0, 2);
    }
  }

  /** Over two blocks the search is right for every address exactly if the second begins and ends no earlier. */
  lemma PairSearchIsExact(a: Block, b: Block)
    ensures (forall ip: nat :: Search([a, b], ip) <==> Covered([a, b], ip)) <==> Rises(a, b)
  {
    if Rises(a, b) {
      assert Ordered([a, b]);
      forall ip: nat
        ensures Search([a, b], ip) <==> Covered([a, b], ip)
      {
        SearchFinds([a, b], ip);
      }
    } else {
      var ip := PairMisses(a, b);
    }
  }

  /** The arrays of a matcher's IPv4 half hold these blocks. */
  predicate Indexed4(ip4: seq<nat>, prefix4: seq<byte>, blocks: seq<Block>) {
    && |ip4| == |prefix4| == |blocks|
    && forall i :: 0 <= i < |ip4| ==>
         prefix4[i] <= 32 && ip4[i] == blocks[i].Base() && 32 - prefix4[i] as int == blocks[i].host
  }

  /** An entry is hit by the addresses of its block. */
  lemma HitIsIn4(ip4: seq<nat>, prefix4: seq<byte>, blocks: seq<Block>, i: nat, ip: nat)
    requires Indexed4(ip4, prefix4, blocks) && i < |blocks|
    ensures Normalize4(ip, prefix4[i]) == ip4[i] <==> In(blocks[i], ip)
  {
  }

  lemma {:induction false} Probe4IsProbe(ip4: seq<nat>, prefix4: seq<byte>, blocks: seq<Block>, ip: nat, l: nat, r: nat)
    requires Indexed4(ip4, prefix4, blocks) && l <= r <= |ip4|
    ensures Probe4(ip4, prefix4, ip, l, r) == Probe(blocks, ip, l, r)
    decreases r - l
  {
    if l == r {
      if l > 0 {
        HitIsIn4(ip4, prefix4, blocks, l - 1, ip);
      }
    } else {
      var x := (l + r) / 2;
      HitIsIn4(ip4, prefix4, blocks, x, ip);
      Probe4IsProbe(ip4, prefix4, blocks, ip, l, x);
      Probe4IsProbe(ip4, prefix4, blocks, ip, x + 1, r);
    }
  }

  /** match4: the search over the blocks the arrays hold. */
  method Match4(ip4: seq<nat>, prefix4: seq<byte>, ip: nat, ghost blocks: seq<Block>) returns (found: bool)
    requires |ip4| == |prefix4|
    ensures found == Search4(ip4, prefix4, ip)
    ensures Indexed4(ip4, prefix4, blocks) ==> found == Search(blocks, ip)
  {
    if Indexed4(ip4, prefix4, blocks) {
      Probe4IsProbe(ip4, prefix4, blocks, ip, 0, |ip4|);
    }
    if |ip4| == 0 {
      return false;
    }
    if ip < ip4[0] {
      return false;
    }
    var l, r := 0, |ip4|;
    while l < r
      invariant 0 <= l <= r <= |ip4|
      invariant Search4(ip4, prefix4, ip) == Probe4(ip4, prefix4, ip, l, r)
    {
      var x := (l + r) / 2;
      if ip < ip4[x] {
        r := x;
        continue;
      }
      if Normalize4(ip, prefix4[x]) == ip4[x] {
        return true;
      }
      l := x + 1;
    }
    found := l > 0 && Normalize4(ip, prefix4[l - 1]) == ip4[l - 1];
  }

  /** The arrays of a matcher's IPv6 half hold these blocks. */
  predicate Indexed6(ip6: seq<IPv6>, prefix6: seq<byte>, blocks: seq<Block>) {
    && |ip6| == |prefix6| == |blocks|
    && forall i :: 0 <= i < |ip6| ==> Entry6(ip6[i], prefix6[i], blocks[i])
  }

  predicate Entry6(base: IPv6, prefix: byte, b: Block) {
    prefix <= 128 && base.Valid() && base.Number() == b.Base() && 128 - prefix as int == b.host
  }

  lemma {:induction false} HitIsIn(b: Block, base: IPv6, prefix: byte, ip: IPv6)
    requires ip.Valid() && Entry6(base, prefix, b)
    ensures Normalize6(ip, prefix) == base <==> In(b, ip.Number())
  {
    Normalize6Masks(ip, prefix);
    WordsAreNumbers(Normalize6(ip, prefix), base);
  }

  /** match6: the same search on word pairs. */
  method Match6(ip6: seq<IPv6>, prefix6: seq<byte>, ip: IPv6, ghost blocks: seq<Block>) returns (found: bool)
    requires |ip6| == |prefix6| && ip.Valid()
    ensures Indexed6(ip6, prefix6, blocks) ==> found == Search(blocks, ip.Number())
  {
    if |ip6| == 0 {
      return false;
    }
    ghost var indexed := Indexed6(ip6, prefix6, blocks);
    if indexed {
      WordsAreNumbers(ip, ip6[0]);
    }
    if Less6(ip, ip6[0]) {
      return false;
    }
    var l, r := 0, |ip6|;
    while l < r
      invariant 0 <= l <= r <= |ip6|
      invariant indexed ==> Search(blocks, ip.Number()) == Probe(blocks, ip.Number(), l, r)
    {
      var x := (l + r) / 2;
      if indexed {
        WordsAreNumbers(ip, ip6[x]);
        HitIsIn(blocks[x], ip6[x], prefix6[x], ip);
      }
      if Less6(ip, ip6[x]) {
        r := x;
        continue;
      }
      if Normalize6(ip, prefix6[x]) == ip6[x] {
        return true;
      }
      l := x + 1;
    }
    if indexed && l > 0 {
      HitIsIn(blocks[l - 1], ip6[l - 1], prefix6[l - 1], ip);
    }
    found := l > 0 && Normalize6(ip, prefix6[l - 1]) == ip6[l - 1];
  }

  // ----- building

  /** The blocks of the CIDRs with addresses of `length` bytes, in list order. */
  function Blocks(cs: seq<CIDR>, length: nat): seq<Block>
    requires forall i :: 0 <= i < |cs| ==> ValidPrefix(cs[i])
  {
    if cs == [] then []
    else
      var c := cs[|cs| - 1];
      Blocks(cs[..|cs| - 1], length) + if |c.ip| == length then [BlockOf(c)] else []
  }

  predicate AllValid(cs: seq<CIDR>) {
    forall i :: 0 <= i < |cs| ==> ValidPrefix(cs[i])
  }

  lemma BlocksAppend(cs: seq<CIDR>, c: CIDR, length: nat)
    requires AllValid(cs) && ValidPrefix(c)
    ensures AllValid(cs + [c])
    ensures Blocks(cs + [c], length) == Blocks(cs, length) + if |c.ip| == length then [BlockOf(c)] else []
  {
    assert (cs + [c])[..|cs|] == cs;
  }

  /** Every block comes from a CIDR of the list. */
  lemma {:induction false} BlockSource(cs: seq<CIDR>, length: nat, i: nat) returns (k: nat)
    requires AllValid(cs) && i < |Blocks(cs, length)|
    ensures k < |cs| && |cs[k].ip| == length && BlockOf(cs[k]) == Blocks(cs, length)[i]
  {
    var init, last := cs[..|cs| - 1], cs[|cs| - 1];
    if i < |Blocks(init, length)| {
      k := BlockSource(init, length, i);
    } else {
      k := |cs| - 1;
    }
  }

  /** Every CIDR of that length has its block. */
  lemma {:induction false} BlockTarget(cs: seq<CIDR>, length: nat, k: nat) returns (i: nat)
    requires AllValid(cs) && k < |cs| && |cs[k].ip| == length
    ensures i < |Blocks(cs, length)| && Blocks(cs, length)[i] == BlockOf(cs[k])
  {
    var init := cs[..|cs| - 1];
    if k < |init| {
      i := BlockTarget(init, length, k);
    } else {
      i := |Blocks(init, length)|;
    }
  }

  ghost predicate SomeContains(cs: seq<CIDR>, ip: seq<byte>)
    requires AllValid(cs)
  {
    exists k :: 0 <= k < |cs| && Contains(cs[k], ip)
  }

  lemma CoveredMeansContained(cs: seq<CIDR>, ip: seq<byte>)
    requires AllValid(cs)
    ensures Covered(Blocks(cs, |ip|), BigEndian(ip)) <==> SomeContains(cs, ip)
  {
    if Covered(Blocks(cs, |ip|), BigEndian(ip)) {
      var i :| 0 <= i < |Blocks(cs, |ip|)| && In(Blocks(cs, |ip|)[i], BigEndian(ip));
      var k := BlockSource(cs, |ip|, i);
      assert Contains(cs[k], ip);
    }
    if SomeContains(cs, ip) {
      var k :| 0 <= k < |cs| && Contains(cs[k], ip);
      var i := BlockTarget(cs, |ip|, k);
      assert In(Blocks(cs, |ip|)[i], BigEndian(ip));
    }
  }

  /** No two blocks of one address family overlap without being the same. */
  ghost predicate PairwiseApart(cs: seq<CIDR>)
    requires AllValid(cs)
  {
    forall i, j :: 0 <= i < j < |cs| && |cs[i].ip| == |cs[j].ip| ==> Apart(BlockOf(cs[i]), BlockOf(cs[j]))
  }

  /** In the order of the sort, blocks of one address family begin and end no earlier than those before. */
  ghost predicate Stepped(cs: seq<CIDR>)
    requires AllValid(cs)
  {
    forall i, j :: 0 <= i < |cs| && 0 <= j < |cs| && |cs[i].ip| == |cs[j].ip| && !Less(cs[j], cs[i]) ==>
      Rises(BlockOf(cs[i]), BlockOf(cs[j]))
  }

  /** Blocks that hold no common address lie in the order of any two of their addresses. */
  lemma ApartMeansRises(b: Block, c: Block)
    requires Apart(b, c) && b.addr <= c.addr
    ensures Rises(b, c)
  {
    InBounds(b, b.addr);
    InBounds(c, c.addr);
    InBounds(c, b.addr);
    InBounds(b, c.Base());
    InBounds(c, c.Base());
  }

  /** Disjoint CIDRs are stepped. */
  lemma ApartIsStepped(cs: seq<CIDR>)
    requires AllValid(cs) && PairwiseApart(cs)
    ensures Stepped(cs)
  {
    forall i, j | 0 <= i < |cs| && 0 <= j < |cs| && |cs[i].ip| == |cs[j].ip| && !Less(cs[j], cs[i])
      ensures Rises(BlockOf(cs[i]), BlockOf(cs[j]))
    {
      LessIsNumeric(cs[j], cs[i]);
      if i != j {
        ApartSymmetric(BlockOf(cs[i]), BlockOf(cs[j]));
        ApartMeansRises(BlockOf(cs[i]), BlockOf(cs[j]));
      }
    }
  }

  /** Sorting before normalising is enough: the blocks of a stepped list come out in order. */
  lemma {:induction false} SortedMeansOrdered(cs: seq<CIDR>, length: nat)
    requires AllValid(cs) && Sorted(cs) && Stepped(cs)
    ensures Ordered(Blocks(cs, length))
  {
    if cs != [] {
      var init, last := cs[..|cs| - 1], cs[|cs| - 1];
      SortedMeansOrdered(init, length);
      var blocks, before := Blocks(cs, length), Blocks(init, length);
      forall i, j | 0 <= i < j < |blocks|
        ensures Rises(blocks[i], blocks[j])
      {
        if j < |before| {
          assert blocks[i] == before[i] && blocks[j] == before[j];
        } else {
          var k := BlockSource(init, length, i);
          assert cs[k] == init[k] && !Less(last, cs[k]);
        }
      }
    }
  }

  /** A permutation of a list has the same pairs. */
  lemma PermutedValid(a: seq<CIDR>, b: seq<CIDR>)
    requires multiset(a) == multiset(b) && AllValid(a)
    ensures AllValid(b)
  {
    SameMembers(a, b);
    forall i | 0 <= i < |b|
      ensures ValidPrefix(b[i])
    {
      assert b[i] in a;
    }
  }

  lemma PermutedContains(a: seq<CIDR>, b: seq<CIDR>, ip: seq<byte>)
    requires multiset(a) == multiset(b) && AllValid(a) && AllValid(b)
    ensures SomeContains(a, ip) <==> SomeContains(b, ip)
  {
    SameMembers(a, b);
    if SomeContains(a, ip) {
      var k :| 0 <= k < |a| && Contains(a[k], ip);
      assert a[k] in b;
    }
    if SomeContains(b, ip) {
      var k :| 0 <= k < |b| && Contains(b[k], ip);
      assert b[k] in a;
    }
  }

  lemma ApartSymmetric(b: Block, c: Block)
    ensures Apart(b, c) <==> Apart(c, b)
  {
  }

  lemma {:induction false} PermutedStepped(a: seq<CIDR>, b: seq<CIDR>)
    requires multiset(a) == multiset(b) && AllValid(a) && AllValid(b) && Stepped(a)
    ensures Stepped(b)
  {
    SameMembers(a, b);
    forall i, j | 0 <= i < |b| && 0 <= j < |b| && |b[i].ip| == |b[j].ip| && !Less(b[j], b[i])
      ensures Rises(BlockOf(b[i]), BlockOf(b[j]))
    {
      assert b[i] in a && b[j] in a;
      var k :| 0 <= k < |a| && a[k] == b[i];
      var l :| 0 <= l < |a| && a[l] == b[j];
    }
  }

  lemma AllValidParts(cs: seq<CIDR>, c: CIDR)
    requires AllValid(cs + [c])
    ensures AllValid(cs) && ValidPrefix(c)
  {
    assert (cs + [c])[|cs|] == c;
    forall i | 0 <= i < |cs|
      ensures ValidPrefix(cs[i])
    {
      assert (cs + [c])[i] == cs[i];
    }
  }

  lemma Index4Grows(ip4: seq<nat>, prefix4: seq<byte>, blocks: seq<Block>, c: CIDR)
    requires Indexed4(ip4, prefix4, blocks) && ValidPrefix(c) && |c.ip| == 4
    ensures var prefix := c.prefix % 0x100;
            Indexed4(ip4 + [Normalize4(BigEndian(c.ip), prefix)], prefix4 + [prefix], blocks + [BlockOf(c)])
  {
  }

  lemma Index6Grows(ip6: seq<IPv6>, prefix6: seq<byte>, blocks: seq<Block>, c: CIDR)
    requires Indexed6(ip6, prefix6, blocks) && ValidPrefix(c) && |c.ip| == 16
    ensures var prefix := c.prefix % 0x100;
            Indexed6(ip6 + [Normalize6(Words(c.ip), prefix)], prefix6 + [prefix], blocks + [BlockOf(c)])
  {
    Entry6Of(c, c.prefix % 0x100);
  }

  lemma {:induction false} Entry6Of(c: CIDR, prefix: byte)
    requires ValidPrefix(c) && |c.ip| == 16 && prefix as int == c.prefix
    ensures Entry6(Normalize6(Words(c.ip), prefix), prefix, BlockOf(c))
  {
    WordsOfBytes(c.ip);
    Normalize6Masks(Words(c.ip), prefix);
  }

  /** What the search says about a sorted list of CIDRs. */
  lemma SetFinds(cs: seq<CIDR>, ip: seq<byte>)
    requires AllValid(cs) && Sorted(cs)
    ensures var blocks, x := Blocks(cs, |ip|), BigEndian(ip);
            && (Search(blocks, x) ==> SomeContains(cs, ip))
            && (Stepped(cs) || Searchable(blocks, Pow256(|ip|)) ==> (Search(blocks, x) <==> SomeContains(cs, ip)))
  {
    var blocks := Blocks(cs, |ip|);
    CoveredMeansContained(cs, ip);
    SearchFinds(blocks, BigEndian(ip));
    BigEndianBound(ip);
    SearchIsExact(blocks, Pow256(|ip|));
    if Stepped(cs) {
      SortedMeansOrdered(cs, |ip|);
    }
  }

  // ----- the matcher

  class GeoIPMatcher {
    const countryCode: string
    var ip4: seq<nat>
    var prefix4: seq<byte>
    var ip6: seq<IPv6>
    var prefix6: seq<byte>
    // The CIDRs the arrays were built from, in their sorted order.
    ghost var order: seq<CIDR>

    constructor (countryCode: string)
      ensures this.countryCode == countryCode && Valid() && order == []
    {
      this.countryCode := countryCode;
      ip4, prefix4, ip6, prefix6, order := [], [], [], [], [];
    }

    ghost predicate Valid()
      reads this
    {
      && |ip4| == |prefix4| && |ip6| == |prefix6| && Sorted(order)
      && (AllValid(order) ==> Indexed4(ip4, prefix4, Blocks(order, 4)) && Indexed6(ip6, prefix6, Blocks(order, 16)))
    }

    /** Appends one CIDR of the sorted list to the arrays. */
    method Append(c: CIDR)
      requires Valid() && HasLength(c) && Sorted(order + [c])
      modifies this
      ensures Valid() && order == old(order) + [c]
    {
      var prefix: byte := c.prefix % 0x100;
      if AllValid(order + [c]) {
        AllValidParts(order, c);
        BlocksAppend(order, c, 4);
        BlocksAppend(order, c, 16);
        if |c.ip| == 4 {
          Index4Grows(ip4, prefix4, Blocks(order, 4), c);
        } else {
          Index6Grows(ip6, prefix6, Blocks(order, 16), c);
        }
      }
      if |c.ip| == 4 {
        ip4, prefix4 := ip4 + [Normalize4(BigEndian(c.ip), prefix)], prefix4 + [prefix];
      } else {
        ip6, prefix6 := ip6 + [Normalize6(Words(c.ip), prefix)], prefix6 + [prefix];
      }
      order := order + [c];
    }

    /** Init sorts first and normalises afterwards. */
    method Init(cidrs: seq<CIDR>) returns (ok: bool)
      modifies this
      ensures ok <==> AllHaveLength(cidrs)
      ensures ok ==> Valid() && multiset(order) == multiset(cidrs)
      ensures !ok ==> unchanged(this)
    {
      var i := 0;
      while i < |cidrs|
        invariant 0 <= i <= |cidrs| && forall k :: 0 <= k < i ==> HasLength(cidrs[k])
        invariant unchanged(this)
      {
        if |cidrs[i].ip| != 4 && |cidrs[i].ip| != 16 {
          return false;
        }
        i := i + 1;
      }
      var sorted := Sort(cidrs);
      SameMembers(sorted, cidrs);
      ip4, prefix4, ip6, prefix6, order := [], [], [], [], [];
      i := 0;
      while i < |sorted|
        invariant 0 <= i <= |sorted| && Valid() && order == sorted[..i]
      {
        assert sorted[i] in cidrs;
        assert sorted[..i + 1] == sorted[..i] + [sorted[i]];
        Append(sorted[i]);
        i := i + 1;
      }
      assert sorted[..i] == sorted;
      ok := true;
    }

    /**
      A hit is right in any case. Match agrees with asking every CIDR in turn on all addresses of a
      family exactly if its blocks are searchable, as they are when the list is stepped.
     */
    method Match(ip: seq<byte>) returns (found: bool)
      requires Valid()
      ensures AllValid(order) && (|ip| == 4 || |ip| == 16) ==> found == Search(Blocks(order, |ip|), BigEndian(ip))
      ensures AllValid(order) && found ==> SomeContains(order, ip)
      ensures AllValid(order) && Searchable(Blocks(order, |ip|), Pow256(|ip|)) ==> (found <==> SomeContains(order, ip))
      ensures AllValid(order) && Stepped(order) ==> (found <==> SomeContains(order, ip))
    {
      if AllValid(order) {
        SetFinds(order, ip);
      }
      if |ip| == 4 {
        found := Match4(ip4, prefix4, BigEndian(ip), if AllValid(order) then Blocks(order, 4) else []);
      } else if |ip| == 16 {
        WordsOfBytes(ip);
        found := Match6(ip6, prefix6, Words(ip), if AllValid(order) then Blocks(order, 16) else []);
      } else {
        found := false;
      }
    }
  }

  predicate AllHaveLength(cidrs: seq<CIDR>) {
    forall i :: 0 <= i < |cidrs| ==> HasLength(cidrs[i])
  }

  /** A new matcher for a list of CIDRs. */
  method Compile(countryCode: string, cidrs: seq<CIDR>) returns (m: GeoIPMatcher?)
    ensures m == null <==> !AllHaveLength(cidrs)
    ensures m != null ==> fresh(m) && m.Valid() && m.countryCode == countryCode && multiset(m.order) == multiset(cidrs)
  {
    var built := new GeoIPMatcher(countryCode);
    var ok := built.Init(cidrs);
    m := if ok then built else null;
  }

  /** What a set of CIDRs stands for once its country code is registered: the contents that came first. */
  function Effective(registry: map<string, seq<CIDR>>, countryCode: string, cidrs: seq<CIDR>): seq<CIDR> {
    if countryCode != "" && countryCode in registry then registry[countryCode] else cidrs
  }

  /** A code that is known needs no CIDRs. */
  predicate Usable(registry: map<string, seq<CIDR>>, countryCode: string, cidrs: seq<CIDR>) {
    (countryCode != "" && countryCode in registry) || AllHaveLength(cidrs)
  }

  function Extended(registry: map<string, seq<CIDR>>, countryCode: string, cidrs: seq<CIDR>): map<string, seq<CIDR>> {
    if countryCode == "" || countryCode in registry then registry else registry[countryCode := cidrs]
  }

  /** Every code has a matcher. */
  ghost predicate Coded(matchers: seq<GeoIPMatcher>, registry: map<string, seq<CIDR>>) {
    forall code :: code in registry ==> exists i :: 0 <= i < |matchers| && matchers[i].countryCode == code
  }

  lemma CodedMore(matchers: seq<GeoIPMatcher>, registry: map<string, seq<CIDR>>, m: GeoIPMatcher, cidrs: seq<CIDR>)
    requires Coded(matchers, registry)
    ensures Coded(matchers + [m], registry[m.countryCode := cidrs])
  {
    var more, extended := matchers + [m], registry[m.countryCode := cidrs];
    forall code | code in extended
      ensures exists i :: 0 <= i < |more| && more[i].countryCode == code
    {
      if code == m.countryCode {
        assert more[|matchers|].countryCode == code;
      } else {
        var i :| 0 <= i < |matchers| && matchers[i].countryCode == code;
        assert more[i].countryCode == code;
      }
    }
  }

  /** Matchers are shared by country code; an empty code is never shared. */
  class GeoIPMatcherContainer {
    var matchers: seq<GeoIPMatcher>
    // The contents every code was registered with.
    ghost var registry: map<string, seq<CIDR>>

    constructor ()
      ensures Valid() && matchers == [] && registry == map[]
    {
      matchers, registry := [], map[];
    }

    ghost predicate Valid()
      reads this, matchers
    {
      && (forall i :: 0 <= i < |matchers| ==> Registered(matchers[i]))
      && (forall code :: code in registry ==> exists i :: 0 <= i < |matchers| && matchers[i].countryCode == code)
    }

    ghost predicate Registered(m: GeoIPMatcher)
      reads this, m
    {
      m.Valid() && m.countryCode in registry && multiset(m.order) == multiset(registry[m.countryCode])
    }

    /** Add returns the matcher that already has the code, or builds one; null is Init's error. */
    method Add(countryCode: string, cidrs: seq<CIDR>) returns (m: GeoIPMatcher?)
      requires Valid()
      modifies this
      ensures Valid() && (m == null <==> !Usable(old(registry), countryCode, cidrs))
      ensures m != null ==> m.Valid() && multiset(m.order) == multiset(Effective(registry, countryCode, cidrs))
      ensures m != null ==> m in old(matchers) || fresh(m)
      ensures registry == if m == null then old(registry) else Extended(old(registry), countryCode, cidrs)
      ensures old(matchers) <= matchers
    {
      if countryCode != "" {
        m := Find(countryCode);
        if m != null {
          return;
        }
      }
      m := AddNew(countryCode, cidrs);
    }

    method AddNew(countryCode: string, cidrs: seq<CIDR>) returns (m: GeoIPMatcher?)
      requires Valid() && (countryCode == "" || countryCode !in registry)
      modifies this
      ensures Valid() && (m == null <==> !AllHaveLength(cidrs))
      ensures m != null ==> fresh(m) && m.Valid() && multiset(m.order) == multiset(cidrs)
      ensures registry == if m == null then old(registry) else Extended(old(registry), countryCode, cidrs)
      ensures old(matchers) <= matchers
    {
      m := Compile(countryCode, cidrs);
      if m != null && countryCode != "" {
        Register(m, cidrs);
      }
    }

    method Find(countryCode: string) returns (m: GeoIPMatcher?)
      requires Valid()
      ensures m == null <==> countryCode !in registry
      ensures m != null ==> m in matchers && m.countryCode == countryCode && Registered(m)
    {
      var i := 0;
      while i < |matchers|
        invariant 0 <= i <= |matchers| && forall k :: 0 <= k < i ==> matchers[k].countryCode != countryCode
      {
        if matchers[i].countryCode == countryCode {
          assert Registered(matchers[i]);
          return matchers[i];
        }
        i := i + 1;
      }
      m := null;
    }

    method Register(m: GeoIPMatcher, ghost cidrs: seq<CIDR>)
      requires Valid() && m.Valid() && m.countryCode !in registry && multiset(m.order) == multiset(cidrs)
      modifies this
      ensures Valid() && matchers == old(matchers) + [m] && registry == old(registry)[m.countryCode := cidrs]
    {
      matchers, registry := matchers + [m], registry[m.countryCode := cidrs];
      forall i | 0 <= i < |matchers|
        ensures Registered(matchers[i])
      {
        assert i < |old(matchers)| ==> old(Registered(matchers[i]));
      }
      CodedMore(old(matchers), old(registry), m, cidrs);
    }
  }
}
