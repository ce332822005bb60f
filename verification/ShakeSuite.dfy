/**
  Sizes and padding lengths from one stream of draws (proxy/vmess/encoding/auth.go,
  ShakeSizeParser, which VMess gives to both ends as size codec and as padding generator).
 */
module ShakeSuite {
  import opened Bytes
  import opened Masks
  import opened MultiBuffers
  import opened BufferedIO
  import opened AuthStream
  import opened AuthWalk
  import opened AuthWriter
  import opened AuthTune
  import opened AuthRoundTrip

  /** Exclusive or, bit by bit. */
  function XorBits(a: nat, b: nat, bits: nat): (r: nat)
    ensures r < Pow2(bits)
  {
    if bits == 0 then 0 else 2 * XorBits(a / 2, b / 2, bits - 1) + (a + b) % 2
  }

  lemma XorStep(a: nat, b: nat, bits: nat)
    requires bits > 0
    ensures XorBits(a, b, bits) / 2 == XorBits(a / 2, b / 2, bits - 1) && XorBits(a, b, bits) % 2 == (a + b) % 2
  {
  }

  lemma OneBit(a: nat, x: nat, b: nat, n: nat)
    requires x % 2 == (b + n) % 2
    ensures (a + x) % 2 == n % 2 <==> a % 2 == b % 2
  {
  }

  lemma SameNumber(a: nat, b: nat)
    ensures a == b <==> a / 2 == b / 2 && a % 2 == b % 2
  {
  }

  lemma {:induction false} XorBitsUndone(a: nat, b: nat, n: nat, bits: nat)
    requires a < Pow2(bits) && b < Pow2(bits) && n < Pow2(bits)
    ensures XorBits(a, XorBits(b, n, bits), bits) == n <==> a == b
  {
    if bits > 0 {
      var x := XorBits(b, n, bits);
      XorStep(b, n, bits);
      XorStep(a, x, bits);
      OneBit(a, x, b, n);
      SameNumber(a, b);
      SameNumber(XorBits(a, x, bits), n);
      XorBitsUndone(a / 2, b / 2, n / 2, bits - 1);
    }
  }

  lemma Pow2Of16()
    ensures Pow2(16) == 0x1_0000
  {
    assert Pow2(8) == 0x100;
    Pow2Sum(8, 8);
  }

  function Xor(a: uint16, b: uint16): uint16 {
    Pow2Of16();
    XorBits(a, b, 16)
  }

  /** What one mask hides another uncovers exactly if it is the same. */
  lemma XorUndone(a: uint16, b: uint16, n: uint16)
    ensures Xor(a, Xor(b, n)) == n <==> a == b
  {
    Pow2Of16();
    XorBitsUndone(a, b, n, 16);
  }

  /** The AEAD of `base` with sizes masked and padding lengths drawn from `draw`. */
  function Shake(base: Suite, draw: nat -> uint16): Suite {
    base.(
      sizeBytes := 2,
      maxPadding := 64,
      source := SizeDraws,
      encodeSize := (k: nat, n: uint16) => PutUint16(Xor(draw(k), n)),
      decodeSize := (k: nat, b: seq<byte>) => if |b| < 2 then None else Some(Xor(draw(k), GetUint16(b))),
      padding := (k: nat) => draw(k) % 64)
  }

  lemma ShakeIsIdeal(base: Suite, draw: nat -> uint16)
    requires Ideal(base) && base.overhead + 66 < BUFFER_SIZE
    ensures Ideal(Shake(base, draw))
  {
    var s := Shake(base, draw);
    forall k: nat, n: uint16
      ensures |s.encodeSize(k, n)| == s.sizeBytes && s.decodeSize(k, s.encodeSize(k, n)) == Some(n)
    {
      XorUndone(draw(k), draw(k), n);
    }
    forall k: nat, p: seq<byte>
      ensures |s.seal(k, p)| == |p| + s.overhead && s.open(k, s.seal(k, p)) == Some(p)
    {
      assert s.seal(k, p) == base.seal(k, p);
    }
  }

  /** A size hidden with one draw and uncovered with another. */
  lemma MaskedTwice(base: Suite, draw: nat -> uint16, i: nat, j: nat, n: uint16)
    ensures Shake(base, draw).decodeSize(i, Shake(base, draw).encodeSize(j, n)) ==
            Some(Xor(draw(i), Xor(draw(j), n)))
  {
  }

  /** A chunk takes two draws. */
  lemma {:induction false} TwoDraws(base: Suite, draw: nat -> uint16, k: nat)
    ensures GenAt(Shake(base, draw), k) == Gen(2 * k, 0)
  {
    if k > 0 {
      TwoDraws(base, draw, k - 1);
    }
  }

  /**
    A text of n bytes sealed with draws m and m + 1 and read with the draws of chunk k: the masks
    are the same, and so are the padding lengths (or the reader's is so much longer that its cut
    falls right all the same).
   */
  predicate SameDraws(overhead: nat, draw: nat -> uint16, k: nat, m: nat, n: nat) {
    && draw(2 * k + 1) == draw(m + 1)
    && (|| draw(2 * k) % 64 == draw(m) % 64
        || (draw(m) % 64 > 0 && draw(2 * k) % 64 == n + overhead + 2 * (draw(m) % 64)))
  }

  /** The texts from draw m on, read from chunk k on; every refusal moves the writer one draw ahead. */
  predicate InTune(overhead: nat, draw: nat -> uint16, ps: seq<seq<byte>>, k: nat, m: nat)
    requires overhead + 66 < BUFFER_SIZE
    decreases ps
  {
    if ps == [] then
      Xor(draw(2 * k + 1), Xor(draw(m + 1), overhead + draw(m) % 64)) == overhead + draw(2 * k) % 64
    else if ps[0] == [] then InTune(overhead, draw, ps[1..], k, m)
    else if 2 + |ps[0]| + overhead + draw(m) % 64 > BUFFER_SIZE then InTune(overhead, draw, ps[1..], k, m + 1)
    else SameDraws(overhead, draw, k, m, |ps[0]|) && InTune(overhead, draw, ps[1..], k + 1, m + 2)
  }

  /** The draws behind a chunk that is sealed with draws m and m + 1 and read as chunk k. */
  lemma ShakeDraws(base: Suite, draw: nat -> uint16, k: nat, m: nat)
    ensures var s := Shake(base, draw);
            && PadLen(s, Gen(m, 0)) == draw(m) % 64 && Drawn(s, Gen(m, 0)).codec == m + 1
            && Expected(s, k) == draw(2 * k) % 64 && Drawn(s, GenAt(s, k)).codec == 2 * k + 1
  {
    TwoDraws(base, draw, k);
  }

  lemma ShakeSuits(base: Suite, draw: nat -> uint16, k: nat, m: nat, n: nat)
    requires 2 + n + base.overhead + draw(m) % 64 <= BUFFER_SIZE
    ensures Suits(Shake(base, draw), k, Gen(m, 0), n) <==> SameDraws(base.overhead, draw, k, m, n)
  {
    ShakeDraws(base, draw, k, m);
    MaskedTwice(base, draw, 2 * k + 1, m + 1, n + base.overhead + draw(m) % 64);
    XorUndone(draw(2 * k + 1), draw(m + 1), n + base.overhead + draw(m) % 64);
  }

  lemma SmallEnd(s: Suite, padding: uint16)
    requires s.overhead + padding as int < 0x1_0000
    ensures EndSize(s, padding) == s.overhead + padding as int
  {
  }

  lemma ShakeEndSuits(base: Suite, draw: nat -> uint16, k: nat, m: nat)
    requires base.overhead + 66 < BUFFER_SIZE
    ensures EndSuits(Shake(base, draw), k, Gen(m, 0)) <==> InTune(base.overhead, draw, [], k, m)
  {
    ShakeDraws(base, draw, k, m);
    SmallEnd(Shake(base, draw), draw(2 * k) % 64);
    MaskedTwice(base, draw, 2 * k + 1, m + 1, base.overhead + draw(m) % 64);
  }

  lemma ShakeMoves(base: Suite, draw: nat -> uint16, m: nat, b: seq<byte>)
    ensures var s := Shake(base, draw);
            && (TooLarge(s, Gen(m, 0), b) <==> 2 + |b| + base.overhead + draw(m) % 64 > BUFFER_SIZE)
            && Drawn(s, Gen(m, 0)) == Gen(m + 1, 0) && Next(s, Gen(m, 0)) == Gen(m + 2, 0)
  {
  }

  /** Which packets survive refusals, as a condition on the draws alone. */
  lemma {:induction false} ShakeTuned(base: Suite, draw: nat -> uint16, ps: seq<seq<byte>>, k: nat, m: nat)
    requires Ideal(Shake(base, draw))
    ensures Tuned(Shake(base, draw), ps, k, Gen(m, 0)) <==> InTune(base.overhead, draw, ps, k, m)
    decreases ps
  {
    var s := Shake(base, draw);
    if ps == [] {
      ShakeEndSuits(base, draw, k, m);
    } else {
      ShakeMoves(base, draw, m, ps[0]);
      if ps[0] == [] {
        ShakeTuned(base, draw, ps[1..], k, m);
      } else if TooLarge(s, Gen(m, 0), ps[0]) {
        ShakeTuned(base, draw, ps[1..], k, m + 1);
      } else {
        ShakeSuits(base, draw, k, m, |ps[0]|);
        ShakeTuned(base, draw, ps[1..], k + 1, m + 2);
      }
    }
  }

  /** Packets over such a stream arrive exactly if the draws are in tune. */
  method ShakeRoundTrip(base: Suite, draw: nat -> uint16, noise: Noise, writes: seq<MultiBuffer>,
                        cut: seq<byte> -> seq<MultiBuffer>)
    returns (err: ReadError, received: MultiBuffer, ghost end: Reading)
    requires Ideal(base) && base.overhead + 66 < BUFFER_SIZE && forall k: nat, n: nat :: |noise(k, n)| == n
    requires forall i :: 0 <= i < |writes| ==> !IsEmpty(writes[i])
    requires forall b :: Delivery(cut(b)) == b
    ensures Ideal(Shake(base, draw))
    ensures var s, ps := Shake(base, draw), Texts(Flatten(writes));
            InTune(base.overhead, draw, ps, 0, 0) ==> err == Eof && Texts(received) == Accepted(s, ps, Gen(0, 0))
    ensures var s, ps := Shake(base, draw), Texts(Flatten(writes));
            InTune(base.overhead, draw, ps, 0, 0) ==> Delivered(s, noise, ps, err, Texts(received), end)
    ensures var s, ps := Shake(base, draw), Texts(Flatten(writes));
            Unforged(s, noise, ps) ==>
              (Delivered(s, noise, ps, err, Texts(received), end) <==> InTune(base.overhead, draw, ps, 0, 0))
  {
    ShakeIsIdeal(base, draw);
    ShakeTuned(base, draw, Texts(Flatten(writes)), 0, 0);
    err, received, end := PacketRoundTrip(Shake(base, draw), noise, writes, cut);
  }

  // ----- equal padding lengths are not enough

  lemma {:induction false} XorZeros(bits: nat)
    ensures XorBits(0, 0, bits) == 0
  {
    if bits > 0 {
      XorZeros(bits - 1);
    }
  }

  lemma Mask128()
    ensures Xor(128, 22) == 150
  {
    XorZeros(8);
    assert XorBits(1, 0, 9) == 1;
    assert XorBits(2, 0, 10) == 2;
    assert XorBits(4, 0, 11) == 4;
    assert XorBits(8, 1, 12) == 9;
    assert XorBits(16, 2, 13) == 18;
    assert XorBits(32, 5, 14) == 37;
    assert XorBits(64, 11, 15) == 75;
  }

  lemma Mask5()
    ensures Xor(5, 150) == 147
  {
    XorZeros(8);
    assert XorBits(0, 1, 9) == 1;
    assert XorBits(0, 2, 10) == 2;
    assert XorBits(0, 4, 11) == 4;
    assert XorBits(0, 9, 12) == 9;
    assert XorBits(0, 18, 13) == 18;
    assert XorBits(1, 37, 14) == 36;
    assert XorBits(2, 75, 15) == 73;
  }

  /** A refusal takes draw 0, so the chunk behind it is padded by draw 1 and masked by draw 2. */
  ghost predicate Unlucky(base: Suite, draw: nat -> uint16) {
    Ideal(base) && base.overhead == 16 && draw(0) == 5 && draw(1) == 5 && draw(2) == 128
  }

  /** The reader expects the padding that is there, but unmasks the size 22 to 147. */
  lemma UnluckySize(base: Suite, draw: nat -> uint16, noise: Noise, b: seq<byte>)
    requires Unlucky(base, draw) && |b| == 1
    ensures var s := Shake(base, draw);
            && !TooLarge(s, Gen(1, 0), b)
            && Decoded(s, 0, SealChunk(s, noise, 0, Gen(1, 0), b)) == Some(147) && Expected(s, 0) == 5
            && PadLen(s, Gen(1, 0)) == 5
  {
    Mask128();
    Mask5();
    MaskedTwice(base, draw, 1, 2, 22);
  }

  lemma UnluckyStream(base: Suite, draw: nat -> uint16, noise: Noise, big: seq<byte>, b: seq<byte>)
    requires Unlucky(base, draw) && Padded(Shake(base, draw), noise) && |big| == BUFFER_SIZE && |b| == 1
    ensures var s := Shake(base, draw);
            && !TooLarge(s, Gen(1, 0), b)
            && Chunks(s, noise, [big, b], 0, Gen(0, 0)) == [SealChunk(s, noise, 0, Gen(1, 0), b)]
            && |TailOf(s, noise, [big, b])| <= 79
  {
    var s := Shake(base, draw);
    UnluckySize(base, draw, noise, b);
    assert TooLarge(s, Gen(0, 0), big) && Drawn(s, Gen(0, 0)) == Gen(1, 0);
    assert [big, b][1..] == [b] && [b][1..] == [];
    assert Chunks(s, noise, [b], 0, Gen(1, 0)) ==
           [SealChunk(s, noise, 0, Gen(1, 0), b)] + Chunks(s, noise, [], 1, Gen(3, 0));
    var e, n := Last(s, noise, [big, b], 0, Gen(0, 0)), |Accepted(s, [big, b], Gen(0, 0))|;
    BodyParts(s, n, e, []);
  }

  /** The chunk is shorter than that, and nothing comes behind the stream. */
  lemma UnluckyWalk(s: Suite, c: Chunk, follow: seq<byte>)
    requires Ideal(s) && |c.header| == s.sizeBytes && Decoded(s, 0, c) == Some(147) && Expected(s, 0) == 5
    requires s.overhead == 16 && ChunkSize(s, c) + |follow| < 147
    ensures Walk(s, Before(s, 0, c.header + (Body(s, 0, c) + follow))) ==
            Walked([], Eof, Reading([], 0, GenAt(s, 1), None, false))
  {
    var next := Reading([], 0, GenAt(s, 1), None, false);
    SizeInStep(s, 0, c, Body(s, 0, c) + follow);
    BodyParts(s, 0, c, follow);
    WalkFirst(s, Before(s, 0, c.header + (Body(s, 0, c) + follow)), [], next);
    WalkLast(s, next, Eof, next);
  }

  lemma UnluckyLoss(base: Suite, draw: nat -> uint16, noise: Noise, big: seq<byte>, b: seq<byte>)
    requires Unlucky(base, draw) && Padded(Shake(base, draw), noise) && |big| == BUFFER_SIZE && |b| == 1
    ensures var s := Shake(base, draw);
            Walk(s, Before(s, 0, StreamOf(s, noise, [big, b]))) ==
            Walked([], Eof, Reading([], 0, GenAt(s, 1), None, false))
  {
    var s := Shake(base, draw);
    var end, tail := Last(s, noise, [big, b], 0, Gen(0, 0)), TailOf(s, noise, [big, b]);
    UnluckySize(base, draw, noise, b);
    UnluckyStream(base, draw, noise, big, b);
    var c := SealChunk(s, noise, 0, Gen(1, 0), b);
    SentFront(s, 0, [c], end, tail);
    assert Sent(s, 1, [c][1..], end, tail) == end.header + tail;
    UnluckyWalk(s, c, end.header + tail);
  }

  /**
    A packet behind a refused one is lost without an error, whatever the AEAD, although it is
    padded with exactly the length the reader expects: the size is masked with another draw.
   */
  method LostAfterRefusal(base: Suite, draw: nat -> uint16, noise: Noise, big: Buffer, b: Buffer,
                          cut: seq<byte> -> seq<MultiBuffer>)
    returns (err: ReadError, received: MultiBuffer)
    requires Unlucky(base, draw) && forall k: nat, n: nat :: |noise(k, n)| == n
    requires |big.bytes| == BUFFER_SIZE && |b.bytes| == 1
    requires forall bytes :: Delivery(cut(bytes)) == bytes
    ensures received == [] && err == Eof
  {
    ghost var ps, got, end;
    ShakeIsIdeal(base, draw);
    assert [[big, b]][0][0] == big;
    err, received, ps, got, end := Transfer(Shake(base, draw), noise, true, [[big, b]], cut);
    FlattenOne([big, b]);
    assert Texts([big, b]) == [big.bytes, b.bytes];
    UnluckyLoss(base, draw, noise, big.bytes, b.bytes);
  }
}
