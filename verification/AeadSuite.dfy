/**
  The suite of an AEAD stream whose sizes are sealed too (common/crypto/chunk.go,
  AEADChunkSizeParser): sizes and payloads draw their nonces from one generator in turn.
 */
module AeadSuite {
  import opened Bytes
  import opened MultiBuffers
  import opened Nonces
  import opened AuthStream
  import opened AuthWalk
  import opened AuthWriter

  datatype Aead = Aead(
    overhead: uint16,
    seal: (seq<byte>, seq<byte>) -> seq<byte>,
    open: (seq<byte>, seq<byte>) -> Option<seq<byte>>)

  ghost predicate IdealAead(a: Aead) {
    forall n: seq<byte>, p: seq<byte> :: |a.seal(n, p)| == |p| + a.overhead as int && a.open(n, a.seal(n, p)) == Some(p)
  }

  /** The nonce that seals the size of chunk k, and the one that seals its payload. */
  function SizeNonce(start: seq<byte>, k: nat): seq<byte> { Nth(start, 2 * k + 1) }

  function PayloadNonce(start: seq<byte>, k: nat): seq<byte> { Nth(start, 2 * k + 2) }

  /** AEADChunkSizeParser.Encode: 16-bit subtraction wraps. */
  function SealSize(a: Aead, start: seq<byte>, k: nat, size: uint16): seq<byte> {
    a.seal(SizeNonce(start, k), PutUint16((size as int - a.overhead as int) % 0x1_0000))
  }

  /** AEADChunkSizeParser.Decode. */
  function OpenSize(a: Aead, start: seq<byte>, k: nat, b: seq<byte>): Option<uint16> {
    var plain := a.open(SizeNonce(start, k), b);
    if plain.None? || |plain.value| < 2 then None
    else Some((GetUint16(plain.value) as int + a.overhead as int) % 0x1_0000)
  }

  function SharedSuite(a: Aead, start: seq<byte>): Suite {
    Suite(
      a.overhead as int,
      2 + a.overhead as int,
      0,
      NoPadding,
      (k: nat, p: seq<byte>) => a.seal(PayloadNonce(start, k), p),
      (k: nat, c: seq<byte>) => a.open(PayloadNonce(start, k), c),
      (k: nat, n: uint16) => SealSize(a, start, k, n),
      (k: nat, b: seq<byte>) => OpenSize(a, start, k, b),
      (k: nat) => 0)
  }

  lemma SizeRoundTrip(a: Aead, start: seq<byte>, k: nat, size: uint16)
    requires IdealAead(a)
    ensures OpenSize(a, start, k, SealSize(a, start, k, size)) == Some(size)
  {
  }

  /** The size of a chunk says how long its text is, without what sealing adds to it. */
  lemma SealedSizeIsLength(a: Aead, start: seq<byte>, k: nat, b: seq<byte>)
    requires IdealAead(a) && |b| + a.overhead as int < 0x1_0000
    ensures a.open(SizeNonce(start, k), SealSize(a, start, k, |b| + a.overhead as int)) ==
            Some([|b| / 0x100, |b| % 0x100])
  {
  }

  lemma AddCycle(x: nat, p: nat)
    requires p > 0
    ensures (x + p) % p == x % p
  {
    var q, r := x / p, x % p;
    assert x == q * p + r;
    MulDistributes(q, 1, p);
    ModMultiple(q + 1, p, r);
    ModMultiple(q, p, r);
  }

  /** A nonce that is the number n, in as many bytes as it has. */
  predicate Counts(nonce: seq<byte>, n: nat) { Value(nonce) == n % Pow256(|nonce|) }

  lemma CountsFromZero(start: seq<byte>, n: nat)
    requires forall i :: 0 <= i < |start| ==> start[i] == 0xff
    ensures Counts(Nth(start, n + 1), n)
  {
    var p := Pow256(|start|);
    WrapsToZero(start);
    IncrementAdds(start);
    assert Value(start) + (n + 1) == n + p;
    NthValue(start, n + 1);
    AddCycle(n, p);
  }

  /** Counting from a nonce of all ones, chunk k takes the nonces 2k for its size and 2k + 1 for its text. */
  lemma NoncesInTurn(start: seq<byte>, k: nat)
    requires forall i :: 0 <= i < |start| ==> start[i] == 0xff
    ensures Counts(SizeNonce(start, k), 2 * k) && Counts(PayloadNonce(start, k), 2 * k + 1)
  {
    CountsFromZero(start, 2 * k);
    CountsFromZero(start, 2 * k + 1);
  }

  /** A chunk on the wire: its length sealed, then its text sealed. */
  lemma ChunkOnWire(a: Aead, start: seq<byte>, noise: Noise, k: nat, b: seq<byte>)
    requires 2 + 2 * a.overhead as int + |b| <= BUFFER_SIZE && noise(k, 0) == []
    ensures var s := SharedSuite(a, start);
            && !TooLarge(s, GenAt(s, k), b)
            && Wire(s, k, [SealChunk(s, noise, k, GenAt(s, k), b)]) ==
               a.seal(SizeNonce(start, k), [|b| / 0x100, |b| % 0x100]) + a.seal(PayloadNonce(start, k), b)
  {
    var s := SharedSuite(a, start);
    OneDraw(a, start, k);
    var c := SealChunk(s, noise, k, GenAt(s, k), b);
    WireStep(s, k, c, []);
    assert [c] + [] == [c];
    assert PutUint16(|b|) == [|b| / 0x100, |b| % 0x100];
  }

  lemma {:induction false} OneDraw(a: Aead, start: seq<byte>, k: nat)
    ensures GenAt(SharedSuite(a, start), k) == Gen(k, 0)
  {
    if k > 0 {
      OneDraw(a, start, k - 1);
    }
  }

  /** The stream of an ideal AEAD over one nonce generator is an ideal suite, so the round trip applies to it. */
  lemma SharedSuiteIsIdeal(a: Aead, start: seq<byte>)
    requires IdealAead(a) && 2 + 2 * a.overhead as int < BUFFER_SIZE
    ensures Ideal(SharedSuite(a, start))
  {
    var s := SharedSuite(a, start);
    forall k: nat, p: seq<byte>
      ensures |s.seal(k, p)| == |p| + s.overhead && s.open(k, s.seal(k, p)) == Some(p)
    {
      assert s.seal(k, p) == a.seal(PayloadNonce(start, k), p);
    }
    forall k: nat, n: uint16
      ensures |s.encodeSize(k, n)| == s.sizeBytes && s.decodeSize(k, s.encodeSize(k, n)) == Some(n)
    {
      SizeRoundTrip(a, start, k, n);
    }
  }

  lemma OrderedNoncesDiffer(start: seq<byte>, x: nat, y: nat, bound: nat)
    requires bound <= Pow256(|start|) && 0 < x <= bound && 0 < y <= bound && x != y
    ensures Nth(start, x) != Nth(start, y)
  {
    if x < y {
      NoncesAreDistinct(start, x, y);
    } else {
      NoncesAreDistinct(start, y, x);
    }
  }

  /** No nonce is used twice in a stream of n chunks if two nonces a chunk fit into one cycle. */
  lemma {:induction false} StreamNoncesAreDistinct(start: seq<byte>, n: nat)
    requires 2 * n <= Pow256(|start|)
    ensures forall i, j :: 0 <= i < n && 0 <= j < n ==> SizeNonce(start, i) != PayloadNonce(start, j)
    ensures forall i, j :: 0 <= i < j < n ==> SizeNonce(start, i) != SizeNonce(start, j)
    ensures forall i, j :: 0 <= i < j < n ==> PayloadNonce(start, i) != PayloadNonce(start, j)
  {
    forall i, j | 0 <= i < n && 0 <= j < n
      ensures SizeNonce(start, i) != PayloadNonce(start, j)
    {
      OrderedNoncesDiffer(start, 2 * i + 1, 2 * j + 2, 2 * n);
    }
    forall i, j | 0 <= i < j < n
      ensures SizeNonce(start, i) != SizeNonce(start, j)
    {
      OrderedNoncesDiffer(start, 2 * i + 1, 2 * j + 1, 2 * n);
    }
    forall i, j | 0 <= i < j < n
      ensures PayloadNonce(start, i) != PayloadNonce(start, j)
    {
      OrderedNoncesDiffer(start, 2 * i + 2, 2 * j + 2, 2 * n);
    }
  }
}
