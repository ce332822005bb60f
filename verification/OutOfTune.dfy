/** A stream on which nothing opens but what was sealed, and a packet behind a refused one all the same is lost. */
module OutOfTune {
  import opened Bytes
  import opened MultiBuffers
  import opened AuthStream
  import opened AuthWalk
  import opened AuthWriter
  import opened AuthTune

  function Mark(k: nat): byte { if k == 0 then 0xAA else 0xBB }

  /** An AEAD that vouches for whether the nonce is the first and for the length of the text. */
  function Unmark(k: nat, x: seq<byte>): Option<seq<byte>> {
    if |x| < 3 || x[0] != Mark(k) || GetUint16(x[1..3]) as int != (|x| - 3) % 0x1_0000 then None else Some(x[3..])
  }

  /** Plain sizes, and padding of its own: none the first time, then always one byte. */
  function Marked(): Suite {
    Suite(
      3,
      2,
      1,
      OwnDraws,
      (k: nat, p: seq<byte>) => [Mark(k)] + PutUint16(|p| % 0x1_0000) + p,
      (k: nat, x: seq<byte>) => Unmark(k, x),
      (k: nat, n: uint16) => PutUint16(n),
      (k: nat, b: seq<byte>) => if |b| < 2 then None else Some(GetUint16(b)),
      (k: nat) => if k == 0 then 0 else 1)
  }

  function Zeros(k: nat, n: nat): seq<byte> { seq(n, i => 0) }

  lemma Unmarks(k: nat, p: seq<byte>)
    ensures Unmark(k, [Mark(k)] + PutUint16(|p| % 0x1_0000) + p) == Some(p)
  {
    var x := [Mark(k)] + PutUint16(|p| % 0x1_0000) + p;
    assert x[1..3] == PutUint16(|p| % 0x1_0000) && x[3..] == p;
  }

  lemma MarkedIsIdeal()
    ensures Padded(Marked(), Zeros)
  {
    var s := Marked();
    forall k: nat, p: seq<byte>
      ensures |s.seal(k, p)| == |p| + s.overhead && s.open(k, s.seal(k, p)) == Some(p)
    {
      Unmarks(k, p);
    }
  }

  lemma MarkedSeals(big: seq<byte>)
    requires |big| == BUFFER_SIZE
    ensures TooLarge(Marked(), Gen(0, 0), big) && Drawn(Marked(), Gen(0, 0)) == Gen(0, 1)
    ensures !TooLarge(Marked(), Gen(0, 1), [7]) && Next(Marked(), Gen(0, 1)) == Gen(1, 2)
    ensures SealChunk(Marked(), Zeros, 0, Gen(0, 1), [7]) == Chunk([0, 5], [7], [0])
    ensures !TooLarge(Marked(), Gen(1, 2), [])
    ensures SealChunk(Marked(), Zeros, 1, Gen(1, 2), []) == Chunk([0, 4], [], [0])
  {
    assert Zeros(0, 1) == [0] && Zeros(1, 1) == [0];
    assert PutUint16(5) == [0, 5] && PutUint16(4) == [0, 4];
  }

  lemma MarkedBodies()
    ensures Body(Marked(), 0, Chunk([0, 5], [7], [0])) == [0xAA, 0, 1, 7, 0]
    ensures Body(Marked(), 1, Chunk([0, 4], [], [0])) == [0xBB, 0, 0, 0]
  {
    assert PutUint16(1) == [0, 1] && PutUint16(0) == [0, 0];
  }

  lemma MarkedChunks(big: seq<byte>)
    requires |big| == BUFFER_SIZE && Ideal(Marked())
    ensures Chunks(Marked(), Zeros, [big, [7]], 0, Gen(0, 0)) == [Chunk([0, 5], [7], [0])]
    ensures |Accepted(Marked(), [big, [7]], Gen(0, 0))| == 1
    ensures Last(Marked(), Zeros, [big, [7]], 0, Gen(0, 0)) == Chunk([0, 4], [], [0])
  {
    var s := Marked();
    MarkedSeals(big);
    assert [big, [7]][1..] == [[7]] && [[7]][1..] == [];
    assert Chunks(s, Zeros, [[7]], 0, Gen(0, 1)) == [Chunk([0, 5], [7], [0])] + Chunks(s, Zeros, [], 1, Gen(1, 2));
    assert Accepted(s, [[7]], Gen(0, 1)) == [[7]] + Accepted(s, [], Gen(1, 2));
    assert After(s, [[7]], Gen(0, 1)) == Gen(1, 2);
  }

  lemma MarkedStream(big: seq<byte>)
    requires |big| == BUFFER_SIZE && Ideal(Marked())
    ensures StreamOf(Marked(), Zeros, [big, [7]]) == [0, 5, 0xAA, 0, 1, 7, 0, 0, 4, 0xBB, 0, 0, 0]
  {
    var s, c := Marked(), Chunk([0, 5], [7], [0]);
    MarkedChunks(big);
    MarkedBodies();
    WireStep(s, 0, c, []);
    assert [c] + [] == [c];
    assert Wire(s, 0, [c]) == [0, 5, 0xAA, 0, 1, 7, 0];
  }

  lemma OnlyThere(wire: seq<byte>, a: nat, b: nat)
    requires wire == [0, 5, 0xAA, 0, 1, 7, 0, 0, 4, 0xBB, 0, 0, 0] && a <= b <= |wire| && Unmark(0, wire[a..b]).Some?
    ensures a == 2 && b == 6
  {
    var x := wire[a..b];
    assert x[0] == wire[a];
    assert a == 2;
    assert x[1] == wire[3] && x[2] == wire[4];
    assert x[1..3] == [x[1], x[2]];
  }

  lemma MarkedIsUnforged(big: seq<byte>)
    requires |big| == BUFFER_SIZE
    ensures Ideal(Marked()) && Unforged(Marked(), Zeros, [big, [7]])
  {
    MarkedIsIdeal();
    MarkedChunks(big);
    MarkedStream(big);
    var data, wire := Chunks(Marked(), Zeros, [big, [7]], 0, Gen(0, 0)), StreamOf(Marked(), Zeros, [big, [7]]);
    assert data[..0] == [];
    forall j: nat, a: nat, b: nat | j < |data| && a <= b <= |wire| && Marked().open(j, wire[a..b]).Some?
      ensures a == TextStart(Marked(), data, j) && b == a + |data[j].plain| + Marked().overhead
    {
      OnlyThere(wire, a, b);
    }
  }

  lemma MarkedIsOutOfTune(big: seq<byte>)
    requires |big| == BUFFER_SIZE && Ideal(Marked())
    ensures !Tuned(Marked(), [big, [7]], 0, Gen(0, 0))
  {
    var s := Marked();
    assert [big, [7]][1..] == [[7]];
    assert TooLarge(s, Gen(0, 0), big) && Drawn(s, Gen(0, 0)) == Gen(0, 1);
    assert !TooLarge(s, Gen(0, 1), [7]) && PadLen(s, Gen(0, 1)) == 1 && Expected(s, 0) == 0;
    assert !Suits(s, 0, Gen(0, 1), 1);
  }

  /** Being out of tune does not take a forgery. */
  lemma UnforgedAndOutOfTune(big: seq<byte>)
    requires |big| == BUFFER_SIZE
    ensures Padded(Marked(), Zeros) && Unforged(Marked(), Zeros, [big, [7]])
    ensures !Tuned(Marked(), [big, [7]], 0, Gen(0, 0))
  {
    MarkedIsIdeal();
    MarkedIsUnforged(big);
    MarkedIsOutOfTune(big);
  }
}
