/**
  When reader and writer are in tune: the draws with which a chunk was sealed and those with which
  it is read differ after a refused packet, and it depends on them whether that shows
  (common/crypto/auth.go).
 */
module AuthTune {
  import opened Bytes
  import opened MultiBuffers
  import opened AuthStream
  import opened AuthWalk
  import opened AuthWriter

  /**
    A text of n bytes sealed with draws g is read as chunk k: the size comes out right with the
    reader's mask, and the padding is the one it expects. (Or it expects so much more that the
    negative bound of its cut falls on the right byte.)
   */
  predicate Suits(s: Suite, k: nat, g: Gen, n: nat)
    requires s.sizeBytes + n + s.overhead + PadLen(s, g) as int <= BUFFER_SIZE
  {
    var size, padding := n + s.overhead + PadLen(s, g) as int, PadLen(s, g) as int;
    && s.decodeSize(Drawn(s, GenAt(s, k)).codec, s.encodeSize(Drawn(s, g).codec, size)) == Some(size)
    && (Expected(s, k) == padding || (padding > 0 && Expected(s, k) == size + padding))
  }

  /** The terminator sealed with draws g is read as such behind k chunks. */
  predicate EndSuits(s: Suite, k: nat, g: Gen)
    requires s.overhead + PadLen(s, g) as int < 0x1_0000
  {
    s.decodeSize(Drawn(s, GenAt(s, k)).codec, s.encodeSize(Drawn(s, g).codec, s.overhead + PadLen(s, g) as int))
      == Some(EndSize(s, Expected(s, k)))
  }

  lemma SuitsReads(s: Suite, noise: Noise, k: nat, g: Gen, b: seq<byte>)
    requires Padded(s, noise) && !TooLarge(s, g, b) && b != []
    ensures Suits(s, k, g, |b|) <==> Reads(s, k, SealChunk(s, noise, k, g, b))
  {
    assert Expected(s, k) <= s.maxPadding;
    var c := SealChunk(s, noise, k, g, b);
    assert ChunkSize(s, c) == |b| + s.overhead + PadLen(s, g) as int;
  }

  lemma EndSuitsEnds(s: Suite, noise: Noise, k: nat, g: Gen)
    requires Ideal(s)
    ensures EndSuits(s, k, g) <==> Ends(s, k, EndChunk(s, noise, k, g))
  {
  }

  /** All texts that are sent from draws g on are read from chunk k on, and then the terminator. */
  ghost predicate Tuned(s: Suite, ps: seq<seq<byte>>, k: nat, g: Gen)
    requires Ideal(s)
    decreases ps
  {
    if ps == [] then EndSuits(s, k, g)
    else if ps[0] == [] then Tuned(s, ps[1..], k, g)
    else if TooLarge(s, g, ps[0]) then Tuned(s, ps[1..], k, Drawn(s, g))
    else Suits(s, k, g, |ps[0]|) && Tuned(s, ps[1..], k + 1, Next(s, g))
  }

  /** The chunk behind the texts. */
  ghost function Last(s: Suite, noise: Noise, ps: seq<seq<byte>>, k: nat, g: Gen): Chunk
    requires Ideal(s)
  {
    EndChunk(s, noise, k + |Accepted(s, ps, g)|, After(s, ps, g))
  }

  lemma WalkableFront(s: Suite, k: nat, c: Chunk, cs: seq<Chunk>, end: Chunk)
    ensures Walkable(s, k, [c] + cs, end) <==> Reads(s, k, c) && Walkable(s, k + 1, cs, end)
  {
    assert ([c] + cs)[1..] == cs;
  }

  lemma TunedFront(s: Suite, noise: Noise, b: seq<byte>, rest: seq<seq<byte>>, k: nat, g: Gen, cs: seq<Chunk>,
                   end: Chunk)
    requires Padded(s, noise) && !TooLarge(s, g, b) && b != []
    requires Tuned(s, rest, k + 1, Next(s, g)) <==> Walkable(s, k + 1, cs, end)
    ensures Tuned(s, [b] + rest, k, g) <==> Walkable(s, k, [SealChunk(s, noise, k, g, b)] + cs, end)
  {
    assert ([b] + rest)[1..] == rest;
    SuitsReads(s, noise, k, g, b);
    WalkableFront(s, k, SealChunk(s, noise, k, g, b), cs, end);
  }

  lemma LastFront(s: Suite, noise: Noise, ps: seq<seq<byte>>, k: nat, g: Gen)
    requires Ideal(s) && ps != []
    ensures ps[0] == [] ==> Last(s, noise, ps, k, g) == Last(s, noise, ps[1..], k, g)
    ensures ps[0] != [] && TooLarge(s, g, ps[0]) ==>
              Last(s, noise, ps, k, g) == Last(s, noise, ps[1..], k, Drawn(s, g))
    ensures ps[0] != [] && !TooLarge(s, g, ps[0]) ==>
              Last(s, noise, ps, k, g) == Last(s, noise, ps[1..], k + 1, Next(s, g))
  {
  }

  lemma {:induction false} TunedWalks(s: Suite, noise: Noise, ps: seq<seq<byte>>, k: nat, g: Gen)
    requires Padded(s, noise)
    ensures Tuned(s, ps, k, g) <==> Walkable(s, k, Chunks(s, noise, ps, k, g), Last(s, noise, ps, k, g))
    decreases ps
  {
    if ps == [] {
      EndSuitsEnds(s, noise, k, g);
    } else {
      var b, rest, end := ps[0], ps[1..], Last(s, noise, ps, k, g);
      LastFront(s, noise, ps, k, g);
      if b == [] {
        TunedWalks(s, noise, rest, k, g);
      } else if TooLarge(s, g, b) {
        TunedWalks(s, noise, rest, k, Drawn(s, g));
      } else {
        TunedWalks(s, noise, rest, k + 1, Next(s, g));
        TunedFront(s, noise, b, rest, k, g, Chunks(s, noise, rest, k + 1, Next(s, g)), end);
        assert ps == [b] + rest;
      }
    }
  }

  // ----- the texts come out of the chunks

  lemma {:induction false} ChunksFormed(s: Suite, noise: Noise, ps: seq<seq<byte>>, k: nat, g: Gen)
    requires Padded(s, noise)
    ensures Formed(s, Chunks(s, noise, ps, k, g), Last(s, noise, ps, k, g))
    decreases ps
  {
    if ps != [] {
      if ps[0] == [] {
        ChunksFormed(s, noise, ps[1..], k, g);
      } else if TooLarge(s, g, ps[0]) {
        ChunksFormed(s, noise, ps[1..], k, Drawn(s, g));
      } else {
        ChunksFormed(s, noise, ps[1..], k + 1, Next(s, g));
      }
    }
  }

  lemma {:induction false} ChunksCarry(s: Suite, noise: Noise, ps: seq<seq<byte>>, k: nat, g: Gen)
    requires Padded(s, noise)
    ensures Plains(Pieces(s, Chunks(s, noise, ps, k, g))) == Accepted(s, ps, g)
    ensures AllSmall(Pieces(s, Chunks(s, noise, ps, k, g)))
    decreases ps
  {
    if ps != [] {
      if ps[0] == [] {
        ChunksCarry(s, noise, ps[1..], k, g);
      } else if TooLarge(s, g, ps[0]) {
        ChunksCarry(s, noise, ps[1..], k, Drawn(s, g));
      } else {
        var c, rest := SealChunk(s, noise, k, g, ps[0]), Chunks(s, noise, ps[1..], k + 1, Next(s, g));
        ChunksCarry(s, noise, ps[1..], k + 1, Next(s, g));
        assert ([c] + rest)[1..] == rest;
        assert Pieces(s, [c] + rest) == [PieceOf(s, c)] + Pieces(s, rest);
        PlainsConcat([PieceOf(s, c)], Pieces(s, rest));
        assert Plains([PieceOf(s, c)]) == [ps[0]];
      }
    }
  }

  lemma {:induction false} LeftIsText(s: Suite, data: seq<Chunk>, j: nat)
    requires j <= |data|
    ensures Left(data, j) == |Flatten(Plains(Pieces(s, data[j..])))|
    decreases |data| - j
  {
    if j < |data| {
      LeftIsText(s, data, j + 1);
      assert data[j..][0] == data[j] && data[j..][1..] == data[j + 1..];
      var p, rest := PieceOf(s, data[j]), Pieces(s, data[j + 1..]);
      assert Pieces(s, data[j..]) == [p] + rest;
      TextConcat([p], rest);
      TextOne(p);
    }
  }

  // ----- a whole stream

  ghost function TailOf(s: Suite, noise: Noise, ps: seq<seq<byte>>): seq<byte>
    requires Ideal(s)
  {
    Body(s, |Accepted(s, ps, Gen(0, 0))|, Last(s, noise, ps, 0, Gen(0, 0)))
  }

  /** What a new writer puts on the wire for the texts and the end of the stream. */
  ghost function StreamOf(s: Suite, noise: Noise, ps: seq<seq<byte>>): seq<byte>
    requires Ideal(s)
  {
    Sent(s, 0, Chunks(s, noise, ps, 0, Gen(0, 0)), Last(s, noise, ps, 0, Gen(0, 0)), TailOf(s, noise, ps))
  }

  /** Nothing on the wire opens, with the nonce of a text that was sent, but that text in its place. */
  ghost predicate Unforged(s: Suite, noise: Noise, ps: seq<seq<byte>>)
    requires Ideal(s)
  {
    Genuine(s, Chunks(s, noise, ps, 0, Gen(0, 0)), StreamOf(s, noise, ps))
  }

  /** All texts in turn and then the end, with the reader in step right behind the size of the terminator. */
  ghost predicate Delivered(s: Suite, noise: Noise, ps: seq<seq<byte>>, err: ReadError, texts: seq<seq<byte>>,
                            end: Reading)
    requires Ideal(s)
  {
    && err == Eof && texts == Accepted(s, ps, Gen(0, 0))
    && end == Through(s, |Accepted(s, ps, Gen(0, 0))|, TailOf(s, noise, ps))
  }

  lemma TunedDelivers(s: Suite, noise: Noise, ps: seq<seq<byte>>)
    requires Padded(s, noise) && Tuned(s, ps, 0, Gen(0, 0))
    ensures var w := Walk(s, Before(s, 0, StreamOf(s, noise, ps)));
            Delivered(s, noise, ps, w.err, Plains(w.got), w.end) && AllSmall(w.got)
  {
    var data, end := Chunks(s, noise, ps, 0, Gen(0, 0)), Last(s, noise, ps, 0, Gen(0, 0));
    TunedWalks(s, noise, ps, 0, Gen(0, 0));
    ChunksFormed(s, noise, ps, 0, Gen(0, 0));
    OneChunkEach(s, noise, ps, 0, Gen(0, 0));
    WalksAll(s, 0, data, end, TailOf(s, noise, ps), |data|);
    ChunksCarry(s, noise, ps, 0, Gen(0, 0));
  }

  /** Unless something opens that was not sealed, nothing but being in tune delivers. */
  lemma DeliveredIsTuned(s: Suite, noise: Noise, ps: seq<seq<byte>>, texts: seq<seq<byte>>)
    requires Padded(s, noise) && Unforged(s, noise, ps)
    requires var w := Walk(s, Before(s, 0, StreamOf(s, noise, ps)));
             Delivered(s, noise, ps, w.err, texts, w.end) && Flatten(texts) == Text(w.got)
    ensures Tuned(s, ps, 0, Gen(0, 0))
  {
    var data, end := Chunks(s, noise, ps, 0, Gen(0, 0)), Last(s, noise, ps, 0, Gen(0, 0));
    TunedWalks(s, noise, ps, 0, Gen(0, 0));
    ChunksFormed(s, noise, ps, 0, Gen(0, 0));
    OneChunkEach(s, noise, ps, 0, Gen(0, 0));
    ChunksCarry(s, noise, ps, 0, Gen(0, 0));
    LeftIsText(s, data, 0);
    assert data[0..] == data;
    MustWalk(s, data, end, TailOf(s, noise, ps), 0);
  }

  // ----- no refusal, or none that shows

  /** How many texts are refused. */
  function Refused(s: Suite, ps: seq<seq<byte>>, g: Gen): nat
    decreases ps
  {
    if ps == [] then 0
    else if ps[0] == [] then Refused(s, ps[1..], g)
    else if TooLarge(s, g, ps[0]) then 1 + Refused(s, ps[1..], Drawn(s, g))
    else Refused(s, ps[1..], Next(s, g))
  }

  /** The texts of 1 to `limit` bytes. */
  function NonEmptyUpTo(ps: seq<seq<byte>>, limit: int): seq<seq<byte>> {
    if ps == [] then []
    else (if 0 < |ps[0]| <= limit then [ps[0]] else []) + NonEmptyUpTo(ps[1..], limit)
  }

  lemma StepSuits(s: Suite, k: nat, g: Gen, n: nat)
    requires Ideal(s) && Drawn(s, g).codec == Drawn(s, GenAt(s, k)).codec && PadLen(s, g) == Expected(s, k)
    ensures s.sizeBytes + n + s.overhead + PadLen(s, g) as int <= BUFFER_SIZE ==> Suits(s, k, g, n)
    ensures EndSuits(s, k, g)
  {
  }

  /** Without a refusal the draws are the same on both sides. */
  lemma {:induction false} UnrefusedIsTuned(s: Suite, ps: seq<seq<byte>>, k: nat)
    requires Ideal(s) && Refused(s, ps, GenAt(s, k)) == 0
    ensures Tuned(s, ps, k, GenAt(s, k))
    decreases ps
  {
    var g := GenAt(s, k);
    if ps == [] {
      StepSuits(s, k, g, 0);
    } else if ps[0] == [] {
      UnrefusedIsTuned(s, ps[1..], k);
    } else {
      StepSuits(s, k, g, |ps[0]|);
      assert GenAt(s, k + 1) == Next(s, g);
      UnrefusedIsTuned(s, ps[1..], k + 1);
    }
  }

  /** No padding, or always the same from a generator of its own. */
  ghost predicate Steady(s: Suite) {
    s.source.NoPadding? || (s.source.OwnDraws? && forall i: nat, j: nat :: s.padding(i) == s.padding(j))
  }

  lemma {:induction false} StepsOfCodec(s: Suite, k: nat)
    requires !s.source.SizeDraws?
    ensures GenAt(s, k).codec == k
  {
    if k > 0 {
      StepsOfCodec(s, k - 1);
    }
  }

  /** Then a refusal leaves no trace: whatever is written, exactly the texts that fit are delivered. */
  lemma {:induction false} SteadyIsTuned(s: Suite, ps: seq<seq<byte>>, k: nat, g: Gen)
    requires Ideal(s) && Steady(s) && g.codec == k
    ensures Tuned(s, ps, k, g)
    ensures Accepted(s, ps, g) == NonEmptyUpTo(ps, BUFFER_SIZE - s.sizeBytes - s.overhead - PadLen(s, g) as int)
    decreases ps
  {
    StepsOfCodec(s, k);
    assert PadLen(s, g) == Expected(s, k);
    if ps == [] {
      StepSuits(s, k, g, 0);
    } else if ps[0] == [] {
      SteadyIsTuned(s, ps[1..], k, g);
    } else if TooLarge(s, g, ps[0]) {
      SteadyIsTuned(s, ps[1..], k, Drawn(s, g));
    } else {
      StepSuits(s, k, g, |ps[0]|);
      SteadyIsTuned(s, ps[1..], k + 1, Next(s, g));
    }
  }
}
