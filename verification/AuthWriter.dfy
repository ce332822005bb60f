/**
  Writing authenticated chunk streams (common/crypto/auth.go). A padding length is drawn before
  the size of a chunk is checked, so a refused packet leaves a trace: its draw is used up.
 */
module AuthWriter {
  import opened Bytes
  import opened MultiBuffers
  import opened AuthStream
  import opened AuthWalk

  /** What fills the padding of chunk k, of the length asked for. */
  type Noise = (nat, nat) -> seq<byte>

  /** An ideal suite, and padding that is as long as asked for. */
  ghost predicate Padded(s: Suite, noise: Noise) {
    Ideal(s) && forall k: nat, n: nat :: |noise(k, n)| == n
  }

  /** Whether a text is refused with the padding drawn next. */
  predicate TooLarge(s: Suite, g: Gen, b: seq<byte>) {
    s.sizeBytes + |b| + s.overhead + PadLen(s, g) as int > BUFFER_SIZE
  }

  function MaxPadding(s: Suite): nat { if s.source.NoPadding? then 0 else s.maxPadding }

  /** What a chunk of a stream carries at most. */
  function Payload(s: Suite): int { BUFFER_SIZE - s.overhead - s.sizeBytes - MaxPadding(s) }

  /** The chunk that seal number k makes of a text. */
  function SealChunk(s: Suite, noise: Noise, k: nat, g: Gen, b: seq<byte>): Chunk
    requires !TooLarge(s, g, b)
  {
    Chunk(s.encodeSize(Drawn(s, g).codec, |b| + s.overhead + PadLen(s, g) as int), b, noise(k, PadLen(s, g)))
  }

  /** The chunk that ends a stream: the one without text. */
  ghost function EndChunk(s: Suite, noise: Noise, k: nat, g: Gen): Chunk
    requires Ideal(s)
  {
    SealChunk(s, noise, k, g, [])
  }

  /** Texts that are never refused. */
  predicate AllFit(s: Suite, ps: seq<seq<byte>>) {
    forall i :: 0 <= i < |ps| ==> ps[i] != [] && |ps[i]| <= Payload(s)
  }

  /** The first n texts fill a buffer, padded as much as can be. */
  predicate FillBuffers(s: Suite, ps: seq<seq<byte>>, n: int) {
    forall i :: 0 <= i < |ps| && i < n ==>
      s.sizeBytes + |ps[i]| + s.overhead + (if s.source.NoPadding? then 0 else s.maxPadding) == BUFFER_SIZE
  }

  // ----- texts in turn: the empty are skipped, the too large refused

  /** The chunks on the wire. */
  function Chunks(s: Suite, noise: Noise, ps: seq<seq<byte>>, k: nat, g: Gen): seq<Chunk>
    decreases ps
  {
    if ps == [] then []
    else if ps[0] == [] then Chunks(s, noise, ps[1..], k, g)
    else if TooLarge(s, g, ps[0]) then Chunks(s, noise, ps[1..], k, Drawn(s, g))
    else [SealChunk(s, noise, k, g, ps[0])] + Chunks(s, noise, ps[1..], k + 1, Next(s, g))
  }

  /** The draws used up. */
  function After(s: Suite, ps: seq<seq<byte>>, g: Gen): Gen
    decreases ps
  {
    if ps == [] then g
    else if ps[0] == [] then After(s, ps[1..], g)
    else if TooLarge(s, g, ps[0]) then After(s, ps[1..], Drawn(s, g))
    else After(s, ps[1..], Next(s, g))
  }

  /** The texts that are sent. */
  function Accepted(s: Suite, ps: seq<seq<byte>>, g: Gen): seq<seq<byte>>
    decreases ps
  {
    if ps == [] then []
    else if ps[0] == [] then Accepted(s, ps[1..], g)
    else if TooLarge(s, g, ps[0]) then Accepted(s, ps[1..], Drawn(s, g))
    else [ps[0]] + Accepted(s, ps[1..], Next(s, g))
  }

  lemma {:induction false} OneChunkEach(s: Suite, noise: Noise, ps: seq<seq<byte>>, k: nat, g: Gen)
    ensures |Chunks(s, noise, ps, k, g)| == |Accepted(s, ps, g)|
    decreases ps
  {
    if ps != [] {
      if ps[0] == [] {
        OneChunkEach(s, noise, ps[1..], k, g);
      } else if TooLarge(s, g, ps[0]) {
        OneChunkEach(s, noise, ps[1..], k, Drawn(s, g));
      } else {
        OneChunkEach(s, noise, ps[1..], k + 1, Next(s, g));
      }
    }
  }

  lemma {:induction false} AcceptedConcat(s: Suite, a: seq<seq<byte>>, b: seq<seq<byte>>, g: Gen)
    ensures Accepted(s, a + b, g) == Accepted(s, a, g) + Accepted(s, b, After(s, a, g))
    ensures After(s, a + b, g) == After(s, b, After(s, a, g))
    decreases a
  {
    if a == [] {
      assert a + b == b;
    } else {
      assert (a + b)[0] == a[0] && (a + b)[1..] == a[1..] + b;
      if a[0] == [] {
        AcceptedConcat(s, a[1..], b, g);
      } else if TooLarge(s, g, a[0]) {
        AcceptedConcat(s, a[1..], b, Drawn(s, g));
      } else {
        AcceptedConcat(s, a[1..], b, Next(s, g));
      }
    }
  }

  lemma {:induction false} ChunksConcat(s: Suite, noise: Noise, a: seq<seq<byte>>, b: seq<seq<byte>>, k: nat, g: Gen)
    ensures Chunks(s, noise, a + b, k, g) ==
            Chunks(s, noise, a, k, g) + Chunks(s, noise, b, k + |Accepted(s, a, g)|, After(s, a, g))
    decreases a
  {
    if a == [] {
      assert a + b == b;
    } else {
      assert (a + b)[0] == a[0] && (a + b)[1..] == a[1..] + b;
      if a[0] == [] {
        ChunksConcat(s, noise, a[1..], b, k, g);
      } else if TooLarge(s, g, a[0]) {
        ChunksConcat(s, noise, a[1..], b, k, Drawn(s, g));
      } else {
        ChunksConcat(s, noise, a[1..], b, k + 1, Next(s, g));
      }
    }
  }

  /** From seal k and draws g, the texts took a writer to seal k' and draws g' and put `wire` on the wire. */
  ghost predicate Wrote(s: Suite, noise: Noise, k: nat, g: Gen, ps: seq<seq<byte>>, k': nat, g': Gen, wire: seq<byte>) {
    && k' == k + |Accepted(s, ps, g)| && g' == After(s, ps, g)
    && wire == Wire(s, k, Chunks(s, noise, ps, k, g))
  }

  lemma WroteConcat(s: Suite, noise: Noise, k: nat, g: Gen, a: seq<seq<byte>>, k1: nat, g1: Gen, wa: seq<byte>,
                    b: seq<seq<byte>>, k2: nat, g2: Gen, wb: seq<byte>)
    requires Wrote(s, noise, k, g, a, k1, g1, wa) && Wrote(s, noise, k1, g1, b, k2, g2, wb)
    ensures Wrote(s, noise, k, g, a + b, k2, g2, wa + wb)
  {
    AcceptedConcat(s, a, b, g);
    ChunksConcat(s, noise, a, b, k, g);
    OneChunkEach(s, noise, a, k, g);
    WireConcat(s, k, Chunks(s, noise, a, k, g), Chunks(s, noise, b, k1, g1));
  }

  lemma WroteOne(s: Suite, noise: Noise, k: nat, g: Gen, b: seq<byte>)
    ensures b == [] ==> Wrote(s, noise, k, g, [b], k, g, [])
    ensures b != [] && TooLarge(s, g, b) ==> Wrote(s, noise, k, g, [b], k, Drawn(s, g), [])
    ensures b != [] && !TooLarge(s, g, b) ==>
              var c := SealChunk(s, noise, k, g, b);
              Wrote(s, noise, k, g, [b], k + 1, Next(s, g), c.header + Body(s, k, c))
  {
    assert [b][1..] == [];
    if b != [] && !TooLarge(s, g, b) {
      var c := SealChunk(s, noise, k, g, b);
      WireStep(s, k, c, []);
      assert [c] + [] == [c];
      assert Chunks(s, noise, [b], k, g) == [c];
    }
  }

  // ----- the writer

  class AuthenticationWriter {
    const suite: Suite
    const noise: Noise
    // Whether every buffer is a packet of its own.
    const packets: bool
    // How often the AEAD and the generators were asked.
    var seals: nat
    var gen: Gen

    constructor (suite: Suite, noise: Noise, packets: bool)
      ensures this.suite == suite && this.noise == noise && this.packets == packets
      ensures seals == 0 && gen == Gen(0, 0)
    {
      this.suite, this.noise, this.packets := suite, noise, packets;
      seals, gen := 0, Gen(0, 0);
    }

    /** seal: a refusal uses up a padding length and nothing else. */
    method Seal(b: seq<byte>) returns (r: Option<seq<byte>>)
      modifies this
      ensures r.None? <==> TooLarge(suite, old(gen), b)
      ensures r.None? ==> gen == Drawn(suite, old(gen)) && seals == old(seals)
      ensures r.Some? ==>
                && gen == Next(suite, old(gen)) && seals == old(seals) + 1
                && var c := SealChunk(suite, noise, old(seals), old(gen), b);
                   r.value == c.header + Body(suite, old(seals), c)
    {
      var encrypted := |b| + suite.overhead;
      var padding := PadLen(suite, gen);
      gen := Drawn(suite, gen);
      if suite.sizeBytes + encrypted + padding as int > BUFFER_SIZE {
        return None;
      }
      var header := suite.encodeSize(gen.codec, encrypted + padding as int);
      gen := Gen(gen.codec + 1, gen.pads);
      var body := suite.seal(seals, b);
      r := Some(header + (body + noise(seals, padding)));
      seals := seals + 1;
    }

    /** The texts written since seal k and draws g. */
    ghost predicate Since(k: nat, g: Gen, ps: seq<seq<byte>>, wire: seq<byte>)
      reads this
    {
      Wrote(suite, noise, k, g, ps, seals, gen, wire)
    }

    /** One text more. */
    method SealMore(b: seq<byte>, sent: seq<byte>, ghost k: nat, ghost g: Gen, ghost ps: seq<seq<byte>>)
      returns (refused: bool, sent': seq<byte>)
      modifies this
      ensures refused <==> TooLarge(suite, old(gen), b)
      ensures b != [] && old(Since(k, g, ps, sent)) ==> Since(k, g, ps + [b], sent')
    {
      var sealed := Seal(b);
      refused := sealed.None?;
      var more := if sealed.None? then [] else sealed.value;
      sent' := sent + more;
      if b != [] && old(Since(k, g, ps, sent)) {
        WroteOne(suite, noise, old(seals), old(gen), b);
        WroteConcat(suite, noise, k, g, ps, old(seals), old(gen), sent, [b], seals, gen, more);
      }
    }

    /** Seals what fits into one buffer; None is an error. */
    method SealNext(mb: MultiBuffer, payloadSize: nat, sent: seq<byte>, ghost k: nat, ghost g: Gen,
                    ghost ps: seq<seq<byte>>)
      returns (rest: MultiBuffer, sent': Option<seq<byte>>, ghost ps': seq<seq<byte>>)
      requires payloadSize > 0
      modifies this
      ensures !IsEmpty(rest) ==> |Content(rest)| < |Content(mb)|
      ensures IsEmpty(rest) <==> Content(rest) == []
      ensures Ideal(suite) && payloadSize == Payload(suite) ==> sent'.Some?
      ensures old(Since(k, g, ps, sent)) && !IsEmpty(mb) && sent'.Some? && payloadSize == Payload(suite) ==>
                && Since(k, g, ps', sent'.value) && Flatten(ps') + Content(rest) == Flatten(ps) + Content(mb)
                && (AllFit(suite, ps) ==> AllFit(suite, ps'))
                && |ps'| == |ps| + 1
                && (FillBuffers(suite, ps, |ps|) ==> FillBuffers(suite, ps', if IsEmpty(rest) then |ps| else |ps| + 1))
    {
      var piece;
      rest, piece := SplitBytes(mb, payloadSize);
      EmptyContent(mb);
      EmptyContent(rest);
      var refused, more := SealMore(piece, sent, k, g, ps);
      sent' := if refused then None else Some(more);
      ps' := ps + [piece];
      FlattenConcat(ps, [piece]);
      FlattenOne(piece);
      ConcatAssociative(Flatten(ps), piece, Content(rest));
    }

    /** writeStream: as many chunks as the content needs, none of them empty. */
    method WriteStream(mb: MultiBuffer) returns (wire: Option<seq<byte>>, ghost ps: seq<seq<byte>>)
      modifies this
      ensures Ideal(suite) && !IsEmpty(mb) ==>
                && wire.Some? && Since(old(seals), old(gen), ps, wire.value)
                && AllFit(suite, ps) && Flatten(ps) == Content(mb) && FillBuffers(suite, ps, |ps| - 1)
    {
      ps := [];
      if suite.overhead + suite.sizeBytes + MaxPadding(suite) >= BUFFER_SIZE {
        return None, ps;
      }
      wire := Some([]);
      var left := mb;
      var more := true;
      ghost var known := Ideal(suite) && !IsEmpty(mb);
      while more
        invariant wire.Some?
        invariant known ==>
                    && Since(old(seals), old(gen), ps, wire.value) && AllFit(suite, ps)
                    && Flatten(ps) + Content(left) == Content(mb) && (more <==> !IsEmpty(left))
                    && FillBuffers(suite, ps, if more then |ps| else |ps| - 1)
        invariant !more ==> Content(left) == []
        decreases more, |Content(left)|
      {
        left, wire, ps := SealNext(left, Payload(suite), wire.value, old(seals), old(gen), ps);
        if wire.None? {
          return;
        }
        more := !IsEmpty(left);
      }
    }

    /**
      writePacket: a chunk for every non-empty packet that fits. A packet that does not fit is
      dropped, and with it a padding length that the peer will not drop.
     */
    method WritePacket(mb: MultiBuffer) returns (wire: seq<byte>)
      modifies this
      ensures Since(old(seals), old(gen), Texts(mb), wire)
    {
      wire := [];
      var i := 0;
      while i < |mb|
        invariant 0 <= i <= |mb|
        invariant Since(old(seals), old(gen), Texts(mb[..i]), wire)
      {
        assert mb[..i + 1] == mb[..i] + [mb[i]];
        TextsConcat(mb[..i], [mb[i]]);
        assert Texts([mb[i]]) == [mb[i].bytes];
        if mb[i].bytes != [] {
          var _, sent := SealMore(mb[i].bytes, wire, old(seals), old(gen), Texts(mb[..i]));
          wire := sent;
        } else {
          WroteOne(suite, noise, seals, gen, []);
          WroteConcat(suite, noise, old(seals), old(gen), Texts(mb[..i]), seals, gen, wire, [[]], seals, gen, []);
          assert wire + [] == wire;
        }
        i := i + 1;
      }
      assert mb[..i] == mb;
    }

    /** What a write put on the wire: a whole stream's end, or the texts `ps`. */
    ghost predicate Written(mb: MultiBuffer, k: nat, g: Gen, ps: seq<seq<byte>>, wire: seq<byte>)
      requires Ideal(suite)
      reads this
    {
      if IsEmpty(mb) then
        && ps == [] && seals == k + 1 && gen == Next(suite, g)
        && wire == EndChunk(suite, noise, k, g).header + Body(suite, k, EndChunk(suite, noise, k, g))
      else
        && Since(k, g, ps, wire)
        && (if packets then ps == Texts(mb) else AllFit(suite, ps) && Flatten(ps) == Content(mb))
    }

    /** WriteMultiBuffer: an empty write seals the empty chunk that ends the stream. */
    method WriteMultiBuffer(mb: MultiBuffer) returns (wire: Option<seq<byte>>, ghost ps: seq<seq<byte>>)
      modifies this
      ensures Ideal(suite) ==> wire.Some? && Written(mb, old(seals), old(gen), ps, wire.value)
    {
      if IsEmpty(mb) {
        wire := Seal([]);
        ps := [];
      } else if !packets {
        wire, ps := WriteStream(mb);
      } else {
        var bytes := WritePacket(mb);
        wire := Some(bytes);
        ps := Texts(mb);
      }
    }
  }
}
