/**
  Reading authenticated chunk streams (common/crypto/auth.go). Generators (nonces, size masks,
  padding lengths) are known by how often they were asked: an answer is a function of that number.
 */
module AuthStream {
  import opened Bytes
  import opened MultiBuffers
  import opened BufferedIO

  /** Where padding lengths come from: there is no padding, or a generator of its own, or the size codec's draws. */
  datatype Source = NoPadding | OwnDraws | SizeDraws

  /** What both ends share: the AEAD at its k-th use, the size codec and the padding length at their k-th draw. */
  datatype Suite = Suite(
    overhead: nat,
    sizeBytes: nat,
    maxPadding: nat,
    source: Source,
    seal: (nat, seq<byte>) -> seq<byte>,
    open: (nat, seq<byte>) -> Option<seq<byte>>,
    encodeSize: (nat, uint16) -> seq<byte>,
    decodeSize: (nat, seq<byte>) -> Option<uint16>,
    padding: nat -> uint16)

  /** An ideal AEAD opens what it sealed with the same nonce, and a size codec decodes what it encoded. */
  ghost predicate Ideal(s: Suite) {
    && (forall k: nat, p: seq<byte> :: |s.seal(k, p)| == |p| + s.overhead && s.open(k, s.seal(k, p)) == Some(p))
    && (forall k: nat, n: uint16 ::
          |s.encodeSize(k, n)| == s.sizeBytes && s.decodeSize(k, s.encodeSize(k, n)) == Some(n))
    && (forall k: nat :: s.padding(k) <= s.maxPadding)
    && s.sizeBytes > 0 && s.overhead + s.sizeBytes + s.maxPadding < BUFFER_SIZE
  }

  // ----- draws

  /** How often the size codec's generator and a padding generator of its own were asked. */
  datatype Gen = Gen(codec: nat, pads: nat)

  function PadLen(s: Suite, g: Gen): uint16 {
    match s.source
    case NoPadding => 0
    case OwnDraws => s.padding(g.pads)
    case SizeDraws => s.padding(g.codec)
  }

  /** After a padding length. */
  function Drawn(s: Suite, g: Gen): Gen {
    match s.source
    case NoPadding => g
    case OwnDraws => Gen(g.codec, g.pads + 1)
    case SizeDraws => Gen(g.codec + 1, g.pads)
  }

  /** After a padding length and a size: one chunk. */
  function Next(s: Suite, g: Gen): Gen {
    Gen(Drawn(s, g).codec + 1, Drawn(s, g).pads)
  }

  /** After k chunks and nothing else. */
  function GenAt(s: Suite, k: nat): Gen {
    if k == 0 then Gen(0, 0) else Next(s, GenAt(s, k - 1))
  }

  // ----- chunks

  /** One chunk: its coded size, its plain text, and the padding behind its cipher text. */
  datatype Chunk = Chunk(header: seq<byte>, plain: seq<byte>, noise: seq<byte>)

  function ChunkSize(s: Suite, c: Chunk): nat {
    |c.plain| + s.overhead + |c.noise|
  }

  /** The sealed text and the padding. */
  function Body(s: Suite, k: nat, c: Chunk): seq<byte> {
    s.seal(k, c.plain) + c.noise
  }

  /** Chunks number k, k + 1, ... on the wire. */
  function Wire(s: Suite, k: nat, cs: seq<Chunk>): seq<byte>
    decreases cs
  {
    if cs == [] then [] else cs[0].header + Body(s, k, cs[0]) + Wire(s, k + 1, cs[1..])
  }

  /** The size a reader in step finds in the header of chunk k, and the padding it expects there. */
  function Decoded(s: Suite, k: nat, c: Chunk): Option<uint16> {
    s.decodeSize(Drawn(s, GenAt(s, k)).codec, c.header)
  }

  function Expected(s: Suite, k: nat): uint16 {
    PadLen(s, GenAt(s, k))
  }

  /** How much of a body the reader opens: a negative bound of a buffer counts from its end. */
  function SealedLength(size: uint16, padding: uint16): int {
    if size >= padding then size as int - padding as int
    else if size <= BUFFER_SIZE then 2 * size as int - padding as int
    else -1
  }

  /** The size that means the end of the stream. */
  function EndSize(s: Suite, padding: uint16): uint16 {
    (s.overhead + padding as int) % 0x1_0000
  }

  /** A reader in step gets the text of chunk k and stands behind it. */
  predicate Reads(s: Suite, k: nat, c: Chunk) {
    && ChunkSize(s, c) < 0x1_0000 && Decoded(s, k, c) == Some(ChunkSize(s, c))
    && ChunkSize(s, c) != EndSize(s, Expected(s, k))
    && SealedLength(ChunkSize(s, c), Expected(s, k)) == |c.plain| + s.overhead
  }

  /** A reader in step takes chunk k for the end. */
  predicate Ends(s: Suite, k: nat, c: Chunk) {
    Decoded(s, k, c) == Some(EndSize(s, Expected(s, k)))
  }

  /** A reader in step gets all chunks and meets the end behind them. */
  predicate Walkable(s: Suite, k: nat, data: seq<Chunk>, end: Chunk)
    decreases data
  {
    if data == [] then Ends(s, k, end) else Reads(s, k, data[0]) && Walkable(s, k + 1, data[1..], end)
  }

  // ----- what a reader does, whatever is on the wire

  datatype ReadError = NoError | Soft | Eof | Broken | Panic

  /** A reader: unread bytes, nonces used, draws, a size it parked with its padding, and whether it met the end. */
  datatype Reading = Reading(
    unread: seq<byte>, opens: nat, gen: Gen, parked: Option<(uint16, uint16)>, done: bool)

  datatype Sized = Sized(err: ReadError, size: uint16, padding: uint16, next: Reading)

  /** The text of a chunk; a large one does not keep to a buffer of its own. */
  datatype Piece = Piece(large: bool, plain: seq<byte>)

  datatype Step = Step(err: ReadError, got: seq<Piece>, next: Reading)

  /** readSize. */
  function TakeSize(s: Suite, r: Reading): Sized {
    if r.parked.Some? then
      Sized(NoError, r.parked.value.0, r.parked.value.1, r.(parked := None))
    else if |r.unread| < s.sizeBytes then
      Sized(if r.unread == [] then Eof else Broken, 0, 0, r.(unread := []))
    else
      var next := r.(unread := r.unread[s.sizeBytes..], gen := Next(s, r.gen));
      var size := s.decodeSize(Drawn(s, r.gen).codec, r.unread[..s.sizeBytes]);
      if size.None? then Sized(Broken, 0, 0, next) else Sized(NoError, size.value, PadLen(s, r.gen), next)
  }

  /** A body of n bytes. The failure of one that fits into a buffer is swallowed: no text and no error. */
  function TakeBody(s: Suite, r: Reading, n: uint16, padding: uint16): Step {
    var failed := if n <= BUFFER_SIZE then NoError else Broken;
    if |r.unread| < n then
      Step(failed, [], r.(unread := []))
    else if SealedLength(n, padding) < 0 then
      Step(if n <= BUFFER_SIZE then Panic else Broken, [], r.(unread := r.unread[n..]))
    else
      var next := r.(unread := r.unread[n..], opens := r.opens + 1);
      var plain := s.open(r.opens, r.unread[..SealedLength(n, padding)]);
      if plain.None? then Step(failed, [], next)
      else Step(NoError, [Piece(n > BUFFER_SIZE || |plain.value| > BUFFER_SIZE, plain.value)], next)
  }

  /** readInternal, waiting for the chunk. */
  function ReadChunk(s: Suite, r: Reading): Step {
    if r.done then Step(Eof, [], r)
    else
      var z := TakeSize(s, r);
      if z.err != NoError then Step(z.err, [], z.next)
      else if z.size == EndSize(s, z.padding) then Step(Eof, [], z.next.(done := true))
      else TakeBody(s, z.next, z.size, z.padding)
  }

  /** A chunk that has not arrived completely leaves its size parked. */
  predicate Parks(s: Suite, r: Reading, r': Reading) {
    && !r.done
    && var z := TakeSize(s, r);
       z.err == NoError && z.size != EndSize(s, z.padding) && r' == z.next.(parked := Some((z.size, z.padding)))
  }

  function Measure(r: Reading): nat { 2 * |r.unread| + if r.parked.Some? then 1 else 0 }

  lemma SizeShrinks(s: Suite, r: Reading)
    requires s.sizeBytes > 0
    ensures var z := TakeSize(s, r); z.err == NoError ==> Measure(z.next) < Measure(r) && z.next.parked.None?
  {
  }

  lemma ReadShrinks(s: Suite, r: Reading)
    requires s.sizeBytes > 0
    ensures var h := ReadChunk(s, r); h.err == NoError ==> Measure(h.next) < Measure(r)
  {
    SizeShrinks(s, r);
  }

  datatype Walked = Walked(got: seq<Piece>, err: ReadError, end: Reading)

  function Ahead(got: seq<Piece>, w: Walked): Walked { w.(got := got + w.got) }

  /** Reading on until something ends it. */
  function Walk(s: Suite, r: Reading): Walked
    requires s.sizeBytes > 0
    decreases Measure(r)
  {
    ReadShrinks(s, r);
    var h := ReadChunk(s, r);
    if h.err != NoError then Walked([], h.err, h.next) else Ahead(h.got, Walk(s, h.next))
  }

  /** Parking changes nothing in the end. */
  lemma ParkedWalks(s: Suite, r: Reading, r': Reading)
    requires s.sizeBytes > 0 && Parks(s, r, r')
    ensures Walk(s, r') == Walk(s, r)
  {
    assert ReadChunk(s, r') == ReadChunk(s, r);
  }

  lemma AheadAhead(a: seq<Piece>, b: seq<Piece>, w: Walked)
    ensures Ahead(a, Ahead(b, w)) == Ahead(a + b, w)
  {
    ConcatAssociative(a, b, w.got);
  }

  // ----- pieces and buffers

  function Text(ps: seq<Piece>): seq<byte> { Flatten(Plains(ps)) }

  predicate AllSmall(ps: seq<Piece>) {
    forall i :: 0 <= i < |ps| ==> !ps[i].large
  }

  function Plains(ps: seq<Piece>): seq<seq<byte>> {
    seq(|ps|, i requires 0 <= i < |ps| => ps[i].plain)
  }

  /** The buffers of a multi-buffer, one by one. */
  function Texts(mb: MultiBuffer): seq<seq<byte>> {
    seq(|mb|, i requires 0 <= i < |mb| => mb[i].bytes)
  }

  /** `mb` holds the pieces: their bytes, and if none is large each of them in a buffer of its own. */
  ghost predicate Holds(mb: MultiBuffer, ps: seq<Piece>) {
    Content(mb) == Text(ps) && (AllSmall(ps) ==> Texts(mb) == Plains(ps))
  }

  /** The pieces of one read are added. */
  ghost predicate Added(mb: MultiBuffer, mb': MultiBuffer, got: seq<Piece>) {
    if got == [] then mb' == mb
    else
      && |got| == 1 && Content(mb') == Content(mb) + got[0].plain
      && (!got[0].large ==> |got[0].plain| <= BUFFER_SIZE && mb' == mb + [Window(0, got[0].plain)])
  }

  lemma PlainsConcat(a: seq<Piece>, b: seq<Piece>)
    ensures Plains(a + b) == Plains(a) + Plains(b)
  {
  }

  lemma TextConcat(a: seq<Piece>, b: seq<Piece>)
    ensures Text(a + b) == Text(a) + Text(b)
  {
    PlainsConcat(a, b);
    FlattenConcat(Plains(a), Plains(b));
  }

  lemma TextOne(p: Piece)
    ensures Text([p]) == p.plain
  {
    assert Plains([p]) == [p.plain];
    FlattenOne(p.plain);
  }

  lemma SmallParts(a: seq<Piece>, b: seq<Piece>)
    requires AllSmall(a + b)
    ensures AllSmall(a) && AllSmall(b)
  {
    assert forall i :: 0 <= i < |a| ==> (a + b)[i] == a[i];
    assert forall i :: 0 <= i < |b| ==> (a + b)[|a| + i] == b[i];
  }

  lemma TextsConcat(a: MultiBuffer, b: MultiBuffer)
    ensures Texts(a + b) == Texts(a) + Texts(b)
  {
  }

  lemma HoldsMore(mb: MultiBuffer, mb': MultiBuffer, ps: seq<Piece>, got: seq<Piece>)
    requires Holds(mb, ps) && Added(mb, mb', got)
    ensures Holds(mb', ps + got)
  {
    TextConcat(ps, got);
    if got == [] {
      assert ps + got == ps;
    } else {
      assert got == [got[0]];
      TextOne(got[0]);
      if AllSmall(ps + got) {
        SmallParts(ps, got);
        PlainsConcat(ps, got);
        TextsConcat(mb, [Window(0, got[0].plain)]);
        assert Plains(got) == [got[0].plain] == Texts([Window(0, got[0].plain)]);
      }
    }
  }

  lemma HoldsConcat(a: MultiBuffer, b: MultiBuffer, ps: seq<Piece>, qs: seq<Piece>)
    requires Holds(a, ps) && Holds(b, qs)
    ensures Holds(a + b, ps + qs)
  {
    ContentConcat(a, b);
    TextConcat(ps, qs);
    if AllSmall(ps + qs) {
      SmallParts(ps, qs);
      PlainsConcat(ps, qs);
      TextsConcat(a, b);
    }
  }

  // ----- the reader

  class AuthenticationReader {
    const suite: Suite
    const reader: BufferedReader
    var size: uint16
    var paddingLen: uint16
    var hasSize: bool
    var done: bool
    // How often the AEAD and the generators were asked.
    var opens: nat
    var gen: Gen

    constructor (suite: Suite, reader: BufferedReader)
      ensures this.suite == suite && this.reader == reader
      ensures View() == Reading(reader.Unread(), 0, Gen(0, 0), None, false)
    {
      this.suite, this.reader := suite, reader;
      size, paddingLen, hasSize, done := 0, 0, false, false;
      opens, gen := 0, Gen(0, 0);
    }

    ghost function View(): Reading
      reads this, reader
    {
      Reading(reader.Unread(), opens, gen, if hasSize then Some((size, paddingLen)) else None, done)
    }

    method ReadSize() returns (err: ReadError, n: uint16, padding: uint16)
      modifies this, reader
      ensures Sized(err, n, padding, View()) == TakeSize(suite, old(View()))
      ensures err == Eof ==> |old(reader.Unread())| < suite.sizeBytes
    {
      err, n, padding := NoError, 0, 0;
      if hasSize {
        hasSize := false;
        return NoError, size, paddingLen;
      }
      var b := reader.ReadFull(suite.sizeBytes);
      if !b.Full? {
        return if b.EndOfStream? then Eof else Broken, 0, 0;
      }
      var expected := PadLen(suite, gen);
      gen := Drawn(suite, gen);
      var decoded := suite.decodeSize(gen.codec, b.bytes);
      gen := Gen(gen.codec + 1, gen.pads);
      if decoded.None? {
        return Broken, 0, 0;
      }
      n, padding := decoded.value, expected;
    }

    method ReadBody(n: uint16, padding: uint16, mb: MultiBuffer)
      returns (err: ReadError, mb': MultiBuffer, ghost got: seq<Piece>)
      modifies this`opens, reader
      ensures Step(err, got, View()) == TakeBody(suite, old(View()), n, padding) && Added(mb, mb', got)
    {
      err, mb', got := if n <= BUFFER_SIZE then NoError else Broken, mb, [];
      var b := reader.ReadFull(n);
      if !b.Full? {
        return;
      }
      var to := SealedLength(n, padding);
      if to < 0 {
        err := if n <= BUFFER_SIZE then Panic else Broken;
        return;
      }
      var plain := suite.open(opens, b.bytes[..to]);
      assert b.bytes[..to] == old(reader.Unread())[..to];
      opens := opens + 1;
      if plain.None? {
        return;
      }
      var large := n > BUFFER_SIZE || |plain.value| > BUFFER_SIZE;
      if large {
        mb' := MergeBytes(mb, plain.value);
      } else {
        mb' := mb + [Window(0, plain.value)];
        ContentAppend(mb, Window(0, plain.value));
      }
      err, got := NoError, [Piece(large, plain.value)];
    }

    /** readInternal once the size is known. */
    method ReadSized(soft: bool, n: uint16, padding: uint16, mb: MultiBuffer)
      returns (err: ReadError, mb': MultiBuffer, ghost got: seq<Piece>)
      modifies this, reader
      ensures err == Soft ==>
                && soft && mb' == mb && got == [] && n != EndSize(suite, padding)
                && View() == old(View()).(parked := Some((n, padding)))
      ensures err == Eof ==> done
      ensures err != Soft ==>
                && Added(mb, mb', got)
                && Step(err, got, View()) ==
                   (if n == EndSize(suite, padding) then Step(Eof, [], old(View()).(done := true))
                    else TakeBody(suite, old(View()), n, padding))
    {
      mb', got := mb, [];
      if n == EndSize(suite, padding) {
        done := true;
        return Eof, mb', got;
      }
      if soft && n > reader.BufferedBytes() {
        size, paddingLen, hasSize := n, padding, true;
        return Soft, mb', got;
      }
      err, mb', got := ReadBody(n, padding, mb);
    }

    /**
      readInternal. It does what ReadChunk says, or, in soft mode, gives up without losing anything
      when the chunk has not arrived completely.
     */
    method ReadInternal(soft: bool, mb: MultiBuffer)
      returns (err: ReadError, mb': MultiBuffer, ghost got: seq<Piece>)
      modifies this, reader
      ensures err == Soft ==>
                && soft && mb' == mb && got == []
                && (View() == old(View()) || Parks(suite, old(View()), View()))
      ensures err != Soft ==> Step(err, got, View()) == ReadChunk(suite, old(View())) && Added(mb, mb', got)
      ensures soft && err == Eof ==> done
    {
      mb', got := mb, [];
      if soft && reader.BufferedBytes() < suite.sizeBytes {
        return Soft, mb', got;
      }
      if done {
        return Eof, mb', got;
      }
      var n, padding;
      err, n, padding := ReadSize();
      if err == NoError {
        err, mb', got := ReadSized(soft, n, padding, mb);
      }
    }

    /** What a read in the loop of ReadMultiBuffer means for the walk from where the reader stood before. */
    lemma Walks(before: Reading, err: ReadError, got: seq<Piece>, view: Reading)
      requires suite.sizeBytes > 0
      requires err == Soft ==> got == [] && (view == before || Parks(suite, before, view))
      requires err != Soft ==> Step(err, got, view) == ReadChunk(suite, before)
      ensures err == NoError ==> Walk(suite, before) == Ahead(got, Walk(suite, view)) && Measure(view) < Measure(before)
      ensures err == Soft ==> Walk(suite, before) == Walk(suite, view) && Measure(view) <= Measure(before)
      ensures err != NoError && err != Soft ==> Walk(suite, before) == Walked([], err, view)
      ensures err == Eof ==> Measure(view) <= Measure(before)
      ensures err == Eof && view.done ==> Walk(suite, view) == Walk(suite, before)
    {
      ReadShrinks(suite, before);
      SizeShrinks(suite, before);
      if err == Soft && view != before {
        ParkedWalks(suite, before, view);
      }
    }

    /**
      Between two reads of ReadMultiBuffer: the walk from `before` has yielded `got`, which `mb`
      holds, and goes on from where the reader stands.
     */
    ghost predicate Underway(before: Reading, mb: MultiBuffer, got: seq<Piece>)
      requires suite.sizeBytes > 0
      reads this, reader
    {
      && Holds(mb, got) && Walk(suite, before) == Ahead(got, Walk(suite, View()))
      && Measure(View()) < Measure(before)
    }

    lemma Goes(before: Reading, mb: MultiBuffer, got: seq<Piece>, from: Reading, err: ReadError, mb': MultiBuffer,
               more: seq<Piece>)
      requires suite.sizeBytes > 0 && Holds(mb, got) && Walk(suite, before) == Ahead(got, Walk(suite, from))
      requires Measure(from) <= Measure(before)
      requires err == Soft ==> mb' == mb && more == [] && (View() == from || Parks(suite, from, View()))
      requires err != Soft ==> Step(err, more, View()) == ReadChunk(suite, from) && Added(mb, mb', more)
      ensures err == NoError ==> Underway(before, mb', got + more)
      ensures (err == Soft || (err == Eof && done)) && Measure(from) < Measure(before) ==>
                Underway(before, mb', got + more)
      ensures err != NoError && err != Soft ==> Walk(suite, before) == Ahead(got, Walked([], err, View()))
    {
      Walks(from, err, more, View());
      if err == NoError {
        HoldsMore(mb, mb', got, more);
        AheadAhead(got, more, Walk(suite, View()));
      } else {
        assert more == [] && got + more == got;
      }
    }

    /** One more chunk if it has arrived. */
    method GatherNext(mb: MultiBuffer, ghost before: Reading, ghost got: seq<Piece>)
      returns (err: ReadError, mb': MultiBuffer, ghost got': seq<Piece>)
      requires suite.sizeBytes > 0 && Underway(before, mb, got)
      modifies this, reader
      ensures err == NoError || err == Soft || err == Eof ==> Underway(before, mb', got')
      ensures |got'| <= |got| + 1
      ensures err == Broken || err == Panic ==> Walk(suite, before).err == err
    {
      ghost var more;
      err, mb', more := ReadInternal(true, mb);
      Goes(before, mb, got, old(View()), err, mb', more);
      got' := got + more;
    }

    /**
      ReadMultiBuffer: one chunk, waiting for it, and up to fifteen more that have arrived. What it
      hands out is the beginning of the walk, and the walk goes on from where it stops; an error is
      the walk's own, and loses what was read with it.
     */
    method ReadMultiBuffer() returns (err: ReadError, mb: MultiBuffer, ghost got: seq<Piece>)
      requires suite.sizeBytes > 0
      modifies this, reader
      ensures err == NoError ==> Underway(old(View()), mb, got) && |got| <= 16
      ensures err != NoError ==> err != Soft && Walk(suite, old(View())).err == err
      ensures err == Eof ==> Walk(suite, old(View())) == Walked([], Eof, View())
    {
      err, mb, got := ReadInternal(false, []);
      Goes(old(View()), [], [], old(View()), err, mb, got);
      assert [] + got == got && Ahead([], Walked([], err, View())) == Walked([], err, View());
      if err != NoError {
        return;
      }
      var i := 1;
      while i < 16 && err == NoError
        invariant err == NoError || err == Soft || err == Eof
        invariant Underway(old(View()), mb, got) && |got| <= i <= 16
      {
        err, mb, got := GatherNext(mb, old(View()), got);
        if err == Broken || err == Panic {
          return;
        }
        i := i + 1;
      }
      err := NoError;
    }
  }

  /** Reads until something ends it: the walk, whatever the fragmentation of the transport. */
  method ReadAll(r: AuthenticationReader) returns (err: ReadError, mb: MultiBuffer, ghost got: seq<Piece>)
    requires r.suite.sizeBytes > 0
    modifies r, r.reader
    ensures err == Walk(r.suite, old(r.View())).err
    ensures err == Eof ==> Walked(got, Eof, r.View()) == Walk(r.suite, old(r.View())) && Holds(mb, got)
  {
    err, mb, got := NoError, [], [];
    while err == NoError
      invariant err == NoError ==>
                  Holds(mb, got) && Walk(r.suite, old(r.View())) == Ahead(got, Walk(r.suite, r.View()))
      invariant err != NoError ==> err == Walk(r.suite, old(r.View())).err
      invariant err == Eof ==> Walked(got, Eof, r.View()) == Walk(r.suite, old(r.View())) && Holds(mb, got)
      decreases err == NoError, Measure(r.View())
    {
      ghost var before, more := r.View(), [];
      var piece;
      err, piece, more := r.ReadMultiBuffer();
      if err == NoError {
        HoldsConcat(mb, piece, got, more);
        AheadAhead(got, more, Walk(r.suite, r.View()));
        mb, got := mb + piece, got + more;
      }
    }
  }
}
