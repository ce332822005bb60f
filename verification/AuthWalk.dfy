/**
  When a walk over chunks gets all of them: exactly if every size and every padding the reader
  expects is the one the writer used (common/crypto/auth.go).
 */
module AuthWalk {
  import opened Bytes
  import opened MultiBuffers
  import opened AuthStream

  // ----- the wire

  lemma WireStep(s: Suite, k: nat, c: Chunk, cs: seq<Chunk>)
    ensures Wire(s, k, [c] + cs) == c.header + Body(s, k, c) + Wire(s, k + 1, cs)
  {
    assert ([c] + cs)[1..] == cs;
  }

  lemma {:induction false} WireConcat(s: Suite, k: nat, a: seq<Chunk>, b: seq<Chunk>)
    ensures Wire(s, k, a + b) == Wire(s, k, a) + Wire(s, k + |a|, b)
    decreases a
  {
    if a == [] {
      assert a + b == b;
    } else {
      var rest, n := a[1..], k + |a|;
      var first, second, third := a[0].header + Body(s, k, a[0]), Wire(s, k + 1, rest), Wire(s, n, b);
      WireConcat(s, k + 1, rest, b);
      assert k + 1 + |rest| == n;
      WireStep(s, k, a[0], rest + b);
      assert [a[0]] + (rest + b) == a + b;
      ConcatAssociative(first, second, third);
    }
  }

  /** The wire from chunk k on: data, the terminator's size, and what comes behind that. */
  function Sent(s: Suite, k: nat, data: seq<Chunk>, end: Chunk, tail: seq<byte>): seq<byte> {
    Wire(s, k, data) + (end.header + tail)
  }

  lemma SentFront(s: Suite, k: nat, data: seq<Chunk>, end: Chunk, tail: seq<byte>)
    requires data != []
    ensures Sent(s, k, data, end, tail) ==
            data[0].header + (Body(s, k, data[0]) + Sent(s, k + 1, data[1..], end, tail))
  {
    var header, body, rest := data[0].header, Body(s, k, data[0]), Wire(s, k + 1, data[1..]);
    ConcatAssociative(header + body, rest, end.header + tail);
    ConcatAssociative(header, body, rest + (end.header + tail));
  }

  // ----- a reader in step

  /** Before chunk k, in step. */
  function Before(s: Suite, k: nat, unread: seq<byte>): Reading {
    Reading(unread, k, GenAt(s, k), None, false)
  }

  /** Behind the size of the terminator, which is number k. */
  function Through(s: Suite, k: nat, tail: seq<byte>): Reading {
    Reading(tail, k, GenAt(s, k + 1), None, true)
  }

  function PieceOf(s: Suite, c: Chunk): Piece { Piece(ChunkSize(s, c) > BUFFER_SIZE, c.plain) }

  function Pieces(s: Suite, cs: seq<Chunk>): seq<Piece> {
    if cs == [] then [] else [PieceOf(s, cs[0])] + Pieces(s, cs[1..])
  }

  /** Headers are as long as sizes are coded, and a text that counts is not empty. */
  predicate Formed(s: Suite, data: seq<Chunk>, end: Chunk) {
    && (forall i :: 0 <= i < |data| ==> |data[i].header| == s.sizeBytes && data[i].plain != [])
    && |end.header| == s.sizeBytes
  }

  /** What a reader in step finds in front of it. */
  lemma SizeInStep(s: Suite, k: nat, c: Chunk, follow: seq<byte>)
    requires |c.header| == s.sizeBytes
    ensures var z := TakeSize(s, Before(s, k, c.header + follow));
            var next := Reading(follow, k, GenAt(s, k + 1), None, false);
            if Decoded(s, k, c).None? then z.err == Broken
            else z == Sized(NoError, Decoded(s, k, c).value, Expected(s, k), next)
  {
    assert (c.header + follow)[..s.sizeBytes] == c.header && (c.header + follow)[s.sizeBytes..] == follow;
    assert GenAt(s, k + 1) == Next(s, GenAt(s, k));
  }

  lemma BodyParts(s: Suite, k: nat, c: Chunk, follow: seq<byte>)
    requires Ideal(s)
    ensures |Body(s, k, c)| == ChunkSize(s, c)
    ensures (Body(s, k, c) + follow)[..|c.plain| + s.overhead] == s.seal(k, c.plain)
    ensures (Body(s, k, c) + follow)[ChunkSize(s, c)..] == follow
  {
    assert |s.seal(k, c.plain)| == |c.plain| + s.overhead;
  }

  lemma ReadsChunk(s: Suite, k: nat, c: Chunk, follow: seq<byte>)
    requires Ideal(s) && |c.header| == s.sizeBytes && Reads(s, k, c)
    ensures ReadChunk(s, Before(s, k, c.header + (Body(s, k, c) + follow))) ==
            Step(NoError, [PieceOf(s, c)], Before(s, k + 1, follow))
  {
    SizeInStep(s, k, c, Body(s, k, c) + follow);
    BodyParts(s, k, c, follow);
  }

  lemma EndsChunk(s: Suite, k: nat, c: Chunk, tail: seq<byte>)
    requires |c.header| == s.sizeBytes && Ends(s, k, c)
    ensures ReadChunk(s, Before(s, k, c.header + tail)) == Step(Eof, [], Through(s, k, tail))
  {
    SizeInStep(s, k, c, tail);
  }

  lemma WalkFirst(s: Suite, r: Reading, got: seq<Piece>, next: Reading)
    requires s.sizeBytes > 0 && ReadChunk(s, r) == Step(NoError, got, next)
    ensures Walk(s, r) == Ahead(got, Walk(s, next))
  {
  }

  lemma WalkLast(s: Suite, r: Reading, err: ReadError, next: Reading)
    requires s.sizeBytes > 0 && err != NoError && ReadChunk(s, r) == Step(err, [], next)
    ensures Walk(s, r) == Walked([], err, next)
  {
  }

  lemma WalkOn(s: Suite, k: nat, c: Chunk, unread: seq<byte>, follow: seq<byte>)
    requires Ideal(s) && |c.header| == s.sizeBytes && Reads(s, k, c)
    requires unread == c.header + (Body(s, k, c) + follow)
    ensures Walk(s, Before(s, k, unread)) == Ahead([PieceOf(s, c)], Walk(s, Before(s, k + 1, follow)))
  {
    ReadsChunk(s, k, c, follow);
    WalkFirst(s, Before(s, k, unread), [PieceOf(s, c)], Before(s, k + 1, follow));
  }

  lemma WalkEnd(s: Suite, k: nat, c: Chunk, tail: seq<byte>)
    requires s.sizeBytes > 0 && |c.header| == s.sizeBytes && Ends(s, k, c)
    ensures Walk(s, Before(s, k, c.header + tail)) == Walked([], Eof, Through(s, k, tail))
  {
    EndsChunk(s, k, c, tail);
    WalkLast(s, Before(s, k, c.header + tail), Eof, Through(s, k, tail));
  }

  lemma WalkBack(s: Suite, k: nat, data: seq<Chunk>, unread: seq<byte>, follow: seq<byte>, last: Reading)
    requires Ideal(s) && data != [] && |data[0].header| == s.sizeBytes && Reads(s, k, data[0])
    requires unread == data[0].header + (Body(s, k, data[0]) + follow)
    requires Walk(s, Before(s, k + 1, follow)) == Walked(Pieces(s, data[1..]), Eof, last)
    ensures Walk(s, Before(s, k, unread)) == Walked(Pieces(s, data), Eof, last)
  {
    WalkOn(s, k, data[0], unread, follow);
  }

  /** If every chunk reads, the walk gets them all and stops right behind the size of the terminator. */
  lemma {:induction false} WalksAll(s: Suite, k: nat, data: seq<Chunk>, end: Chunk, tail: seq<byte>, n: nat)
    requires Ideal(s) && Formed(s, data, end) && Walkable(s, k, data, end) && n == k + |data|
    ensures Walk(s, Before(s, k, Sent(s, k, data, end, tail))) == Walked(Pieces(s, data), Eof, Through(s, n, tail))
    decreases data
  {
    if data == [] {
      assert Sent(s, k, data, end, tail) == end.header + tail;
      WalkEnd(s, k, end, tail);
    } else {
      var rest := Sent(s, k + 1, data[1..], end, tail);
      WalksAll(s, k + 1, data[1..], end, tail, n);
      SentFront(s, k, data, end, tail);
      WalkBack(s, k, data, Sent(s, k, data, end, tail), rest, Through(s, n, tail));
    }
  }

  // ----- nothing but that

  /** How many bytes the texts from number j on have. */
  function Left(data: seq<Chunk>, j: nat): nat
    decreases |data| - j
  {
    if j >= |data| then 0 else |data[j].plain| + Left(data, j + 1)
  }

  /** Where chunk j begins on the wire. */
  function Start(s: Suite, data: seq<Chunk>, j: nat): nat
    requires j <= |data|
  {
    |Wire(s, 0, data[..j])|
  }

  /** Where the sealed text number j begins on the wire. */
  function TextStart(s: Suite, data: seq<Chunk>, j: nat): nat
    requires j <= |data|
  {
    Start(s, data, j) + s.sizeBytes
  }

  /**
    No piece of the wire opens, with the nonce of a text that was sent, but that text in its place:
    nothing was forged, and nothing came out like it by chance.
   */
  ghost predicate Genuine(s: Suite, data: seq<Chunk>, wire: seq<byte>) {
    forall j: nat, a: nat, b: nat ::
      j < |data| && a <= b <= |wire| && s.open(j, wire[a..b]).Some? ==>
        a == TextStart(s, data, j) && b == a + |data[j].plain| + s.overhead
  }

  ghost predicate Suffix(u: seq<byte>, wire: seq<byte>) {
    |u| <= |wire| && u == wire[|wire| - |u|..]
  }

  lemma SuffixPart(u: seq<byte>, wire: seq<byte>, n: nat)
    requires Suffix(u, wire) && n <= |u|
    ensures Suffix(u[n..], wire) && u[..n] == wire[|wire| - |u|..|wire| - |u| + n]
  {
  }

  /** Where a chunk begins and what stands there. */
  lemma SentAt(s: Suite, data: seq<Chunk>, end: Chunk, tail: seq<byte>, j: nat)
    requires j <= |data|
    ensures Sent(s, 0, data, end, tail) == Wire(s, 0, data[..j]) + Sent(s, j, data[j..], end, tail)
  {
    WireConcat(s, 0, data[..j], data[j..]);
    assert data[..j] + data[j..] == data;
    ConcatAssociative(Wire(s, 0, data[..j]), Wire(s, j, data[j..]), end.header + tail);
  }

  lemma TextAt(s: Suite, data: seq<Chunk>, end: Chunk, tail: seq<byte>, j: nat)
    requires Ideal(s) && Formed(s, data, end) && j < |data|
    ensures var wire, a := Sent(s, 0, data, end, tail), TextStart(s, data, j);
            && a + |data[j].plain| + s.overhead <= |wire|
            && wire[a..a + |data[j].plain| + s.overhead] == s.seal(j, data[j].plain)
  {
    var front, left := Wire(s, 0, data[..j]), data[j..];
    SentAt(s, data, end, tail, j);
    SentFront(s, j, left, end, tail);
    assert left[0] == data[j];
    BodyParts(s, j, data[j], Sent(s, j + 1, left[1..], end, tail));
    Between(front, data[j].header, Body(s, j, data[j]) + Sent(s, j + 1, left[1..], end, tail),
            |data[j].plain| + s.overhead);
  }

  lemma Between(front: seq<byte>, header: seq<byte>, rest: seq<byte>, n: nat)
    requires n <= |rest|
    ensures (front + (header + rest))[|front| + |header|..|front| + |header| + n] == rest[..n]
  {
  }

  /** What opens is the text that was sealed there. */
  lemma OpensText(s: Suite, data: seq<Chunk>, end: Chunk, tail: seq<byte>, u: seq<byte>, j: nat, n: nat)
    requires Ideal(s) && Formed(s, data, end) && Genuine(s, data, Sent(s, 0, data, end, tail))
    requires Suffix(u, Sent(s, 0, data, end, tail)) && n <= |u| && j < |data| && s.open(j, u[..n]).Some?
    ensures s.open(j, u[..n]) == Some(data[j].plain)
    ensures |Sent(s, 0, data, end, tail)| - |u| == TextStart(s, data, j) && n == |data[j].plain| + s.overhead
  {
    SuffixPart(u, Sent(s, 0, data, end, tail), n);
    TextAt(s, data, end, tail, j);
  }

  /** A read goes on in the bytes, uses at most one nonce, and yields a text only by opening it. */
  lemma StepShape(s: Suite, r: Reading, wire: seq<byte>)
    requires Suffix(r.unread, wire)
    ensures var z := TakeSize(s, r); Suffix(z.next.unread, wire) && z.next.opens == r.opens && z.next.done == r.done
    ensures var h := ReadChunk(s, r);
            && Suffix(h.next.unread, wire) && r.opens <= h.next.opens <= r.opens + 1
            && (h.got != [] ==> h.err == NoError && h.next.opens == r.opens + 1 && !r.done)
  {
    var z := TakeSize(s, r);
    if |r.unread| >= s.sizeBytes {
      SuffixPart(r.unread, wire, s.sizeBytes);
    }
    if |z.next.unread| >= z.size {
      SuffixPart(z.next.unread, wire, z.size);
    }
  }

  lemma StepOpens(s: Suite, r: Reading)
    requires ReadChunk(s, r).got != []
    ensures var z, h := TakeSize(s, r), ReadChunk(s, r);
            && z.err == NoError && z.size != EndSize(s, z.padding) && z.size <= |z.next.unread|
            && 0 <= SealedLength(z.size, z.padding) <= z.size
            && |h.got| == 1 && s.open(r.opens, z.next.unread[..SealedLength(z.size, z.padding)]) == Some(h.got[0].plain)
  {
  }

  /** From wherever it stands, a walk that uses the nonces of the texts only gets no more than the texts left. */
  lemma {:induction false} Bounded(s: Suite, data: seq<Chunk>, end: Chunk, tail: seq<byte>, r: Reading)
    requires Ideal(s) && Formed(s, data, end) && Genuine(s, data, Sent(s, 0, data, end, tail))
    requires Suffix(r.unread, Sent(s, 0, data, end, tail)) && Walk(s, r).end.opens == |data|
    ensures r.opens <= |data| && |Text(Walk(s, r).got)| <= Left(data, r.opens)
    decreases Measure(r)
  {
    var h := ReadChunk(s, r);
    StepShape(s, r, Sent(s, 0, data, end, tail));
    if h.err != NoError {
      WalkLast(s, r, h.err, h.next);
    } else {
      WalkFirst(s, r, h.got, h.next);
      ReadShrinks(s, r);
      Bounded(s, data, end, tail, h.next);
      StepBound(s, data, end, tail, r, Walk(s, h.next).got);
    }
  }

  lemma {:induction false} StepBound(s: Suite, data: seq<Chunk>, end: Chunk, tail: seq<byte>, r: Reading,
                                     rest: seq<Piece>)
    requires Ideal(s) && Formed(s, data, end) && Genuine(s, data, Sent(s, 0, data, end, tail))
    requires Suffix(r.unread, Sent(s, 0, data, end, tail))
    requires var h := ReadChunk(s, r); h.next.opens <= |data| && |Text(rest)| <= Left(data, h.next.opens)
    ensures |Text(ReadChunk(s, r).got + rest)| <= Left(data, r.opens)
    ensures ReadChunk(s, r).got == [] && ReadChunk(s, r).next.opens > r.opens ==>
              |Text(ReadChunk(s, r).got + rest)| < Left(data, r.opens)
  {
    var h, z := ReadChunk(s, r), TakeSize(s, r);
    StepShape(s, r, Sent(s, 0, data, end, tail));
    TextConcat(h.got, rest);
    if h.got != [] {
      StepOpens(s, r);
      OpensText(s, data, end, tail, z.next.unread, r.opens, SealedLength(z.size, z.padding));
      assert h.got == [h.got[0]];
      TextOne(h.got[0]);
    }
  }

  /** The end of a walk that got everything: all texts, one nonce each, and right behind the terminator's size. */
  predicate Arrived(data: seq<Chunk>, tail: seq<byte>, j: nat, w: Walked) {
    && w.err == Eof && w.end.done && w.end.unread == tail && w.end.opens == |data|
    && |Text(w.got)| == Left(data, j)
  }

  /** Reading a size, nothing parked and the end not met. */
  predicate Fresh(r: Reading) { r.parked.None? && !r.done }

  lemma Stuck(s: Suite, r: Reading, data: seq<Chunk>, tail: seq<byte>, j: nat)
    requires s.sizeBytes > 0 && Fresh(r) && r.unread == []
    ensures !Arrived(data, tail, j, Walk(s, r))
  {
    WalkLast(s, r, Eof, r);
  }

  lemma SizeRead(s: Suite, r: Reading, data: seq<Chunk>, tail: seq<byte>, j: nat)
    requires s.sizeBytes > 0 && Fresh(r) && Arrived(data, tail, j, Walk(s, r))
    ensures var z := TakeSize(s, r); z.err == NoError && Fresh(z.next) && z.next.opens == r.opens
    ensures |r.unread| >= s.sizeBytes && TakeSize(s, r).next.unread == r.unread[s.sizeBytes..]
  {
    var z := TakeSize(s, r);
    if z.err != NoError {
      WalkLast(s, r, z.err, z.next);
    }
  }

  lemma EndRead(s: Suite, r: Reading, data: seq<Chunk>, tail: seq<byte>, j: nat)
    requires s.sizeBytes > 0 && Fresh(r) && Arrived(data, tail, j, Walk(s, r))
    requires var z := TakeSize(s, r); z.err == NoError && z.size == EndSize(s, z.padding)
    ensures r.opens == |data| && TakeSize(s, r).next.unread == tail
  {
    var z := TakeSize(s, r);
    WalkLast(s, r, Eof, z.next.(done := true));
  }

  lemma BodyRead(s: Suite, r: Reading, data: seq<Chunk>, tail: seq<byte>, j: nat)
    requires s.sizeBytes > 0 && Fresh(r) && Arrived(data, tail, j, Walk(s, r))
    requires var z := TakeSize(s, r); z.err == NoError && z.size != EndSize(s, z.padding)
    ensures var z, h := TakeSize(s, r), ReadChunk(s, r);
            && h.err == NoError && z.size <= |z.next.unread| && SealedLength(z.size, z.padding) >= 0
            && h.next == z.next.(unread := z.next.unread[z.size..], opens := r.opens + 1)
            && Walk(s, r) == Ahead(h.got, Walk(s, h.next))
  {
    var z, h := TakeSize(s, r), ReadChunk(s, r);
    SizeRead(s, r, data, tail, j);
    if h.err != NoError {
      WalkLast(s, r, h.err, h.next);
    } else {
      WalkFirst(s, r, h.got, h.next);
      if z.size > |z.next.unread| {
        Stuck(s, h.next, data, tail, j);
      }
    }
  }

  /** A walk that arrives reads a size exactly where the next chunk begins, and opens that chunk's text there. */
  lemma {:induction false} OpensThere(s: Suite, data: seq<Chunk>, end: Chunk, tail: seq<byte>, r: Reading)
    requires Ideal(s) && Formed(s, data, end) && Genuine(s, data, Sent(s, 0, data, end, tail))
    requires Suffix(r.unread, Sent(s, 0, data, end, tail)) && Fresh(r)
    requires Arrived(data, tail, r.opens, Walk(s, r))
    requires var z := TakeSize(s, r); z.err == NoError && z.size != EndSize(s, z.padding)
    ensures var z, h := TakeSize(s, r), ReadChunk(s, r);
            && h.err == NoError && z.size <= |z.next.unread| && r.opens < |data|
            && h.next == z.next.(unread := z.next.unread[z.size..], opens := r.opens + 1)
            && |Sent(s, 0, data, end, tail)| - |r.unread| == Start(s, data, r.opens)
            && SealedLength(z.size, z.padding) == |data[r.opens].plain| + s.overhead
            && Arrived(data, tail, r.opens + 1, Walk(s, h.next))
  {
    var z, h, wire := TakeSize(s, r), ReadChunk(s, r), Sent(s, 0, data, end, tail);
    SizeRead(s, r, data, tail, r.opens);
    BodyRead(s, r, data, tail, r.opens);
    StepShape(s, r, wire);
    Bounded(s, data, end, tail, h.next);
    StepBound(s, data, end, tail, r, Walk(s, h.next).got);
    StepOpens(s, r);
    OpensText(s, data, end, tail, z.next.unread, r.opens, SealedLength(z.size, z.padding));
    TextConcat(h.got, Walk(s, h.next).got);
    assert h.got == [h.got[0]];
    TextOne(h.got[0]);
  }

  lemma {:induction false} EndsThere(s: Suite, data: seq<Chunk>, end: Chunk, tail: seq<byte>, r: Reading)
    requires s.sizeBytes > 0 && |end.header| == s.sizeBytes
    requires Suffix(r.unread, Sent(s, 0, data, end, tail)) && Fresh(r)
    requires Arrived(data, tail, r.opens, Walk(s, r))
    requires var z := TakeSize(s, r); z.err == NoError && z.size == EndSize(s, z.padding)
    ensures r.opens == |data| && |Sent(s, 0, data, end, tail)| - |r.unread| == Start(s, data, |data|)
  {
    SizeRead(s, r, data, tail, r.opens);
    EndRead(s, r, data, tail, r.opens);
    assert data[..|data|] == data;
  }

  lemma {:induction false} Placed(s: Suite, data: seq<Chunk>, end: Chunk, tail: seq<byte>, r: Reading)
    requires Ideal(s) && Formed(s, data, end) && Genuine(s, data, Sent(s, 0, data, end, tail))
    requires Suffix(r.unread, Sent(s, 0, data, end, tail)) && Fresh(r)
    requires Arrived(data, tail, r.opens, Walk(s, r))
    ensures r.opens <= |data| && |Sent(s, 0, data, end, tail)| - |r.unread| == Start(s, data, r.opens)
  {
    var z := TakeSize(s, r);
    SizeRead(s, r, data, tail, r.opens);
    if z.size == EndSize(s, z.padding) {
      EndsThere(s, data, end, tail, r);
    } else {
      OpensThere(s, data, end, tail, r);
    }
  }

  lemma StartNext(s: Suite, data: seq<Chunk>, j: nat)
    requires Ideal(s) && j < |data|
    ensures Start(s, data, j + 1) == Start(s, data, j) + |data[j].header| + ChunkSize(s, data[j])
  {
    assert data[..j + 1] == data[..j] + [data[j]];
    WireConcat(s, 0, data[..j], [data[j]]);
    BodyParts(s, j, data[j], []);
    assert Wire(s, j, [data[j]]) == data[j].header + Body(s, j, data[j]) + [];
  }

  /** The reader in step before chunk j. */
  function InStep(s: Suite, data: seq<Chunk>, end: Chunk, tail: seq<byte>, j: nat): Reading
    requires j <= |data|
  {
    Before(s, j, Sent(s, j, data[j..], end, tail))
  }

  lemma InStepSuffix(s: Suite, data: seq<Chunk>, end: Chunk, tail: seq<byte>, j: nat)
    requires j <= |data|
    ensures Suffix(InStep(s, data, end, tail, j).unread, Sent(s, 0, data, end, tail))
    ensures |Sent(s, 0, data, end, tail)| - |InStep(s, data, end, tail, j).unread| == Start(s, data, j)
  {
    SentAt(s, data, end, tail, j);
  }

  /** If the walk arrives from chunk j on, that chunk reads and the walk arrives from the next one on. */
  lemma {:induction false} MustRead(s: Suite, data: seq<Chunk>, end: Chunk, tail: seq<byte>, j: nat)
    requires Ideal(s) && Formed(s, data, end) && Genuine(s, data, Sent(s, 0, data, end, tail)) && j < |data|
    requires Arrived(data, tail, j, Walk(s, InStep(s, data, end, tail, j)))
    ensures Reads(s, j, data[j]) && Arrived(data, tail, j + 1, Walk(s, InStep(s, data, end, tail, j + 1)))
  {
    var r := InStep(s, data, end, tail, j);
    var rest := Sent(s, j + 1, data[j + 1..], end, tail);
    var h, z := ReadChunk(s, r), TakeSize(s, r);
    InStepSuffix(s, data, end, tail, j);
    InStepSuffix(s, data, end, tail, j + 1);
    assert data[j..][0] == data[j] && data[j..][1..] == data[j + 1..];
    SentFront(s, j, data[j..], end, tail);
    SizeInStep(s, j, data[j], Body(s, j, data[j]) + rest);
    SizeRead(s, r, data, tail, j);
    if z.size == EndSize(s, z.padding) {
      EndRead(s, r, data, tail, j);
    } else {
      OpensThere(s, data, end, tail, r);
      StepShape(s, r, Sent(s, 0, data, end, tail));
      Placed(s, data, end, tail, h.next);
      StartNext(s, data, j);
      BodyParts(s, j, data[j], rest);
    }
  }

  lemma {:induction false} MustEnd(s: Suite, data: seq<Chunk>, end: Chunk, tail: seq<byte>)
    requires Ideal(s) && Formed(s, data, end) && Genuine(s, data, Sent(s, 0, data, end, tail))
    requires Arrived(data, tail, |data|, Walk(s, InStep(s, data, end, tail, |data|)))
    ensures Ends(s, |data|, end)
  {
    var r := InStep(s, data, end, tail, |data|);
    InStepSuffix(s, data, end, tail, |data|);
    assert r.unread == end.header + tail;
    SizeInStep(s, |data|, end, tail);
    SizeRead(s, r, data, tail, |data|);
    if !Ends(s, |data|, end) {
      OpensThere(s, data, end, tail, r);
    }
  }

  lemma {:induction false} MustWalk(s: Suite, data: seq<Chunk>, end: Chunk, tail: seq<byte>, j: nat)
    requires Ideal(s) && Formed(s, data, end) && Genuine(s, data, Sent(s, 0, data, end, tail)) && j <= |data|
    requires Arrived(data, tail, j, Walk(s, InStep(s, data, end, tail, j)))
    ensures Walkable(s, j, data[j..], end)
    decreases |data| - j
  {
    if j == |data| {
      MustEnd(s, data, end, tail);
    } else {
      MustRead(s, data, end, tail, j);
      MustWalk(s, data, end, tail, j + 1);
      assert data[j..][0] == data[j] && data[j..][1..] == data[j + 1..];
    }
  }
}
