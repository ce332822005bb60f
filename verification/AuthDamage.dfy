/**
  Streams that were cut or damaged on the way (common/crypto/auth.go): what a reader still hands
  out, and how it ends. A chunk that fits into a buffer fails silently, a larger one does not.
 */
module AuthDamage {
  import opened Bytes
  import opened MultiBuffers
  import opened BufferedIO
  import opened AuthStream
  import opened AuthWalk
  import opened AuthRoundTrip

  // ----- up to the damage

  predicate AllRead(s: Suite, k: nat, data: seq<Chunk>)
    decreases data
  {
    data == [] || (|data[0].header| == s.sizeBytes && Reads(s, k, data[0]) && AllRead(s, k + 1, data[1..]))
  }

  lemma AheadNothing(w: Walked)
    ensures Ahead([], w) == w
  {
  }

  /** Chunks that are read as they were written come out, whatever is behind them. */
  lemma {:induction false} WalkThrough(s: Suite, k: nat, data: seq<Chunk>, follow: seq<byte>, n: nat)
    requires Ideal(s) && AllRead(s, k, data) && n == k + |data|
    ensures Walk(s, Before(s, k, Wire(s, k, data) + follow)) == Ahead(Pieces(s, data), Walk(s, Before(s, n, follow)))
    decreases data
  {
    if data == [] {
      assert Wire(s, k, data) + follow == follow;
      AheadNothing(Walk(s, Before(s, n, follow)));
    } else {
      var c, rest := data[0], data[1..];
      var next := Wire(s, k + 1, rest) + follow;
      WalkThrough(s, k + 1, rest, follow, n);
      ConcatAssociative(c.header + Body(s, k, c), Wire(s, k + 1, rest), follow);
      ConcatAssociative(c.header, Body(s, k, c), next);
      WalkOn(s, k, c, Wire(s, k, data) + follow, next);
      AheadAhead([PieceOf(s, c)], Pieces(s, rest), Walk(s, Before(s, n, follow)));
    }
  }

  // ----- at the damage

  /** The transport ends where a size should be, or in the middle of one. */
  lemma CutInSize(s: Suite, k: nat, follow: seq<byte>)
    requires s.sizeBytes > 0 && |follow| < s.sizeBytes
    ensures var w := Walk(s, Before(s, k, follow));
            w.got == [] && !w.end.done && w.err == if follow == [] then Eof else Broken
  {
    var r := Before(s, k, follow);
    WalkLast(s, r, if follow == [] then Eof else Broken, r.(unread := []));
  }

  /** A size that cannot be decoded is an error. */
  lemma BadSize(s: Suite, k: nat, c: Chunk, follow: seq<byte>)
    requires s.sizeBytes > 0 && |c.header| == s.sizeBytes && Decoded(s, k, c).None?
    ensures Walk(s, Before(s, k, c.header + follow)).err == Broken && Walk(s, Before(s, k, c.header + follow)).got == []
  {
    var r := Before(s, k, c.header + follow);
    SizeInStep(s, k, c, follow);
    WalkLast(s, r, Broken, TakeSize(s, r).next);
  }

  /** A header that announces n bytes, not the end. */
  predicate Announces(s: Suite, k: nat, c: Chunk, n: uint16) {
    |c.header| == s.sizeBytes && Decoded(s, k, c) == Some(n) && n != EndSize(s, Expected(s, k))
  }

  /** A large chunk that is cut short ends the reading with an error. */
  lemma LargeCutShort(s: Suite, k: nat, c: Chunk, n: uint16, follow: seq<byte>)
    requires s.sizeBytes > 0 && Announces(s, k, c, n) && n > BUFFER_SIZE && |follow| < n
    ensures Walk(s, Before(s, k, c.header + follow)).err == Broken && Walk(s, Before(s, k, c.header + follow)).got == []
  {
    var r := Before(s, k, c.header + follow);
    SizeInStep(s, k, c, follow);
    WalkLast(s, r, Broken, ReadChunk(s, r).next);
  }

  /** So does one that does not open, and nothing behind it is handed out. */
  lemma LargeDoesNotOpen(s: Suite, k: nat, c: Chunk, n: uint16, follow: seq<byte>)
    requires s.sizeBytes > 0 && Announces(s, k, c, n) && n > BUFFER_SIZE && Expected(s, k) <= n <= |follow|
    requires s.open(k, follow[..n as int - Expected(s, k) as int]).None?
    ensures Walk(s, Before(s, k, c.header + follow)).err == Broken && Walk(s, Before(s, k, c.header + follow)).got == []
  {
    var r := Before(s, k, c.header + follow);
    SizeInStep(s, k, c, follow);
    WalkLast(s, r, Broken, ReadChunk(s, r).next);
  }

  /** A small chunk that is cut short is not missed: the reading ends as the transport does. */
  lemma SmallCutShort(s: Suite, k: nat, c: Chunk, n: uint16, follow: seq<byte>)
    requires s.sizeBytes > 0 && Announces(s, k, c, n) && n <= BUFFER_SIZE && |follow| < n
    ensures var w := Walk(s, Before(s, k, c.header + follow)); w.err == Eof && w.got == [] && !w.end.done
  {
    var next := Reading([], k, GenAt(s, k + 1), None, false);
    SizeInStep(s, k, c, follow);
    WalkFirst(s, Before(s, k, c.header + follow), [], next);
    WalkLast(s, next, Eof, next);
    AheadNothing(Walk(s, next));
  }

  /** A small chunk number k with a body that does not open. */
  ghost predicate Damaged(s: Suite, k: nat, c: Chunk, junk: seq<byte>) {
    && |junk| <= BUFFER_SIZE && Announces(s, k, c, |junk|)
    && Expected(s, k) <= |junk| && s.open(k, junk[..|junk| - Expected(s, k) as int]).None?
  }

  /** It is passed over, and the reading goes on in step behind it. */
  lemma SmallDoesNotOpen(s: Suite, k: nat, c: Chunk, junk: seq<byte>, follow: seq<byte>, m: nat)
    requires s.sizeBytes > 0 && Damaged(s, k, c, junk) && m == k + 1
    ensures Walk(s, Before(s, k, c.header + (junk + follow))) == Walk(s, Before(s, m, follow))
  {
    var r, to := Before(s, k, c.header + (junk + follow)), |junk| - Expected(s, k) as int;
    SizeInStep(s, k, c, junk + follow);
    assert (junk + follow)[..to] == junk[..to] && (junk + follow)[|junk|..] == follow;
    WalkFirst(s, r, [], Before(s, m, follow));
    AheadNothing(Walk(s, Before(s, m, follow)));
  }

  /** A padding length more than twice the size leaves nothing to cut: the buffer's bounds are broken. */
  lemma CutBelowZero(s: Suite, k: nat, c: Chunk, n: uint16, follow: seq<byte>)
    requires s.sizeBytes > 0 && Announces(s, k, c, n) && n <= BUFFER_SIZE && n <= |follow| && 2 * n < Expected(s, k)
    ensures Walk(s, Before(s, k, c.header + follow)).err == Panic && Walk(s, Before(s, k, c.header + follow)).got == []
  {
    var r := Before(s, k, c.header + follow);
    SizeInStep(s, k, c, follow);
    WalkLast(s, r, Panic, ReadChunk(s, r).next);
  }

  // ----- streams

  lemma PassedOver(s: Suite, a: seq<Chunk>, k: nat, c: Chunk, junk: seq<byte>, rest: seq<byte>, m: nat)
    requires Ideal(s) && AllRead(s, 0, a) && Damaged(s, k, c, junk) && k == |a| && m == k + 1
    ensures Walk(s, Before(s, 0, Wire(s, 0, a) + (c.header + (junk + rest)))) ==
            Ahead(Pieces(s, a), Walk(s, Before(s, m, rest)))
  {
    WalkThrough(s, 0, a, c.header + (junk + rest), k);
    SmallDoesNotOpen(s, k, c, junk, rest, m);
  }

  /** A small chunk of a stream was damaged: its text is missing, and nothing else. */
  lemma OneTextIsMissing(s: Suite, a: seq<Chunk>, k: nat, c: Chunk, junk: seq<byte>, m: nat, b: seq<Chunk>, end: Chunk,
                         tail: seq<byte>, n: nat)
    requires Ideal(s) && AllRead(s, 0, a) && Damaged(s, k, c, junk) && k == |a| && m == k + 1
    requires Formed(s, b, end) && Walkable(s, m, b, end) && n == m + |b|
    ensures Walk(s, Before(s, 0, Wire(s, 0, a) + (c.header + (junk + Sent(s, m, b, end, tail))))) ==
            Walked(Pieces(s, a) + Pieces(s, b), Eof, Through(s, n, tail))
  {
    WalksAll(s, m, b, end, tail, n);
    PassedOver(s, a, k, c, junk, Sent(s, m, b, end, tail), m);
  }

  /** A stream that ends, or does not open, inside a large chunk: an error, and what was before it is all there was. */
  lemma LargeDamageIsFatal(s: Suite, a: seq<Chunk>, c: Chunk, n: uint16, follow: seq<byte>)
    requires Ideal(s) && AllRead(s, 0, a) && Announces(s, |a|, c, n) && n > BUFFER_SIZE && Expected(s, |a|) <= n
    requires |follow| < n || s.open(|a|, follow[..n as int - Expected(s, |a|) as int]).None?
    ensures var w := Walk(s, Before(s, 0, Wire(s, 0, a) + (c.header + follow)));
            w.err == Broken && w.got == Pieces(s, a)
  {
    WalkThrough(s, 0, a, c.header + follow, |a|);
    if |follow| < n {
      LargeCutShort(s, |a|, c, n, follow);
    } else {
      LargeDoesNotOpen(s, |a|, c, n, follow);
    }
    assert Pieces(s, a) + [] == Pieces(s, a);
  }

  // ----- at the reader

  /** A stream that is damaged in a large chunk is not read as one that has ended. */
  method ReadLargeDamage(suite: Suite, source: seq<MultiBuffer>, ghost a: seq<Chunk>, ghost c: Chunk, ghost n: uint16,
                         ghost follow: seq<byte>)
    returns (err: ReadError)
    requires Ideal(suite) && AllRead(suite, 0, a) && Announces(suite, |a|, c, n) && n > BUFFER_SIZE
    requires Expected(suite, |a|) <= n && Delivery(source) == Wire(suite, 0, a) + (c.header + follow)
    requires |follow| < n || suite.open(|a|, follow[..n as int - Expected(suite, |a|) as int]).None?
    ensures err == Broken
  {
    LargeDamageIsFatal(suite, a, c, n, follow);
    var e, _, _, _ := Receive(suite, source);
    err := e;
  }

  /** So a size of more than a buffer and fewer bytes than it says are an error, for any draws. */
  method ReadCutShort(suite: Suite, source: seq<MultiBuffer>, n: uint16, ghost tail: seq<byte>) returns (err: ReadError)
    requires Ideal(suite) && n > BUFFER_SIZE && |tail| < n
    requires Delivery(source) == suite.encodeSize(Drawn(suite, Gen(0, 0)).codec, n) + tail
    ensures err == Broken
  {
    ghost var c := Chunk(suite.encodeSize(Drawn(suite, Gen(0, 0)).codec, n), [], []);
    assert Wire(suite, 0, []) + (c.header + tail) == c.header + tail;
    err := ReadLargeDamage(suite, source, [], c, n, tail);
  }

  /** A stream with one damaged small chunk is read to its end without that chunk's text. */
  method ReadSmallDamage(suite: Suite, source: seq<MultiBuffer>, ghost a: seq<Chunk>, ghost c: Chunk,
                         ghost junk: seq<byte>, ghost m: nat, ghost b: seq<Chunk>, ghost end: Chunk,
                         ghost tail: seq<byte>)
    returns (err: ReadError, received: seq<byte>)
    requires Ideal(suite) && AllRead(suite, 0, a) && Damaged(suite, |a|, c, junk) && m == |a| + 1
    requires Formed(suite, b, end) && Walkable(suite, m, b, end)
    requires Delivery(source) == Wire(suite, 0, a) + (c.header + (junk + Sent(suite, m, b, end, tail)))
    ensures err == Eof && received == Text(Pieces(suite, a)) + Text(Pieces(suite, b))
  {
    OneTextIsMissing(suite, a, |a|, c, junk, m, b, end, tail, m + |b|);
    TextConcat(Pieces(suite, a), Pieces(suite, b));
    var e, mb, _, _ := Receive(suite, source);
    err, received := e, Content(mb);
  }
}
