/**
  Both ends of an authenticated chunk stream (common/crypto/auth.go): a writer, a transport that
  may cut the bytes as it likes, and a reader.
 */
module AuthRoundTrip {
  import opened Bytes
  import opened MultiBuffers
  import opened BufferedIO
  import opened AuthStream
  import opened AuthWalk
  import opened AuthWriter
  import opened AuthTune

  /** The texts are what the writes amount to: the packets, or pieces of the stream none of which is refused. */
  ghost predicate Amounts(s: Suite, packets: bool, writes: seq<MultiBuffer>, ps: seq<seq<byte>>) {
    if packets then ps == Texts(Flatten(writes)) else AllFit(s, ps) && Flatten(ps) == Delivery(writes)
  }

  lemma {:induction false} DeliveryAppend(writes: seq<MultiBuffer>, mb: MultiBuffer)
    ensures Delivery(writes + [mb]) == Delivery(writes) + Content(mb)
  {
    if writes == [] {
      assert [mb][1..] == [] && writes + [mb] == [mb];
    } else {
      assert (writes + [mb])[1..] == writes[1..] + [mb];
      DeliveryAppend(writes[1..], mb);
    }
  }

  lemma AmountsMore(s: Suite, packets: bool, writes: seq<MultiBuffer>, ps: seq<seq<byte>>, mb: MultiBuffer,
                    more: seq<seq<byte>>)
    requires Amounts(s, packets, writes, ps)
    requires if packets then more == Texts(mb) else AllFit(s, more) && Flatten(more) == Content(mb)
    ensures Amounts(s, packets, writes + [mb], ps + more)
  {
    if packets {
      FlattenConcat(writes, [mb]);
      FlattenOne(mb);
      TextsConcat(Flatten(writes), mb);
    } else {
      FlattenConcat(ps, more);
      DeliveryAppend(writes, mb);
    }
  }

  /** One write behind others. */
  method WriteMore(w: AuthenticationWriter, writes: seq<MultiBuffer>, i: nat, sent: seq<byte>,
                   ghost ps: seq<seq<byte>>)
    returns (sent': seq<byte>, ghost ps': seq<seq<byte>>)
    requires Ideal(w.suite) && i < |writes| && !IsEmpty(writes[i])
    requires w.Since(0, Gen(0, 0), ps, sent) && Amounts(w.suite, w.packets, writes[..i], ps)
    modifies w
    ensures w.Since(0, Gen(0, 0), ps', sent') && Amounts(w.suite, w.packets, writes[..i + 1], ps')
  {
    var wire, more := w.WriteMultiBuffer(writes[i]);
    WroteConcat(w.suite, w.noise, 0, Gen(0, 0), ps, old(w.seals), old(w.gen), sent, more, w.seals, w.gen, wire.value);
    AmountsMore(w.suite, w.packets, writes[..i], ps, writes[i], more);
    assert writes[..i + 1] == writes[..i] + [writes[i]];
    sent', ps' := sent + wire.value, ps + more;
  }

  /** The writes of a stream, each in turn, and the empty one that ends it. */
  method WriteAll(w: AuthenticationWriter, writes: seq<MultiBuffer>) returns (sent: seq<byte>, ghost ps: seq<seq<byte>>)
    requires Ideal(w.suite) && w.seals == 0 && w.gen == Gen(0, 0)
    requires forall i :: 0 <= i < |writes| ==> !IsEmpty(writes[i])
    modifies w
    ensures sent == StreamOf(w.suite, w.noise, ps) && Amounts(w.suite, w.packets, writes, ps)
  {
    sent, ps := [], [];
    var i := 0;
    while i < |writes|
      invariant 0 <= i <= |writes|
      invariant w.Since(0, Gen(0, 0), ps, sent) && Amounts(w.suite, w.packets, writes[..i], ps)
    {
      sent, ps := WriteMore(w, writes, i, sent, ps);
      i := i + 1;
    }
    assert writes[..i] == writes;
    var last, _ := w.WriteMultiBuffer([]);
    sent := sent + last.value;
  }

  /** A new reader of whatever arrives. */
  method Receive(suite: Suite, source: seq<MultiBuffer>)
    returns (err: ReadError, mb: MultiBuffer, ghost got: seq<Piece>, ghost end: Reading)
    requires suite.sizeBytes > 0
    ensures err == Walk(suite, Before(suite, 0, Delivery(source))).err
    ensures err == Eof ==> Walk(suite, Before(suite, 0, Delivery(source))) == Walked(got, Eof, end) && Holds(mb, got)
  {
    var reader := new BufferedReader(source);
    var r := new AuthenticationReader(suite, reader);
    err, mb, got := ReadAll(r);
    end := r.View();
  }

  lemma {:induction false} FitIsUnrefused(s: Suite, ps: seq<seq<byte>>, g: Gen)
    requires Ideal(s) && AllFit(s, ps)
    ensures Refused(s, ps, g) == 0 && Accepted(s, ps, g) == ps
    decreases ps
  {
    if ps != [] {
      assert PadLen(s, g) <= MaxPadding(s);
      FitIsUnrefused(s, ps[1..], Next(s, g));
    }
  }

  /** The writes through a new writer, the transport and a new reader. */
  method Transfer(suite: Suite, noise: Noise, packets: bool, writes: seq<MultiBuffer>,
                  cut: seq<byte> -> seq<MultiBuffer>)
    returns (err: ReadError, mb: MultiBuffer, ghost ps: seq<seq<byte>>, ghost got: seq<Piece>, ghost end: Reading)
    requires Padded(suite, noise)
    requires forall i :: 0 <= i < |writes| ==> !IsEmpty(writes[i])
    requires forall b :: Delivery(cut(b)) == b
    ensures Amounts(suite, packets, writes, ps)
    ensures err == Walk(suite, Before(suite, 0, StreamOf(suite, noise, ps))).err
    ensures err == Eof ==>
              Walk(suite, Before(suite, 0, StreamOf(suite, noise, ps))) == Walked(got, Eof, end) && Holds(mb, got)
  {
    var w := new AuthenticationWriter(suite, noise, packets);
    var sent;
    sent, ps := WriteAll(w, writes);
    err, mb, got, end := Receive(suite, cut(sent));
  }

  lemma {:induction false} ContentTexts(mb: MultiBuffer)
    ensures Content(mb) == Flatten(Texts(mb))
  {
    if mb != [] {
      ContentTexts(mb[1..]);
      assert Texts(mb)[1..] == Texts(mb[1..]);
    }
  }

  lemma {:induction false} Outcome(s: Suite, noise: Noise, ps: seq<seq<byte>>, err: ReadError, mb: MultiBuffer,
                                   got: seq<Piece>, end: Reading)
    requires Padded(s, noise)
    requires err == Walk(s, Before(s, 0, StreamOf(s, noise, ps))).err
    requires err == Eof ==> Walk(s, Before(s, 0, StreamOf(s, noise, ps))) == Walked(got, Eof, end) && Holds(mb, got)
    ensures Tuned(s, ps, 0, Gen(0, 0)) ==> Delivered(s, noise, ps, err, Texts(mb), end)
    ensures Unforged(s, noise, ps) && Delivered(s, noise, ps, err, Texts(mb), end) ==> Tuned(s, ps, 0, Gen(0, 0))
  {
    if Tuned(s, ps, 0, Gen(0, 0)) {
      TunedDelivers(s, noise, ps);
    } else if Unforged(s, noise, ps) && Delivered(s, noise, ps, err, Texts(mb), end) {
      ContentTexts(mb);
      DeliveredIsTuned(s, noise, ps, Texts(mb));
    }
  }

  /**
    The stream survives: any non-empty writes followed by an empty one are decoded to exactly the
    bytes written, and then EOF, whatever multi-buffers `cut` makes of the bytes on the way.
   */
  method RoundTrip(suite: Suite, noise: Noise, writes: seq<MultiBuffer>, cut: seq<byte> -> seq<MultiBuffer>)
    returns (err: ReadError, received: seq<byte>, ghost end: Reading)
    requires Padded(suite, noise)
    requires forall i :: 0 <= i < |writes| ==> !IsEmpty(writes[i])
    requires forall b :: Delivery(cut(b)) == b
    ensures received == Delivery(writes) && err == Eof && end.done
  {
    var mb;
    ghost var ps, got;
    err, mb, ps, got, end := Transfer(suite, noise, false, writes, cut);
    FitIsUnrefused(suite, ps, Gen(0, 0));
    UnrefusedIsTuned(suite, ps, 0);
    Outcome(suite, noise, ps, err, mb, got, end);
    ContentTexts(mb);
    received := Content(mb);
  }

  /**
    Packets survive if reader and writer are in tune, and unless something opens that was not
    sealed only then: each in a buffer of its own, whatever `cut` makes of the bytes on the way.
   */
  method PacketRoundTrip(suite: Suite, noise: Noise, writes: seq<MultiBuffer>, cut: seq<byte> -> seq<MultiBuffer>)
    returns (err: ReadError, received: MultiBuffer, ghost end: Reading)
    requires Padded(suite, noise)
    requires forall i :: 0 <= i < |writes| ==> !IsEmpty(writes[i])
    requires forall b :: Delivery(cut(b)) == b
    ensures var ps := Texts(Flatten(writes));
            Tuned(suite, ps, 0, Gen(0, 0)) ==> err == Eof && Texts(received) == Accepted(suite, ps, Gen(0, 0))
    ensures var ps := Texts(Flatten(writes));
            Tuned(suite, ps, 0, Gen(0, 0)) ==> Delivered(suite, noise, ps, err, Texts(received), end)
    ensures var ps := Texts(Flatten(writes));
            Unforged(suite, noise, ps) ==>
              (Delivered(suite, noise, ps, err, Texts(received), end) <==> Tuned(suite, ps, 0, Gen(0, 0)))
  {
    ghost var ps, got;
    err, received, ps, got, end := Transfer(suite, noise, true, writes, cut);
    Outcome(suite, noise, ps, err, received, got, end);
  }

  lemma {:induction false} UnrefusedAccepts(s: Suite, mb: MultiBuffer, g: Gen)
    requires Refused(s, Texts(mb), g) == 0
    ensures Accepted(s, Texts(mb), g) == NonEmptyPackets(mb)
    decreases mb
  {
    if mb != [] {
      assert Texts(mb)[1..] == Texts(mb[1..]) && Texts(mb)[0] == mb[0].bytes;
      UnrefusedAccepts(s, mb[1..], if mb[0].bytes == [] then g else Next(s, g));
    }
  }

  /** If no packet is refused, all of them arrive that are not empty. */
  method UnrefusedRoundTrip(suite: Suite, noise: Noise, writes: seq<MultiBuffer>, cut: seq<byte> -> seq<MultiBuffer>)
    returns (err: ReadError, received: MultiBuffer, ghost end: Reading)
    requires Padded(suite, noise) && Refused(suite, Texts(Flatten(writes)), Gen(0, 0)) == 0
    requires forall i :: 0 <= i < |writes| ==> !IsEmpty(writes[i])
    requires forall b :: Delivery(cut(b)) == b
    ensures Texts(received) == NonEmptyPackets(Flatten(writes)) && err == Eof && end.done
  {
    err, received, end := PacketRoundTrip(suite, noise, writes, cut);
    UnrefusedIsTuned(suite, Texts(Flatten(writes)), 0);
    UnrefusedAccepts(suite, Flatten(writes), Gen(0, 0));
  }

  lemma SteadyOutcome(s: Suite, noise: Noise, ps: seq<seq<byte>>, err: ReadError, texts: seq<seq<byte>>, end: Reading)
    requires Padded(s, noise) && Steady(s)
    requires Tuned(s, ps, 0, Gen(0, 0)) ==> Delivered(s, noise, ps, err, texts, end)
    ensures texts == NonEmptyUpTo(ps, BUFFER_SIZE - s.sizeBytes - s.overhead - PadLen(s, Gen(0, 0)) as int)
    ensures err == Eof && end.done
  {
    SteadyIsTuned(s, ps, 0, Gen(0, 0));
  }

  /** If there is no padding, or steady padding, exactly those packets are missing that do not fit. */
  method SteadyRoundTrip(suite: Suite, noise: Noise, writes: seq<MultiBuffer>, cut: seq<byte> -> seq<MultiBuffer>)
    returns (err: ReadError, received: MultiBuffer, ghost end: Reading)
    requires Padded(suite, noise) && Steady(suite)
    requires forall i :: 0 <= i < |writes| ==> !IsEmpty(writes[i])
    requires forall b :: Delivery(cut(b)) == b
    ensures var limit := BUFFER_SIZE - suite.sizeBytes - suite.overhead - PadLen(suite, Gen(0, 0)) as int;
            Texts(received) == NonEmptyUpTo(Texts(Flatten(writes)), limit)
    ensures err == Eof && end.done
  {
    err, received, end := PacketRoundTrip(suite, noise, writes, cut);
    SteadyOutcome(suite, noise, Texts(Flatten(writes)), err, Texts(received), end);
  }
}
