/** The mux writer (common/mux/writer.go): it puts frames on a link that many writers share. */
module MuxWriter {
  import opened Bytes
  import opened MultiBuffers
  import opened BufferedIO
  import opened ChunkStream
  import opened MuxFrame
  import opened MuxSystem
  import opened MuxClose
  import opened MuxRun

  /** The link the writers of one connection share, with room for so many writes in all, or for any number. */
  class Link {
    const room: Option<nat>
    var queue: Output

    constructor (room: Option<nat>)
      ensures this.room == room && queue == Output([], room)
    {
      this.room, queue := room, Output([], room);
    }
  }

  /** What frames look like on the link: one write each. */
  function Images(fs: seq<Frame>): seq<seq<byte>>
    requires AllWritable(fs)
  {
    if fs == [] then [] else [FrameBytes(fs[0])] + Images(fs[1..])
  }

  /** The bytes on the link are the frames' bytes: nothing comes between two writes. */
  lemma {:induction false} ImagesAreWire(fs: seq<Frame>)
    requires AllWritable(fs)
    ensures Flatten(Images(fs)) == WireBytes(fs)
  {
    if fs != [] {
      ImagesAreWire(fs[1..]);
      assert Images(fs)[1..] == Images(fs[1..]);
    }
  }

  lemma {:induction false} ImagesAppend(fs: seq<Frame>, f: Frame)
    requires AllWritable(fs) && Writable(f)
    ensures AllWritable(fs + [f])
    ensures Images(fs + [f]) == Images(fs) + [FrameBytes(f)]
  {
    if fs == [] {
      assert fs + [f] == [f] && [f][1..] == [];
    } else {
      assert (fs + [f])[0] == fs[0] && (fs + [f])[1..] == fs[1..] + [f];
      ImagesAppend(fs[1..], f);
    }
  }

  /** An output after some writes; once it refuses one it refuses all. */
  function Written(o: Output, images: seq<seq<byte>>): Output
    decreases images
  {
    if images == [] then o else Written(o.Write(images[0]).0, images[1..])
  }

  lemma {:induction false} WrittenConcat(o: Output, a: seq<seq<byte>>, b: seq<seq<byte>>)
    ensures Written(o, a + b) == Written(Written(o, a), b)
    decreases a
  {
    if a == [] {
      assert a + b == b;
    } else {
      assert (a + b)[0] == a[0] && (a + b)[1..] == a[1..] + b;
      WrittenConcat(o.Write(a[0]).0, a[1..], b);
    }
  }

  lemma WrittenOne(o: Output, image: seq<byte>)
    ensures Written(o, [image]) == o.Write(image).0
  {
    assert [image][1..] == [];
  }

  lemma {:induction false} WrittenRefused(o: Output, images: seq<seq<byte>>)
    requires o.allowance == Some(0)
    ensures Written(o, images) == o
    decreases images
  {
    if images != [] {
      WrittenRefused(o, images[1..]);
    }
  }

  /** How many of n writes an output takes. */
  function Taken(allowance: Option<nat>, n: nat): nat {
    if allowance.Some? && allowance.value < n then allowance.value else n
  }

  /** It takes the first, and of those all. */
  lemma {:induction false} WrittenTakes(o: Output, images: seq<seq<byte>>)
    ensures Written(o, images).written == o.written + images[..Taken(o.allowance, |images|)]
    ensures o.allowance.None? ==> Written(o, images).allowance.None?
    decreases images
  {
    if images != [] {
      var n := Taken(o.allowance, |images|);
      if n == 0 {
        WrittenRefused(o, images);
      } else {
        WrittenTakes(o.Write(images[0]).0, images[1..]);
        assert images[..n] == [images[0]] + images[1..][..n - 1];
      }
    }
  }

  /** The next payload cut off a non-empty multi-buffer. */
  method NextPayload(packet: bool, mb: MultiBuffer) returns (rest: MultiBuffer, payload: seq<byte>)
    requires !IsEmpty(mb)
    ensures Payloads(packet, mb) == [payload] + Payloads(packet, rest)
    ensures |payload| <= SLICE_SIZE
    ensures |Content(rest)| < |Content(mb)| || (|Content(rest)| == |Content(mb)| && |rest| < |mb|)
  {
    if packet {
      rest, payload := mb[1..], mb[0].bytes;
      PacketsStep(mb);
    } else {
      var more;
      rest, payload, more := NextSlice(mb);
      EmptyContent(mb);
      EmptyContent(rest);
      if !more {
        assert [payload] + [] == [payload];
      }
    }
  }

  lemma PacketsStep(mb: MultiBuffer)
    requires !IsEmpty(mb)
    ensures Payloads(true, mb) == [mb[0].bytes] + Payloads(true, mb[1..])
  {
    if IsEmpty(mb[1..]) {
      assert Packets(mb[1..]) == [];
    }
  }

  lemma DataFramesStep(w: WriterState, payload: seq<byte>, payloads: seq<seq<byte>>)
    ensures DataFrames(w, [payload] + payloads) ==
            [Frame(NextMeta(w, true), Some(payload))] + DataFrames(w.(followup := true), payloads)
  {
    assert ([payload] + payloads)[1..] == payloads;
  }

  lemma {:induction false} ImagesTake(fs: seq<Frame>, n: nat)
    requires AllWritable(fs) && n <= |fs|
    ensures AllWritable(fs[..n]) && |Images(fs)| == |fs| && Images(fs)[..n] == Images(fs[..n])
  {
    if fs != [] {
      if n == 0 {
        ImagesTake(fs[1..], 0);
      } else {
        ImagesTake(fs[1..], n - 1);
        assert fs[..n][1..] == fs[1..][..n - 1];
        assert Images(fs)[..n] == [FrameBytes(fs[0])] + Images(fs[1..])[..n - 1];
      }
    }
  }

  lemma {:induction false} ImagesConcat(a: seq<Frame>, b: seq<Frame>)
    requires AllWritable(a) && AllWritable(b)
    ensures AllWritable(a + b) && Images(a + b) == Images(a) + Images(b)
  {
    if a == [] {
      assert a + b == b;
    } else {
      assert (a + b)[0] == a[0] && (a + b)[1..] == a[1..] + b;
      ImagesConcat(a[1..], b);
      ConcatAssociative([FrameBytes(a[0])], Images(a[1..]), Images(b));
    }
  }

  /** The first `sent` frames went out, and the next one did not because it has no bytes or the link refuses. */
  ghost predicate Went(frames: seq<Frame>, sent: nat, before: Output, queue: Output, ok: bool) {
    && sent <= |frames| && (ok <==> sent == |frames|) && AllWritable(frames[..sent])
    && queue == Written(before, Images(frames[..sent])) && queue.written == before.written + Images(frames[..sent])
    && (!ok && Writable(frames[sent]) ==> queue.allowance == Some(0))
  }

  /** What is left to write when the link refuses would have been refused as well. */
  lemma AllWent(frames: seq<Frame>, sent: nat, before: Output, queue: Output, ok: bool)
    requires Went(frames, sent, before, queue, ok)
    ensures before.allowance.None? ==> queue.allowance.None? && (ok || !Writable(frames[sent]))
    ensures AllWritable(frames) ==> queue == Written(before, Images(frames))
  {
    WrittenTakes(before, Images(frames[..sent]));
    if ok {
      assert frames[..sent] == frames;
    } else if AllWritable(frames) {
      assert frames == frames[..sent] + frames[sent..];
      ImagesConcat(frames[..sent], frames[sent..]);
      WrittenConcat(before, Images(frames[..sent]), Images(frames[sent..]));
      WrittenRefused(queue, Images(frames[sent..]));
    }
  }

  class Writer {
    const id: uint16
    const dest: Destination
    const packet: bool
    const link: Link
    var followup: bool
    var hasError: bool

    /** NewWriter, or NewResponseWriter when the session is already known to the peer. */
    constructor (id: uint16, dest: Destination, packet: bool, response: bool, link: Link)
      ensures State() == WriterState(id, dest, response, packet) && !hasError && this.link == link
    {
      this.id, this.dest, this.packet, this.link := id, dest, packet, link;
      followup, hasError := response, false;
    }

    function State(): WriterState
      reads this
    {
      WriterState(id, dest, followup, packet)
    }

    /** getNextFrameMeta: the first frame opens the session, and from then on frames continue it. */
    method TakeMeta(data: bool) returns (meta: Meta)
      modifies this
      ensures meta == NextMeta(old(State()), data)
      ensures followup && hasError == old(hasError)
    {
      meta := NextMeta(State(), data);
      followup := true;
    }

    /** writeMetaOnly and writeMetaWithFrame: a frame goes out in one write, or not at all. */
    method Put(meta: Meta, payload: Option<seq<byte>>) returns (ok: bool)
      requires meta.WellFormed()
      requires (HasData(meta.option) <==> payload.Some?) && (payload.Some? ==> |payload.value| < 0x1_0000)
      modifies link
      ensures ok <==> Writable(Frame(meta, payload)) && old(link.queue.allowance) != Some(0)
      ensures ok ==> link.queue.written == old(link.queue.written) + [FrameBytes(Frame(meta, payload))]
      ensures !ok ==> link.queue == old(link.queue)
      ensures Writable(Frame(meta, payload)) ==>
                link.queue == Written(old(link.queue), [FrameBytes(Frame(meta, payload))])
      ensures old(link.queue.allowance.None?) ==> link.queue.allowance.None?
    {
      var head := WriteTo(meta);
      if head.None? {
        return false;
      }
      var image := head.value;
      if payload.Some? {
        image := image + (PutUint16(|payload.value|) + payload.value);
      } else {
        image := image + [];
      }
      var (queue, accepted) := link.queue.Write(image);
      WrittenOne(link.queue, image);
      link.queue := queue;
      ok := accepted;
    }

    /** How far a write has come: `done` is on the link, and the frames of `left` are still to come. */
    ghost predicate Writing(frames: seq<Frame>, done: seq<Frame>, left: MultiBuffer, before: Output)
      reads this, link
    {
      && frames == done + DataFrames(State(), Payloads(packet, left))
      && AllWritable(done) && link.queue == Written(before, Images(done))
      && link.queue.written == before.written + Images(done)
    }

    /** One more data frame. */
    method PutNext(left: MultiBuffer, ghost frames: seq<Frame>, ghost done: seq<Frame>, ghost before: Output)
      returns (ok: bool, left': MultiBuffer, ghost done': seq<Frame>)
      requires dest.address.WellFormed() && !IsEmpty(left) && Writing(frames, done, left, before)
      modifies this, link
      ensures followup && hasError == old(hasError)
      ensures |Content(left')| < |Content(left)| || (|Content(left')| == |Content(left)| && |left'| < |left|)
      ensures ok ==> Writing(frames, done', left', before)
      ensures !ok ==> done' == done && link.queue == old(link.queue) && |done| < |frames|
      ensures !ok ==> Writable(frames[|done|]) ==> link.queue.allowance == Some(0)
    {
      var payload;
      ghost var was, todo := State(), Payloads(packet, left);
      left', payload := NextPayload(packet, left);
      ghost var f, more := Frame(NextMeta(was, true), Some(payload)), Payloads(packet, left');
      DataFramesStep(was, payload, more);
      assert [f] + DataFrames(was.(followup := true), more) == DataFrames(was, todo);
      assert frames[|done|] == f;
      done' := done;
      var meta := TakeMeta(true);
      ok := Put(meta, Some(payload));
      if ok {
        ImagesAppend(done, f);
        ConcatAssociative(done, [f], DataFrames(State(), more));
        ConcatAssociative(before.written, Images(done), [FrameBytes(f)]);
        WrittenConcat(before, Images(done), [FrameBytes(f)]);
        done' := done + [f];
      }
    }

    /** An empty write is a frame without data. */
    method PutEmpty(mb: MultiBuffer) returns (ok: bool, ghost sent: nat)
      requires dest.address.WellFormed() && IsEmpty(mb)
      modifies this, link
      ensures followup && hasError == old(hasError)
      ensures Went(FramesOf(old(State()), mb), sent, old(link.queue), link.queue, ok)
    {
      ghost var f := FramesOf(State(), mb)[0];
      var meta := TakeMeta(false);
      ok := Put(meta, None);
      sent := if ok then 1 else 0;
      if Writable(f) {
        ImagesAppend([], f);
        assert [] + [f] == [f] && [f][..1] == [f];
      }
    }

    /** One data frame after another, until one does not go out. */
    method PutAll(mb: MultiBuffer) returns (ok: bool, ghost sent: nat)
      requires dest.address.WellFormed() && !IsEmpty(mb)
      modifies this, link
      ensures followup && hasError == old(hasError)
      ensures Went(FramesOf(old(State()), mb), sent, old(link.queue), link.queue, ok)
    {
      ghost var frames, done: seq<Frame> := FramesOf(State(), mb), [];
      assert link.queue.written + [] == link.queue.written && [] + frames == frames;
      ok := true;
      var left := mb;
      while !IsEmpty(left)
        invariant ok && hasError == old(hasError) && (followup || !IsEmpty(left))
        invariant Writing(frames, done, left, old(link.queue))
        decreases |Content(left)|, |left|
      {
        ok, left, done := PutNext(left, frames, done, old(link.queue));
        if !ok {
          sent := |done|;
          assert frames[..sent] == done;
          return;
        }
      }
      sent := |done|;
      assert frames == done + [];
      assert frames[..sent] == done;
    }

    /**
      WriteMultiBuffer puts exactly the frames of its input on the link. When a frame cannot be
      written or the link refuses, the frames before it are there and none after it.
     */
    method WriteMultiBuffer(mb: MultiBuffer) returns (ok: bool, ghost sent: nat)
      requires dest.address.WellFormed()
      modifies this, link
      ensures followup && hasError == old(hasError)
      ensures sent <= |FramesOf(old(State()), mb)| && (ok <==> sent == |FramesOf(old(State()), mb)|)
      ensures AllWritable(FramesOf(old(State()), mb)[..sent])
      ensures link.queue.written == old(link.queue.written) + Images(FramesOf(old(State()), mb)[..sent])
      ensures old(link.queue.allowance.None?) ==>
                link.queue.allowance.None? && (ok || !Writable(FramesOf(old(State()), mb)[sent]))
      ensures AllWritable(FramesOf(old(State()), mb)) ==>
                link.queue == Written(old(link.queue), Images(FramesOf(old(State()), mb)))
    {
      if IsEmpty(mb) {
        ok, sent := PutEmpty(mb);
      } else {
        ok, sent := PutAll(mb);
      }
      AllWent(FramesOf(old(State()), mb), sent, old(link.queue), link.queue, ok);
    }

    /** Close always tries to announce the end; a refusal is ignored. */
    method Close()
      modifies link
      ensures old(link.queue.allowance.None?) ==> link.queue.allowance.None?
      ensures var end := Frame(EndMeta(id, hasError), None);
              && Writable(end)
              && link.queue.written == (if old(link.queue.allowance) == Some(0) then old(link.queue.written)
                                        else old(link.queue.written) + [FrameBytes(end)])
              && link.queue == Written(old(link.queue), [FrameBytes(end)])
              && FrameBytes(end) == [0, 4, id / 0x100, id % 0x100, 3, if hasError then 2 else 0]
    {
      EndFits(packet, id, hasError, _ => None);
      EndBytes(id, hasError);
      var ok := Put(EndMeta(id, hasError), None);
    }
  }
}
