/** Streams cut into length-prefixed chunks (common/crypto/chunk.go), with plain 16-bit sizes. */
module ChunkStream {
  import opened Bytes
  import opened MultiBuffers
  import opened BufferedIO

  const SLICE_SIZE: nat := 8192

  function EncodeChunk(c: seq<byte>): seq<byte>
    requires |c| < 0x1_0000
  {
    PutUint16(|c|) + c
  }

  predicate Encodable(cs: seq<seq<byte>>) {
    forall i :: 0 <= i < |cs| ==> |cs[i]| < 0x1_0000
  }

  /** The wire form of a list of chunks. */
  function EncodeChunks(cs: seq<seq<byte>>): seq<byte>
    requires Encodable(cs)
  {
    if cs == [] then [] else EncodeChunk(cs[0]) + EncodeChunks(cs[1..])
  }

  lemma {:induction false} EncodeChunksConcat(a: seq<seq<byte>>, b: seq<seq<byte>>)
    requires Encodable(a) && Encodable(b)
    ensures Encodable(a + b)
    ensures EncodeChunks(a + b) == EncodeChunks(a) + EncodeChunks(b)
  {
    if a == [] {
      assert a + b == b;
    } else {
      assert (a + b)[0] == a[0] && (a + b)[1..] == a[1..] + b;
      EncodeChunksConcat(a[1..], b);
      ConcatAssociative(EncodeChunk(a[0]), EncodeChunks(a[1..]), EncodeChunks(b));
    }
  }

  lemma EncodeChunksAppend(cs: seq<seq<byte>>, c: seq<byte>)
    requires Encodable(cs) && |c| < 0x1_0000
    ensures Encodable(cs + [c])
    ensures EncodeChunks(cs + [c]) == EncodeChunks(cs) + (PutUint16(|c|) + c)
  {
    var one: seq<seq<byte>> := [c];
    assert one[1..] == [];
    assert EncodeChunks(one[1..]) == [];
    EncodeChunksConcat(cs, one);
  }

  // ----- writer

  /** The contents of the slices ChunkStreamWriter cuts: there is always at least one. */
  function Slices(mb: MultiBuffer): (cs: seq<seq<byte>>)
    ensures cs != []
    decreases |Content(mb)|
  {
    SplitSizePartitions(mb, SLICE_SIZE);
    var (rest, front) := SplitSizeSpec(mb, SLICE_SIZE);
    if IsEmpty(rest) then
      [Content(front)]
    else
      EmptyContent(rest);
      EmptyContent(mb);
      SplitSizeProgress(mb, SLICE_SIZE);
      [Content(front)] + Slices(rest)
  }

  /**
    Slices carry the content, none exceeds 8192 bytes and none but the last has room for another
    buffer, and only an empty write makes an empty (EOF) slice.
   */
  lemma {:induction false} SlicesCarryContent(mb: MultiBuffer)
    ensures Flatten(Slices(mb)) == Content(mb)
    ensures forall i :: 0 <= i < |Slices(mb)| ==> |Slices(mb)[i]| <= 8192
    ensures forall i :: 0 <= i < |Slices(mb)| - 1 ==> |Slices(mb)[i]| + BUFFER_SIZE > 8192
    ensures forall i :: 0 <= i < |Slices(mb)| ==> (Slices(mb)[i] == [] <==> Content(mb) == [])
    ensures Content(mb) == [] ==> Slices(mb) == [[]]
    ensures Encodable(Slices(mb))
    decreases |Content(mb)|
  {
    SplitSizePartitions(mb, SLICE_SIZE);
    var (rest, front) := SplitSizeSpec(mb, SLICE_SIZE);
    EmptyContent(rest);
    EmptyContent(mb);
    if IsEmpty(rest) {
      FlattenOne(Content(front));
    } else {
      SplitSizeProgress(mb, SLICE_SIZE);
      SlicesCarryContent(rest);
      assert Slices(mb)[1..] == Slices(rest);
    }
  }

  /** ChunkStreamWriter.WriteMultiBuffer: the bytes handed to the underlying writer. */
  method WriteMultiBuffer(mb: MultiBuffer) returns (wire: seq<byte>)
    ensures Encodable(Slices(mb)) && wire == EncodeChunks(Slices(mb))
  {
    wire := [];
    var left := mb;
    var more := true;
    ghost var done: seq<seq<byte>> := [];
    while more
      invariant Slices(mb) == if more then done + Slices(left) else done
      invariant Encodable(done) && wire == EncodeChunks(done)
      decreases more, |Content(left)|
    {
      var payload;
      ghost var todo := Slices(left);
      left, payload, more := NextSlice(left);
      ConcatAssociative(done, [payload], Slices(left));
      EncodeChunksAppend(done, payload);
      wire := wire + (PutUint16(|payload|) + payload);
      done := done + [payload];
    }
  }

  method NextSlice(mb: MultiBuffer) returns (rest: MultiBuffer, payload: seq<byte>, more: bool)
    ensures more == !IsEmpty(rest)
    ensures Slices(mb) == if more then [payload] + Slices(rest) else [payload]
    ensures |payload| <= SLICE_SIZE
    ensures more ==> |Content(rest)| < |Content(mb)|
  {
    var slice;
    rest, slice := SplitSize(mb, SLICE_SIZE);
    SplitSizePartitions(mb, SLICE_SIZE);
    payload, more := Content(slice), !IsEmpty(rest);
    EmptyContent(rest);
    EmptyContent(mb);
    if more {
      SplitSizeProgress(mb, SLICE_SIZE);
    }
  }

  // ----- reader

  datatype Outcome = Data(mb: MultiBuffer) | Eof | Failed

  /** What a read finds first: the chunk limit, a cut-off size, a zero size, or bytes of a chunk. */
  datatype Due = Limit | NoSize | Terminator | Chunk(size: nat, body: seq<byte>)

  /** `leftOver` bytes of a chunk are still due; `exhausted` says the chunk limit is reached. */
  function NextDue(leftOver: nat, exhausted: bool, unread: seq<byte>): Due {
    if leftOver > 0 then Chunk(leftOver, unread)
    else if exhausted then Limit
    else if |unread| < 2 then NoSize
    else if GetUint16(unread[..2]) == 0 then Terminator
    else Chunk(GetUint16(unread[..2]), unread[2..])
  }

  class ChunkStreamReader {
    const reader: BufferedReader
    const maxNumChunk: nat
    var leftOverSize: nat
    var numChunk: nat

    constructor (reader: BufferedReader, maxNumChunk: nat)
      ensures this.reader == reader && this.maxNumChunk == maxNumChunk
      ensures leftOverSize == 0 && numChunk == 0
    {
      this.reader := reader;
      this.maxNumChunk := maxNumChunk;
      leftOverSize, numChunk := 0, 0;
    }

    predicate Exhausted()
      reads this
    {
      0 < maxNumChunk <= numChunk
    }

    /**
      One read hands out a piece of the current chunk and never looks past its end. How long the
      piece is depends on the fragmentation; which bytes they are does not.
     */
    method ReadMultiBuffer() returns (r: Outcome)
      modifies this, reader
      ensures numChunk == old(numChunk) + if old(leftOverSize) == 0 then 1 else 0
      ensures var due := old(NextDue(leftOverSize, Exhausted(), reader.Unread()));
              match due
              case Limit => r == Eof && leftOverSize == 0 && reader.Unread() == old(reader.Unread())
              case NoSize =>
                r == (if old(reader.Unread()) == [] then Eof else Failed) && leftOverSize == 0 && reader.Unread() == []
              case Terminator => r == Eof && leftOverSize == 0 && reader.Unread() == old(reader.Unread()[2..])
              case Chunk(size, body) =>
                && !r.Failed?
                && (r.Eof? ==> body == [] && reader.Unread() == [] && leftOverSize == size)
                && (r.Data? ==> Content(r.mb) + reader.Unread() == body)
                && (r.Data? ==> |Content(r.mb)| <= size && leftOverSize == size - |Content(r.mb)|)
      ensures old(leftOverSize) > 0 && r.Data? && Content(r.mb) == [] ==>
                |reader.source| < old(|reader.source|) ||
                (|reader.source| == old(|reader.source|) && |reader.buffer| < old(|reader.buffer|))
    {
      var size := leftOverSize;
      if size == 0 {
        numChunk := numChunk + 1;
        if maxNumChunk > 0 && numChunk > maxNumChunk {
          return Eof;
        }
        var header := reader.ReadFull(2);
        if !header.Full? {
          return if header.EndOfStream? then Eof else Failed;
        }
        var nextSize := GetUint16(header.bytes);
        if nextSize == 0 {
          return Eof;
        }
        size := nextSize;
      }
      leftOverSize := size;
      var got := reader.ReadAtMost(size);
      if got.None? {
        return Eof;
      }
      leftOverSize := leftOverSize - |Content(got.value)|;
      r := Data(got.value);
    }

    /**
      The reader stands `part` bytes before the end of a chunk; the chunks `next` follow on the
      wire and then `rest`. With a chunk limit, `next` is what the limit still allows; without
      one, the last chunk is the empty terminator.
     */
    ghost predicate At(part: seq<byte>, next: seq<seq<byte>>, rest: seq<byte>)
      reads this, reader
    {
      && leftOverSize == |part|
      && Encodable(next)
      && reader.Unread() == part + (EncodeChunks(next) + rest)
      && (maxNumChunk == 0 ==> next != [] && next[|next| - 1] == [])
      && (maxNumChunk > 0 ==> if next == [] then Exhausted() else numChunk + |next| == maxNumChunk)
    }

    /** What is due at a known position. */
    lemma DueAt(part: seq<byte>, next: seq<seq<byte>>, rest: seq<byte>)
      requires At(part, next, rest)
      ensures var due := NextDue(leftOverSize, Exhausted(), reader.Unread());
              if part != [] then due == Chunk(|part|, part + (EncodeChunks(next) + rest))
              else if next == [] then due == Limit
              else if next[0] == [] then due == Terminator && reader.Unread()[2..] == EncodeChunks(next[1..]) + rest
              else due == Chunk(|next[0]|, next[0] + (EncodeChunks(next[1..]) + rest))
    {
      if part == [] && next != [] {
        ChunkFront(next, rest);
      }
    }
  }

  lemma ChunkFront(next: seq<seq<byte>>, rest: seq<byte>)
    requires Encodable(next) && next != []
    ensures var wire := EncodeChunks(next) + rest;
            && |wire| >= 2
            && wire[..2] == PutUint16(|next[0]|)
            && wire[2..] == next[0] + (EncodeChunks(next[1..]) + rest)
  {
    var header, tail := PutUint16(|next[0]|), EncodeChunks(next[1..]);
    ConcatAssociative(header + next[0], tail, rest);
    ConcatAssociative(header, next[0], tail + rest);
  }

  /** What of the current chunk a read leaves, and the chunks behind it. */
  lemma AfterPiece(got: seq<byte>, unread: seq<byte>, current: seq<byte>, left: seq<seq<byte>>, rest: seq<byte>)
    requires Encodable(left) && |got| <= |current| && got + unread == current + (EncodeChunks(left) + rest)
    ensures got + current[|got|..] == current && unread == current[|got|..] + (EncodeChunks(left) + rest)
  {
    TakeFront(got, unread, current, EncodeChunks(left) + rest);
  }

  lemma NextChunks(left: seq<seq<byte>>)
    ensures var next := left + [[]];
            && next[0] == (if left == [] then [] else left[0])
            && next[1..] == if left == [] then [] else left[1..] + [[]]
  {
  }

  /** One read of an unlimited reader: it stops at the terminator or moves on by a piece. */
  method ReadPiece(rr: ChunkStreamReader, ghost part: seq<byte>, ghost left: seq<seq<byte>>, ghost rest: seq<byte>)
    returns (r: Outcome, ghost part': seq<byte>, ghost left': seq<seq<byte>>)
    requires rr.maxNumChunk == 0
    requires forall i :: 0 <= i < |left| ==> left[i] != []
    requires rr.At(part, left + [[]], rest)
    modifies rr, rr.reader
    ensures r.Data? <==> part != [] || left != []
    ensures !r.Data? ==> rr.reader.Unread() == rest
    ensures r.Data? ==> rr.At(part', left' + [[]], rest)
    ensures r.Data? ==> left' == if part == [] then left[1..] else left
    ensures r.Data? ==> Content(r.mb) + part' == if part == [] then left[0] else part
    ensures r.Data? && part != [] && Content(r.mb) == [] ==>
              |rr.reader.source| < old(|rr.reader.source|) ||
              (|rr.reader.source| == old(|rr.reader.source|) && |rr.reader.buffer| < old(|rr.reader.buffer|))
  {
    NextChunks(left);
    rr.DueAt(part, left + [[]], rest);
    r := rr.ReadMultiBuffer();
    left' := if part == [] && left != [] then left[1..] else left;
    part' := [];
    if r.Data? {
      ghost var current := if part == [] then left[0] else part;
      AfterPiece(Content(r.mb), rr.reader.Unread(), current, left' + [[]], rest);
      part' := current[|Content(r.mb)|..];
    }
  }

  /** Reads until EOF (an unlimited reader). */
  method ReadAll(rr: ChunkStreamReader, ghost data: seq<seq<byte>>, ghost rest: seq<byte>) returns (bytes: seq<byte>)
    requires rr.maxNumChunk == 0
    requires forall i :: 0 <= i < |data| ==> data[i] != []
    requires rr.At([], data + [[]], rest)
    modifies rr, rr.reader
    ensures bytes == Flatten(data) && rr.reader.Unread() == rest
  {
    bytes := [];
    ghost var part: seq<byte> := [];
    ghost var left := data;
    while true
      invariant forall i :: 0 <= i < |left| ==> left[i] != []
      invariant rr.At(part, left + [[]], rest)
      invariant bytes + (part + Flatten(left)) == Flatten(data)
      decreases |left|, |part|, |rr.reader.source|, |rr.reader.buffer|
    {
      ghost var todo := part + Flatten(left);
      var r;
      r, part, left := ReadPiece(rr, part, left, rest);
      if !r.Data? {
        break;
      }
      ConcatAssociative(Content(r.mb), part, Flatten(left));
      ConcatAssociative(bytes, Content(r.mb), part + Flatten(left));
      bytes := bytes + Content(r.mb);
    }
  }

  /** The slices of a series of writes. */
  function AllSlices(writes: seq<MultiBuffer>): seq<seq<byte>> {
    if writes == [] then [] else Slices(writes[0]) + AllSlices(writes[1..])
  }

  /** Non-empty writes make non-empty chunks that carry, in order, the bytes written. */
  lemma {:induction false} AllSlicesCarry(writes: seq<MultiBuffer>)
    requires forall i :: 0 <= i < |writes| ==> Content(writes[i]) != []
    ensures Encodable(AllSlices(writes))
    ensures forall i :: 0 <= i < |AllSlices(writes)| ==> AllSlices(writes)[i] != []
    ensures Flatten(AllSlices(writes)) == Delivery(writes)
  {
    if writes != [] {
      SlicesCarryContent(writes[0]);
      AllSlicesCarry(writes[1..]);
      FlattenConcat(Slices(writes[0]), AllSlices(writes[1..]));
    }
  }

  /** The writes in turn, each as the chunks of its slices. */
  method WriteEach(writes: seq<MultiBuffer>) returns (sent: seq<byte>)
    requires forall i :: 0 <= i < |writes| ==> Content(writes[i]) != []
    ensures Encodable(AllSlices(writes)) && sent == EncodeChunks(AllSlices(writes))
  {
    sent := [];
    ghost var done: seq<seq<byte>> := [];
    var i := 0;
    assert writes[0..] == writes;
    while i < |writes|
      invariant 0 <= i <= |writes|
      invariant done + AllSlices(writes[i..]) == AllSlices(writes)
      invariant Encodable(done) && sent == EncodeChunks(done)
    {
      var wire := WriteMultiBuffer(writes[i]);
      EncodeChunksConcat(done, Slices(writes[i]));
      assert writes[i..][1..] == writes[i + 1..];
      ConcatAssociative(done, Slices(writes[i]), AllSlices(writes[i + 1..]));
      sent, done := sent + wire, done + Slices(writes[i]);
      i := i + 1;
    }
    assert done == AllSlices(writes);
  }

  /** A whole stream: the writes in turn and then the empty one, which makes the empty chunk. */
  method WriteAll(writes: seq<MultiBuffer>) returns (sent: seq<byte>)
    requires forall i :: 0 <= i < |writes| ==> Content(writes[i]) != []
    ensures Encodable(AllSlices(writes) + [[]]) && sent == EncodeChunks(AllSlices(writes) + [[]])
  {
    var data := WriteEach(writes);
    var final := WriteMultiBuffer([]);
    SlicesCarryContent([]);
    EncodeChunksConcat(AllSlices(writes), [[]]);
    sent := data + final;
  }

  /**
    ChunkStreamReader undoes ChunkStreamWriter: any non-empty writes followed by an empty one come
    back byte for byte and then EOF, whatever multi-buffers `cut` makes of the bytes on the way.
   */
  method RoundTrip(writes: seq<MultiBuffer>, cut: seq<byte> -> seq<MultiBuffer>) returns (received: seq<byte>)
    requires forall i :: 0 <= i < |writes| ==> Content(writes[i]) != []
    requires forall b :: Delivery(cut(b)) == b
    ensures received == Delivery(writes)
  {
    var sent := WriteAll(writes);
    ghost var data := AllSlices(writes);
    AllSlicesCarry(writes);
    var reader := new BufferedReader(cut(sent));
    var rr := new ChunkStreamReader(reader, 0);
    assert [] + (EncodeChunks(data + [[]]) + []) == sent;
    received := ReadAll(rr, data, []);
  }
}
