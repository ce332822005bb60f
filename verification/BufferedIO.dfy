/**
  The buffered reader (common/buf/reader.go) and buf.Copy's writer side. The transport is the
  list of multi-buffers it will still hand out; how bytes are spread over that list is the
  fragmentation, and every contract below speaks of the unread bytes only.
 */
module BufferedIO {
  import opened Bytes
  import opened MultiBuffers

  /** The bytes of a transport, whatever its fragmentation. */
  function Delivery(source: seq<MultiBuffer>): seq<byte> {
    if source == [] then [] else Content(source[0]) + Delivery(source[1..])
  }

  /** io.ReadFull: the requested bytes, io.EOF when there were none at all, or fewer and io.ErrUnexpectedEOF. */
  datatype FullRead = Full(bytes: seq<byte>) | EndOfStream | Truncated(bytes: seq<byte>)

  /** SplitSize as a reader needs it. */
  method Cut(mb: MultiBuffer, size: nat) returns (rest: MultiBuffer, front: MultiBuffer)
    ensures Content(front) + Content(rest) == Content(mb)
    ensures |Content(front)| <= size
    ensures |rest| <= |mb| && (IsEmpty(rest) <==> Content(rest) == [])
    ensures size > 0 && mb != [] && Content(front) == [] ==> |rest| < |mb|
  {
    SplitSizePartitions(mb, size);
    if size > 0 && mb != [] && Content(SplitSizeSpec(mb, size).1) == [] {
      SplitSizeShrinks(mb, size);
    }
    rest, front := SplitSize(mb, size);
    EmptyContent(rest);
  }

  class BufferedReader {
    var buffer: MultiBuffer
    var source: seq<MultiBuffer>

    constructor (source: seq<MultiBuffer>)
      ensures this.source == source && buffer == []
      ensures Unread() == Delivery(source)
    {
      this.source := source;
      buffer := [];
    }

    ghost function Unread(): seq<byte>
      reads this
    {
      Content(buffer) + Delivery(source)
    }

    function BufferedBytes(): (n: nat)
      reads this
      ensures n <= |Unread()|
    {
      |Content(buffer)|
    }

    /** Reads up to n bytes; None is the end of the transport. A transport may hand out empty multi-buffers. */
    method Read(n: nat) returns (r: Option<seq<byte>>)
      modifies this
      ensures r.None? <==> old(IsEmpty(buffer) && source == [])
      ensures r.None? ==> Unread() == old(Unread()) && source == [] && IsEmpty(buffer)
      ensures r.Some? ==> |r.value| <= n && r.value + Unread() == old(Unread())
      ensures r.Some? && |r.value| < n ==> IsEmpty(buffer)
      ensures r.Some? && r.value == [] && n > 0 ==> |source| < old(|source|)
      ensures |source| <= old(|source|)
    {
      EmptyContent(buffer);
      if !IsEmpty(buffer) {
        var rest, bytes := SplitBytes(buffer, n);
        buffer := rest;
        EmptyContent(buffer);
        if IsEmpty(buffer) {
          buffer := [];
        }
        return Some(bytes);
      }
      if source == [] {
        return None;
      }
      var mb := source[0];
      source := source[1..];
      var rest, bytes := SplitBytes(mb, n);
      EmptyContent(rest);
      if !IsEmpty(rest) {
        buffer := rest;
      }
      r := Some(bytes);
    }

    /** Exactly n bytes or a failure that leaves nothing unread, however the transport is fragmented. */
    method ReadFull(n: nat) returns (r: FullRead)
      modifies this
      ensures n <= old(|Unread()|) ==> r == Full(old(Unread())[..n]) && Unread() == old(Unread())[n..]
      ensures n > old(|Unread()|) ==> Unread() == []
      ensures n > old(|Unread()|) ==> r == if old(Unread()) == [] then EndOfStream else Truncated(old(Unread()))
    {
      var got: seq<byte> := [];
      while |got| < n
        invariant |got| <= n
        invariant got + Unread() == old(Unread())
        decreases |source|, n - |got|
      {
        var piece := Read(n - |got|);
        if piece.None? {
          EmptyContent(buffer);
          return if got == [] then EndOfStream else Truncated(got);
        }
        got := got + piece.value;
      }
      r := Full(got);
    }

    /** Some bytes, at most `size`; possibly none, but then the transport or the buffer has become shorter. */
    method ReadAtMost(size: nat) returns (r: Option<MultiBuffer>)
      modifies this
      ensures r.None? ==> old(Unread()) == [] && Unread() == []
      ensures r.Some? ==> |Content(r.value)| <= size && Content(r.value) + Unread() == old(Unread())
      ensures r.Some? && size > 0 && Content(r.value) == [] ==>
                |source| < old(|source|) || (|source| == old(|source|) && |buffer| < old(|buffer|))
    {
      EmptyContent(buffer);
      if IsEmpty(buffer) {
        if source == [] {
          return None;
        }
        buffer := source[0];
        source := source[1..];
      }
      var rest, front := Cut(buffer, size);
      buffer := if IsEmpty(rest) then [] else rest;
      r := Some(front);
    }
  }

  /** The writer side of a link: an append-only queue that may start to refuse writes. */
  datatype Output = Output(written: seq<seq<byte>>, allowance: Option<nat>) {

    /** One WriteMultiBuffer call, wholly accepted or refused. */
    function Write(bytes: seq<byte>): (Output, bool) {
      if allowance == Some(0) then
        (this, false)
      else if allowance.Some? then
        (Output(written + [bytes], Some(allowance.value - 1)), true)
      else
        (Output(written + [bytes], None), true)
    }
  }
}
