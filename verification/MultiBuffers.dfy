/**
  Byte buffers and lists of them (common/buf). A buffer is a window into an array of
  2048 bytes: where the window starts matters, because a buffer grows only at its end.
 */
module MultiBuffers {
  import opened Bytes

  const BUFFER_SIZE: nat := 2048

  datatype Window = Window(start: nat, bytes: seq<byte>) {
    function End(): nat { start + |bytes| }
  }

  type Buffer = w: Window | w.End() <= BUFFER_SIZE witness Window(0, [])

  type MultiBuffer = seq<Buffer>

  /** The bytes of a multi-buffer, in order. */
  function Content(mb: MultiBuffer): seq<byte> {
    if mb == [] then [] else mb[0].bytes + Content(mb[1..])
  }

  lemma {:induction false} ContentConcat(a: MultiBuffer, b: MultiBuffer)
    ensures Content(a + b) == Content(a) + Content(b)
  {
    if a == [] {
      assert a + b == b;
    } else {
      assert (a + b)[0] == a[0] && (a + b)[1..] == a[1..] + b;
      ContentConcat(a[1..], b);
    }
  }

  lemma ContentSplit(mb: MultiBuffer, i: nat)
    requires i <= |mb|
    ensures Content(mb) == Content(mb[..i]) + Content(mb[i..])
  {
    assert mb == mb[..i] + mb[i..];
    ContentConcat(mb[..i], mb[i..]);
  }

  lemma ContentOne(b: Buffer)
    ensures Content([b]) == b.bytes
  {
    assert [b][1..] == [];
  }

  lemma ContentAppend(mb: MultiBuffer, b: Buffer)
    ensures Content(mb + [b]) == Content(mb) + b.bytes
  {
    ContentConcat(mb, [b]);
    ContentOne(b);
  }

  predicate IsEmpty(mb: MultiBuffer) {
    forall i :: 0 <= i < |mb| ==> mb[i].bytes == []
  }

  lemma {:induction false} EmptyContent(mb: MultiBuffer)
    ensures IsEmpty(mb) <==> Content(mb) == []
  {
    if mb != [] {
      EmptyContent(mb[1..]);
      if IsEmpty(mb) {
        assert IsEmpty(mb[1..]);
      } else if mb[0].bytes == [] {
        var i :| 0 <= i < |mb| && mb[i].bytes != [];
        assert mb[1..][i - 1].bytes != [];
      }
    }
  }

  /** The contents of the buffers that hold something. */
  function NonEmptyPackets(mb: MultiBuffer): seq<seq<byte>> {
    if mb == [] then [] else (if mb[0].bytes == [] then [] else [mb[0].bytes]) + NonEmptyPackets(mb[1..])
  }

  // ----- SplitSize

  /** How many leading buffers have together at most `size` bytes. */
  function Fitting(mb: MultiBuffer, size: nat): (k: nat)
    ensures k <= |mb|
  {
    if mb == [] || |mb[0].bytes| > size then 0 else 1 + Fitting(mb[1..], size - |mb[0].bytes|)
  }

  lemma {:induction false} FittingIsMaximal(mb: MultiBuffer, size: nat)
    ensures var k := Fitting(mb, size);
            |Content(mb[..k])| <= size && (k < |mb| ==> |Content(mb[..k])| + |mb[k].bytes| > size)
  {
    if mb != [] && |mb[0].bytes| <= size {
      FittingIsMaximal(mb[1..], size - |mb[0].bytes|);
      var k := Fitting(mb, size);
      assert mb[..k][1..] == mb[1..][..k - 1];
    }
  }

  /** The leftover and the front part cut off by SplitSize. */
  function SplitSizeSpec(mb: MultiBuffer, size: nat): (r: (MultiBuffer, MultiBuffer)) {
    if mb == [] then
      (mb, [])
    else if |mb[0].bytes| > size then
      ([Window(mb[0].start + size, mb[0].bytes[size..])] + mb[1..], [Window(0, mb[0].bytes[..size])])
    else
      var k := Fitting(mb, size);
      (mb[k..], mb[..k])
  }

  /** SplitSize loses, duplicates and reorders nothing, and its front part is as long as whole buffers allow. */
  lemma SplitSizePartitions(mb: MultiBuffer, size: nat)
    ensures var rest, front := SplitSizeSpec(mb, size).0, SplitSizeSpec(mb, size).1;
            && Content(front) + Content(rest) == Content(mb)
            && |Content(front)| <= size
            && (Content(rest) == [] || |Content(front)| == size ||
                (rest != [] && |Content(front)| + |rest[0].bytes| > size))
  {
    if mb != [] {
      if |mb[0].bytes| > size {
        var (rest, front) := SplitSizeSpec(mb, size);
        assert rest[1..] == mb[1..];
        ContentOne(front[0]);
      } else {
        FittingIsMaximal(mb, size);
        ContentSplit(mb, Fitting(mb, size));
      }
    }
  }

  /** With room for a whole buffer, the front part of a non-empty multi-buffer is not empty. */
  lemma SplitSizeProgress(mb: MultiBuffer, size: nat)
    requires size >= BUFFER_SIZE && !IsEmpty(mb)
    ensures Content(SplitSizeSpec(mb, size).1) != []
    ensures |Content(SplitSizeSpec(mb, size).0)| < |Content(mb)|
  {
    SplitSizePartitions(mb, size);
    FittingIsMaximal(mb, size);
    var k := Fitting(mb, size);
    var i :| 0 <= i < |mb| && mb[i].bytes != [];
    if i < k {
      EmptyContent(mb[..k]);
      assert mb[..k][i].bytes != [];
    }
  }

  /** A front part without bytes still takes a buffer with it, so reading on makes progress. */
  lemma SplitSizeShrinks(mb: MultiBuffer, size: nat)
    requires size > 0 && mb != [] && Content(SplitSizeSpec(mb, size).1) == []
    ensures |SplitSizeSpec(mb, size).0| < |mb|
  {
    if |mb[0].bytes| > size {
      ContentOne(SplitSizeSpec(mb, size).1[0]);
    }
  }

  lemma FittingStep(mb: MultiBuffer, i: nat, size: nat)
    requires i < |mb|
    ensures Fitting(mb[i..], size) ==
            if |mb[i].bytes| > size then 0 else 1 + Fitting(mb[i + 1..], size - |mb[i].bytes|)
  {
    assert mb[i..][0] == mb[i] && mb[i..][1..] == mb[i + 1..];
  }

  method SplitSize(mb: MultiBuffer, size: nat) returns (rest: MultiBuffer, front: MultiBuffer)
    ensures (rest, front) == SplitSizeSpec(mb, size)
  {
    if |mb| == 0 {
      return mb, [];
    }
    if |mb[0].bytes| > size {
      return [Window(mb[0].start + size, mb[0].bytes[size..])] + mb[1..], [Window(0, mb[0].bytes[..size])];
    }
    var total := 0;
    front := [];
    var i := 0;
    while i < |mb| && total + |mb[i].bytes| <= size
      invariant 0 <= i <= |mb|
      invariant front == mb[..i]
      invariant 0 <= total <= size
      invariant Fitting(mb, size) == i + Fitting(mb[i..], size - total)
    {
      FittingStep(mb, i, size - total);
      total := total + |mb[i].bytes|;
      front := front + [mb[i]];
      i := i + 1;
    }
    if i < |mb| {
      FittingStep(mb, i, size - total);
    }
    rest := mb[i..];
  }

  // ----- SplitBytes, MergeBytes

  function Min(a: nat, b: nat): nat { if a < b then a else b }

  lemma ContentStep(mb: MultiBuffer, i: nat)
    requires i < |mb|
    ensures Content(mb[i..]) == mb[i].bytes + Content(mb[i + 1..])
  {
    assert mb[i..][1..] == mb[i + 1..];
  }

  lemma CutBuffer(mb: MultiBuffer, i: nat, taken: nat, bytes: seq<byte>, rest: MultiBuffer)
    requires i < |mb| && taken <= |mb[i].bytes| && rest != [] && rest[0].bytes == mb[i].bytes[taken..]
    requires rest[1..] == mb[i + 1..]
    ensures bytes + mb[i].bytes[..taken] + Content(rest) == bytes + Content(mb[i..])
    ensures |Content(mb[i..])| >= taken
  {
    ContentStep(mb, i);
    var head, tail, more := mb[i].bytes[..taken], mb[i].bytes[taken..], Content(mb[i + 1..]);
    assert mb[i].bytes == head + tail && Content(rest) == tail + more;
    ConcatAssociative(head, tail, more);
    ConcatAssociative(bytes, head, tail + more);
  }

  /** Moves the first `n` bytes, or all there are, out of the multi-buffer. */
  method SplitBytes(mb: MultiBuffer, n: nat) returns (rest: MultiBuffer, bytes: seq<byte>)
    ensures |bytes| == Min(n, |Content(mb)|)
    ensures bytes + Content(rest) == Content(mb)
  {
    bytes := [];
    var i := 0;
    while i < |mb|
      invariant 0 <= i <= |mb|
      invariant |bytes| <= n
      invariant bytes + Content(mb[i..]) == Content(mb)
    {
      var b := mb[i];
      ContentStep(mb, i);
      if |bytes| + |b.bytes| > n {
        var taken := n - |bytes|;
        rest := [Window(b.start + taken, b.bytes[taken..])] + mb[i + 1..];
        CutBuffer(mb, i, taken, bytes, rest);
        bytes := bytes + b.bytes[..taken];
        return;
      }
      ConcatAssociative(bytes, b.bytes, Content(mb[i + 1..]));
      bytes := bytes + b.bytes;
      i := i + 1;
    }
    rest := [];
  }

  predicate IsFull(b: Buffer) { b.End() == BUFFER_SIZE }

  /** Fills the room behind the last window. */
  lemma FillLast(init: MultiBuffer, last: Buffer, more: seq<byte>)
    requires last.End() + |more| <= BUFFER_SIZE
    ensures Content(init + [Window(last.start, last.bytes + more)]) == Content(init + [last]) + more
  {
    ContentAppend(init, last);
    ContentAppend(init, Window(last.start, last.bytes + more));
    ConcatAssociative(Content(init), last.bytes, more);
  }

  /** Spreads bytes over new buffers, each full except perhaps the last. */
  method Fill(src: seq<byte>) returns (r: MultiBuffer)
    ensures Content(r) == src
    ensures src == [] ==> r == []
    ensures forall i :: 0 <= i < |r| - 1 ==> IsFull(r[i])
  {
    r := [];
    var sent := 0;
    while sent < |src|
      invariant 0 <= sent <= |src|
      invariant Content(r) == src[..sent]
      invariant sent == 0 ==> r == []
      invariant forall i :: 0 <= i < |r| - 1 ==> IsFull(r[i])
      invariant sent < |src| && |r| > 0 ==> IsFull(r[|r| - 1])
    {
      var taken := Min(BUFFER_SIZE, |src| - sent);
      var b: Buffer := Window(0, src[sent..sent + taken]);
      assert src[..sent + taken] == src[..sent] + b.bytes;
      ContentAppend(r, b);
      r := r + [b];
      sent := sent + taken;
    }
    assert src[..sent] == src;
  }

  /** Fills the last buffer with as much as it takes; what is not taken finds it full. */
  method TopUp(dest: MultiBuffer, src: seq<byte>) returns (grown: MultiBuffer, sent: nat)
    ensures sent <= |src| && Content(grown) == Content(dest) + src[..sent] && |grown| == |dest|
    ensures sent < |src| && |dest| > 0 ==> IsFull(grown[|dest| - 1])
  {
    grown, sent := dest, 0;
    if |dest| > 0 && !IsFull(dest[|dest| - 1]) {
      var last := dest[|dest| - 1];
      sent := Min(BUFFER_SIZE - last.End(), |src|);
      assert dest == dest[..|dest| - 1] + [last];
      FillLast(dest[..|dest| - 1], last, src[..sent]);
      grown := dest[..|dest| - 1] + [Window(last.start, last.bytes + src[..sent])];
    }
  }

  /** Appends bytes, filling the last buffer first; every added buffer but the last is full. */
  method MergeBytes(dest: MultiBuffer, src: seq<byte>) returns (r: MultiBuffer)
    ensures Content(r) == Content(dest) + src
    ensures |r| >= |dest|
    ensures forall i :: |dest| <= i < |r| - 1 ==> IsFull(r[i])
    ensures |r| > |dest| > 0 ==> IsFull(r[|dest| - 1])
  {
    var grown, sent := TopUp(dest, src);
    var added := Fill(src[sent..]);
    ContentConcat(grown, added);
    assert src[..sent] + src[sent..] == src;
    ConcatAssociative(Content(dest), src[..sent], src[sent..]);
    r := grown + added;
  }

  // ----- Compact

  /** `last.ReadFrom(curr)`: as many bytes of `curr` as there is room for behind the window. */
  function ReadInto(last: Buffer, curr: Buffer): Buffer {
    Window(last.start, last.bytes + curr.bytes[..Min(BUFFER_SIZE - last.End(), |curr.bytes|)])
  }

  /** The result of Compact from `last` on; None is the panic raised by merging an empty buffer. */
  function CompactSpec(last: Buffer, rest: MultiBuffer): (r: Option<MultiBuffer>)
    decreases rest
  {
    if rest == [] then
      Some([last])
    else if |last.bytes| + |rest[0].bytes| > BUFFER_SIZE then
      var tail := CompactSpec(rest[0], rest[1..]);
      if tail.None? then None else Some([last] + tail.value)
    else if rest[0].bytes == [] then
      None
    else
      CompactSpec(ReadInto(last, rest[0]), rest[1..])
  }

  method Compact(mb: MultiBuffer) returns (r: Option<MultiBuffer>)
    ensures r == if mb == [] then Some([]) else CompactSpec(mb[0], mb[1..])
  {
    if |mb| == 0 {
      return Some(mb);
    }
    var mb2: MultiBuffer := [];
    var last := mb[0];
    ghost var whole := CompactSpec(mb[0], mb[1..]);
    var i := 1;
    while i < |mb|
      invariant 1 <= i <= |mb|
      invariant var tail := CompactSpec(last, mb[i..]);
                whole.Some? == tail.Some? && (tail.Some? ==> whole.value == mb2 + tail.value)
    {
      var curr := mb[i];
      assert mb[i..][1..] == mb[i + 1..];
      if |last.bytes| + |curr.bytes| > BUFFER_SIZE {
        ghost var tail := CompactSpec(curr, mb[i + 1..]);
        assert tail.Some? ==> mb2 + ([last] + tail.value) == (mb2 + [last]) + tail.value;
        mb2 := mb2 + [last];
        last := curr;
      } else if curr.bytes == [] {
        return None;
      } else {
        last := ReadInto(last, curr);
      }
      i := i + 1;
    }
    r := Some(mb2 + [last]);
  }

  /**
    Whether every merge Compact will do finds a non-empty buffer and room behind the window.
    It looks at the lengths and at where windows start only, so a caller can check it beforehand.
   */
  predicate MergesFit(start: nat, length: nat, rest: MultiBuffer)
    decreases rest
  {
    if rest == [] then
      true
    else if length + |rest[0].bytes| > BUFFER_SIZE then
      MergesFit(rest[0].start, |rest[0].bytes|, rest[1..])
    else
      0 < |rest[0].bytes| <= BUFFER_SIZE - (start + length) &&
      MergesFit(start, length + |rest[0].bytes|, rest[1..])
  }

  lemma {:induction false} CompactNeverGrows(last: Buffer, rest: MultiBuffer)
    requires CompactSpec(last, rest).Some?
    ensures |Content(CompactSpec(last, rest).value)| <= |last.bytes| + |Content(rest)|
    decreases rest
  {
    var r := CompactSpec(last, rest).value;
    if rest == [] {
      ContentOne(last);
    } else if |last.bytes| + |rest[0].bytes| > BUFFER_SIZE {
      CompactNeverGrows(rest[0], rest[1..]);
      assert r[1..] == CompactSpec(rest[0], rest[1..]).value;
    } else {
      CompactNeverGrows(ReadInto(last, rest[0]), rest[1..]);
    }
  }

  /**
    Compact keeps the content exactly when the merges fit. A window that has been advanced
    leaves less room than the length test assumes, and then bytes are dropped.
   */
  lemma {:induction false} CompactKeepsContent(last: Buffer, rest: MultiBuffer)
    ensures var r := CompactSpec(last, rest);
            (r.Some? && Content(r.value) == last.bytes + Content(rest)) <==>
            MergesFit(last.start, |last.bytes|, rest)
    decreases rest
  {
    var r := CompactSpec(last, rest);
    if rest == [] {
      ContentOne(last);
    } else if |last.bytes| + |rest[0].bytes| > BUFFER_SIZE {
      CompactKeepsContent(rest[0], rest[1..]);
      var tail := CompactSpec(rest[0], rest[1..]);
      if tail.Some? {
        assert r.value[1..] == tail.value;
        assert Content(r.value) == last.bytes + Content(tail.value);
        assert Content(r.value)[|last.bytes|..] == Content(tail.value);
        assert (last.bytes + Content(rest))[|last.bytes|..] == Content(rest);
      }
    } else if rest[0].bytes != [] {
      var merged := ReadInto(last, rest[0]);
      CompactKeepsContent(merged, rest[1..]);
      if |rest[0].bytes| <= BUFFER_SIZE - last.End() {
        assert rest[0].bytes[..|rest[0].bytes|] == rest[0].bytes;
        assert merged.bytes + Content(rest[1..]) == last.bytes + Content(rest);
      } else if r.Some? {
        CompactNeverGrows(merged, rest[1..]);
      }
    }
  }

  /** Non-empty windows starting at offset 0, as freshly filled buffers are, always compact without loss. */
  lemma {:induction false} FreshBuffersFit(length: nat, rest: MultiBuffer)
    requires forall i :: 0 <= i < |rest| ==> rest[i].start == 0 && rest[i].bytes != []
    ensures MergesFit(0, length, rest)
    decreases rest
  {
    if rest != [] {
      FreshBuffersFit(|rest[0].bytes|, rest[1..]);
      FreshBuffersFit(length + |rest[0].bytes|, rest[1..]);
    }
  }

  /** Any two neighbours of the result are together longer than one buffer. */
  lemma {:induction false} CompactIsDense(last: Buffer, rest: MultiBuffer)
    requires CompactSpec(last, rest).Some?
    ensures var r := CompactSpec(last, rest).value;
            && r != []
            && |r[0].bytes| >= |last.bytes|
            && forall i :: 0 <= i < |r| - 1 ==> |r[i].bytes| + |r[i + 1].bytes| > BUFFER_SIZE
    decreases rest
  {
    if rest != [] {
      if |last.bytes| + |rest[0].bytes| > BUFFER_SIZE {
        CompactIsDense(rest[0], rest[1..]);
        var tail := CompactSpec(rest[0], rest[1..]).value;
        forall i | 0 <= i < |tail|
          ensures ([last] + tail)[i + 1] == tail[i]
        {
        }
      } else {
        CompactIsDense(ReadInto(last, rest[0]), rest[1..]);
      }
    }
  }

  /** A buffer advanced to offset 1000 loses ten bytes of its neighbour although both fit into 2048 bytes. */
  lemma CompactCanLose(a: seq<byte>, b: seq<byte>)
    requires |a| == 1048 && |b| == 10
    ensures CompactSpec(Window(1000, a), [Window(0, b)]) == Some([Window(1000, a)])
  {
    var last: Buffer := Window(1000, a);
    var rest: MultiBuffer := [Window(0, b)];
    assert ReadInto(last, rest[0]) == last;
    assert rest[1..] == [];
    assert CompactSpec(last, rest[1..]) == Some([last]);
  }
}
