/** One buffer as it works in place: a window over an array of bytes (common/buf/buffer.go). */
module Buffers {
  import opened Bytes
  import opened MultiBuffers
  import opened BufferedIO

  class ByteBuffer {
    const v: array<byte>
    var start: int
    var end: nat

    constructor ()
      ensures Valid() && View() == Window(0, []) && fresh(v)
    {
      v := new byte[BUFFER_SIZE];
      start, end := 0, 0;
    }

    ghost predicate Valid()
      reads this
    {
      v.Length == BUFFER_SIZE && 0 <= start <= end <= v.Length
    }

    /** The value the rest of the model works with. */
    ghost function View(): (w: Buffer)
      requires Valid()
      reads this, v
    {
      Window(start, v[start..end])
    }

    method Clear()
      requires Valid()
      modifies this
      ensures Valid() && View() == Window(0, [])
    {
      start, end := 0, 0;
    }

    /** Writes behind the window as much as fits; the rest is refused. */
    method Write(data: seq<byte>) returns (n: nat)
      requires Valid()
      modifies this, v
      ensures Valid() && n == Min(BUFFER_SIZE - old(end), |data|)
      ensures View() == Window(old(start), old(View()).bytes + data[..n])
    {
      n := if v.Length - end < |data| then v.Length - end else |data|;
      forall i | 0 <= i < n {
        v[end + i] := data[i];
      }
      end := end + n;
      assert v[start..end] == old(v[start..end]) + data[..n];
    }

    method WriteByte(b: byte) returns (ok: bool)
      requires Valid()
      modifies this, v
      ensures Valid() && ok == !IsFull(old(View()))
      ensures View() == if ok then Window(old(start), old(View()).bytes + [b]) else old(View())
    {
      if end == v.Length {
        return false;
      }
      v[end] := b;
      end := end + 1;
      assert v[start..end] == old(v[start..end]) + [b];
      ok := true;
    }

    /** Takes up to `n` bytes from the front; an empty buffer is at its end, and an emptied one starts over. */
    method Read(n: nat) returns (r: Option<seq<byte>>)
      requires Valid()
      modifies this
      ensures Valid() && (r.None? <==> old(View()).bytes == [])
      ensures r.None? ==> View() == old(View())
      ensures r.Some? ==> |r.value| == Min(n, |old(View()).bytes|) && r.value + View().bytes == old(View()).bytes
      ensures r.Some? ==> start == if end == 0 then 0 else old(start) + |r.value|
    {
      if end == start {
        return None;
      }
      var taken := if n < end - start then n else end - start;
      r := Some(v[start..start + taken]);
      ghost var all := v[start..end];
      assert all == v[start..start + taken] + v[start + taken..end];
      if taken == end - start {
        Clear();
      } else {
        start := start + taken;
      }
    }

    /**
      Advance moves the front of the window; a negative position counts from its end. Nothing is
      checked: the window stays one exactly if the new front is not beyond its ends.
     */
    method Advance(from: int)
      requires Valid()
      modifies this`start
      ensures var k := if from < 0 then from + old(end - start) else from;
              && (Valid() <==> 0 <= old(start) + k <= end)
              && (Valid() ==> View() == Window(old(start) + k, v[old(start) + k..end]))
              && (0 <= k <= old(end - start) ==> View() == Window(old(start) + k, old(View()).bytes[k..]))
    {
      start := start + if from < 0 then from + (end - start) else from;
    }

    /** ReadFrom another buffer moves bytes from its front to the back of this one; see ReadInto. */
    method ReadFrom(other: ByteBuffer) returns (ok: bool)
      requires Valid() && other.Valid() && other != this && other.v != v
      modifies this, v, other
      ensures Valid() && other.Valid() && ok == (old(other.View()).bytes != [])
      ensures View() == ReadInto(old(View()), old(other.View()))
      ensures View().bytes + other.View().bytes == old(View()).bytes + old(other.View()).bytes
    {
      var room := v.Length - end;
      var data := other.Read(room);
      if data.None? {
        return false;
      }
      ghost var mine, theirs := View().bytes, other.View().bytes;
      var n := Write(data.value);
      assert data.value[..n] == data.value;
      assert data.value == (data.value + theirs)[..n];
      ConcatAssociative(mine, data.value, theirs);
      ok := true;
    }

    /**
      ReadFullFrom: exactly `size` bytes from a reader behind the window, or as many as there are. A
      size that does not fit is refused, and then nothing is read.
     */
    method ReadFullFrom(reader: BufferedReader, size: nat) returns (r: Option<FullRead>)
      requires Valid()
      modifies this, v, reader
      ensures Valid() && (r.None? <==> old(end) + size > BUFFER_SIZE)
      ensures r.None? ==> View() == old(View()) && reader.Unread() == old(reader.Unread())
      ensures r.Some? ==> (r.value.Full? <==> size <= |old(reader.Unread())|)
      ensures r.Some? ==>
                var n := Min(size, |old(reader.Unread())|);
                && View() == Window(old(start), old(View()).bytes + old(reader.Unread())[..n])
                && reader.Unread() == old(reader.Unread())[n..]
    {
      if end + size > v.Length {
        return None;
      }
      var got := reader.ReadFull(size);
      var bytes := if got.EndOfStream? then [] else got.bytes;
      var n := Write(bytes);
      assert bytes[..n] == bytes;
      r := Some(got);
    }
  }
}
