/** Bytes, 16-bit words and the flattening of lists of byte strings, shared by every other module. */
module Bytes {

  type byte = b: int | 0 <= b < 0x100

  type uint16 = n: int | 0 <= n < 0x1_0000

  datatype Option<+T> = None | Some(value: T)

  /** The concatenation of a list of lists. */
  function Flatten<T>(ss: seq<seq<T>>): seq<T> {
    if ss == [] then [] else ss[0] + Flatten(ss[1..])
  }

  lemma {:induction false} FlattenConcat<T>(a: seq<seq<T>>, b: seq<seq<T>>)
    ensures Flatten(a + b) == Flatten(a) + Flatten(b)
  {
    if a == [] {
      assert a + b == b;
    } else {
      assert (a + b)[0] == a[0] && (a + b)[1..] == a[1..] + b;
      FlattenConcat(a[1..], b);
    }
  }

  lemma FlattenOne<T>(s: seq<T>)
    ensures Flatten([s]) == s
  {
    assert Flatten([s]) == s + Flatten([]);
  }

  /** A prefix of a list flattens to a prefix. */
  lemma FlattenPrefix<T>(a: seq<seq<T>>, b: seq<seq<T>>)
    requires a <= b
    ensures Flatten(a) <= Flatten(b)
  {
    assert b == a + b[|a|..];
    FlattenConcat(a, b[|a|..]);
  }

  lemma ConcatAssociative<T>(a: seq<T>, b: seq<T>, c: seq<T>)
    ensures (a + b) + c == a + (b + c)
  {
  }

  /** Taking `x` off the front of `a + b`, where `x` is not longer than `a`. */
  lemma TakeFront<T>(x: seq<T>, y: seq<T>, a: seq<T>, b: seq<T>)
    requires x + y == a + b && |x| <= |a|
    ensures x == a[..|x|] && y == a[|x|..] + b
  {
    assert x == (x + y)[..|x|] == a[..|x|];
    assert y == (x + y)[|x|..] == a[|x|..] + b;
  }

  /** A permutation has the same members. */
  lemma SameMembers<T>(a: seq<T>, b: seq<T>)
    requires multiset(a) == multiset(b)
    ensures forall x :: x in a <==> x in b
  {
    forall x
      ensures x in a <==> x in b
    {
      assert x in multiset(a) <==> x in multiset(b);
    }
  }

  lemma MulDistributes(a: int, b: int, c: int)
    ensures (a + b) * c == a * c + b * c
  {
  }

  // binary.BigEndian.PutUint16 and Uint16.

  function PutUint16(n: uint16): (r: seq<byte>)
    ensures |r| == 2
    ensures GetUint16(r) == n
  {
    [n / 0x100, n % 0x100]
  }

  function GetUint16(b: seq<byte>): uint16
    requires |b| >= 2
  {
    var high: int := b[0];
    high * 0x100 + b[1]
  }
}
