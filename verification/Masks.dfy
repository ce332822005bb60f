/** Powers of two, masks and big-endian numbers: the arithmetic behind CIDR blocks. */
module Masks {
  import opened Bytes
  import opened Nonces

  function Pow2(n: nat): (p: nat)
    ensures p > 0
  {
    if n == 0 then 1 else 2 * Pow2(n - 1)
  }

  lemma {:induction false} Pow2Sum(m: nat, n: nat)
    ensures Pow2(m + n) == Pow2(m) * Pow2(n)
  {
    if m > 0 {
      Pow2Sum(m - 1, n);
      MulAssociative(2, Pow2(m - 1), Pow2(n));
    }
  }

  lemma MulAssociative(a: int, b: int, c: int)
    ensures (a * b) * c == a * (b * c)
  {
  }

  lemma MulMonotone(a: int, b: int, c: nat)
    requires a <= b
    ensures a * c <= b * c
  {
  }

  lemma DivModFact(x: nat, m: nat) returns (q: nat, r: nat)
    requires m > 0
    ensures x == q * m + r && r < m && q == x / m && r == x % m
  {
    q, r := x / m, x % m;
  }

  lemma ModAtMost(x: nat, m: nat)
    requires m > 0
    ensures x % m <= x
  {
    var q, r := DivModFact(x, m);
    MulMonotone(0, q, m);
  }

  /** The bits of x above the lowest k. */
  function Mask(x: nat, k: nat): nat {
    ModAtMost(x, Pow2(k));
    x - x % Pow2(k)
  }

  /** Mask is the shift right and back of the source. */
  lemma MaskIsShift(x: nat, k: nat)
    ensures Mask(x, k) == (x / Pow2(k)) * Pow2(k)
  {
    var q, r := DivModFact(x, Pow2(k));
  }

  lemma MaskUnique(x: nat, k: nat, q: nat, r: nat)
    requires x == q * Pow2(k) + r && r < Pow2(k)
    ensures Mask(x, k) == q * Pow2(k)
  {
    ModMultiple(q, Pow2(k), r);
  }

  /** x lies in the aligned block of its mask. */
  lemma MaskBounds(x: nat, k: nat)
    ensures Mask(x, k) <= x < Mask(x, k) + Pow2(k)
  {
  }

  /** A number has the same mask exactly when it lies in the same aligned block. */
  lemma {:induction false} SameMask(x: nat, y: nat, k: nat)
    ensures Mask(y, k) == Mask(x, k) <==> Mask(x, k) <= y < Mask(x, k) + Pow2(k)
  {
    var q, r := DivModFact(x, Pow2(k));
    if Mask(x, k) <= y < Mask(x, k) + Pow2(k) {
      MaskUnique(y, k, q, y - Mask(x, k));
    }
  }

  /** The mask of a two-word number, when the mask reaches into the upper word. */
  lemma {:induction false} MaskHigh(a: nat, b: nat, w: nat, k: nat)
    requires b < Pow2(w)
    ensures Mask(a * Pow2(w) + b, k + w) == Mask(a, k) * Pow2(w)
  {
    var mw, mk := Pow2(w), Pow2(k);
    var q, r := DivModFact(a, mk);
    Pow2Sum(k, w);
    MaskUnique(a, k, q, r);
    MulDistributes(q * mk, r, mw);
    MulAssociative(q, mk, mw);
    MulMonotone(r + 1, mk, mw);
    MulDistributes(r, 1, mw);
    MulMonotone(0, r, mw);
    MaskUnique(a * mw + b, k + w, q, r * mw + b);
  }

  /** ... and when it stays within the lower word. */
  lemma {:induction false} MaskLow(a: nat, b: nat, k: nat, j: nat)
    ensures Mask(a * Pow2(j + k) + b, k) == a * Pow2(j + k) + Mask(b, k)
  {
    var m := Pow2(k);
    var q, r := DivModFact(b, m);
    Pow2Sum(j, k);
    MulAssociative(a, Pow2(j), m);
    MulMonotone(0, a, Pow2(j));
    var c: nat := a * Pow2(j);
    MulDistributes(c, q, m);
    MaskUnique(b, k, q, r);
    MaskUnique(a * Pow2(j + k) + b, k, c + q, r);
  }

  // ----- big-endian numbers

  /** binary.BigEndian, for any length. */
  function BigEndian(s: seq<byte>): nat {
    if s == [] then 0 else s[0] as int * Pow256(|s| - 1) + BigEndian(s[1..])
  }

  lemma {:induction false} BigEndianBound(s: seq<byte>)
    ensures BigEndian(s) < Pow256(|s|)
  {
    if s != [] {
      BigEndianBound(s[1..]);
      MulMonotone(s[0] as int + 1, 0x100, Pow256(|s| - 1));
      MulDistributes(s[0] as int, 1, Pow256(|s| - 1));
    }
  }

  /** The order of the bytes from the front. */
  predicate LexLess(s: seq<byte>, t: seq<byte>)
    requires |s| == |t|
  {
    s != [] && (s[0] < t[0] || (s[0] == t[0] && LexLess(s[1..], t[1..])))
  }

  /** Comparing byte by byte is comparing the numbers. */
  lemma {:induction false} LexIsNumeric(s: seq<byte>, t: seq<byte>)
    requires |s| == |t|
    ensures LexLess(s, t) <==> BigEndian(s) < BigEndian(t)
    ensures s == t <==> BigEndian(s) == BigEndian(t)
  {
    if s != [] {
      var p := Pow256(|s| - 1);
      LexIsNumeric(s[1..], t[1..]);
      BigEndianBound(s[1..]);
      BigEndianBound(t[1..]);
      if s[0] < t[0] {
        HighByteDecides(s[0], t[0], BigEndian(s[1..]), BigEndian(t[1..]), p);
      } else if t[0] < s[0] {
        HighByteDecides(t[0], s[0], BigEndian(t[1..]), BigEndian(s[1..]), p);
      } else {
        assert s == [s[0]] + s[1..] && t == [t[0]] + t[1..];
      }
    }
  }

  lemma HighByteDecides(a: byte, b: byte, x: nat, y: nat, p: nat)
    requires a < b && x < p
    ensures a as int * p + x < b as int * p + y
  {
    MulMonotone(a as int + 1, b as int, p);
    MulDistributes(a as int, 1, p);
  }

  lemma {:induction false} Pow256Sum(m: nat, n: nat)
    ensures Pow256(m + n) == Pow256(m) * Pow256(n)
  {
    if m > 0 {
      Pow256Sum(m - 1, n);
      MulAssociative(0x100, Pow256(m - 1), Pow256(n));
    }
  }

  lemma {:induction false} BigEndianConcat(s: seq<byte>, t: seq<byte>)
    ensures BigEndian(s + t) == BigEndian(s) * Pow256(|t|) + BigEndian(t)
  {
    if s == [] {
      assert s + t == t;
    } else {
      assert (s + t)[0] == s[0] && (s + t)[1..] == s[1..] + t;
      BigEndianConcat(s[1..], t);
      Pow256Sum(|s| - 1, |t|);
      MulAssociative(s[0] as int, Pow256(|s| - 1), Pow256(|t|));
      MulDistributes(s[0] as int * Pow256(|s| - 1), BigEndian(s[1..]), Pow256(|t|));
    }
  }

  lemma {:induction false} Pow256IsPow2(n: nat)
    ensures Pow256(n) == Pow2(8 * n)
  {
    if n > 0 {
      Pow256IsPow2(n - 1);
      Pow2Sum(8, 8 * (n - 1));
      assert Pow2(8) == 0x100;
    }
  }
}
