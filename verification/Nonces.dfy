/** The increasing nonce of AEAD chunks (common/crypto/auth.go): a little-endian counter of any length. */
module Nonces {
  import opened Bytes

  function Pow256(n: nat): (p: nat)
    ensures p > 0
  {
    if n == 0 then 1 else 0x100 * Pow256(n - 1)
  }

  /** The number a nonce stands for, least significant byte first. */
  function Value(s: seq<byte>): nat {
    if s == [] then 0 else s[0] as int + 0x100 * Value(s[1..])
  }

  /** One increment with carry; the counter wraps around. */
  function Increment(s: seq<byte>): (r: seq<byte>)
    ensures |r| == |s|
  {
    if s == [] then [] else if s[0] == 0xff then [0] + Increment(s[1..]) else [s[0] + 1] + s[1..]
  }

  lemma {:induction false} ValueBound(s: seq<byte>)
    ensures Value(s) < Pow256(|s|)
  {
    if s != [] {
      ValueBound(s[1..]);
    }
  }

  lemma {:induction false} ValueInjective(s: seq<byte>, t: seq<byte>)
    requires |s| == |t| && Value(s) == Value(t)
    ensures s == t
  {
    if s != [] {
      assert s[0] == Value(s) % 0x100 && t[0] == Value(t) % 0x100;
      ValueInjective(s[1..], t[1..]);
      assert s == [s[0]] + s[1..] && t == [t[0]] + t[1..];
    }
  }

  lemma {:induction false} IncrementAdds(s: seq<byte>)
    ensures Value(Increment(s)) == if Value(s) + 1 == Pow256(|s|) then 0 else Value(s) + 1
  {
    if s != [] {
      ValueBound(s[1..]);
      IncrementAdds(s[1..]);
      assert Increment(s)[1..] == if s[0] == 0xff then Increment(s[1..]) else s[1..];
    }
  }

  /** The nonce after k increments. */
  function Nth(s: seq<byte>, k: nat): (r: seq<byte>)
    ensures |r| == |s|
  {
    if k == 0 then s else Increment(Nth(s, k - 1))
  }

  lemma ModStep(a: nat, p: nat)
    requires p > 0
    ensures (a + 1) % p == if a % p + 1 == p then 0 else a % p + 1
  {
    var q, r := a / p, a % p;
    assert a == q * p + r;
    if r + 1 == p {
      assert a + 1 == (q + 1) * p;
      ModMultiple(q + 1, p, 0);
    } else {
      ModMultiple(q, p, r + 1);
    }
  }

  lemma MulAtLeast(d: int, p: nat)
    requires d >= 1
    ensures d * p >= p
  {
  }

  lemma ModMultiple(q: nat, p: nat, r: nat)
    requires p > 0 && r < p
    ensures (q * p + r) % p == r
  {
    var a := q * p + r;
    var q', r' := a / p, a % p;
    assert a == q' * p + r';
    MulDistributes(q - q', q', p);
    MulDistributes(q' - q, q, p);
    if q' < q {
      MulAtLeast(q - q', p);
    } else if q < q' {
      MulAtLeast(q' - q, p);
    }
  }

  /** The k-th nonce is the number start + k, modulo 256 to the length. */
  lemma {:induction false} NthValue(s: seq<byte>, k: nat)
    ensures Value(Nth(s, k)) == (Value(s) + k) % Pow256(|s|)
  {
    ValueBound(s);
    if k == 0 {
      ModMultiple(0, Pow256(|s|), Value(s));
    } else {
      NthValue(s, k - 1);
      IncrementAdds(Nth(s, k - 1));
      ModStep(Value(s) + k - 1, Pow256(|s|));
    }
  }

  lemma ModEqual(a: nat, d: nat, p: nat)
    requires p > 0
    ensures (a + d) % p == a % p <==> d % p == 0
  {
    var q, r, e, f := a / p, a % p, d / p, d % p;
    assert a == q * p + r && d == e * p + f;
    ModSum(q, r, e, f, p);
  }

  lemma ModSum(q: nat, r: nat, e: nat, f: nat, p: nat)
    requires r < p && f < p
    ensures (q * p + r + (e * p + f)) % p == if r + f < p then r + f else r + f - p
  {
    MulDistributes(q, e, p);
    if r + f < p {
      assert q * p + r + (e * p + f) == (q + e) * p + (r + f);
      ModMultiple(q + e, p, r + f);
    } else {
      MulDistributes(q + e, 1, p);
      assert q * p + r + (e * p + f) == (q + e + 1) * p + (r + f - p);
      ModMultiple(q + e + 1, p, r + f - p);
    }
  }

  /** Two nonces of one generator are equal exactly when a whole cycle lies between them. */
  lemma NoncesRepeat(s: seq<byte>, i: nat, j: nat)
    requires i <= j
    ensures Nth(s, i) == Nth(s, j) <==> (j - i) % Pow256(|s|) == 0
  {
    NthValue(s, i);
    NthValue(s, j);
    ModEqual(Value(s) + i, j - i, Pow256(|s|));
    if Value(Nth(s, i)) == Value(Nth(s, j)) {
      ValueInjective(Nth(s, i), Nth(s, j));
    }
  }

  /** The first 256^length nonces are pairwise distinct, as section 3.1 of RFC 5116 asks. */
  lemma NoncesAreDistinct(s: seq<byte>, i: nat, j: nat)
    requires i < j && j - i < Pow256(|s|)
    ensures Nth(s, i) != Nth(s, j)
  {
    NoncesRepeat(s, i, j);
    ModMultiple(0, Pow256(|s|), j - i);
  }

  /** A generator started at all 0xff first yields zero. */
  lemma {:induction false} InitialNonce(s: seq<byte>)
    requires forall i :: 0 <= i < |s| ==> s[i] == 0xff
    ensures Value(Nth(s, 1)) == 0
  {
    assert Nth(s, 1) == Increment(Nth(s, 0));
    WrapsToZero(s);
  }

  lemma {:induction false} WrapsToZero(s: seq<byte>)
    requires forall i :: 0 <= i < |s| ==> s[i] == 0xff
    ensures Value(Increment(s)) == 0
  {
    if s != [] {
      WrapsToZero(s[1..]);
      assert Increment(s)[1..] == Increment(s[1..]);
    }
  }

  /** Byte k changes exactly when every byte before it carries. */
  lemma {:induction false} IncrementAt(s: seq<byte>, k: nat)
    requires k < |s|
    ensures Increment(s)[k] == if (forall j :: 0 <= j < k ==> s[j] == 0xff) then (s[k] as int + 1) % 0x100 else s[k]
  {
    if k > 0 && s[0] == 0xff {
      IncrementAt(s[1..], k - 1);
      assert (forall j :: 0 <= j < k ==> s[j] == 0xff) <==> (forall j :: 0 <= j < k - 1 ==> s[1..][j] == 0xff) by {
        if forall j :: 0 <= j < k - 1 ==> s[1..][j] == 0xff {
          forall j | 0 <= j < k
            ensures s[j] == 0xff
          {
            assert j > 0 ==> s[1..][j - 1] == s[j];
          }
        }
      }
    }
  }

  class NonceGenerator {
    const c: array<byte>
    ghost const start: seq<byte>
    ghost var calls: nat

    constructor (nonce: seq<byte>)
      ensures fresh(c) && start == nonce && calls == 0 && Valid()
    {
      c := new byte[|nonce|](i requires 0 <= i < |nonce| => nonce[i]);
      start, calls := nonce, 0;
    }

    /** The array holds the nonce of the last call. */
    ghost predicate Valid()
      reads this, c
    {
      c[..] == Nth(start, calls)
    }

    /** Increments the array in place and hands it out: call number k yields the k-th nonce. */
    method Next() returns (nonce: seq<byte>)
      requires Valid()
      modifies this, c
      ensures Valid() && calls == old(calls) + 1
      ensures nonce == Nth(start, calls) == Increment(old(c[..]))
    {
      calls := calls + 1;
      Carry();
      nonce := c[..];
    }

    method Carry()
      modifies c
      ensures c[..] == Increment(old(c[..]))
    {
      ghost var was := c[..];
      var i := 0;
      var carry := true;
      while i < c.Length && carry
        invariant 0 <= i <= c.Length
        invariant forall k :: i <= k < c.Length ==> c[k] == was[k]
        invariant carry ==> forall k :: 0 <= k < i ==> was[k] == 0xff && c[k] == 0
        invariant !carry ==> i > 0 && was[i - 1] != 0xff && c[i - 1] == was[i - 1] + 1
        invariant !carry ==> forall k :: 0 <= k < i - 1 ==> was[k] == 0xff && c[k] == 0
      {
        c[i] := (c[i] as int + 1) % 0x100;
        carry := c[i] == 0;
        i := i + 1;
      }
      forall k | 0 <= k < c.Length
        ensures c[k] == Increment(was)[k]
      {
        IncrementAt(was, k);
      }
    }
  }
}
