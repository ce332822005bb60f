/** Domain names, their labels, and the suffix test that domain patterns stand for (common/strmatcher/matchers.go). */
module DomainLabels {

  /** The position of the last dot before position n, or -1. */
  function DotBefore(s: string, n: nat): (i: int)
    requires n <= |s|
    ensures -1 <= i < n
  {
    if n == 0 then -1 else if s[n - 1] == '.' then n - 1 else DotBefore(s, n - 1)
  }

  lemma {:induction false} DotFacts(s: string, n: nat)
    requires n <= |s|
    ensures DotBefore(s, n) >= 0 ==> s[DotBefore(s, n)] == '.'
    ensures forall k :: DotBefore(s, n) < k < n ==> s[k] != '.'
  {
    if n > 0 && s[n - 1] != '.' {
      DotFacts(s, n - 1);
    }
  }

  /** The only position with a dot and none behind it, or none at all. */
  lemma {:induction false} DotUnique(s: string, n: nat, i: int)
    requires -1 <= i < n <= |s| && (i >= 0 ==> s[i] == '.') && forall k :: i < k < n ==> s[k] != '.'
    ensures DotBefore(s, n) == i
  {
    DotFacts(s, n);
  }

  datatype Label = Label(text: string)

  /** The labels before position n, from the last to the first. */
  function LabelsTo(s: string, n: nat): (r: seq<Label>)
    requires n <= |s|
    decreases n
  {
    var i := DotBefore(s, n);
    if i < 0 then [Label(s[0..n])] else [Label(s[i + 1..n])] + LabelsTo(s, i)
  }

  /** The labels of a name: strings.Split at the dots, backwards. */
  function Labels(s: string): seq<Label> { LabelsTo(s, |s|) }

  predicate HasSuffix(s: string, p: string) {
    |p| <= |s| && s[|s| - |p|..] == p
  }

  /** domainMatcher: the name itself or a name below it. */
  predicate DomainMatches(p: string, s: string) {
    HasSuffix(s, p) && (|s| == |p| || s[|s| - |p| - 1] == '.')
  }

  /** The same test on the first n characters of p and the first m of s, character by character. */
  predicate MatchesTo(p: string, n: nat, s: string, m: nat)
    requires n <= |p| && m <= |s|
  {
    n <= m && (forall k :: m - n <= k < m ==> s[k] == p[k - (m - n)]) && (m == n || s[m - n - 1] == '.')
  }

  lemma {:induction false} MatchesWhole(p: string, s: string)
    ensures DomainMatches(p, s) <==> MatchesTo(p, |p|, s, |s|)
  {
    if |p| <= |s| {
      var d := |s| - |p|;
      var t := s[d..];
      if t == p {
        forall k | d <= k < |s|
          ensures s[k] == p[k - d]
        {
          assert t[k - d] == s[k];
        }
      }
      if MatchesTo(p, |p|, s, |s|) {
        forall k | 0 <= k < |p|
          ensures t[k] == p[k]
        {
          assert s[k + d] == p[k];
        }
        assert t == p;
      }
    }
  }

  /** Equal parts are equal character by character. */
  lemma {:induction false} SameSlice(p: string, a: nat, b: nat, s: string, c: nat, d: nat)
    requires a <= b <= |p| && c <= d <= |s|
    ensures p[a..b] == s[c..d] <==> b - a == d - c && forall k :: c <= k < d ==> s[k] == p[k - c + a]
  {
    var x, y := p[a..b], s[c..d];
    if x == y {
      forall k | c <= k < d
        ensures s[k] == p[k - c + a]
      {
        assert x[k - c] == y[k - c];
      }
    }
    if b - a == d - c && forall k :: c <= k < d ==> s[k] == p[k - c + a] {
      forall k | 0 <= k < |x|
        ensures x[k] == y[k]
      {
        assert s[k + c] == p[k + a];
      }
      assert x == y;
    }
  }

  /** A dot-free pattern matches exactly the names whose last label it is. */
  lemma {:induction false} MatchesLabel(p: string, n: nat, s: string, m: nat)
    requires n <= |p| && m <= |s| && DotBefore(p, n) == -1
    ensures MatchesTo(p, n, s, m) <==> p[0..n] == s[DotBefore(s, m) + 1..m]
  {
    DotFacts(s, m);
    SameSlice(p, 0, n, s, DotBefore(s, m) + 1, m);
    if MatchesTo(p, n, s, m) {
      MatchedDot(p, n, s, m);
    }
  }

  lemma {:induction false} MatchedDot(p: string, n: nat, s: string, m: nat)
    requires n <= |p| && m <= |s| && DotBefore(p, n) == -1 && MatchesTo(p, n, s, m)
    ensures DotBefore(s, m) == m - n - 1
  {
    DotFacts(p, n);
    forall k | m - n <= k < m
      ensures s[k] != '.'
    {
      assert s[k] == p[k - (m - n)];
    }
    DotUnique(s, m, m - n - 1);
  }

  /** A match takes the last label and the dot off both names. */
  lemma {:induction false} MatchesSplit(p: string, n: nat, s: string, m: nat)
    requires n <= |p| && m <= |s| && DotBefore(p, n) >= 0 && MatchesTo(p, n, s, m)
    ensures DotBefore(s, m) == m - n + DotBefore(p, n)
    ensures p[DotBefore(p, n) + 1..n] == s[DotBefore(s, m) + 1..m]
    ensures MatchesTo(p, DotBefore(p, n), s, DotBefore(s, m))
  {
    var i, d := DotBefore(p, n), m - n;
    DotFacts(p, n);
    assert s[d + i] == p[i];
    forall k | d + i < k < m
      ensures s[k] != '.'
    {
      assert s[k] == p[k - d];
    }
    DotUnique(s, m, d + i);
    SameSlice(p, i + 1, n, s, d + i + 1, m);
  }

  /** ... and puts them back. */
  lemma {:induction false} MatchesJoin(p: string, n: nat, s: string, m: nat)
    requires n <= |p| && m <= |s| && DotBefore(p, n) >= 0 && DotBefore(s, m) >= 0
    requires p[DotBefore(p, n) + 1..n] == s[DotBefore(s, m) + 1..m]
    requires MatchesTo(p, DotBefore(p, n), s, DotBefore(s, m))
    ensures MatchesTo(p, n, s, m)
  {
    var i, j := DotBefore(p, n), DotBefore(s, m);
    DotFacts(p, n);
    DotFacts(s, m);
    SameSlice(p, i + 1, n, s, j + 1, m);
    forall k | m - n <= k < m
      ensures s[k] == p[k - (m - n)]
    {
    }
  }

  lemma ConsPrefix<T>(x: T, xs: seq<T>, y: T, ys: seq<T>)
    ensures [x] + xs <= [y] + ys <==> x == y && xs <= ys
  {
    assert ([x] + xs)[1..] == xs && ([y] + ys)[1..] == ys;
    if [x] + xs <= [y] + ys {
      assert ([x] + xs)[0] == ([y] + ys)[0];
      assert xs == ([y] + ys)[1..|xs| + 1];
    }
  }

  lemma {:induction false} LabelsStep(s: string, n: nat)
    requires n <= |s|
    ensures LabelsTo(s, n) != []
    ensures LabelsTo(s, n)[0] == Label(s[DotBefore(s, n) + 1..n])
    ensures DotBefore(s, n) < 0 ==> LabelsTo(s, n) == [Label(s[0..n])] == [Label(s[DotBefore(s, n) + 1..n])]
    ensures DotBefore(s, n) >= 0 ==> LabelsTo(s, n) == [Label(s[DotBefore(s, n) + 1..n])] + LabelsTo(s, DotBefore(s, n))
  {
  }

  lemma {:induction false} PrefixWithoutDot(p: string, n: nat, s: string, m: nat)
    requires n <= |p| && m <= |s| && DotBefore(p, n) < 0
    ensures LabelsTo(p, n) <= LabelsTo(s, m) <==> p[0..n] == s[DotBefore(s, m) + 1..m]
  {
    LabelsStep(p, n);
    LabelsStep(s, m);
  }

  lemma TwoLabels(p: string, n: nat)
    requires n <= |p| && DotBefore(p, n) >= 0
    ensures |LabelsTo(p, n)| >= 2
  {
    LabelsStep(p, n);
    LabelsStep(p, DotBefore(p, n));
  }

  lemma LongerIsNoPrefix(a: seq<Label>, b: seq<Label>)
    requires |a| > |b|
    ensures !(a <= b)
  {
  }

  lemma {:induction false} PrefixBothDots(p: string, n: nat, s: string, m: nat)
    requires n <= |p| && m <= |s| && DotBefore(p, n) >= 0 && DotBefore(s, m) >= 0
    ensures LabelsTo(p, n) <= LabelsTo(s, m) <==>
            && p[DotBefore(p, n) + 1..n] == s[DotBefore(s, m) + 1..m]
            && LabelsTo(p, DotBefore(p, n)) <= LabelsTo(s, DotBefore(s, m))
  {
    var i, j := DotBefore(p, n), DotBefore(s, m);
    LabelsStep(p, n);
    LabelsStep(s, m);
    ConsPrefix(Label(p[i + 1..n]), LabelsTo(p, i), Label(s[j + 1..m]), LabelsTo(s, j));
  }

  lemma {:induction false} PrefixWithDot(p: string, n: nat, s: string, m: nat)
    requires n <= |p| && m <= |s| && DotBefore(p, n) >= 0
    ensures LabelsTo(p, n) <= LabelsTo(s, m) <==>
            && DotBefore(s, m) >= 0
            && p[DotBefore(p, n) + 1..n] == s[DotBefore(s, m) + 1..m]
            && LabelsTo(p, DotBefore(p, n)) <= LabelsTo(s, DotBefore(s, m))
  {
    if DotBefore(s, m) >= 0 {
      PrefixBothDots(p, n, s, m);
    } else {
      TwoLabels(p, n);
      LabelsStep(s, m);
      LongerIsNoPrefix(LabelsTo(p, n), LabelsTo(s, m));
    }
  }

  lemma {:induction false} ByLabels(p: string, n: nat, s: string, m: nat)
    requires n <= |p| && m <= |s|
    ensures MatchesTo(p, n, s, m) <==> LabelsTo(p, n) <= LabelsTo(s, m)
    decreases n
  {
    var i, j := DotBefore(p, n), DotBefore(s, m);
    if i < 0 {
      MatchesLabel(p, n, s, m);
      PrefixWithoutDot(p, n, s, m);
    } else {
      PrefixWithDot(p, n, s, m);
      if MatchesTo(p, n, s, m) {
        MatchesSplit(p, n, s, m);
      }
      if j >= 0 {
        ByLabels(p, i, s, j);
        if LabelsTo(p, n) <= LabelsTo(s, m) {
          MatchesJoin(p, n, s, m);
        }
      }
    }
  }

  /** The suffix test on names is the prefix test on reversed labels. */
  lemma {:induction false} MatchesByLabels(p: string, s: string)
    ensures DomainMatches(p, s) <==> Labels(p) <= Labels(s)
  {
    MatchesWhole(p, s);
    ByLabels(p, |p|, s, |s|);
  }

  /** Names are determined by their labels. */
  lemma {:induction false} LabelsInjective(s: string, t: string)
    requires Labels(s) == Labels(t)
    ensures s == t
  {
    MatchesByLabels(s, t);
    MatchesByLabels(t, s);
  }
}
