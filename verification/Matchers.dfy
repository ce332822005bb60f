/**
 * Groups of string matchers: full names by map, domain suffixes by trie, the rest by scan
 * (common/strmatcher/strmatcher.go, full_matcher.go, matchers.go).
 */
module Matchers {
  import opened DomainLabels
  import opened DomainTrie

  /** A compiled regular expression is its acceptance test. */
  datatype Matcher =
    | Full(pattern: string)
    | Substr(pattern: string)
    | Domain(pattern: string)
    | Regex(accepts: string -> bool)

  predicate Substring(s: string, p: string) {
    exists i :: 0 <= i <= |s| - |p| && StandsAt(s, p, i)
  }

  predicate StandsAt(s: string, p: string, i: nat)
    requires i + |p| <= |s|
  {
    s[i..i + |p|] == p
  }

  /** Matcher.Match. */
  predicate Accepts(m: Matcher, s: string) {
    match m
    case Full(p) => p == s
    case Substr(p) => Substring(s, p)
    case Domain(p) => DomainMatches(p, s)
    case Regex(accepts) => accepts(s)
  }

  /** Ids are 32 bits wide and count the matchers from one. */
  function IdOf(n: nat): nat { n % 0x1_0000_0000 }

  lemma SmallId(n: nat)
    requires n < 0x1_0000_0000
    ensures IdOf(n) == n
  {
  }

  function IdIf(m: Matcher, s: string, id: nat): seq<nat> { if Accepts(m, s) then [id] else [] }

  /** The reference: every matcher asked in turn. */
  function Scan(all: seq<Matcher>, s: string): seq<nat> {
    if all == [] then []
    else Scan(all[..|all| - 1], s) + IdIf(all[|all| - 1], s, IdOf(|all|))
  }

  // Where each matcher of a group is kept.

  function FullEntries(all: seq<Matcher>): seq<Entry<string>> {
    if all == [] then []
    else
      var m := all[|all| - 1];
      FullEntries(all[..|all| - 1]) + if m.Full? then [Entry(m.pattern, IdOf(|all|))] else []
  }

  function DomainEntries(all: seq<Matcher>): seq<Entry<Path>> {
    if all == [] then []
    else
      var m := all[|all| - 1];
      DomainEntries(all[..|all| - 1]) + if m.Domain? then [Entry(Labels(m.pattern), IdOf(|all|))] else []
  }

  function OtherIds(all: seq<Matcher>, s: string): seq<nat> {
    if all == [] then []
    else
      var m := all[|all| - 1];
      OtherIds(all[..|all| - 1], s) + if m.Full? || m.Domain? then [] else IdIf(m, s, IdOf(|all|))
  }

  /** What Match of a group returns. */
  function GroupSpec(all: seq<Matcher>, s: string): seq<nat> {
    IdsAt(FullEntries(all), s) + MatchSpec(DomainEntries(all), s) + OtherIds(all, s)
  }

  /** How often an id is listed. */
  function Times(ids: seq<nat>, id: nat): nat {
    if ids == [] then 0 else Times(ids[..|ids| - 1], id) + if ids[|ids| - 1] == id then 1 else 0
  }

  lemma {:induction false} TimesConcat(a: seq<nat>, b: seq<nat>, id: nat)
    ensures Times(a + b, id) == Times(a, id) + Times(b, id)
  {
    if b == [] {
      assert a + b == a;
    } else {
      TimesConcat(a, b[..|b| - 1], id);
      assert (a + b)[..|a + b| - 1] == a + b[..|b| - 1];
    }
  }

  lemma {:induction false} TimesIsMultiset(ids: seq<nat>, id: nat)
    ensures Times(ids, id) == multiset(ids)[id]
  {
    if ids != [] {
      TimesIsMultiset(ids[..|ids| - 1], id);
      assert ids == ids[..|ids| - 1] + [ids[|ids| - 1]];
    }
  }

  lemma PrefixOf(path: Path, labels: Path, k: nat)
    requires k <= |labels|
    ensures path == labels[..k] <==> |path| == k && path <= labels
  {
  }

  /** One more pattern adds its id exactly if it lies on the path, at whatever depth. */
  lemma {:induction false} DepthStep(entries: seq<Entry<Path>>, e: Entry<Path>, labels: Path, k: nat, id: nat)
    requires k <= |labels| && e.path != []
    ensures Times(ByDepth(entries + [e], labels, k), id) ==
            Times(ByDepth(entries, labels, k), id) + if |e.path| <= k && e.path <= labels && e.id == id then 1 else 0
  {
    if k > 0 {
      DepthStep(entries, e, labels, k - 1, id);
      TimesAt(entries, e, labels[..k], id);
      TimesConcat(IdsAt(entries + [e], labels[..k]), ByDepth(entries + [e], labels, k - 1), id);
      TimesConcat(IdsAt(entries, labels[..k]), ByDepth(entries, labels, k - 1), id);
      PrefixOf(e.path, labels, k);
    }
  }

  lemma {:induction false} TimesAt<P>(entries: seq<Entry<P>>, e: Entry<P>, path: P, id: nat)
    ensures Times(IdsAt(entries + [e], path), id) ==
            Times(IdsAt(entries, path), id) + if e.path == path && e.id == id then 1 else 0
  {
    IdsAtAppend(entries, e, path);
    TimesConcat(IdsAt(entries, path), [e.id], id);
  }

  /** The trie finds a new pattern exactly in the names it matches. */
  lemma {:induction false} TrieStep(entries: seq<Entry<Path>>, p: string, added: nat, s: string, id: nat)
    requires s != ""
    ensures Times(MatchSpec(entries + [Entry(Labels(p), added)], s), id) ==
            Times(MatchSpec(entries, s), id) + if DomainMatches(p, s) && added == id then 1 else 0
  {
    LabelsStep(p, |p|);
    DepthStep(entries, Entry(Labels(p), added), Labels(s), |Labels(s)|, id);
    MatchesByLabels(p, s);
  }

  /** No pattern is the empty name. */
  ghost predicate NoEmptyDomain(all: seq<Matcher>) {
    forall i :: 0 <= i < |all| && all[i].Domain? ==> all[i].pattern != ""
  }

  lemma GroupTimes(all: seq<Matcher>, s: string, id: nat)
    ensures Times(GroupSpec(all, s), id) ==
            Times(IdsAt(FullEntries(all), s), id) + Times(MatchSpec(DomainEntries(all), s), id)
            + Times(OtherIds(all, s), id)
  {
    TimesConcat(IdsAt(FullEntries(all), s), MatchSpec(DomainEntries(all), s), id);
    TimesConcat(IdsAt(FullEntries(all), s) + MatchSpec(DomainEntries(all), s), OtherIds(all, s), id);
  }

  /** Where a new matcher goes. */
  lemma {:induction false} EntriesStep(all: seq<Matcher>, m: Matcher, s: string)
    ensures var id := IdOf(|all| + 1);
            && FullEntries(all + [m]) ==
               (if m.Full? then FullEntries(all) + [Entry(m.pattern, id)] else FullEntries(all))
            && DomainEntries(all + [m]) ==
               (if m.Domain? then DomainEntries(all) + [Entry(Labels(m.pattern), id)] else DomainEntries(all))
            && OtherIds(all + [m], s) ==
               (if m.Full? || m.Domain? then OtherIds(all, s) else OtherIds(all, s) + IdIf(m, s, id))
            && Scan(all + [m], s) == Scan(all, s) + IdIf(m, s, id)
  {
    assert (all + [m])[..|all|] == all;
  }

  lemma {:induction false} GroupStep(all: seq<Matcher>, m: Matcher, s: string, id: nat)
    requires s != "" || !m.Domain? || m.pattern != ""
    ensures Times(GroupSpec(all + [m], s), id) == Times(GroupSpec(all, s), id) + Times(IdIf(m, s, IdOf(|all| + 1)), id)
  {
    var next := IdOf(|all| + 1);
    EntriesStep(all, m, s);
    GroupTimes(all, s, id);
    GroupTimes(all + [m], s, id);
    match m {
      case Full(p) =>
        IdsAtAppend(FullEntries(all), Entry(p, next), s);
        TimesConcat(IdsAt(FullEntries(all), s), [next], id);
      case Domain(p) =>
        if s != "" {
          TrieStep(DomainEntries(all), p, next, s, id);
        }
      case Substr(_) =>
        TimesConcat(OtherIds(all, s), IdIf(m, s, next), id);
      case Regex(_) =>
        TimesConcat(OtherIds(all, s), IdIf(m, s, next), id);
    }
  }

  lemma {:induction false} GroupCounts(all: seq<Matcher>, s: string, id: nat)
    requires s != "" || NoEmptyDomain(all)
    ensures Times(GroupSpec(all, s), id) == Times(Scan(all, s), id)
  {
    if all == [] {
      NoEntries(Labels(s), |Labels(s)|);
    } else {
      var front, m := all[..|all| - 1], all[|all| - 1];
      assert front + [m] == all;
      GroupCounts(front, s, id);
      GroupStep(front, m, s, id);
      EntriesStep(front, m, s);
      TimesConcat(Scan(front, s), IdIf(m, s, IdOf(|all|)), id);
    }
  }

  /** A group answers like the scan over all its matchers. */
  lemma GroupMatchesScan(all: seq<Matcher>, s: string)
    requires s != "" || NoEmptyDomain(all)
    ensures multiset(GroupSpec(all, s)) == multiset(Scan(all, s))
  {
    forall id
      ensures multiset(GroupSpec(all, s))[id] == multiset(Scan(all, s))[id]
    {
      GroupCounts(all, s, id);
      TimesIsMultiset(GroupSpec(all, s), id);
      TimesIsMultiset(Scan(all, s), id);
    }
  }

  /** On the empty name the trie is not asked, so a group falls short by its empty domain patterns. */
  lemma {:induction false} EmptyName(all: seq<Matcher>)
    ensures |GroupSpec(all, "")| <= |Scan(all, "")|
    ensures |GroupSpec(all, "")| == |Scan(all, "")| ==> NoEmptyDomain(all)
  {
    if all != [] {
      var front, m := all[..|all| - 1], all[|all| - 1];
      assert front + [m] == all;
      var id := IdOf(|all|);
      EmptyName(front);
      EntriesStep(front, m, "");
      assert Scan(all, "") == Scan(front, "") + IdIf(m, "", id);
      if m.Full? {
        IdsAtAppend(FullEntries(front), Entry(m.pattern, id), "");
      }
      assert |GroupSpec(all, "")| == |GroupSpec(front, "")| + if m == Domain("") then 0 else |IdIf(m, "", id)|;
    }
  }

  /** Exactly when a group agrees with the scan. */
  lemma GroupAgrees(all: seq<Matcher>, s: string)
    ensures multiset(GroupSpec(all, s)) == multiset(Scan(all, s)) <==> s != "" || NoEmptyDomain(all)
  {
    if s != "" || NoEmptyDomain(all) {
      GroupMatchesScan(all, s);
    } else {
      EmptyName(all);
      assert |multiset(GroupSpec(all, s))| != |multiset(Scan(all, s))|;
    }
  }

  lemma EmptyDomainIsMissed()
    ensures Accepts(Domain(""), "") && GroupSpec([Domain("")], "") == []
  {
    EntriesStep([], Domain(""), "");
  }

  /** The scan lists the accepting matchers, each once. */
  lemma {:induction false} ScanListsEachOnce(all: seq<Matcher>, s: string, id: nat)
    requires |all| < 0x1_0000_0000
    ensures Times(Scan(all, s), id) == if 1 <= id <= |all| && Accepts(all[id - 1], s) then 1 else 0
  {
    if all != [] {
      var front, m := all[..|all| - 1], all[|all| - 1];
      ScanListsEachOnce(front, s, id);
      SmallId(|all|);
      TimesConcat(Scan(front, s), IdIf(m, s, IdOf(|all|)), id);
    }
  }

  /** Every accepting matcher is listed exactly once, and no other. */
  lemma GroupIsExact(all: seq<Matcher>, s: string, id: nat)
    requires |all| < 0x1_0000_0000 && (s != "" || NoEmptyDomain(all))
    ensures multiset(GroupSpec(all, s))[id] == if 1 <= id <= |all| && Accepts(all[id - 1], s) then 1 else 0
  {
    GroupCounts(all, s, id);
    ScanListsEachOnce(all, s, id);
    TimesIsMultiset(GroupSpec(all, s), id);
  }

  lemma {:induction false} ScanFindsNothing(all: seq<Matcher>, s: string)
    ensures Scan(all, s) == [] <==> forall i :: 0 <= i < |all| ==> !Accepts(all[i], s)
  {
    if all != [] {
      ScanFindsNothing(all[..|all| - 1], s);
    }
  }

  /** However many matchers there are, a group finds one exactly if one accepts. */
  lemma GroupFindsAny(all: seq<Matcher>, s: string)
    requires s != "" || NoEmptyDomain(all)
    ensures GroupSpec(all, s) != [] <==> exists i :: 0 <= i < |all| && Accepts(all[i], s)
  {
    GroupMatchesScan(all, s);
    ScanFindsNothing(all, s);
    assert |multiset(GroupSpec(all, s))| == |multiset(Scan(all, s))|;
  }

  ghost predicate Increasing<P>(entries: seq<Entry<P>>) {
    forall i, j :: 0 <= i < j < |entries| ==> entries[i].id < entries[j].id
  }

  /** The entry an id comes from. */
  lemma {:induction false} EntryOf<P>(entries: seq<Entry<P>>, path: P, i: nat) returns (k: nat)
    requires i < |IdsAt(entries, path)|
    ensures k < |entries| && entries[k].path == path && entries[k].id == IdsAt(entries, path)[i]
  {
    var front := entries[..|entries| - 1];
    if i < |IdsAt(front, path)| {
      k := EntryOf(front, path, i);
    } else {
      k := |entries| - 1;
    }
  }

  lemma {:induction false} IdsIncrease<P>(entries: seq<Entry<P>>, path: P, i: nat, j: nat)
    requires Increasing(entries) && i < j < |IdsAt(entries, path)|
    ensures IdsAt(entries, path)[i] < IdsAt(entries, path)[j]
  {
    var front := entries[..|entries| - 1];
    if j < |IdsAt(front, path)| {
      IdsIncrease(front, path, i, j);
    } else {
      var k := EntryOf(front, path, i);
      assert entries[k] == front[k];
    }
  }

  /** An entry is the id and the labels of a domain pattern. */
  ghost predicate Stored(all: seq<Matcher>, e: Entry<Path>) {
    1 <= e.id <= |all| && all[e.id - 1].Domain? && Labels(all[e.id - 1].pattern) == e.path
  }

  lemma StoredMore(all: seq<Matcher>, m: Matcher, e: Entry<Path>)
    requires Stored(all, e)
    ensures Stored(all + [m], e) && e.id <= |all|
  {
    assert (all + [m])[e.id - 1] == all[e.id - 1];
  }

  lemma IncreasingMore<P>(entries: seq<Entry<P>>, e: Entry<P>)
    requires Increasing(entries) && forall k :: 0 <= k < |entries| ==> entries[k].id < e.id
    ensures Increasing(entries + [e])
  {
  }

  lemma {:induction false} EntriesAreStored(all: seq<Matcher>)
    requires |all| < 0x1_0000_0000
    ensures Increasing(DomainEntries(all))
    ensures forall k :: 0 <= k < |DomainEntries(all)| ==> Stored(all, DomainEntries(all)[k])
  {
    if all != [] {
      var front, m, n := all[..|all| - 1], all[|all| - 1], |all|;
      var entries := DomainEntries(front);
      EntriesAreStored(front);
      assert front + [m] == all;
      SmallId(n);
      forall k | 0 <= k < |entries|
        ensures Stored(all, entries[k]) && entries[k].id < n
      {
        StoredMore(front, m, entries[k]);
      }
      if m.Domain? {
        var e := Entry(Labels(m.pattern), n);
        assert DomainEntries(all) == entries + [e] && Stored(all, e);
        IncreasingMore(entries, e);
      } else {
        assert DomainEntries(all) == entries;
      }
    }
  }

  lemma {:induction false} IdIsStored(all: seq<Matcher>, path: Path, i: nat)
    requires |all| < 0x1_0000_0000 && i < |IdsAt(DomainEntries(all), path)|
    ensures Stored(all, Entry(path, IdsAt(DomainEntries(all), path)[i]))
  {
    EntriesAreStored(all);
    var k := EntryOf(DomainEntries(all), path, i);
    assert Stored(all, DomainEntries(all)[k]);
  }

  /** The pattern behind an id that was found. */
  ghost predicate FoundAt(all: seq<Matcher>, id: nat, labels: Path, d: nat)
    requires d <= |labels|
  {
    Stored(all, Entry(labels[..d], id))
  }

  /** i stands before j: it is the deeper pattern, or the same pattern added earlier. */
  ghost predicate Before(all: seq<Matcher>, i: nat, j: nat) {
    && 1 <= i <= |all| && 1 <= j <= |all| && all[i - 1].Domain? && all[j - 1].Domain?
    && (Labels(all[j - 1].pattern) < Labels(all[i - 1].pattern) || (all[i - 1].pattern == all[j - 1].pattern && i < j))
  }

  lemma {:induction false} FoundBefore(all: seq<Matcher>, labels: Path, i: nat, d: nat, j: nat, e: nat)
    requires d <= |labels| && e <= |labels| && FoundAt(all, i, labels, d) && FoundAt(all, j, labels, e)
    requires e < d || (e == d && i < j)
    ensures Before(all, i, j)
  {
    if e == d {
      LabelsInjective(all[i - 1].pattern, all[j - 1].pattern);
    } else {
      assert labels[..e] == labels[..d][..e];
    }
  }

  /** The depth at which the n-th id was found. */
  lemma {:induction false} DepthOf(all: seq<Matcher>, labels: Path, k: nat, n: nat) returns (d: nat)
    requires |all| < 0x1_0000_0000 && k <= |labels| && n < |ByDepth(DomainEntries(all), labels, k)|
    ensures d <= k && FoundAt(all, ByDepth(DomainEntries(all), labels, k)[n], labels, d)
  {
    var here := IdsAt(DomainEntries(all), labels[..k]);
    if n < |here| {
      d := k;
      IdIsStored(all, labels[..k], n);
    } else {
      d := DepthOf(all, labels, k - 1, n - |here|);
    }
  }

  lemma SameDepthOrder(all: seq<Matcher>, labels: Path, k: nat, m: nat, n: nat)
    requires |all| < 0x1_0000_0000 && k <= |labels| && m < n < |IdsAt(DomainEntries(all), labels[..k])|
    ensures var here := IdsAt(DomainEntries(all), labels[..k]); Before(all, here[m], here[n])
  {
    var here := IdsAt(DomainEntries(all), labels[..k]);
    IdIsStored(all, labels[..k], m);
    IdIsStored(all, labels[..k], n);
    EntriesAreStored(all);
    IdsIncrease(DomainEntries(all), labels[..k], m, n);
    FoundBefore(all, labels, here[m], k, here[n], k);
  }

  lemma {:induction false} DepthOrder(all: seq<Matcher>, labels: Path, k: nat, m: nat, n: nat)
    requires |all| < 0x1_0000_0000 && k <= |labels| && m < n < |ByDepth(DomainEntries(all), labels, k)|
    ensures var r := ByDepth(DomainEntries(all), labels, k); Before(all, r[m], r[n])
  {
    var entries := DomainEntries(all);
    var here := IdsAt(entries, labels[..k]);
    if m >= |here| {
      DepthOrder(all, labels, k - 1, m - |here|, n - |here|);
    } else {
      IdIsStored(all, labels[..k], m);
      if n < |here| {
        SameDepthOrder(all, labels, k, m, n);
      } else {
        var d := DepthOf(all, labels, k - 1, n - |here|);
        FoundBefore(all, labels, here[m], k, ByDepth(entries, labels, k)[n], d);
      }
    }
  }

  /** The trie lists deeper patterns first, and equal ones in the order they were added. */
  lemma TrieOrder(all: seq<Matcher>, s: string, m: nat, n: nat)
    requires |all| < 0x1_0000_0000 && m < n < |MatchSpec(DomainEntries(all), s)|
    ensures var r := MatchSpec(DomainEntries(all), s); Before(all, r[m], r[n])
  {
    DepthOrder(all, Labels(s), |Labels(s)|, m, n);
  }

  /** FullMatcherGroup: the ids of each exact name. */
  class FullMatcherGroup {
    var matchers: map<string, seq<nat>>
    ghost var entries: seq<Entry<string>>

    constructor ()
      ensures Valid() && entries == []
    {
      matchers, entries := map[], [];
    }

    ghost predicate Valid()
      reads this
    {
      Filled(matchers, entries)
    }

    method Add(domain: string, id: nat)
      requires Valid()
      modifies this
      ensures Valid() && entries == old(entries) + [Entry(domain, id)]
    {
      if domain !in matchers {
        FilledGrow(matchers, entries, domain);
        matchers := matchers[domain := []];
      }
      FilledPut(matchers, entries, Entry(domain, id));
      matchers, entries := matchers[domain := matchers[domain] + [id]], entries + [Entry(domain, id)];
    }

    method Match(s: string) returns (ids: seq<nat>)
      requires Valid()
      ensures ids == IdsAt(entries, s)
    {
      if s !in matchers {
        NoIdsAt(entries, s);
        return [];
      }
      return matchers[s];
    }
  }

  datatype MatcherEntry = MatcherEntry(m: Matcher, id: nat)

  /** The matchers neither map nor trie can hold. */
  function Others(all: seq<Matcher>): seq<MatcherEntry> {
    if all == [] then []
    else
      var m := all[|all| - 1];
      if m.Full? || m.Domain? then Others(all[..|all| - 1])
      else Others(all[..|all| - 1]) + [MatcherEntry(m, IdOf(|all|))]
  }

  function AcceptedIds(entries: seq<MatcherEntry>, s: string): seq<nat> {
    if entries == [] then []
    else
      var e := entries[|entries| - 1];
      AcceptedIds(entries[..|entries| - 1], s) + IdIf(e.m, s, e.id)
  }

  lemma {:induction false} OthersAccept(all: seq<Matcher>, s: string)
    ensures AcceptedIds(Others(all), s) == OtherIds(all, s)
  {
    if all != [] {
      var front, m := all[..|all| - 1], all[|all| - 1];
      OthersAccept(front, s);
      if !m.Full? && !m.Domain? {
        assert Others(all)[..|Others(all)| - 1] == Others(front);
      }
    }
  }

  function WithFull(entries: seq<Entry<string>>, m: Matcher, id: nat): seq<Entry<string>> {
    if m.Full? then entries + [Entry(m.pattern, id)] else entries
  }

  function WithDomain(entries: seq<Entry<Path>>, m: Matcher, id: nat): seq<Entry<Path>> {
    if m.Domain? then entries + [Entry(Labels(m.pattern), id)] else entries
  }

  function WithOther(entries: seq<MatcherEntry>, m: Matcher, id: nat): seq<MatcherEntry> {
    if m.Full? || m.Domain? then entries else entries + [MatcherEntry(m, id)]
  }

  /** Every matcher is kept where its kind belongs. */
  ghost predicate Filed(all: seq<Matcher>, full: seq<Entry<string>>, domain: seq<Entry<Path>>, other: seq<MatcherEntry>,
                        count: nat)
  {
    full == FullEntries(all) && domain == DomainEntries(all) && other == Others(all) && count == IdOf(|all|)
  }

  lemma FiledStep(all: seq<Matcher>, full: seq<Entry<string>>, domain: seq<Entry<Path>>, other: seq<MatcherEntry>,
                  count: nat, m: Matcher, id: nat)
    requires Filed(all, full, domain, other, count) && id == IdOf(|all| + 1)
    ensures Filed(all + [m], WithFull(full, m, id), WithDomain(domain, m, id), WithOther(other, m, id), id)
  {
    EntriesStep(all, m, "");
    OthersStep(all, m);
  }

  lemma IdStep(n: nat)
    ensures IdOf(n + 1) == (IdOf(n) + 1) % 0x1_0000_0000
  {
  }

  class MatcherGroup {
    var count: nat
    const full: FullMatcherGroup
    const domain: DomainMatcherGroup
    var other: seq<MatcherEntry>
    // Every matcher ever added, in order.
    ghost var all: seq<Matcher>

    constructor ()
      ensures Valid() && all == [] && fresh(full) && fresh(domain) && fresh(domain.repr)
    {
      count, other, all := 0, [], [];
      full := new FullMatcherGroup();
      domain := new DomainMatcherGroup();
    }

    ghost predicate Valid()
      reads this, full, domain, domain.repr
    {
      full.Valid() && domain.Valid() && Filed(all, full.entries, domain.entries, other, count)
    }

    // One method for each place a matcher can be kept in.

    method AddFull(m: Matcher, id: nat)
      requires Valid() && m.Full? && id == IdOf(|all| + 1)
      modifies `count, `all, full
      ensures Valid() && all == old(all) + [m] && count == id
    {
      full.Add(m.pattern, id);
      Note(m, id);
      FiledStep(old(all), old(full.entries), domain.entries, other, old(count), m, id);
    }

    method AddDomain(m: Matcher, id: nat)
      requires Valid() && m.Domain? && id == IdOf(|all| + 1)
      modifies `count, `all, domain, domain.repr
      ensures Valid() && all == old(all) + [m] && count == id
      ensures fresh(domain.repr - old(domain.repr))
    {
      domain.Add(m.pattern, id);
      Note(m, id);
      FiledStep(old(all), full.entries, old(domain.entries), other, old(count), m, id);
    }

    method AddOther(m: Matcher, id: nat)
      requires Valid() && !m.Full? && !m.Domain? && id == IdOf(|all| + 1)
      modifies `count, `all, `other
      ensures Valid() && all == old(all) + [m] && count == id
    {
      Note(m, id);
      other := other + [MatcherEntry(m, id)];
      FiledStep(old(all), full.entries, domain.entries, old(other), old(count), m, id);
    }

    method Note(m: Matcher, id: nat)
      requires full.Valid() && domain.Valid()
      modifies `count, `all
      ensures full.Valid() && domain.Valid() && count == id && all == old(all) + [m]
    {
      count, all := id, all + [m];
    }

    /** Add numbers the matcher and keeps it by its kind. */
    method Add(m: Matcher) returns (id: nat)
      requires Valid()
      modifies this, full, domain, domain.repr
      ensures Valid() && all == old(all) + [m] && id == IdOf(|all|)
      ensures fresh(domain.repr - old(domain.repr))
    {
      IdStep(|all|);
      id := (count + 1) % 0x1_0000_0000;
      if m.Full? {
        AddFull(m, id);
      } else if m.Domain? {
        AddDomain(m, id);
      } else {
        AddOther(m, id);
      }
    }

    /** Match asks the map, the trie and the list, in this order. */
    method Match(s: string) returns (ids: seq<nat>)
      requires Valid()
      ensures ids == GroupSpec(all, s)
    {
      var byName := full.Match(s);
      var byDomain := domain.Match(s);
      ids := byName + byDomain;
      ghost var found := ids;
      var i := 0;
      while i < |other|
        invariant 0 <= i <= |other| && ids == found + AcceptedIds(other[..i], s)
      {
        AcceptedStep(other, i, s, found);
        if Accepts(other[i].m, s) {
          ids := ids + [other[i].id];
        }
        i := i + 1;
      }
      assert other[..i] == other;
      OthersAccept(all, s);
    }
  }

  lemma {:induction false} OthersStep(all: seq<Matcher>, m: Matcher)
    ensures Others(all + [m]) ==
            if m.Full? || m.Domain? then Others(all) else Others(all) + [MatcherEntry(m, IdOf(|all| + 1))]
  {
    assert (all + [m])[..|all|] == all;
  }

  lemma {:induction false} AcceptedStep(entries: seq<MatcherEntry>, i: nat, s: string, found: seq<nat>)
    requires i < |entries|
    ensures found + AcceptedIds(entries[..i + 1], s) ==
            if Accepts(entries[i].m, s) then found + AcceptedIds(entries[..i], s) + [entries[i].id]
            else found + AcceptedIds(entries[..i], s)
  {
    assert entries[..i + 1][..i] == entries[..i];
  }
}
