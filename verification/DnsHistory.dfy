/** What a DNS client answers, in terms of what it was told (app/dns/udpns.go, app/dns/dnscommon.go). */
module DnsHistory {
  import opened Bytes
  import opened DnsCache

  /** A record that came in, and what it is about. */
  datatype Entry = Entry(domain: string, family: Family, rec: IPRecord)

  function EntryIf(domain: string, family: Family, rec: Option<IPRecord>): seq<Entry> {
    if rec.Some? then [Entry(domain, family, rec.value)] else []
  }

  /** The request an id stands for: the last one sent with it, unless it was answered since. */
  function Pending(events: seq<Timed>, id: uint16): Option<(string, Family)> {
    if events == [] then None
    else
      var e := events[|events| - 1].event;
      if e.Send? && e.id == id then Some((e.domain, e.family))
      else if e.Response? && e.id == id then None
      else Pending(events[..|events| - 1], id)
  }

  /** The records an event brings. */
  function Brought(before: seq<Timed>, e: Event): seq<Entry> {
    match e
    case Update(domain, rec) => EntryIf(domain, A, rec.a) + EntryIf(domain, AAAA, rec.aaaa)
    case Response(id, rec) =>
      var p := Pending(before, id);
      if p.Some? && p.value.0 != "" && p.value.1 != Other then [Entry(p.value.0, p.value.1, rec)] else []
    case _ => []
  }

  /** All records that came in, in order. */
  function Heard(events: seq<Timed>): seq<Entry> {
    if events == [] then []
    else Heard(events[..|events| - 1]) + Brought(events[..|events| - 1], events[|events| - 1].event)
  }

  predicate About(e: Entry, domain: string, family: Family) { e.domain == domain && e.family == family }

  /** Of the records about a name and family, `r` expires last, and is the first of those that do. */
  ghost predicate Latest(heard: seq<Entry>, domain: string, family: Family, r: Option<IPRecord>) {
    if r.None? then forall i :: 0 <= i < |heard| ==> !About(heard[i], domain, family)
    else
      exists k :: LatestAt(heard, domain, family, k) && heard[k].rec == r.value
  }

  ghost predicate LatestAt(heard: seq<Entry>, domain: string, family: Family, k: int) {
    && 0 <= k < |heard| && About(heard[k], domain, family)
    && forall i :: 0 <= i < |heard| && About(heard[i], domain, family) ==>
         if i < k then heard[i].rec.expire < heard[k].rec.expire else heard[i].rec.expire <= heard[k].rec.expire
  }

  /** There is only one such record. */
  lemma LatestIsUnique(heard: seq<Entry>, domain: string, family: Family, r: Option<IPRecord>, q: Option<IPRecord>)
    requires Latest(heard, domain, family, r) && Latest(heard, domain, family, q)
    ensures r == q
  {
    if r.Some? && q.Some? {
      var k :| LatestAt(heard, domain, family, k) && heard[k].rec == r.value;
      var l :| LatestAt(heard, domain, family, l) && heard[l].rec == q.value;
      assert About(heard[k], domain, family) && About(heard[l], domain, family);
    }
  }

  // ----- what is stored

  lemma LatestMore(heard: seq<Entry>, domain: string, family: Family, r: Option<IPRecord>, e: Entry)
    requires Latest(heard, domain, family, r)
    ensures Latest(heard + [e], domain, family, if About(e, domain, family) then Merge(r, Some(e.rec)) else r)
  {
    var more := heard + [e];
    if r.Some? {
      var k :| LatestAt(heard, domain, family, k) && heard[k].rec == r.value;
      assert more[k] == heard[k];
      if About(e, domain, family) && IsNewer(r, Some(e.rec)) {
        assert LatestAt(more, domain, family, |heard|);
      } else {
        assert LatestAt(more, domain, family, k);
      }
    } else if About(e, domain, family) {
      assert LatestAt(more, domain, family, |heard|);
    }
  }

  lemma LatestMaybe(heard: seq<Entry>, domain: string, family: Family, r: Option<IPRecord>, d: string, f: Family,
                    rec: Option<IPRecord>)
    requires Latest(heard, domain, family, r)
    ensures Latest(heard + EntryIf(d, f, rec), domain, family, if d == domain && f == family then Merge(r, rec) else r)
  {
    if rec.Some? {
      LatestMore(heard, domain, family, r, Entry(d, f, rec.value));
    } else {
      assert heard + EntryIf(d, f, rec) == heard;
    }
  }

  /** A server that cleans nothing stores, for every name and family, the record that expires last. */
  ghost predicate Keeps(s: Server, events: seq<Timed>, domain: string) {
    && Latest(Heard(events), domain, A, Lookup(s.ips, domain).a)
    && Latest(Heard(events), domain, AAAA, Lookup(s.ips, domain).aaaa)
  }

  /** Requests are pending under their ids. */
  lemma {:induction false} PendingIsStored(events: seq<Timed>, id: uint16)
    ensures var requests := After(events, false).requests;
            if id in requests then Pending(events, id) == Some((requests[id].domain, requests[id].family))
            else Pending(events, id).None?
  {
    if events != [] {
      PendingIsStored(events[..|events| - 1], id);
    }
  }

  lemma UpdateKeeps(heard: seq<Entry>, ips: map<string, Record>, d: string, rec: Record, domain: string)
    requires Latest(heard, domain, A, Lookup(ips, domain).a) && Latest(heard, domain, AAAA, Lookup(ips, domain).aaaa)
    ensures var more, now := heard + (EntryIf(d, A, rec.a) + EntryIf(d, AAAA, rec.aaaa)), Updated(ips, d, rec);
            Latest(more, domain, A, Lookup(now, domain).a) && Latest(more, domain, AAAA, Lookup(now, domain).aaaa)
  {
    var first, second := EntryIf(d, A, rec.a), EntryIf(d, AAAA, rec.aaaa);
    UpdatedAt(ips, d, rec, domain);
    var a, aaaa := Lookup(ips, domain).a, Lookup(ips, domain).aaaa;
    LatestMaybe(heard, domain, A, a, d, A, rec.a);
    LatestMaybe(heard, domain, AAAA, aaaa, d, A, rec.a);
    LatestMaybe(heard + first, domain, A, Lookup(Updated(ips, d, rec), domain).a, d, AAAA, rec.aaaa);
    LatestMaybe(heard + first, domain, AAAA, aaaa, d, AAAA, rec.aaaa);
    ConcatAssociative(heard, first, second);
  }

  lemma {:induction false} StoresTheLatest(events: seq<Timed>, domain: string)
    ensures Keeps(After(events, false), events, domain)
  {
    if events != [] {
      var before, e := events[..|events| - 1], events[|events| - 1].event;
      var s, heard := After(before, false), Heard(before);
      StoresTheLatest(before, domain);
      if e.Update? {
        UpdateKeeps(heard, s.ips, e.domain, e.rec, domain);
      } else if e.Response? && Brought(before, e) != [] {
        PendingIsStored(before, e.id);
        var p := s.requests[e.id];
        var rec := if p.family == A then Record(Some(e.ipRec), None) else Record(None, Some(e.ipRec));
        UpdateKeeps(heard, s.ips, p.domain, rec, domain);
        assert EntryIf(p.domain, A, rec.a) + EntryIf(p.domain, AAAA, rec.aaaa) == Brought(before, e);
      } else {
        if e.Response? {
          PendingIsStored(before, e.id);
        }
        assert heard + Brought(before, e) == heard;
      }
    }
  }

  // ----- what is answered

  /** The addresses a record gives. */
  function Given(r: Option<IPRecord>, now: int): seq<IP> {
    if r.Some? && now <= r.value.expire && r.value.rcode == 0 then r.value.ips else []
  }

  /** The answer of one record. */
  function Alone(r: Option<IPRecord>, now: int): Answer {
    if r.None? || r.value.expire < now then NotFound
    else if r.value.rcode != 0 then RCodeError(r.value.rcode)
    else if r.value.ips == [] then EmptyResponse
    else Addresses(r.value.ips)
  }

  /** What a question about the families must be answered when `a` and `aaaa` are the latest records. */
  predicate Fitting(q: Query, a: Option<IPRecord>, aaaa: Option<IPRecord>, r: Answer) {
    && (q.v4 && !q.v6 ==> r == Alone(a, q.now))
    && (!q.v4 && q.v6 ==> r == Alone(aaaa, q.later))
    && (q.v4 && q.v6 ==>
          var ips := Given(a, q.now) + Given(aaaa, q.later);
          if ips != [] then r == Addresses(ips)
          else if !Alone(aaaa, q.later).EmptyResponse? then r == Alone(aaaa, q.later)
          else r == Alone(a, q.now))
  }

  lemma FindFits(ips: map<string, Record>, q: Query)
    requires q.v4 || q.v6
    ensures Fitting(q, Lookup(ips, q.domain).a, Lookup(ips, q.domain).aaaa, Find(ips, q))
  {
  }

  /**
    What goes in comes out: after any run without cleanups, a question is answered from the record of
    its name and family that expires last, whether it was stored or came as a response to a request.
   */
  lemma AnswersWhatWasHeard(events: seq<Timed>, q: Query, a: Option<IPRecord>, aaaa: Option<IPRecord>)
    requires q.v4 || q.v6
    requires Latest(Heard(events), q.domain, A, a) && Latest(Heard(events), q.domain, AAAA, aaaa)
    ensures Fitting(q, a, aaaa, Find(After(events, false).ips, q))
  {
    var s := After(events, false);
    StoresTheLatest(events, q.domain);
    LatestIsUnique(Heard(events), q.domain, A, a, Lookup(s.ips, q.domain).a);
    LatestIsUnique(Heard(events), q.domain, AAAA, aaaa, Lookup(s.ips, q.domain).aaaa);
    FindFits(s.ips, q);
  }

  /** Cleanups on the way do not change that if no response came too late. */
  lemma AnswersWhatWasHeardCleaned(events: seq<Timed>, q: Query, a: Option<IPRecord>, aaaa: Option<IPRecord>)
    requires q.v4 || q.v6
    requires Latest(Heard(events), q.domain, A, a) && Latest(Heard(events), q.domain, AAAA, aaaa)
    requires Clock(events) && Timely(events) && (events != [] ==> events[|events| - 1].now <= q.now)
    requires q.now <= q.later
    ensures Fitting(q, a, aaaa, Find(After(events, true).ips, q))
  {
    AnswersWhatWasHeard(events, q, a, aaaa);
    RunAlike(events, q.now);
    assert AlikeAt(After(events, false).ips, After(events, true).ips, q.domain, q.now);
    FindAlike(After(events, false).ips, After(events, true).ips, q);
  }

  // ----- one record at a time

  function Stored(ips: map<string, Record>, domain: string, family: Family): Option<IPRecord> {
    if family == A then Lookup(ips, domain).a else Lookup(ips, domain).aaaa
  }

  /** A question for one family alone. */
  function Only(domain: string, family: Family, now: int): Query {
    Query(domain, family == A, family == AAAA, now, now)
  }

  /**
    A response to a pending request answers the next question for its name and family, if it
    expires later than what is stored; every other name and family is answered as before.
   */
  lemma ResponseIsTheAnswer(ips: map<string, Record>, requests: Requests, id: uint16, rec: IPRecord, now: int)
    requires id in requests && requests[id].domain != "" && requests[id].family != Other
    ensures var r, after := requests[id], Responded(ips, requests, id, rec);
            && Find(after, Only(r.domain, r.family, now)) ==
               Alone(if IsNewer(Stored(ips, r.domain, r.family), Some(rec)) then Some(rec)
                     else Stored(ips, r.domain, r.family), now)
            && forall d, f :: f != Other && (d != r.domain || f != r.family) ==>
                 Find(after, Only(d, f, now)) == Find(ips, Only(d, f, now))
  {
    var r, after := requests[id], Responded(ips, requests, id, rec);
    forall d, f | f != Other
      ensures Find(after, Only(d, f, now)) == Alone(Stored(after, d, f), now)
      ensures Find(ips, Only(d, f, now)) == Alone(Stored(ips, d, f), now)
    {
      FindFits(after, Only(d, f, now));
      FindFits(ips, Only(d, f, now));
    }
    forall d, f | f != Other
      ensures Stored(after, d, f) ==
              if d == r.domain && f == r.family then Merge(Stored(ips, d, f), Some(rec)) else Stored(ips, d, f)
    {
      UpdatedAt(ips, r.domain, RecordFor(r.family, rec), d);
    }
  }

  /** The same at a server: a response, and then the question. */
  method RespondAndAsk(server: ClassicNameServer, id: uint16, rec: IPRecord, now: int) returns (r: Answer)
    requires id in server.requests && server.requests[id].domain != "" && server.requests[id].family != Other
    requires var p := server.requests[id]; IsNewer(Stored(server.ips, p.domain, p.family), Some(rec))
    modifies server
    ensures r == Alone(Some(rec), now)
  {
    var p := server.requests[id];
    ResponseIsTheAnswer(server.ips, server.requests, id, rec, now);
    server.HandleResponse(id, rec);
    r := server.FindIPsForDomain(Only(p.domain, p.family, now));
  }
}
