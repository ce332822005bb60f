/** The record cache of a DNS client and its cleanup (app/dns/udpns.go, app/dns/dnscommon.go). */
module DnsCache {
  import opened Bytes

  type IP = seq<byte>

  datatype IPRecord = IPRecord(ips: seq<IP>, expire: int, rcode: nat)

  datatype Record = Record(a: Option<IPRecord>, aaaa: Option<IPRecord>)

  datatype Answer = Addresses(ips: seq<IP>) | NotFound | RCodeError(code: nat) | EmptyResponse

  const NO_RECORD := Record(None, None)

  /** Answers to requests older than this are not waited for. */
  const REQUEST_TIMEOUT := 8

  predicate Expired(r: Option<IPRecord>, now: int) { r.Some? && r.value.expire < now }

  /** IPRecord.getIPs. */
  function GetIPs(r: Option<IPRecord>, now: int): Answer {
    if r.None? || r.value.expire < now then NotFound
    else if r.value.rcode != 0 then RCodeError(r.value.rcode)
    else Addresses(r.value.ips)
  }

  /** isNewer. */
  predicate IsNewer(base: Option<IPRecord>, rec: Option<IPRecord>) {
    rec.Some? && (base.None? || base.value.expire < rec.value.expire)
  }

  function IPsOf(a: Answer): seq<IP> { if a.Addresses? then a.ips else [] }

  /** The answers of the families that were asked for, taken together. */
  function Combine(v4: Option<Answer>, v6: Option<Answer>): Answer {
    var ips := (if v4.Some? then IPsOf(v4.value) else []) + (if v6.Some? then IPsOf(v6.value) else []);
    if ips != [] then Addresses(ips)
    else if v6.Some? && !v6.value.Addresses? then v6.value
    else if v4.Some? && !v4.value.Addresses? then v4.value
    else EmptyResponse
  }

  function Lookup(ips: map<string, Record>, domain: string): Record {
    if domain in ips then ips[domain] else NO_RECORD
  }

  /** findIPsForDomain; the clock is read for each family. */
  function Find(ips: map<string, Record>, q: Query): Answer {
    if q.domain !in ips then NotFound
    else Combine(if q.v4 then Some(GetIPs(ips[q.domain].a, q.now)) else None,
                 if q.v6 then Some(GetIPs(ips[q.domain].aaaa, q.later)) else None)
  }

  datatype Query = Query(domain: string, v4: bool, v6: bool, now: int, later: int)

  function Merge(base: Option<IPRecord>, rec: Option<IPRecord>): Option<IPRecord> {
    if IsNewer(base, rec) then rec else base
  }

  function Updated(ips: map<string, Record>, domain: string, rec: Record): map<string, Record> {
    var base := Lookup(ips, domain);
    if IsNewer(base.a, rec.a) || IsNewer(base.aaaa, rec.aaaa)
    then ips[domain := Record(Merge(base.a, rec.a), Merge(base.aaaa, rec.aaaa))]
    else ips
  }

  function Live(r: Option<IPRecord>, now: int): Option<IPRecord> { if Expired(r, now) then None else r }

  function LiveRecord(r: Record, now: int): Record { Record(Live(r.a, now), Live(r.aaaa, now)) }

  function Cleaned(ips: map<string, Record>, now: int): map<string, Record> {
    map d | d in ips && LiveRecord(ips[d], now) != NO_RECORD :: LiveRecord(ips[d], now)
  }

  function CleanedOne(ips: map<string, Record>, d: string, now: int): map<string, Record>
    requires d in ips
  {
    if LiveRecord(ips[d], now) == NO_RECORD then ips - {d} else ips[d := LiveRecord(ips[d], now)]
  }

  /** Everything is cleaned but what is left to look at. */
  ghost predicate PartlyCleaned(before: map<string, Record>, ips: map<string, Record>, left: set<string>, now: int) {
    forall d :: if d in left then d in before && d in ips && ips[d] == before[d]
                else if d in before && LiveRecord(before[d], now) != NO_RECORD then
                  d in ips && ips[d] == LiveRecord(before[d], now)
                else d !in ips
  }

  lemma CleanedMore(before: map<string, Record>, ips: map<string, Record>, left: set<string>, now: int, d: string)
    requires PartlyCleaned(before, ips, left, now) && d in left
    ensures d in ips && PartlyCleaned(before, CleanedOne(ips, d, now), left - {d}, now)
  {
    assert ips[d] == before[d];
  }

  datatype Family = A | AAAA | Other

  datatype Request = Request(domain: string, family: Family, expire: int)

  type Requests = map<uint16, Request>

  function Waiting(requests: Requests, now: int): Requests {
    map id | id in requests && requests[id].expire >= now :: requests[id]
  }

  /** The record an answer to a request becomes. */
  function RecordFor(family: Family, rec: IPRecord): Record {
    match family
    case A => Record(Some(rec), None)
    case AAAA => Record(None, Some(rec))
    case Other => NO_RECORD
  }

  function Responded(ips: map<string, Record>, requests: Requests, id: uint16, rec: IPRecord): map<string, Record> {
    if id in requests && requests[id].domain != "" && requests[id].family != Other
    then Updated(ips, requests[id].domain, RecordFor(requests[id].family, rec))
    else ips
  }

  class ClassicNameServer {
    var ips: map<string, Record>
    var requests: Requests

    constructor ()
      ensures ips == map[] && requests == map[]
    {
      ips, requests := map[], map[];
    }

    method FindIPsForDomain(q: Query) returns (r: Answer)
      ensures r == Find(ips, q)
    {
      if q.domain !in ips {
        return NotFound;
      }
      var record := ips[q.domain];
      var found: seq<IP> := [];
      var lastErr: Option<Answer> := None;
      if q.v4 {
        var a := GetIPs(record.a, q.now);
        if a.Addresses? {
          found := found + a.ips;
        } else {
          lastErr := Some(a);
        }
      }
      if q.v6 {
        var aaaa := GetIPs(record.aaaa, q.later);
        if aaaa.Addresses? {
          found := found + aaaa.ips;
        } else {
          lastErr := Some(aaaa);
        }
      }
      if |found| > 0 {
        return Addresses(found);
      }
      r := if lastErr.Some? then lastErr.value else EmptyResponse;
    }

    method UpdateIP(domain: string, newRec: Record)
      modifies this`ips
      ensures ips == Updated(old(ips), domain, newRec)
    {
      var rec := if domain in ips then ips[domain] else Record(None, None);
      var updated := false;
      if IsNewer(rec.a, newRec.a) {
        rec := rec.(a := newRec.a);
        updated := true;
      }
      if IsNewer(rec.aaaa, newRec.aaaa) {
        rec := rec.(aaaa := newRec.aaaa);
        updated := true;
      }
      if updated {
        ips := ips[domain := rec];
      }
    }

    method AddPendingRequest(id: uint16, domain: string, family: Family, now: int)
      modifies this`requests
      ensures requests == old(requests)[id := Request(domain, family, now + REQUEST_TIMEOUT)]
    {
      requests := requests[id := Request(domain, family, now + REQUEST_TIMEOUT)];
    }

    method HandleResponse(id: uint16, ipRec: IPRecord)
      modifies this
      ensures ips == Responded(old(ips), old(requests), id, ipRec) && requests == old(requests) - {id}
    {
      if id !in requests {
        assert requests - {id} == requests;
        return;
      }
      var req := requests[id];
      requests := requests - {id};
      var rec := match req.family
        case A => Record(Some(ipRec), None)
        case AAAA => Record(None, Some(ipRec))
        case Other => Record(None, None);
      if req.domain != "" && (rec.a.Some? || rec.aaaa.Some?) {
        UpdateIP(req.domain, rec);
      }
    }

    /** Cleanup drops expired records and requests one by one; with nothing to look at it asks to be stopped. */
    method Cleanup(now: int) returns (idle: bool)
      modifies this
      ensures ips == Cleaned(old(ips), now) && requests == Waiting(old(requests), now)
      ensures idle <==> old(ips) == map[] && old(requests) == map[]
    {
      idle := |ips| == 0 && |requests| == 0;
      if idle {
        return;
      }
      CleanRecords(now);
      CleanRequests(now);
    }

    /** Drops what has expired of one record. */
    method CleanRecord(d: string, now: int)
      requires d in ips
      modifies this`ips
      ensures ips == CleanedOne(old(ips), d, now)
    {
      var record := ips[d];
      if record.a.Some? && record.a.value.expire < now {
        record := record.(a := None);
      }
      if record.aaaa.Some? && record.aaaa.value.expire < now {
        record := record.(aaaa := None);
      }
      if record.a.None? && record.aaaa.None? {
        ips := ips - {d};
      } else {
        ips := ips[d := record];
      }
    }

    method CleanRecords(now: int)
      modifies this`ips
      ensures ips == Cleaned(old(ips), now)
    {
      ghost var before := ips;
      var left := ips.Keys;
      while left != {}
        invariant left <= before.Keys && PartlyCleaned(before, ips, left, now)
        decreases |left|
      {
        var d :| d in left;
        CleanedMore(before, ips, left, now, d);
        CleanRecord(d, now);
        left := left - {d};
      }
    }

    method CleanRequests(now: int)
      modifies this`requests
      ensures requests == Waiting(old(requests), now)
    {
      ghost var before := requests;
      var left := requests.Keys;
      while left != {}
        invariant left <= before.Keys
        invariant forall id :: id in left ==> id in requests && requests[id] == before[id]
        invariant forall id :: id !in left ==> (id in requests <==> id in Waiting(before, now))
        invariant forall id :: id !in left && id in requests ==> requests[id] == before[id]
        decreases |left|
      {
        var id :| id in left;
        if requests[id].expire < now {
          requests := requests - {id};
        }
        left := left - {id};
      }
    }
  }

  // ----- runs

  datatype Server = Server(ips: map<string, Record>, requests: Requests)

  datatype Event =
    | Update(domain: string, rec: Record)
    | Ask(domain: string, v4: bool, v6: bool)
    | Send(id: uint16, domain: string, family: Family)
    | Response(id: uint16, ipRec: IPRecord)
    | Clean

  /** An event and the clock while it happens. */
  datatype Timed = Timed(event: Event, now: int, later: int)

  /** One event; cleanups can be left out. */
  function Step(s: Server, e: Timed, cleaning: bool): Server {
    match e.event
    case Update(domain, rec) => s.(ips := Updated(s.ips, domain, rec))
    case Ask(_, _, _) => s
    case Send(id, domain, family) => s.(requests := s.requests[id := Request(domain, family, e.now + REQUEST_TIMEOUT)])
    case Response(id, rec) => Server(Responded(s.ips, s.requests, id, rec), s.requests - {id})
    case Clean => if cleaning then Server(Cleaned(s.ips, e.now), Waiting(s.requests, e.now)) else s
  }

  function After(events: seq<Timed>, cleaning: bool): Server {
    if events == [] then Server(map[], map[])
    else Step(After(events[..|events| - 1], cleaning), events[|events| - 1], cleaning)
  }

  function Seen(s: Server, e: Timed): seq<Answer> {
    if e.event.Ask? then [Find(s.ips, Query(e.event.domain, e.event.v4, e.event.v6, e.now, e.later))] else []
  }

  /** All answers of a run. */
  function Answers(events: seq<Timed>, cleaning: bool): seq<Answer> {
    if events == [] then []
    else Answers(events[..|events| - 1], cleaning) + Seen(After(events[..|events| - 1], cleaning), events[|events| - 1])
  }

  ghost predicate Clock(events: seq<Timed>) {
    && (forall i :: 0 <= i < |events| ==> events[i].now <= events[i].later)
    && (forall i, j :: 0 <= i < j < |events| ==> events[i].later <= events[j].now)
  }

  /** Every question is about some address family. */
  ghost predicate AsksSomething(e: Timed) { e.event.Ask? ==> e.event.v4 || e.event.v6 }

  /** No answer arrives after its request has expired. */
  ghost predicate InTime(s: Server, e: Timed) {
    e.event.Response? && e.event.id in s.requests ==> s.requests[e.event.id].expire >= e.now
  }

  ghost predicate Timely(events: seq<Timed>) {
    forall i :: 0 <= i < |events| ==> InTime(After(events[..i], false), events[i])
  }

  ghost predicate AllAsk(events: seq<Timed>) {
    forall i :: 0 <= i < |events| ==> AsksSomething(events[i])
  }

  // ----- what cleaning cannot change

  predicate Gone(r: Option<IPRecord>, now: int) { r.None? || Expired(r, now) }

  /** The same record, or two that say nothing any more. */
  predicate SameOrGone(r: Option<IPRecord>, c: Option<IPRecord>, now: int) { r == c || (Gone(r, now) && Gone(c, now)) }

  ghost predicate AlikeAt(ips: map<string, Record>, cleaned: map<string, Record>, d: string, now: int) {
    && SameOrGone(Lookup(ips, d).a, Lookup(cleaned, d).a, now)
    && SameOrGone(Lookup(ips, d).aaaa, Lookup(cleaned, d).aaaa, now)
  }

  /** A request is still waited for in both, or has expired. */
  ghost predicate AlikeRequest(requests: Requests, cleaned: Requests, id: uint16, now: int) {
    && (id in cleaned ==> id in requests && requests[id] == cleaned[id])
    && (id in requests && id !in cleaned ==> requests[id].expire < now)
  }

  ghost predicate Alike(s: Server, c: Server, now: int) {
    && (forall d :: AlikeAt(s.ips, c.ips, d, now))
    && (forall id :: AlikeRequest(s.requests, c.requests, id, now))
  }

  lemma MergeAlike(r: Option<IPRecord>, c: Option<IPRecord>, rec: Option<IPRecord>, now: int)
    requires SameOrGone(r, c, now)
    ensures SameOrGone(Merge(r, rec), Merge(c, rec), now)
  {
  }

  lemma UpdatedAt(ips: map<string, Record>, domain: string, rec: Record, d: string)
    ensures Lookup(Updated(ips, domain, rec), d) ==
            if d == domain then Record(Merge(Lookup(ips, d).a, rec.a), Merge(Lookup(ips, d).aaaa, rec.aaaa))
            else Lookup(ips, d)
  {
  }

  lemma UpdateAlike(ips: map<string, Record>, cleaned: map<string, Record>, domain: string, rec: Record, d: string,
                    now: int)
    requires AlikeAt(ips, cleaned, d, now)
    ensures AlikeAt(Updated(ips, domain, rec), Updated(cleaned, domain, rec), d, now)
  {
    UpdatedAt(ips, domain, rec, d);
    UpdatedAt(cleaned, domain, rec, d);
    MergeAlike(Lookup(ips, d).a, Lookup(cleaned, d).a, rec.a, now);
    MergeAlike(Lookup(ips, d).aaaa, Lookup(cleaned, d).aaaa, rec.aaaa, now);
  }

  lemma CleanedAt(ips: map<string, Record>, now: int, d: string)
    ensures Lookup(Cleaned(ips, now), d) == LiveRecord(Lookup(ips, d), now)
  {
  }

  /** Records that are alike answer alike, if any family is asked for. */
  lemma FindAlike(ips: map<string, Record>, cleaned: map<string, Record>, q: Query)
    requires AlikeAt(ips, cleaned, q.domain, q.now) && q.now <= q.later && (q.v4 || q.v6)
    ensures Find(ips, q) == Find(cleaned, q)
  {
    assert GetIPs(Lookup(ips, q.domain).a, q.now) == GetIPs(Lookup(cleaned, q.domain).a, q.now);
    assert GetIPs(Lookup(ips, q.domain).aaaa, q.later) == GetIPs(Lookup(cleaned, q.domain).aaaa, q.later);
  }

  lemma StepAlike(s: Server, c: Server, e: Timed, t: int)
    requires Alike(s, c, t) && t <= e.now && InTime(s, e)
    ensures Alike(Step(s, e, false), Step(c, e, true), e.now)
  {
    var s', c' := Step(s, e, false), Step(c, e, true);
    forall d
      ensures AlikeAt(s'.ips, c'.ips, d, e.now)
    {
      IPsAlike(s, c, e, t, d);
    }
    forall id
      ensures AlikeRequest(s'.requests, c'.requests, id, e.now)
    {
      assert AlikeRequest(s.requests, c.requests, id, t);
    }
  }

  lemma IPsAlike(s: Server, c: Server, e: Timed, t: int, d: string)
    requires Alike(s, c, t) && t <= e.now && InTime(s, e)
    ensures AlikeAt(Step(s, e, false).ips, Step(c, e, true).ips, d, e.now)
  {
    assert AlikeAt(s.ips, c.ips, d, t);
    match e.event
    case Update(domain, rec) => UpdateAlike(s.ips, c.ips, domain, rec, d, e.now);
    case Ask(_, _, _) =>
    case Send(_, _, _) =>
    case Response(id, rec) =>
      assert AlikeRequest(s.requests, c.requests, id, t);
      if id in s.requests {
        UpdateAlike(s.ips, c.ips, s.requests[id].domain, RecordFor(s.requests[id].family, rec), d, e.now);
      }
    case Clean => CleanedAt(c.ips, e.now, d);
  }

  lemma {:induction false} RunAlike(events: seq<Timed>, t: int)
    requires Clock(events) && Timely(events) && (events != [] ==> events[|events| - 1].now <= t)
    ensures Alike(After(events, false), After(events, true), t)
  {
    if events != [] {
      var front, last := events[..|events| - 1], events[|events| - 1];
      TimelyPrefix(events);
      RunAlike(front, last.now);
      StepAlike(After(front, false), After(front, true), last, last.now);
      LaterAlike(After(events, false), After(events, true), last.now, t);
    }
  }

  lemma TimelyPrefix(events: seq<Timed>)
    requires events != [] && Clock(events) && Timely(events)
    ensures var front, last := events[..|events| - 1], events[|events| - 1];
            Clock(front) && Timely(front) && InTime(After(front, false), last)
  {
    var front := events[..|events| - 1];
    forall i | 0 <= i < |front|
      ensures InTime(After(front[..i], false), front[i])
    {
      assert front[..i] == events[..i] && front[i] == events[i];
    }
  }

  lemma LaterAlike(s: Server, c: Server, now: int, t: int)
    requires Alike(s, c, now) && now <= t
    ensures Alike(s, c, t)
  {
    forall d
      ensures AlikeAt(s.ips, c.ips, d, t)
    {
      assert AlikeAt(s.ips, c.ips, d, now);
    }
    forall id
      ensures AlikeRequest(s.requests, c.requests, id, t)
    {
      assert AlikeRequest(s.requests, c.requests, id, now);
    }
  }

  /** A run gives the same answers with its cleanups as without them. */
  lemma {:induction false} CleanupIsInvisible(events: seq<Timed>)
    requires Clock(events) && Timely(events) && AllAsk(events)
    ensures Answers(events, true) == Answers(events, false)
  {
    if events != [] {
      var front, last := events[..|events| - 1], events[|events| - 1];
      TimelyPrefix(events);
      CleanupIsInvisible(front);
      RunAlike(front, last.now);
      if last.event.Ask? {
        assert AsksSomething(last);
        var q := Query(last.event.domain, last.event.v4, last.event.v6, last.now, last.later);
        FindAlike(After(front, false).ips, After(front, true).ips, q);
      }
    }
  }

  /** Every question of the run enables the same families. */
  ghost predicate Asks(events: seq<Timed>, v4: bool, v6: bool) {
    forall i :: 0 <= i < |events| && events[i].event.Ask? ==> events[i].event.v4 == v4 && events[i].event.v6 == v6
  }

  ghost predicate InvisibleFor(v4: bool, v6: bool) {
    forall events :: Clock(events) && Timely(events) && Asks(events, v4, v6) ==>
      Answers(events, true) == Answers(events, false)
  }

  lemma {:induction false} ThreeEvents(x: Timed, y: Timed, z: Timed, cleaning: bool)
    ensures After([x, y, z], cleaning) == Step(Step(Step(Server(map[], map[]), x, cleaning), y, cleaning), z, cleaning)
    ensures Answers([x, y, z], cleaning) ==
            Seen(Server(map[], map[]), x) + Seen(Step(Server(map[], map[]), x, cleaning), y)
            + Seen(Step(Step(Server(map[], map[]), x, cleaning), y, cleaning), z)
  {
    assert [x, y, z][..2] == [x, y] && [x, y][..1] == [x] && [x][..0] == [];
    assert After([x], cleaning) == Step(After([], cleaning), x, cleaning);
    assert Answers([x], cleaning) == Answers([], cleaning) + Seen(After([], cleaning), x);
    assert After([x, y], cleaning) == Step(After([x], cleaning), y, cleaning);
    assert Answers([x, y], cleaning) == Answers([x], cleaning) + Seen(After([x], cleaning), y);
  }

  /** A record that has expired is forgotten by a cleanup only. */
  lemma {:induction false} ForgottenRecord()
    ensures var rec := Record(Some(IPRecord([], 0, 0)), None);
            var x, y := Timed(Update("a.", rec), 0, 0), Timed(Clean, 10, 10);
            var s := Step(Server(map[], map[]), x, true);
            && Step(Server(map[], map[]), x, false) == s && s.ips == map["a." := rec]
            && "a." !in Step(s, y, true).ips && Step(s, y, false) == s
  {
    var rec := Record(Some(IPRecord([], 0, 0)), None);
    CleanedAt(map["a." := rec], 10, "a.");
  }

  function ForgettingRun(): seq<Timed> {
    [ Timed(Update("a.", Record(Some(IPRecord([], 0, 0)), None)), 0, 0),
      Timed(Clean, 10, 10), Timed(Ask("a.", false, false), 10, 10) ]
  }

  /** A question about no family tells a name that was forgotten from one that was never known. */
  lemma {:induction false} ForgottenName()
    ensures Answers(ForgettingRun(), true) == [NotFound] && Answers(ForgettingRun(), false) == [EmptyResponse]
  {
    var events := ForgettingRun();
    ForgottenRecord();
    ThreeEvents(events[0], events[1], events[2], true);
    ThreeEvents(events[0], events[1], events[2], false);
  }

  lemma {:induction false} NoFamilySeesCleanup()
    ensures !InvisibleFor(false, false)
  {
    ForgottenName();
    NothingIsLate(ForgettingRun());
    ForgettingRunAsks();
  }

  lemma NothingIsLate(events: seq<Timed>)
    requires forall i :: 0 <= i < |events| ==> !events[i].event.Response?
    ensures Timely(events)
  {
  }

  lemma ForgettingRunAsks()
    ensures Clock(ForgettingRun()) && Asks(ForgettingRun(), false, false)
  {
  }

  /** Cleanup is invisible exactly to questions that enable a family. */
  lemma InvisibleToQuestions(v4: bool, v6: bool)
    ensures InvisibleFor(v4, v6) <==> v4 || v6
  {
    if v4 || v6 {
      forall events | Clock(events) && Timely(events) && Asks(events, v4, v6)
        ensures Answers(events, true) == Answers(events, false)
      {
        CleanupIsInvisible(events);
      }
    } else {
      NoFamilySeesCleanup();
    }
  }

  // ----- how late an answer may be

  /** An answer arrives at most d seconds after its request was sent. */
  ghost predicate InTimeBy(s: Server, e: Timed, d: int) {
    e.event.Response? && e.event.id in s.requests ==> e.now <= s.requests[e.event.id].expire - REQUEST_TIMEOUT + d
  }

  ghost predicate TimelyBy(events: seq<Timed>, d: int) {
    forall i :: 0 <= i < |events| ==> InTimeBy(After(events[..i], false), events[i], d)
  }

  ghost predicate InvisibleWithin(d: int) {
    forall events :: Clock(events) && AllAsk(events) && TimelyBy(events, d) ==>
      Answers(events, true) == Answers(events, false)
  }

  lemma {:induction false} FourEvents(x: Timed, y: Timed, z: Timed, q: Timed, cleaning: bool)
    requires x.event.Send? && y.event.Clean? && z.event.Response?
    ensures Answers([x, y, z, q], cleaning) == Seen(After([x, y, z], cleaning), q)
  {
    var events := [x, y, z, q];
    assert events[..3] == [x, y, z];
    ThreeEvents(x, y, z, cleaning);
    assert Answers(events, cleaning) == Answers([x, y, z], cleaning) + Seen(After([x, y, z], cleaning), q);
  }

  /** The records after an answer that came one second after its request had expired. */
  lemma {:induction false} LateRecords(rec: IPRecord)
    ensures var x, y, z := Timed(Send(1, "a.", A), 0, 0), Timed(Clean, 9, 9), Timed(Response(1, rec), 9, 9);
            && After([x, y, z], false).ips == map["a." := Record(Some(rec), None)]
            && After([x, y, z], true).ips == map[]
  {
    var x, y, z := Timed(Send(1, "a.", A), 0, 0), Timed(Clean, 9, 9), Timed(Response(1, rec), 9, 9);
    ThreeEvents(x, y, z, true);
    ThreeEvents(x, y, z, false);
    var sent: Requests := map[1 := Request("a.", A, REQUEST_TIMEOUT)];
    assert Step(Server(map[], map[]), x, true).requests == sent;
    assert Step(Server(map[], map[]), x, false).requests == sent;
    assert Waiting(sent, 9) == map[];
    assert Cleaned(map[], 9) == map[];
  }

  /** With a cleanup in between the late answer is not taken, and the next question is answered differently. */
  lemma {:induction false} LateAnswerSeesCleanup(ip: IP)
    ensures var rec := IPRecord([ip], 9, 0);
            var events := [Timed(Send(1, "a.", A), 0, 0), Timed(Clean, 9, 9), Timed(Response(1, rec), 9, 9),
                           Timed(Ask("a.", true, false), 9, 9)];
            Answers(events, false) == [Addresses([ip])] && Answers(events, true) == [NotFound]
  {
    var rec := IPRecord([ip], 9, 0);
    var x, y, z := Timed(Send(1, "a.", A), 0, 0), Timed(Clean, 9, 9), Timed(Response(1, rec), 9, 9);
    var q := Timed(Ask("a.", true, false), 9, 9);
    LateRecords(rec);
    FourEvents(x, y, z, q, true);
    FourEvents(x, y, z, q, false);
    assert [ip] + [] == [ip];
  }

  /** That run is one of answers nine seconds after their request. */
  lemma {:induction false} LateRunIsTimely(rec: IPRecord, d: int)
    requires d > REQUEST_TIMEOUT
    ensures var events := [Timed(Send(1, "a.", A), 0, 0), Timed(Clean, 9, 9), Timed(Response(1, rec), 9, 9),
                           Timed(Ask("a.", true, false), 9, 9)];
            Clock(events) && AllAsk(events) && TimelyBy(events, d)
  {
    var x, y, z := Timed(Send(1, "a.", A), 0, 0), Timed(Clean, 9, 9), Timed(Response(1, rec), 9, 9);
    var events := [x, y, z, Timed(Ask("a.", true, false), 9, 9)];
    forall i | 0 <= i < |events|
      ensures InTimeBy(After(events[..i], false), events[i], d)
    {
      if i == 2 {
        assert events[..2] == [x, y] && [x, y][..1] == [x] && [x][..0] == [];
        assert After([x], false) == Step(After([], false), x, false);
        assert After([x, y], false) == After([x], false);
        assert After([x, y], false).requests[1] == Request("a.", A, REQUEST_TIMEOUT);
      }
    }
  }

  /** Cleanup is invisible exactly as long as answers come before requests expire. */
  lemma InvisibleToTimelyAnswers(d: int)
    ensures InvisibleWithin(d) <==> d <= REQUEST_TIMEOUT
  {
    if d <= REQUEST_TIMEOUT {
      forall events | Clock(events) && AllAsk(events) && TimelyBy(events, d)
        ensures Answers(events, true) == Answers(events, false)
      {
        assert forall i :: 0 <= i < |events| ==> InTimeBy(After(events[..i], false), events[i], d);
        CleanupIsInvisible(events);
      }
    } else {
      var rec := IPRecord([[]], 9, 0);
      var events := [Timed(Send(1, "a.", A), 0, 0), Timed(Clean, 9, 9), Timed(Response(1, rec), 9, 9),
                     Timed(Ask("a.", true, false), 9, 9)];
      LateAnswerSeesCleanup([]);
      LateRunIsTimely(rec, d);
      assert Answers(events, true) != Answers(events, false);
    }
  }
}
