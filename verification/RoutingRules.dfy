/**
 * Routing rules as declared, and what they say about a connection
 * (app/router/config.go, app/router/condition.go).
 */
module RoutingRules {
  import opened Bytes
  import opened DomainLabels
  import opened Matchers
  import opened GeoIP

  type IP = seq<byte>

  type Network = n: int | 0 <= n < 8

  /** What a rule can see of a connection. */
  datatype Context = Context(
    inboundTag: string,
    sourceIPs: seq<IP>,
    sourcePort: uint16,
    targetIPs: seq<IP>,
    targetPort: uint16,
    targetDomain: string,
    network: Network,
    protocol: string,
    user: string,
    attributes: Option<map<string, string>>)

  /** Regular expressions and attribute programs are compiled outside the model. */
  datatype Compilers = Compilers(
    regex: string -> Option<string -> bool>,
    attributes: string -> Option<map<string, string> -> bool>)

  /** Kinds: 0 plain, 1 regular expression, 2 domain, 3 full. */
  datatype DomainPattern = DomainPattern(kind: nat, value: string)

  datatype PortRange = PortRange(from: nat, to: nat)

  datatype GeoIPSet = GeoIPSet(countryCode: string, cidrs: seq<CIDR>)

  datatype RoutingRule = RoutingRule(
    domains: seq<DomainPattern>,
    users: seq<string>,
    inboundTags: seq<string>,
    portList: Option<seq<PortRange>>,
    portRange: Option<PortRange>,
    sourcePortList: Option<seq<PortRange>>,
    networks: seq<Network>,
    networkList: Option<seq<Network>>,
    geoips: seq<GeoIPSet>,
    cidrs: seq<CIDR>,
    sourceGeoips: seq<GeoIPSet>,
    sourceCidrs: seq<CIDR>,
    protocols: seq<string>,
    attributes: string,
    balancingTag: string)

  // ----- direct evaluation of the declared fields

  predicate PatternAccepts(env: Compilers, d: DomainPattern, name: string) {
    match d.kind
    case 0 => Substring(name, d.value)
    case 1 => env.regex(d.value).Some? && env.regex(d.value).value(name)
    case 2 => DomainMatches(d.value, name)
    case 3 => d.value == name
    case _ => false
  }

  /** The kinds of pattern by example: a part of the name, a domain with its subdomains, or the whole name. */
  lemma PatternKinds(env: Compilers)
    ensures PatternAccepts(env, DomainPattern(0, "a.b"), "xa.bc") && PatternAccepts(env, DomainPattern(0, "a.b"), "a.b")
    ensures PatternAccepts(env, DomainPattern(2, "a.b"), "x.a.b") && PatternAccepts(env, DomainPattern(2, "a.b"), "a.b")
    ensures !PatternAccepts(env, DomainPattern(2, "a.b"), "xa.b")
    ensures !PatternAccepts(env, DomainPattern(2, "a.b"), "a.b.c")
    ensures PatternAccepts(env, DomainPattern(3, "a.b"), "a.b")
    ensures !PatternAccepts(env, DomainPattern(3, "a.b"), "x.a.b")
  {
    assert "xa.bc"[1..4] == "a.b" && "a.b"[0..3] == "a.b";
    assert StandsAt("xa.bc", "a.b", 1) && StandsAt("a.b", "a.b", 0);
    assert "x.a.b"[2..] == "a.b" && "xa.b"[1..] == "a.b";
  }

  ghost predicate DomainHolds(env: Compilers, domains: seq<DomainPattern>, ctx: Context) {
    ctx.targetDomain != "" && exists i :: 0 <= i < |domains| && PatternAccepts(env, domains[i], ctx.targetDomain)
  }

  /** Ports are cut to 16 bits. */
  predicate InRange(r: PortRange, port: uint16) {
    r.from % 0x1_0000 <= port <= r.to % 0x1_0000
  }

  ghost predicate PortHolds(ranges: seq<PortRange>, port: uint16) {
    exists i :: 0 <= i < |ranges| && InRange(ranges[i], port)
  }

  /** A range of ports includes both its ends. */
  lemma PortsInclusive(from: uint16, to: uint16, port: uint16)
    ensures PortHolds([PortRange(from, to)], port) <==> from <= port <= to
  {
    var ranges := [PortRange(from, to)];
    assert ranges[0] == PortRange(from, to);
  }

  /** Some CIDR of the set contains the address. */
  ghost predicate Covers(cidrs: seq<CIDR>, ip: IP) {
    AllValid(cidrs) && SomeContains(cidrs, ip)
  }

  function CIDRs(registry: map<string, seq<CIDR>>, g: GeoIPSet): seq<CIDR> {
    Effective(registry, g.countryCode, g.cidrs)
  }

  ghost predicate GeoHolds(registry: map<string, seq<CIDR>>, geoips: seq<GeoIPSet>, ips: seq<IP>) {
    exists i, k :: 0 <= i < |ips| && 0 <= k < |geoips| && Covers(CIDRs(registry, geoips[k]), ips[i])
  }

  ghost predicate ProtocolHolds(protocols: seq<string>, protocol: string) {
    exists i :: 0 <= i < |protocols| && protocols[i] != "" && protocols[i] <= protocol
  }

  /** A protocol is given by how its name begins. */
  lemma ProtocolsByPrefix(p: string, rest: string)
    requires p != ""
    ensures ProtocolHolds([p], p + rest) && (rest != "" ==> !ProtocolHolds([p + rest], p))
    ensures !ProtocolHolds([""], rest)
  {
    var one := [p];
    assert one[0] == p && p <= p + rest;
  }

  ghost predicate AttributesHold(env: Compilers, code: string, attributes: Option<map<string, string>>) {
    attributes.Some? && env.attributes(code).Some? && env.attributes(code).value(attributes.value)
  }

  // A newer field replaces the older one it stands beside.

  function TargetPorts(r: RoutingRule): Option<seq<PortRange>> {
    if r.portList.Some? then r.portList else if r.portRange.Some? then Some([r.portRange.value]) else None
  }

  function Networks(r: RoutingRule): Option<seq<Network>> {
    if r.networks != [] then Some(r.networks) else r.networkList
  }

  function Sets(geoips: seq<GeoIPSet>, cidrs: seq<CIDR>): seq<GeoIPSet> {
    if geoips != [] then geoips else if cidrs != [] then [GeoIPSet("", cidrs)] else []
  }

  ghost predicate FrontHolds(env: Compilers, r: RoutingRule, ctx: Context) {
    && (r.domains != [] ==> DomainHolds(env, r.domains, ctx))
    && (r.users != [] ==> ctx.user != "" && ctx.user in r.users)
    && (r.inboundTags != [] ==> ctx.inboundTag != "" && ctx.inboundTag in r.inboundTags)
    && (TargetPorts(r).Some? ==> PortHolds(TargetPorts(r).value, ctx.targetPort))
    && (r.sourcePortList.Some? ==> PortHolds(r.sourcePortList.value, ctx.sourcePort))
  }

  ghost predicate BackHolds(env: Compilers, registry: map<string, seq<CIDR>>, r: RoutingRule, ctx: Context) {
    && (Networks(r).Some? ==> ctx.network in Networks(r).value)
    && (Sets(r.geoips, r.cidrs) != [] ==> GeoHolds(registry, Sets(r.geoips, r.cidrs), ctx.targetIPs))
    && (Sets(r.sourceGeoips, r.sourceCidrs) != [] ==>
          GeoHolds(registry, Sets(r.sourceGeoips, r.sourceCidrs), ctx.sourceIPs))
    && (r.protocols != [] ==> ProtocolHolds(r.protocols, ctx.protocol))
    && (r.attributes != "" ==> AttributesHold(env, r.attributes, ctx.attributes))
  }

  /** Every field that is given holds. */
  ghost predicate RuleHolds(env: Compilers, registry: map<string, seq<CIDR>>, r: RoutingRule, ctx: Context) {
    FrontHolds(env, r, ctx) && BackHolds(env, registry, r, ctx)
  }

  // A newer field makes the older one it stands beside irrelevant, whatever that says.

  lemma NewerPortsCount(env: Compilers, registry: map<string, seq<CIDR>>, r: RoutingRule, ctx: Context,
                        portRange: Option<PortRange>)
    requires r.portList.Some?
    ensures RuleHolds(env, registry, r.(portRange := portRange), ctx) <==> RuleHolds(env, registry, r, ctx)
  {
    var s := r.(portRange := portRange);
    assert BackHolds(env, registry, s, ctx) <==> BackHolds(env, registry, r, ctx);
  }

  lemma NewerNetworksCount(env: Compilers, registry: map<string, seq<CIDR>>, r: RoutingRule, ctx: Context,
                           networkList: Option<seq<Network>>)
    requires r.networks != []
    ensures RuleHolds(env, registry, r.(networkList := networkList), ctx) <==> RuleHolds(env, registry, r, ctx)
  {
    var s := r.(networkList := networkList);
    assert FrontHolds(env, s, ctx) <==> FrontHolds(env, r, ctx);
  }

  lemma NewerSetsCount(env: Compilers, registry: map<string, seq<CIDR>>, r: RoutingRule, ctx: Context, cidrs: seq<CIDR>)
    ensures r.geoips != [] ==>
              (RuleHolds(env, registry, r.(cidrs := cidrs), ctx) <==> RuleHolds(env, registry, r, ctx))
    ensures r.sourceGeoips != [] ==>
              (RuleHolds(env, registry, r.(sourceCidrs := cidrs), ctx) <==> RuleHolds(env, registry, r, ctx))
  {
    var s, t := r.(cidrs := cidrs), r.(sourceCidrs := cidrs);
    assert FrontHolds(env, s, ctx) <==> FrontHolds(env, r, ctx);
    assert FrontHolds(env, t, ctx) <==> FrontHolds(env, r, ctx);
  }

  /** Alone, the older field counts. */
  lemma OlderFieldsCount(env: Compilers, registry: map<string, seq<CIDR>>, r: RoutingRule, ctx: Context)
    requires RuleHolds(env, registry, r, ctx)
    ensures r.portList.None? && r.portRange.Some? ==>
              r.portRange.value.from % 0x1_0000 <= ctx.targetPort <= r.portRange.value.to % 0x1_0000
    ensures r.networks == [] && r.networkList.Some? ==> ctx.network in r.networkList.value
    ensures r.geoips == [] && r.cidrs != [] ==> exists ip :: ip in ctx.targetIPs && Covers(r.cidrs, ip)
    ensures r.sourceGeoips == [] && r.sourceCidrs != [] ==>
              exists ip :: ip in ctx.sourceIPs && Covers(r.sourceCidrs, ip)
  {
    if r.geoips == [] && r.cidrs != [] {
      CodelessSet(registry, r.cidrs, ctx.targetIPs);
    }
    if r.sourceGeoips == [] && r.sourceCidrs != [] {
      CodelessSet(registry, r.sourceCidrs, ctx.sourceIPs);
    }
  }

  lemma CodelessSet(registry: map<string, seq<CIDR>>, cidrs: seq<CIDR>, ips: seq<IP>)
    requires GeoHolds(registry, [GeoIPSet("", cidrs)], ips)
    ensures exists ip :: ip in ips && Covers(cidrs, ip)
  {
    var sets := [GeoIPSet("", cidrs)];
    var i, k :| 0 <= i < |ips| && 0 <= k < |sets| && Covers(CIDRs(registry, sets[k]), ips[i]);
    assert ips[i] in ips && sets[k] == GeoIPSet("", cidrs);
  }

  // ----- the fields one by one

  datatype Field =
    | DomainField(domains: seq<DomainPattern>)
    | UserField(users: seq<string>)
    | TagField(tags: seq<string>)
    | PortField(ranges: seq<PortRange>, onSource: bool)
    | NetworkField(networks: seq<Network>)
    | GeoIPField(geoips: seq<GeoIPSet>, onSource: bool)
    | ProtocolField(protocols: seq<string>)
    | AttributeField(code: string)

  ghost predicate FieldHolds(env: Compilers, registry: map<string, seq<CIDR>>, f: Field, ctx: Context) {
    match f
    case DomainField(domains) => DomainHolds(env, domains, ctx)
    case UserField(users) => ctx.user != "" && ctx.user in users
    case TagField(tags) => ctx.inboundTag != "" && ctx.inboundTag in tags
    case PortField(ranges, onSource) => PortHolds(ranges, if onSource then ctx.sourcePort else ctx.targetPort)
    case NetworkField(networks) => ctx.network in networks
    case GeoIPField(geoips, onSource) => GeoHolds(registry, geoips, if onSource then ctx.sourceIPs else ctx.targetIPs)
    case ProtocolField(protocols) => ProtocolHolds(protocols, ctx.protocol)
    case AttributeField(code) => AttributesHold(env, code, ctx.attributes)
  }

  function PortsOf(ranges: Option<seq<PortRange>>, onSource: bool): Field {
    PortField(if ranges.Some? then ranges.value else [], onSource)
  }

  /** A field a rule may give. */
  datatype Slot = Slot(given: bool, field: Field)

  // All the fields there are, in the order they are compiled.

  function FrontSlots(r: RoutingRule): seq<Slot> {
    [ Slot(r.domains != [], DomainField(r.domains)),
      Slot(r.users != [], UserField(r.users)),
      Slot(r.inboundTags != [], TagField(r.inboundTags)),
      Slot(TargetPorts(r).Some?, PortsOf(TargetPorts(r), false)),
      Slot(r.sourcePortList.Some?, PortsOf(r.sourcePortList, true)) ]
  }

  function BackSlots(r: RoutingRule): seq<Slot> {
    [ Slot(Networks(r).Some?, NetworkField(if Networks(r).Some? then Networks(r).value else [])),
      Slot(Sets(r.geoips, r.cidrs) != [], GeoIPField(Sets(r.geoips, r.cidrs), false)),
      Slot(Sets(r.sourceGeoips, r.sourceCidrs) != [], GeoIPField(Sets(r.sourceGeoips, r.sourceCidrs), true)),
      Slot(r.protocols != [], ProtocolField(r.protocols)),
      Slot(r.attributes != "", AttributeField(r.attributes)) ]
  }

  function Given(slots: seq<Slot>): seq<Field> {
    if slots == [] then []
    else
      var last := slots[|slots| - 1];
      if last.given then Given(slots[..|slots| - 1]) + [last.field] else Given(slots[..|slots| - 1])
  }

  /** The fields a rule gives. */
  function Fields(r: RoutingRule): seq<Field> { Given(FrontSlots(r) + BackSlots(r)) }

  ghost predicate AllHold(env: Compilers, registry: map<string, seq<CIDR>>, fields: seq<Field>, ctx: Context) {
    forall i :: 0 <= i < |fields| ==> FieldHolds(env, registry, fields[i], ctx)
  }

  ghost predicate SlotHolds(env: Compilers, registry: map<string, seq<CIDR>>, s: Slot, ctx: Context) {
    s.given ==> FieldHolds(env, registry, s.field, ctx)
  }

  lemma {:induction false} GivenHold(env: Compilers, registry: map<string, seq<CIDR>>, slots: seq<Slot>, ctx: Context)
    ensures AllHold(env, registry, Given(slots), ctx) <==> AllSlotsHold(env, registry, slots, ctx)
  {
    if slots != [] {
      var front, last := slots[..|slots| - 1], slots[|slots| - 1];
      GivenHold(env, registry, front, ctx);
      if last.given {
        AllHoldMore(env, registry, Given(front), last.field, ctx);
      }
    }
  }

  lemma AllHoldMore(env: Compilers, registry: map<string, seq<CIDR>>, fields: seq<Field>, f: Field, ctx: Context)
    ensures AllHold(env, registry, fields + [f], ctx) <==>
              AllHold(env, registry, fields, ctx) && FieldHolds(env, registry, f, ctx)
  {
    var all := fields + [f];
    if AllHold(env, registry, all, ctx) {
      assert all[|fields|] == f;
      assert forall i :: 0 <= i < |fields| ==> all[i] == fields[i];
    }
  }

  ghost predicate AllSlotsHold(env: Compilers, registry: map<string, seq<CIDR>>, slots: seq<Slot>, ctx: Context) {
    forall i :: 0 <= i < |slots| ==> SlotHolds(env, registry, slots[i], ctx)
  }

  lemma FrontMeans(env: Compilers, registry: map<string, seq<CIDR>>, r: RoutingRule, ctx: Context)
    ensures AllSlotsHold(env, registry, FrontSlots(r), ctx) <==> FrontHolds(env, r, ctx)
  {
    var s := FrontSlots(r);
    assert AllSlotsHold(env, registry, s, ctx) <==>
      && SlotHolds(env, registry, s[0], ctx) && SlotHolds(env, registry, s[1], ctx)
      && SlotHolds(env, registry, s[2], ctx)
      && SlotHolds(env, registry, s[3], ctx) && SlotHolds(env, registry, s[4], ctx);
  }

  lemma BackMeans(env: Compilers, registry: map<string, seq<CIDR>>, r: RoutingRule, ctx: Context)
    ensures AllSlotsHold(env, registry, BackSlots(r), ctx) <==> BackHolds(env, registry, r, ctx)
  {
    var s := BackSlots(r);
    assert AllSlotsHold(env, registry, s, ctx) <==>
      && SlotHolds(env, registry, s[0], ctx) && SlotHolds(env, registry, s[1], ctx)
      && SlotHolds(env, registry, s[2], ctx)
      && SlotHolds(env, registry, s[3], ctx) && SlotHolds(env, registry, s[4], ctx);
  }

  lemma AllSlotsConcat(env: Compilers, registry: map<string, seq<CIDR>>, a: seq<Slot>, b: seq<Slot>, ctx: Context)
    ensures AllSlotsHold(env, registry, a + b, ctx) <==>
              AllSlotsHold(env, registry, a, ctx) && AllSlotsHold(env, registry, b, ctx)
  {
    var all := a + b;
    if AllSlotsHold(env, registry, all, ctx) {
      assert forall i :: 0 <= i < |a| ==> all[i] == a[i];
      forall i | 0 <= i < |b|
        ensures SlotHolds(env, registry, b[i], ctx)
      {
        assert all[|a| + i] == b[i];
      }
    }
  }

  /** A rule is the conjunction of its fields. */
  lemma FieldsMeanRule(env: Compilers, registry: map<string, seq<CIDR>>, r: RoutingRule, ctx: Context)
    ensures AllHold(env, registry, Fields(r), ctx) <==> RuleHolds(env, registry, r, ctx)
  {
    GivenHold(env, registry, FrontSlots(r) + BackSlots(r), ctx);
    AllSlotsConcat(env, registry, FrontSlots(r), BackSlots(r), ctx);
    FrontMeans(env, registry, r, ctx);
    BackMeans(env, registry, r, ctx);
  }

  // ----- resolving the target

  type Lookup = string -> Option<seq<IP>>

  /** The addresses of the target: its own, or what its name resolves to. */
  function ResolvedIPs(ctx: Context, lookup: Lookup): seq<IP> {
    if ctx.targetIPs != [] then ctx.targetIPs
    else if ctx.targetDomain != "" && lookup(ctx.targetDomain).Some? then lookup(ctx.targetDomain).value
    else []
  }

  function Resolved(ctx: Context, lookup: Lookup): Context {
    ctx.(targetIPs := ResolvedIPs(ctx, lookup))
  }

  /** Resolving never makes a rule fail, and only helps a rule about target addresses, of a name that has some. */
  lemma ResolvingOnlyHelps(env: Compilers, registry: map<string, seq<CIDR>>, r: RoutingRule, ctx: Context,
                           lookup: Lookup)
    ensures RuleHolds(env, registry, r, ctx) ==> RuleHolds(env, registry, r, Resolved(ctx, lookup))
    ensures RuleHolds(env, registry, r, Resolved(ctx, lookup)) && !RuleHolds(env, registry, r, ctx) ==>
              && Sets(r.geoips, r.cidrs) != []
              && ctx.targetIPs == [] && ctx.targetDomain != "" && lookup(ctx.targetDomain).Some?
              && GeoHolds(registry, Sets(r.geoips, r.cidrs), lookup(ctx.targetDomain).value)
  {
  }

  /** An address of the target: one it came with, or one of those its name has if it came with none. */
  ghost predicate IsTarget(ctx: Context, lookup: Lookup, ip: IP) {
    || ip in ctx.targetIPs
    || (ctx.targetIPs == [] && ctx.targetDomain != "" && lookup(ctx.targetDomain).Some? &&
        ip in lookup(ctx.targetDomain).value)
  }

  ghost predicate TargetCovered(registry: map<string, seq<CIDR>>, sets: seq<GeoIPSet>, ctx: Context, lookup: Lookup) {
    exists ip, k :: 0 <= k < |sets| && IsTarget(ctx, lookup, ip) && Covers(CIDRs(registry, sets[k]), ip)
  }

  /** What a rule says of a target that is resolved: its other fields hold, and some address is in some set. */
  ghost predicate HoldsByLookup(env: Compilers, registry: map<string, seq<CIDR>>, r: RoutingRule, ctx: Context,
                                lookup: Lookup) {
    && RuleHolds(env, registry, r.(geoips := [], cidrs := []), ctx)
    && (Sets(r.geoips, r.cidrs) == [] || TargetCovered(registry, Sets(r.geoips, r.cidrs), ctx, lookup))
  }

  lemma GeoByLookup(registry: map<string, seq<CIDR>>, sets: seq<GeoIPSet>, ctx: Context, lookup: Lookup)
    ensures GeoHolds(registry, sets, Resolved(ctx, lookup).targetIPs) <==> TargetCovered(registry, sets, ctx, lookup)
  {
    var ips := Resolved(ctx, lookup).targetIPs;
    forall ip
      ensures ip in ips <==> IsTarget(ctx, lookup, ip)
    {
    }
    if GeoHolds(registry, sets, ips) {
      var i, k :| 0 <= i < |ips| && 0 <= k < |sets| && Covers(CIDRs(registry, sets[k]), ips[i]);
      assert ips[i] in ips;
    }
    if TargetCovered(registry, sets, ctx, lookup) {
      var ip, k :| 0 <= k < |sets| && IsTarget(ctx, lookup, ip) && Covers(CIDRs(registry, sets[k]), ip);
      var i :| 0 <= i < |ips| && ips[i] == ip;
      assert Covers(CIDRs(registry, sets[k]), ips[i]);
    }
  }

  /** A rule holds of the resolved target exactly if it says so of the addresses the lookup gives, all of them. */
  lemma ResolvedExactly(env: Compilers, registry: map<string, seq<CIDR>>, r: RoutingRule, ctx: Context, lookup: Lookup)
    ensures RuleHolds(env, registry, r, Resolved(ctx, lookup)) <==> HoldsByLookup(env, registry, r, ctx, lookup)
  {
    GeoByLookup(registry, Sets(r.geoips, r.cidrs), ctx, lookup);
  }

  // ----- shared country codes

  /** Equal country codes stand for equal contents. */
  ghost predicate SameContents(registry: map<string, seq<CIDR>>, geoips: seq<GeoIPSet>) {
    forall k :: 0 <= k < |geoips| ==> multiset(CIDRs(registry, geoips[k])) == multiset(geoips[k].cidrs)
  }

  ghost predicate SameRule(registry: map<string, seq<CIDR>>, r: RoutingRule) {
    SameContents(registry, Sets(r.geoips, r.cidrs)) && SameContents(registry, Sets(r.sourceGeoips, r.sourceCidrs))
  }

  lemma CoversPermuted(a: seq<CIDR>, b: seq<CIDR>, ip: IP)
    requires multiset(a) == multiset(b)
    ensures Covers(a, ip) <==> Covers(b, ip)
  {
    SameMembers(a, b);
    assert AllValid(a) <==> AllValid(b) by {
      assert AllValid(a) <==> forall c :: c in a ==> ValidPrefix(c);
      assert AllValid(b) <==> forall c :: c in b ==> ValidPrefix(c);
    }
    if AllValid(a) {
      PermutedContains(a, b, ip);
    }
  }

  lemma GeoHoldsAsDeclared(registry: map<string, seq<CIDR>>, geoips: seq<GeoIPSet>, ips: seq<IP>)
    requires SameContents(registry, geoips)
    ensures GeoHolds(registry, geoips, ips) <==> GeoHolds(map[], geoips, ips)
  {
    forall i, k | 0 <= i < |ips| && 0 <= k < |geoips|
      ensures Covers(CIDRs(registry, geoips[k]), ips[i]) <==> Covers(CIDRs(map[], geoips[k]), ips[i])
    {
      CoversPermuted(CIDRs(registry, geoips[k]), geoips[k].cidrs, ips[i]);
    }
  }

  /** Then sharing matchers by country code does not change what a rule says. */
  lemma SharingIsInvisible(env: Compilers, registry: map<string, seq<CIDR>>, r: RoutingRule, ctx: Context)
    requires SameRule(registry, r)
    ensures RuleHolds(env, registry, r, ctx) <==> RuleHolds(env, map[], r, ctx)
    ensures ValidRule(map[], r) ==> ValidRule(registry, r)
    ensures RegularRule(map[], r) ==> RegularRule(registry, r)
  {
    GeoHoldsAsDeclared(registry, Sets(r.geoips, r.cidrs), ctx.targetIPs);
    GeoHoldsAsDeclared(registry, Sets(r.sourceGeoips, r.sourceCidrs), ctx.sourceIPs);
    RegularAsDeclared(registry, Sets(r.geoips, r.cidrs));
    RegularAsDeclared(registry, Sets(r.sourceGeoips, r.sourceCidrs));
  }

  // ----- when the compiled indexes are right

  /** The CIDRs of every set are well formed: then a hit is right. */
  ghost predicate ValidSets(registry: map<string, seq<CIDR>>, geoips: seq<GeoIPSet>) {
    forall k :: 0 <= k < |geoips| ==> AllValid(CIDRs(registry, geoips[k]))
  }

  /** ... and stepped, as disjoint ones are: then a miss is right too. */
  ghost predicate Regular(registry: map<string, seq<CIDR>>, geoips: seq<GeoIPSet>) {
    forall k :: 0 <= k < |geoips| ==> AllValid(CIDRs(registry, geoips[k])) && Stepped(CIDRs(registry, geoips[k]))
  }

  ghost predicate ValidRule(registry: map<string, seq<CIDR>>, r: RoutingRule) {
    ValidSets(registry, Sets(r.geoips, r.cidrs)) && ValidSets(registry, Sets(r.sourceGeoips, r.sourceCidrs))
  }

  ghost predicate RegularRule(registry: map<string, seq<CIDR>>, r: RoutingRule) {
    Regular(registry, Sets(r.geoips, r.cidrs)) && Regular(registry, Sets(r.sourceGeoips, r.sourceCidrs))
  }

  ghost predicate ValidField(registry: map<string, seq<CIDR>>, f: Field) {
    f.GeoIPField? ==> ValidSets(registry, f.geoips)
  }

  ghost predicate RegularField(registry: map<string, seq<CIDR>>, f: Field) {
    f.GeoIPField? ==> Regular(registry, f.geoips)
  }

  lemma RegularAsDeclared(registry: map<string, seq<CIDR>>, geoips: seq<GeoIPSet>)
    requires SameContents(registry, geoips)
    ensures ValidSets(map[], geoips) ==> ValidSets(registry, geoips)
    ensures Regular(map[], geoips) ==> Regular(registry, geoips)
  {
    forall k | 0 <= k < |geoips| && AllValid(CIDRs(map[], geoips[k]))
      ensures AllValid(CIDRs(registry, geoips[k]))
      ensures Stepped(CIDRs(map[], geoips[k])) ==> Stepped(CIDRs(registry, geoips[k]))
    {
      PermutedValid(geoips[k].cidrs, CIDRs(registry, geoips[k]));
      if Stepped(geoips[k].cidrs) {
        PermutedStepped(geoips[k].cidrs, CIDRs(registry, geoips[k]));
      }
    }
  }
}
