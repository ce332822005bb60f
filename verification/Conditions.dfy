/** Rules compiled into conditions, and their application to a connection (app/router). */
module Conditions {
  import opened Bytes
  import opened Matchers
  import opened GeoIP
  import opened RoutingRules

  datatype MemoryPortRange = MemoryPortRange(from: uint16, to: uint16)

  datatype Condition =
    | OnDomain(group: MatcherGroup)
    | OnUser(users: seq<string>)
    | OnTag(tags: seq<string>)
    | OnPort(ports: seq<MemoryPortRange>, onSource: bool)
    | OnNetwork(list: seq<bool>)
    | OnGeoIP(matchers: seq<GeoIPMatcher>, onSource: bool)
    | OnProtocol(protocols: seq<string>)
    | OnAttribute(program: map<string, string> -> bool)

  /** A connection, with a client to resolve its target if there is one. */
  class RoutingContext {
    const base: Context
    const lookup: Option<Lookup>
    var resolvedIPs: seq<IP>

    constructor (base: Context, lookup: Option<Lookup>)
      ensures Valid() && this.base == base && this.lookup == lookup
    {
      this.base, this.lookup, resolvedIPs := base, lookup, [];
    }

    /** Whatever is remembered is what the client would say again. */
    ghost predicate Valid()
      reads this
    {
      resolvedIPs != [] ==>
        lookup.Some? && base.targetDomain != "" && lookup.value(base.targetDomain) == Some(resolvedIPs)
    }

    function View(): Context {
      if lookup.Some? then Resolved(base, lookup.value) else base
    }

    /** Looks the name up at most until it has addresses. */
    method GetTargetIPs() returns (ips: seq<IP>)
      requires Valid()
      modifies this
      ensures Valid() && ips == View().targetIPs
      ensures lookup.Some? ==> forall ip :: ip in ips <==> IsTarget(base, lookup.value, ip)
    {
      ips := base.targetIPs;
      if ips != [] || lookup.None? {
        return;
      }
      if resolvedIPs != [] {
        return resolvedIPs;
      }
      if base.targetDomain != "" {
        var answer := lookup.value(base.targetDomain);
        if answer.Some? {
          resolvedIPs := answer.value;
          return answer.value;
        }
      }
    }
  }

  // ----- domain patterns

  function ToMatcher(env: Compilers, d: DomainPattern): Option<Matcher> {
    match d.kind
    case 0 => Some(Substr(d.value))
    case 1 => (match env.regex(d.value)
               case Some(accepts) => Some(Regex(accepts))
               case None => None)
    case 2 => Some(Domain(d.value))
    case 3 => Some(Full(d.value))
    case _ => None
  }

  ghost predicate Translated(env: Compilers, domains: seq<DomainPattern>, all: seq<Matcher>) {
    |all| == |domains| && forall i :: 0 <= i < |all| ==> ToMatcher(env, domains[i]) == Some(all[i])
  }

  ghost predicate GroupReady(repr: set<object>, env: Compilers, g: MatcherGroup, domains: seq<DomainPattern>)
    reads repr
  {
    && g in repr && g.full in repr && g.domain in repr && g.domain.repr <= repr
    && g.Valid() && Translated(env, domains, g.all)
  }

  lemma TranslatedAccepts(env: Compilers, domains: seq<DomainPattern>, all: seq<Matcher>, name: string)
    requires Translated(env, domains, all)
    ensures (exists i :: 0 <= i < |all| && Accepts(all[i], name)) <==>
            exists i :: 0 <= i < |domains| && PatternAccepts(env, domains[i], name)
  {
    forall i | 0 <= i < |all|
      ensures Accepts(all[i], name) <==> PatternAccepts(env, domains[i], name)
    {
      assert ToMatcher(env, domains[i]) == Some(all[i]);
    }
  }

  /** DomainMatcher.Apply: a hit in the group is a pattern that accepts the name. */
  method ApplyDomain(g: MatcherGroup, ctx: Context, ghost repr: set<object>, ghost env: Compilers,
                     ghost domains: seq<DomainPattern>)
    returns (r: bool)
    requires GroupReady(repr, env, g, domains)
    ensures r <==> DomainHolds(env, domains, ctx)
  {
    if ctx.targetDomain == "" {
      return false;
    }
    var ids := g.Match(ctx.targetDomain);
    GroupFindsAny(g.all, ctx.targetDomain);
    TranslatedAccepts(env, domains, g.all, ctx.targetDomain);
    r := |ids| > 0;
  }

  // ----- address sets

  /** The matcher of a set, built from what the set's code stands for. */
  ghost predicate MatcherReady(repr: set<object>, registry: map<string, seq<CIDR>>, m: GeoIPMatcher, g: GeoIPSet)
    reads repr
  {
    && m in repr && m.Valid() && (g.countryCode == "" || g.countryCode in registry)
    && multiset(m.order) == multiset(CIDRs(registry, g))
  }

  ghost predicate MatchersReady(repr: set<object>, registry: map<string, seq<CIDR>>, ms: seq<GeoIPMatcher>,
                                geoips: seq<GeoIPSet>)
    reads repr
  {
    |ms| == |geoips| && forall k :: 0 <= k < |ms| ==> MatcherReady(repr, registry, ms[k], geoips[k])
  }

  /** One matcher against one address. */
  method ApplyMatcher(m: GeoIPMatcher, ip: IP, ghost repr: set<object>, ghost registry: map<string, seq<CIDR>>,
                      ghost g: GeoIPSet) returns (r: bool)
    requires MatcherReady(repr, registry, m, g)
    ensures r && AllValid(CIDRs(registry, g)) ==> Covers(CIDRs(registry, g), ip)
    ensures !r && AllValid(CIDRs(registry, g)) && Stepped(CIDRs(registry, g)) ==> !Covers(CIDRs(registry, g), ip)
  {
    r := m.Match(ip);
    ghost var cidrs := CIDRs(registry, g);
    if AllValid(cidrs) {
      CoversPermuted(m.order, cidrs, ip);
      PermutedValid(cidrs, m.order);
      if Stepped(cidrs) {
        PermutedStepped(cidrs, m.order);
      }
    }
  }

  /** MultiGeoIPMatcher.Apply: some address lies in some set. */
  method ApplyGeoIP(ms: seq<GeoIPMatcher>, ips: seq<IP>, ghost repr: set<object>,
                    ghost registry: map<string, seq<CIDR>>,
                    ghost geoips: seq<GeoIPSet>) returns (r: bool)
    requires MatchersReady(repr, registry, ms, geoips)
    ensures r && ValidSets(registry, geoips) ==> GeoHolds(registry, geoips, ips)
    ensures !r && Regular(registry, geoips) ==> !GeoHolds(registry, geoips, ips)
  {
    var i := 0;
    while i < |ips|
      invariant 0 <= i <= |ips|
      invariant Regular(registry, geoips) ==>
                  forall j, k :: 0 <= j < i && 0 <= k < |geoips| ==> !Covers(CIDRs(registry, geoips[k]), ips[j])
    {
      r := AnyMatches(ms, ips[i], repr, registry, geoips);
      if r {
        return;
      }
      i := i + 1;
    }
    r := false;
  }

  method AnyMatches(ms: seq<GeoIPMatcher>, ip: IP, ghost repr: set<object>, ghost registry: map<string, seq<CIDR>>,
                    ghost geoips: seq<GeoIPSet>) returns (r: bool)
    requires MatchersReady(repr, registry, ms, geoips)
    ensures r && ValidSets(registry, geoips) ==> exists k :: 0 <= k < |geoips| && Covers(CIDRs(registry, geoips[k]), ip)
    ensures !r && Regular(registry, geoips) ==>
              forall k :: 0 <= k < |geoips| ==> !Covers(CIDRs(registry, geoips[k]), ip)
  {
    var k := 0;
    while k < |ms|
      invariant 0 <= k <= |ms|
      invariant Regular(registry, geoips) ==> forall j :: 0 <= j < k ==> !Covers(CIDRs(registry, geoips[j]), ip)
    {
      r := ApplyMatcher(ms[k], ip, repr, registry, geoips[k]);
      if r {
        return;
      }
      k := k + 1;
    }
    r := false;
  }

  // ----- lists and tables

  /** Copies of name lists leave out empty names. */
  ghost predicate NonEmptyCopy(copy: seq<string>, names: seq<string>) {
    && (forall i :: 0 <= i < |copy| ==> copy[i] != "" && copy[i] in names)
    && (forall i :: 0 <= i < |names| && names[i] != "" ==> names[i] in copy)
  }

  method DropEmpty(names: seq<string>) returns (copy: seq<string>)
    ensures NonEmptyCopy(copy, names)
  {
    copy := [];
    for i := 0 to |names|
      invariant forall k :: 0 <= k < |copy| ==> copy[k] != "" && copy[k] in names
      invariant forall k :: 0 <= k < i && names[k] != "" ==> names[k] in copy
    {
      if |names[i]| > 0 {
        copy := copy + [names[i]];
      }
    }
  }

  /** UserMatcher.Apply and InboundTagMatcher.Apply. */
  method ApplyName(copy: seq<string>, name: string, ghost names: seq<string>) returns (r: bool)
    requires NonEmptyCopy(copy, names)
    ensures r <==> name != "" && name in names
  {
    if name == "" {
      return false;
    }
    for i := 0 to |copy|
      invariant forall k :: 0 <= k < i ==> copy[k] != name
    {
      if copy[i] == name {
        return true;
      }
    }
    r := false;
  }

  /** ProtocolMatcher.Apply. */
  method ApplyProtocol(copy: seq<string>, protocol: string, ghost protocols: seq<string>) returns (r: bool)
    requires NonEmptyCopy(copy, protocols)
    ensures r <==> ProtocolHolds(protocols, protocol)
  {
    if protocol == "" {
      return false;
    }
    for i := 0 to |copy|
      invariant forall k :: 0 <= k < i ==> !(copy[k] <= protocol)
    {
      if copy[i] <= protocol {
        return true;
      }
    }
    r := false;
  }

  ghost predicate PortsReady(ports: seq<MemoryPortRange>, ranges: seq<PortRange>) {
    && |ports| == |ranges|
    && forall i :: 0 <= i < |ports| ==>
         ports[i] == MemoryPortRange(ranges[i].from % 0x1_0000, ranges[i].to % 0x1_0000)
  }

  method NewPorts(ranges: seq<PortRange>) returns (ports: seq<MemoryPortRange>)
    ensures PortsReady(ports, ranges)
  {
    ports := [];
    for i := 0 to |ranges|
      invariant PortsReady(ports, ranges[..i])
    {
      ports := ports + [MemoryPortRange(ranges[i].from % 0x1_0000, ranges[i].to % 0x1_0000)];
    }
    assert ranges[..|ranges|] == ranges;
  }

  /** MemoryPortList.Contains. */
  method ApplyPort(ports: seq<MemoryPortRange>, port: uint16, ghost ranges: seq<PortRange>) returns (r: bool)
    requires PortsReady(ports, ranges)
    ensures r <==> PortHolds(ranges, port)
  {
    for i := 0 to |ports|
      invariant forall k :: 0 <= k < i ==> !InRange(ranges[k], port)
    {
      assert InRange(ranges[i], port) <==> ports[i].from <= port <= ports[i].to;
      if ports[i].from <= port <= ports[i].to {
        return true;
      }
    }
    r := false;
  }

  ghost predicate TableReady(list: seq<bool>, networks: seq<Network>) {
    |list| == 8 && forall n :: 0 <= n < 8 ==> (list[n] <==> n in networks)
  }

  /** NewNetworkMatcher: a table indexed by network. */
  method NewTable(networks: seq<Network>) returns (list: seq<bool>)
    ensures TableReady(list, networks)
  {
    list := seq(8, _ => false);
    for i := 0 to |networks|
      invariant TableReady(list, networks[..i])
    {
      assert networks[..i + 1] == networks[..i] + [networks[i]];
      list := list[networks[i] := true];
    }
    assert networks[..|networks|] == networks;
  }

  // ----- conditions

  /** The condition is the field, compiled. */
  ghost predicate Ready(repr: set<object>, env: Compilers, registry: map<string, seq<CIDR>>, c: Condition, f: Field)
    reads repr
  {
    match c
    case OnDomain(g) => f.DomainField? && GroupReady(repr, env, g, f.domains)
    case OnUser(users) => f.UserField? && NonEmptyCopy(users, f.users)
    case OnTag(tags) => f.TagField? && NonEmptyCopy(tags, f.tags)
    case OnPort(ports, onSource) => f.PortField? && f.onSource == onSource && PortsReady(ports, f.ranges)
    case OnNetwork(list) => f.NetworkField? && TableReady(list, f.networks)
    case OnGeoIP(ms, onSource) => f.GeoIPField? && f.onSource == onSource && MatchersReady(repr, registry, ms, f.geoips)
    case OnProtocol(protocols) => f.ProtocolField? && NonEmptyCopy(protocols, f.protocols)
    case OnAttribute(program) => f.AttributeField? && env.attributes(f.code) == Some(program)
  }

  /** An answer to a field: a yes is right over valid CIDRs, a no over stepped ones; other fields have none. */
  ghost predicate Tells(env: Compilers, registry: map<string, seq<CIDR>>, f: Field, ctx: Context, r: bool) {
    && (r && ValidField(registry, f) ==> FieldHolds(env, registry, f, ctx))
    && (!r && RegularField(registry, f) ==> !FieldHolds(env, registry, f, ctx))
  }

  /** Apply says what the field says. */
  method Apply(c: Condition, ctx: RoutingContext, ghost repr: set<object>, ghost env: Compilers,
               ghost registry: map<string, seq<CIDR>>, ghost f: Field) returns (r: bool)
    requires Ready(repr, env, registry, c, f) && ctx.Valid() && ctx !in repr
    modifies ctx
    ensures ctx.Valid() && Tells(env, registry, f, ctx.View(), r)
  {
    match c
    case OnDomain(g) =>
      r := ApplyDomain(g, ctx.View(), repr, env, f.domains);
    case OnUser(users) =>
      r := ApplyName(users, ctx.base.user, f.users);
    case OnTag(tags) =>
      r := ApplyName(tags, ctx.base.inboundTag, f.tags);
    case OnPort(ports, onSource) =>
      r := ApplyPort(ports, if onSource then ctx.base.sourcePort else ctx.base.targetPort, f.ranges);
    case OnNetwork(list) =>
      r := list[ctx.base.network];
    case OnGeoIP(ms, onSource) =>
      r := ApplyAddresses(ms, onSource, ctx, repr, registry, f.geoips);
    case OnProtocol(protocols) =>
      r := ApplyProtocol(protocols, ctx.base.protocol, f.protocols);
    case OnAttribute(program) =>
      r := ctx.base.attributes.Some? && program(ctx.base.attributes.value);
  }

  method ApplyAddresses(ms: seq<GeoIPMatcher>, onSource: bool, ctx: RoutingContext, ghost repr: set<object>,
                        ghost registry: map<string, seq<CIDR>>, ghost geoips: seq<GeoIPSet>) returns (r: bool)
    requires MatchersReady(repr, registry, ms, geoips) && ctx.Valid() && ctx !in repr
    modifies ctx
    ensures ctx.Valid()
    ensures var ips := if onSource then ctx.View().sourceIPs else ctx.View().targetIPs;
            && (r && ValidSets(registry, geoips) ==> GeoHolds(registry, geoips, ips))
            && (!r && Regular(registry, geoips) ==> !GeoHolds(registry, geoips, ips))
  {
    var ips;
    if onSource {
      ips := ctx.base.sourceIPs;
    } else {
      ips := ctx.GetTargetIPs();
    }
    r := ApplyGeoIP(ms, ips, repr, registry, geoips);
  }

  /** The conditions of a rule are its fields, one by one. */
  ghost predicate Compiled(repr: set<object>, env: Compilers, registry: map<string, seq<CIDR>>, conds: seq<Condition>,
                           fields: seq<Field>)
    reads repr
    decreases |conds|
  {
    && |conds| == |fields|
    && (conds != [] ==>
          && Compiled(repr, env, registry, conds[..|conds| - 1], fields[..|fields| - 1])
          && Ready(repr, env, registry, conds[|conds| - 1], fields[|fields| - 1]))
  }

  lemma {:induction false} CompiledAt(repr: set<object>, env: Compilers, registry: map<string, seq<CIDR>>,
                                      conds: seq<Condition>, fields: seq<Field>, i: nat)
    requires Compiled(repr, env, registry, conds, fields) && i < |conds|
    ensures Ready(repr, env, registry, conds[i], fields[i])
    decreases |conds|
  {
    if i < |conds| - 1 {
      CompiledAt(repr, env, registry, conds[..|conds| - 1], fields[..|fields| - 1], i);
    }
  }

  ghost predicate ValidFields(registry: map<string, seq<CIDR>>, fields: seq<Field>) {
    forall i :: 0 <= i < |fields| ==> ValidField(registry, fields[i])
  }

  ghost predicate RegularFields(registry: map<string, seq<CIDR>>, fields: seq<Field>) {
    forall i :: 0 <= i < |fields| ==> RegularField(registry, fields[i])
  }

  /** The first n fields have all been answered with yes. */
  ghost predicate AllTold(env: Compilers, registry: map<string, seq<CIDR>>, fields: seq<Field>, ctx: Context, n: nat)
    requires n <= |fields|
  {
    n > 0 ==> AllTold(env, registry, fields, ctx, n - 1) && Tells(env, registry, fields[n - 1], ctx, true)
  }

  /** One of the first n fields has been answered with no. */
  ghost predicate SomeDenied(env: Compilers, registry: map<string, seq<CIDR>>, fields: seq<Field>, ctx: Context, n: nat)
    requires n <= |fields|
  {
    n > 0 && (SomeDenied(env, registry, fields, ctx, n - 1) || Tells(env, registry, fields[n - 1], ctx, false))
  }

  /** What a list of fields is answered with, field by field up to the first no. */
  ghost predicate Told(env: Compilers, registry: map<string, seq<CIDR>>, fields: seq<Field>, ctx: Context, r: bool) {
    if r then AllTold(env, registry, fields, ctx, |fields|) else SomeDenied(env, registry, fields, ctx, |fields|)
  }

  lemma {:induction false} AllToldHold(env: Compilers, registry: map<string, seq<CIDR>>, fields: seq<Field>,
                                       ctx: Context,
                                       n: nat, k: nat)
    requires k < n <= |fields| && AllTold(env, registry, fields, ctx, n) && ValidField(registry, fields[k])
    ensures FieldHolds(env, registry, fields[k], ctx)
  {
    if k < n - 1 {
      AllToldHold(env, registry, fields, ctx, n - 1, k);
    }
  }

  lemma {:induction false} SomeDeniedFails(env: Compilers, registry: map<string, seq<CIDR>>, fields: seq<Field>,
                                           ctx: Context,
                                           n: nat)
    requires n <= |fields| && SomeDenied(env, registry, fields, ctx, n) && RegularFields(registry, fields)
    ensures !AllHold(env, registry, fields, ctx)
  {
    if SomeDenied(env, registry, fields, ctx, n - 1) {
      SomeDeniedFails(env, registry, fields, ctx, n - 1);
    } else {
      assert !FieldHolds(env, registry, fields[n - 1], ctx);
    }
  }

  lemma {:induction false} DeniedMore(env: Compilers, registry: map<string, seq<CIDR>>, fields: seq<Field>,
                                      ctx: Context,
                                      m: nat, n: nat)
    requires m <= n <= |fields| && SomeDenied(env, registry, fields, ctx, m)
    ensures SomeDenied(env, registry, fields, ctx, n)
  {
    if m < n {
      DeniedMore(env, registry, fields, ctx, m, n - 1);
    }
  }

  /** A yes is right over valid CIDRs, a no over stepped ones. */
  lemma ToldMeans(env: Compilers, registry: map<string, seq<CIDR>>, fields: seq<Field>, ctx: Context, r: bool)
    requires Told(env, registry, fields, ctx, r)
    ensures r && ValidFields(registry, fields) ==> AllHold(env, registry, fields, ctx)
    ensures !r && RegularFields(registry, fields) ==> !AllHold(env, registry, fields, ctx)
  {
    if r && ValidFields(registry, fields) {
      forall k | 0 <= k < |fields|
        ensures FieldHolds(env, registry, fields[k], ctx)
      {
        AllToldHold(env, registry, fields, ctx, |fields|, k);
      }
    }
    if !r && RegularFields(registry, fields) {
      SomeDeniedFails(env, registry, fields, ctx, |fields|);
    }
  }

  method ApplyAt(conds: seq<Condition>, i: nat, ctx: RoutingContext, ghost repr: set<object>, ghost env: Compilers,
                 ghost registry: map<string, seq<CIDR>>, ghost fields: seq<Field>) returns (r: bool)
    requires Compiled(repr, env, registry, conds, fields) && i < |conds| && ctx.Valid() && ctx !in repr
    modifies ctx
    ensures Compiled(repr, env, registry, conds, fields) && ctx.Valid()
    ensures AllTold(env, registry, fields, ctx.View(), i) ==>
              if r then AllTold(env, registry, fields, ctx.View(), i + 1)
              else Told(env, registry, fields, ctx.View(), false)
  {
    CompiledAt(repr, env, registry, conds, fields, i);
    r := Apply(conds[i], ctx, repr, env, registry, fields[i]);
    if !r {
      DeniedMore(env, registry, fields, ctx.View(), i + 1, |fields|);
    }
  }

  /** ConditionChan.Apply: all conditions, in order, up to the first that fails. */
  method ApplyAll(conds: seq<Condition>, ctx: RoutingContext, ghost repr: set<object>, ghost env: Compilers,
                  ghost registry: map<string, seq<CIDR>>, ghost fields: seq<Field>) returns (r: bool)
    requires Compiled(repr, env, registry, conds, fields) && ctx.Valid() && ctx !in repr
    modifies ctx
    ensures ctx.Valid() && Told(env, registry, fields, ctx.View(), r)
  {
    var i := 0;
    while i < |conds|
      invariant 0 <= i <= |conds| == |fields| && ctx.Valid() && Compiled(repr, env, registry, conds, fields)
      invariant AllTold(env, registry, fields, ctx.View(), i)
    {
      r := ApplyAt(conds, i, ctx, repr, env, registry, fields);
      if !r {
        return;
      }
      i := i + 1;
    }
    r := true;
  }
}
