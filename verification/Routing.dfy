/** Building rules and choosing the first that holds (app/router/config.go, app/router/router.go). */
module Routing {
  import opened Bytes
  import opened Matchers
  import opened GeoIP
  import opened RoutingRules
  import opened Conditions

  type Registry = map<string, seq<CIDR>>

  /** Registered contents stay. */
  ghost predicate Grown(a: Registry, b: Registry) {
    forall code :: code in a ==> code in b && a[code] == b[code]
  }

  /** The objects conditions are made of are none of those that change later. */
  ghost predicate Parts(repr: set<object>) {
    forall o :: o in repr ==> !(o is GeoIPMatcherContainer) && !(o is Router) && !(o is RoutingContext)
  }

  /** What a field needs to compile. */
  ghost predicate Buildable(env: Compilers, registry: Registry, f: Field) {
    && (f.DomainField? ==> forall i :: 0 <= i < |f.domains| ==> ToMatcher(env, f.domains[i]).Some?)
    && (f.GeoIPField? ==> AllUsable(registry, f.geoips))
    && (f.AttributeField? ==> env.attributes(f.code).Some?)
  }

  ghost predicate AllUsable(registry: Registry, geoips: seq<GeoIPSet>) {
    forall k :: 0 <= k < |geoips| ==> Usable(registry, geoips[k].countryCode, geoips[k].cidrs)
  }

  ghost predicate AllBuildable(env: Compilers, registry: Registry, fields: seq<Field>) {
    forall i :: 0 <= i < |fields| ==> Buildable(env, registry, fields[i])
  }

  lemma AllUsableGrows(a: Registry, b: Registry, geoips: seq<GeoIPSet>)
    requires Grown(a, b) && AllUsable(a, geoips)
    ensures AllUsable(b, geoips)
  {
  }

  lemma BuildableGrows(env: Compilers, a: Registry, b: Registry, f: Field)
    requires Grown(a, b) && Buildable(env, a, f)
    ensures Buildable(env, b, f)
  {
    if f.GeoIPField? {
      AllUsableGrows(a, b, f.geoips);
    }
  }

  lemma AllBuildableGrows(env: Compilers, a: Registry, b: Registry, fields: seq<Field>)
    requires Grown(a, b) && AllBuildable(env, a, fields)
    ensures AllBuildable(env, b, fields)
  {
    forall i | 0 <= i < |fields|
      ensures Buildable(env, b, fields[i])
    {
      BuildableGrows(env, a, b, fields[i]);
    }
  }

  lemma MatchersReadyGrows(repr: set<object>, repr': set<object>, a: Registry, b: Registry, ms: seq<GeoIPMatcher>,
                           geoips: seq<GeoIPSet>)
    requires repr <= repr' && Grown(a, b) && MatchersReady(repr, a, ms, geoips)
    ensures MatchersReady(repr', b, ms, geoips)
  {
    forall k | 0 <= k < |ms|
      ensures MatcherReady(repr', b, ms[k], geoips[k])
    {
      assert MatcherReady(repr, a, ms[k], geoips[k]);
    }
  }

  lemma ReadyGrows(repr: set<object>, repr': set<object>, env: Compilers, a: Registry, b: Registry, c: Condition,
                   f: Field)
    requires repr <= repr' && Grown(a, b) && Ready(repr, env, a, c, f)
    ensures Ready(repr', env, b, c, f)
  {
    if c.OnGeoIP? {
      MatchersReadyGrows(repr, repr', a, b, c.matchers, f.geoips);
    }
  }

  lemma {:induction false} CompiledGrows(repr: set<object>, repr': set<object>, env: Compilers, a: Registry,
                                         b: Registry, conds: seq<Condition>, fields: seq<Field>)
    requires repr <= repr' && Grown(a, b) && Compiled(repr, env, a, conds, fields)
    ensures Compiled(repr', env, b, conds, fields)
    decreases |conds|
  {
    if conds != [] {
      CompiledGrows(repr, repr', env, a, b, conds[..|conds| - 1], fields[..|fields| - 1]);
      ReadyGrows(repr, repr', env, a, b, conds[|conds| - 1], fields[|fields| - 1]);
    }
  }

  /** The objects of a group. */
  ghost function Own(g: MatcherGroup): set<object>
    reads g.domain
  {
    {g, g.full, g.domain} + g.domain.repr
  }

  /** Adds one more pattern to a group. */
  method AddPattern(g: MatcherGroup, m: Matcher, ghost env: Compilers, ghost domains: seq<DomainPattern>, ghost i: nat)
    requires g.Valid() && i < |domains| && Translated(env, domains[..i], g.all) && ToMatcher(env, domains[i]) == Some(m)
    modifies Own(g)
    ensures g.Valid() && Translated(env, domains[..i + 1], g.all) && fresh(Own(g) - old(Own(g)))
  {
    TranslatedMore(env, domains, i, g.all, m);
    var _ := g.Add(m);
  }

  lemma TranslatedMore(env: Compilers, domains: seq<DomainPattern>, i: nat, all: seq<Matcher>, m: Matcher)
    requires i < |domains| && Translated(env, domains[..i], all) && ToMatcher(env, domains[i]) == Some(m)
    ensures Translated(env, domains[..i + 1], all + [m])
  {
    var more, all' := domains[..i + 1], all + [m];
    forall k | 0 <= k < |all'|
      ensures ToMatcher(env, more[k]) == Some(all'[k])
    {
      assert k < i ==> more[k] == domains[..i][k] && all'[k] == all[k];
    }
  }

  /** Adds all patterns, up to the first error. */
  method FillGroup(g: MatcherGroup, env: Compilers, domains: seq<DomainPattern>) returns (ok: bool)
    requires g.Valid() && g.all == []
    modifies Own(g)
    ensures fresh(Own(g) - old(Own(g)))
    ensures !ok ==> exists i :: 0 <= i < |domains| && ToMatcher(env, domains[i]).None?
    ensures ok ==> g.Valid() && Translated(env, domains, g.all)
  {
    var i := 0;
    while i < |domains|
      invariant 0 <= i <= |domains| && g.Valid() && Translated(env, domains[..i], g.all)
      invariant fresh(Own(g) - old(Own(g)))
    {
      var m := ToMatcher(env, domains[i]);
      if m.None? {
        return false;
      }
      AddPattern(g, m.value, env, domains, i);
      i := i + 1;
    }
    assert domains[..i] == domains;
    ok := true;
  }

  method NewGroup() returns (g: MatcherGroup)
    ensures g.Valid() && g.all == [] && fresh(Own(g))
  {
    g := new MatcherGroup();
  }

  /** NewDomainMatcher: a new group of all the patterns, or the first error. */
  method BuildGroup(env: Compilers, domains: seq<DomainPattern>) returns (g: MatcherGroup?)
    ensures g != null <==> forall i :: 0 <= i < |domains| ==> ToMatcher(env, domains[i]).Some?
    ensures g != null ==> g.Valid() && Translated(env, domains, g.all) && fresh(Own(g))
  {
    var group := NewGroup();
    var ok := FillGroup(group, env, domains);
    if !ok {
      return null;
    }
    AllTranslated(env, domains, group.all);
    g := group;
  }

  lemma AllTranslated(env: Compilers, domains: seq<DomainPattern>, all: seq<Matcher>)
    requires Translated(env, domains, all)
    ensures forall i :: 0 <= i < |domains| ==> ToMatcher(env, domains[i]).Some?
  {
    forall i | 0 <= i < |domains|
      ensures ToMatcher(env, domains[i]).Some?
    {
      assert ToMatcher(env, domains[i]) == Some(all[i]);
    }
  }

  lemma GroupParts(env: Compilers, g: MatcherGroup, domains: seq<DomainPattern>)
    requires g.Valid() && Translated(env, domains, g.all)
    ensures Parts(Own(g)) && GroupReady(Own(g), env, g, domains)
  {
  }

  lemma SetAdded(repr: set<object>, a: Registry, b: Registry, list: seq<GeoIPMatcher>, geoips: seq<GeoIPSet>, i: nat,
                 m: GeoIPMatcher)
    requires i < |geoips| && AllUsable(a, geoips[..i]) && MatchersReady(repr, a, list, geoips[..i])
    requires b == Extended(a, geoips[i].countryCode, geoips[i].cidrs)
    requires Usable(a, geoips[i].countryCode, geoips[i].cidrs)
    requires m.Valid() && multiset(m.order) == multiset(CIDRs(b, geoips[i]))
    ensures Grown(a, b) && AllUsable(b, geoips[..i + 1]) && MatchersReady(repr + {m}, b, list + [m], geoips[..i + 1])
  {
    MatchersReadyGrows(repr, repr + {m}, a, b, list, geoips[..i]);
    assert MatcherReady(repr + {m}, b, m, geoips[i]);
    AllUsableGrows(a, b, geoips[..i]);
    assert geoips[..i + 1] == geoips[..i] + [geoips[i]];
  }

  lemma PartsMore(repr: set<object>, m: GeoIPMatcher)
    requires Parts(repr)
    ensures Parts(repr + {m})
  {
  }

  /** Adding a set leaves the matchers of other sets as they are. */
  method AddKept(container: GeoIPMatcherContainer, g: GeoIPSet, ghost list: seq<GeoIPMatcher>,
                 ghost geoips: seq<GeoIPSet>, ghost repr: set<object>)
    returns (m: GeoIPMatcher?)
    requires container.Valid() && Parts(repr) && MatchersReady(repr, container.registry, list, geoips)
    modifies container
    ensures container.Valid() && (m == null <==> !Usable(old(container.registry), g.countryCode, g.cidrs))
    ensures m != null ==>
              m.Valid() && multiset(m.order) == multiset(Effective(container.registry, g.countryCode, g.cidrs))
    ensures container.registry ==
            if m == null then old(container.registry) else Extended(old(container.registry), g.countryCode, g.cidrs)
    ensures MatchersReady(repr, old(container.registry), list, geoips)
  {
    m := container.Add(g.countryCode, g.cidrs);
  }

  /** Adds the matcher of one more set. */
  method AddSet(container: GeoIPMatcherContainer, list: seq<GeoIPMatcher>, geoips: seq<GeoIPSet>, i: nat,
                ghost repr: set<object>)
    returns (list': Option<seq<GeoIPMatcher>>, ghost repr': set<object>)
    requires container.Valid() && Parts(repr) && i < |geoips|
    requires AllUsable(container.registry, geoips[..i]) && MatchersReady(repr, container.registry, list, geoips[..i])
    modifies container
    ensures container.Valid() && Grown(old(container.registry), container.registry) && Parts(repr')
    ensures list'.None? ==> !AllUsable(container.registry, geoips)
    ensures list'.Some? ==> AllUsable(container.registry, geoips[..i + 1])
    ensures list'.Some? ==> MatchersReady(repr', container.registry, list'.value, geoips[..i + 1])
  {
    var m := AddKept(container, geoips[i], list, geoips[..i], repr);
    if m == null {
      NotAllUsable(container.registry, geoips, i);
      return None, {};
    }
    var more;
    more, repr' := Append(list, m, old(container.registry), container.registry, geoips, i, repr);
    list' := Some(more);
  }

  method Append(list: seq<GeoIPMatcher>, m: GeoIPMatcher, ghost a: Registry, ghost b: Registry,
                ghost geoips: seq<GeoIPSet>, ghost i: nat, ghost repr: set<object>)
    returns (list': seq<GeoIPMatcher>, ghost repr': set<object>)
    requires i < |geoips| && AllUsable(a, geoips[..i]) && MatchersReady(repr, a, list, geoips[..i])
    requires b == Extended(a, geoips[i].countryCode, geoips[i].cidrs)
    requires Usable(a, geoips[i].countryCode, geoips[i].cidrs)
    requires m.Valid() && multiset(m.order) == multiset(CIDRs(b, geoips[i])) && Parts(repr)
    ensures Grown(a, b) && Parts(repr') && AllUsable(b, geoips[..i + 1])
    ensures MatchersReady(repr', b, list', geoips[..i + 1])
  {
    PartsMore(repr, m);
    SetAdded(repr, a, b, list, geoips, i, m);
    list', repr' := list + [m], repr + {m};
  }

  lemma NotAllUsable(registry: Registry, geoips: seq<GeoIPSet>, i: nat)
    requires i < |geoips| && !Usable(registry, geoips[i].countryCode, geoips[i].cidrs)
    ensures !AllUsable(registry, geoips)
  {
  }

  /** NewMultiGeoIPMatcher: a matcher for every set, shared by code. */
  method BuildMatchers(container: GeoIPMatcherContainer, geoips: seq<GeoIPSet>)
    returns (ms: Option<seq<GeoIPMatcher>>, ghost repr: set<object>)
    requires container.Valid()
    modifies container
    ensures container.Valid() && Grown(old(container.registry), container.registry)
    ensures ms.Some? <==> AllUsable(container.registry, geoips)
    ensures Parts(repr) && (ms.Some? ==> MatchersReady(repr, container.registry, ms.value, geoips))
  {
    var list: seq<GeoIPMatcher> := [];
    repr := {};
    var i := 0;
    while i < |geoips|
      invariant 0 <= i <= |geoips| && container.Valid() && Parts(repr)
      invariant Grown(old(container.registry), container.registry)
      invariant AllUsable(container.registry, geoips[..i]) && MatchersReady(repr, container.registry, list, geoips[..i])
    {
      ms, repr := AddSet(container, list, geoips, i, repr);
      if ms.None? {
        return;
      }
      list := ms.value;
      i := i + 1;
    }
    assert geoips[..i] == geoips;
    ms := Some(list);
  }

  /** Compiles a field that needs no more than its lists. */
  method BuildPlain(env: Compilers, f: Field) returns (c: Option<Condition>)
    requires !f.DomainField? && !f.GeoIPField?
    ensures c.Some? <==> Buildable(env, map[], f)
    ensures c.Some? ==> Ready({}, env, map[], c.value, f)
  {
    match f
    case UserField(users) =>
      var copy := DropEmpty(users);
      c := Some(OnUser(copy));
    case TagField(tags) =>
      var copy := DropEmpty(tags);
      c := Some(OnTag(copy));
    case PortField(ranges, onSource) =>
      var ports := NewPorts(ranges);
      c := Some(OnPort(ports, onSource));
    case NetworkField(networks) =>
      var list := NewTable(networks);
      c := Some(OnNetwork(list));
    case ProtocolField(protocols) =>
      var copy := DropEmpty(protocols);
      c := Some(OnProtocol(copy));
    case AttributeField(code) =>
      var program := env.attributes(code);
      c := if program.Some? then Some(OnAttribute(program.value)) else None;
  }

  /** Compiles one field. */
  method Build(env: Compilers, container: GeoIPMatcherContainer, f: Field)
    returns (c: Option<Condition>, ghost repr: set<object>)
    requires container.Valid()
    modifies container
    ensures container.Valid() && Grown(old(container.registry), container.registry)
    ensures c.Some? <==> Buildable(env, container.registry, f)
    ensures Parts(repr) && (c.Some? ==> Ready(repr, env, container.registry, c.value, f))
  {
    if f.GeoIPField? {
      var ms;
      ms, repr := BuildMatchers(container, f.geoips);
      c := if ms.Some? then Some(OnGeoIP(ms.value, f.onSource)) else None;
    } else if f.DomainField? {
      c, repr := BuildDomain(env, f);
    } else {
      repr := {};
      c := BuildPlain(env, f);
    }
  }

  method BuildDomain(env: Compilers, f: Field) returns (c: Option<Condition>, ghost repr: set<object>)
    requires f.DomainField?
    ensures c.Some? <==> Buildable(env, map[], f)
    ensures Parts(repr) && (c.Some? ==> Ready(repr, env, map[], c.value, f))
  {
    var g := BuildGroup(env, f.domains);
    repr := {};
    c := None;
    if g != null {
      GroupParts(env, g, f.domains);
      repr := Own(g);
      c := Some(OnDomain(g));
    }
  }

  /** Appends the condition of one more field. */
  method AddField(env: Compilers, container: GeoIPMatcherContainer, conds: seq<Condition>, fields: seq<Field>, i: nat,
                  ghost repr: set<object>)
    returns (conds': Option<seq<Condition>>, ghost repr': set<object>)
    requires container.Valid() && Parts(repr) && i < |fields|
    requires AllBuildable(env, container.registry, fields[..i])
    requires Compiled(repr, env, container.registry, conds, fields[..i])
    modifies container
    ensures container.Valid() && Grown(old(container.registry), container.registry) && repr <= repr' && Parts(repr')
    ensures conds'.None? ==> !AllBuildable(env, container.registry, fields)
    ensures conds'.Some? ==> AllBuildable(env, container.registry, fields[..i + 1])
    ensures conds'.Some? ==> Compiled(repr', env, container.registry, conds'.value, fields[..i + 1])
  {
    var c;
    c, repr' := Build(env, container, fields[i]);
    repr' := repr' + repr;
    if c.None? {
      return None, repr';
    }
    conds' := Some(conds + [c.value]);
    BuildableAdded(env, old(container.registry), container.registry, fields, i);
    FieldAdded(repr, repr', env, old(container.registry), container.registry, conds, fields, i, c.value);
  }

  lemma FieldAdded(repr: set<object>, repr': set<object>, env: Compilers, a: Registry, b: Registry,
                   conds: seq<Condition>, fields: seq<Field>, i: nat, c: Condition)
    requires i < |fields| && repr <= repr' && Grown(a, b)
    requires Compiled(repr, env, a, conds, fields[..i]) && Ready(repr', env, b, c, fields[i])
    ensures Compiled(repr', env, b, conds + [c], fields[..i + 1])
  {
    CompiledGrows(repr, repr', env, a, b, conds, fields[..i]);
    TakeStep(fields, i);
    assert (conds + [c])[..i] == conds;
  }

  lemma BuildableAdded(env: Compilers, a: Registry, b: Registry, fields: seq<Field>, i: nat)
    requires i < |fields| && Grown(a, b) && AllBuildable(env, a, fields[..i]) && Buildable(env, b, fields[i])
    ensures AllBuildable(env, b, fields[..i + 1])
  {
    AllBuildableGrows(env, a, b, fields[..i]);
    var more := fields[..i + 1];
    forall k | 0 <= k < |more|
      ensures Buildable(env, b, more[k])
    {
      assert k < i ==> more[k] == fields[..i][k];
    }
  }

  ghost predicate RuleBuildable(env: Compilers, registry: Registry, r: RoutingRule) {
    Fields(r) != [] && AllBuildable(env, registry, Fields(r))
  }

  /** Compiles fields in order, up to the first error. */
  method BuildFields(env: Compilers, container: GeoIPMatcherContainer, fields: seq<Field>, ghost repr: set<object>)
    returns (conds: Option<seq<Condition>>, ghost repr': set<object>)
    requires container.Valid() && Parts(repr)
    modifies container
    ensures container.Valid() && Grown(old(container.registry), container.registry) && repr <= repr' && Parts(repr')
    ensures conds.Some? <==> AllBuildable(env, container.registry, fields)
    ensures conds.Some? ==> Compiled(repr', env, container.registry, conds.value, fields)
  {
    var list: seq<Condition> := [];
    repr' := repr;
    var i := 0;
    while i < |fields|
      invariant 0 <= i <= |fields| && container.Valid() && repr <= repr' && Parts(repr')
      invariant Grown(old(container.registry), container.registry)
      invariant AllBuildable(env, container.registry, fields[..i])
      invariant Compiled(repr', env, container.registry, list, fields[..i])
    {
      conds, repr' := AddField(env, container, list, fields, i, repr');
      if conds.None? {
        return;
      }
      list := conds.value;
      i := i + 1;
    }
    assert fields[..i] == fields;
    conds := Some(list);
  }

  /** BuildCondition compiles the given fields; a rule without any is an error. */
  method BuildCondition(env: Compilers, container: GeoIPMatcherContainer, r: RoutingRule, ghost repr: set<object>)
    returns (conds: Option<seq<Condition>>, ghost repr': set<object>)
    requires container.Valid() && Parts(repr)
    modifies container
    ensures container.Valid() && Grown(old(container.registry), container.registry) && repr <= repr' && Parts(repr')
    ensures conds.Some? <==> RuleBuildable(env, container.registry, r)
    ensures conds.Some? ==> Compiled(repr', env, container.registry, conds.value, Fields(r))
  {
    conds, repr' := BuildFields(env, container, Fields(r), repr);
    if conds.Some? && |conds.value| == 0 {
      conds := None;
    }
  }

  // ----- choosing a rule

  datatype DomainStrategy = AsIs | UseIp | IpIfNonMatch | IpOnDemand

  /** The first rule that holds, if any does. */
  ghost predicate IsFirst(env: Compilers, registry: Registry, rules: seq<RoutingRule>, ctx: Context, r: Option<nat>) {
    match r
    case Some(i) => i < |rules| && RuleHolds(env, registry, rules[i], ctx)
                    && forall k :: 0 <= k < i ==> !RuleHolds(env, registry, rules[k], ctx)
    case None => forall k :: 0 <= k < |rules| ==> !RuleHolds(env, registry, rules[k], ctx)
  }

  /** The first rule that holds of the addresses a lookup gives. */
  ghost predicate IsFirstByLookup(env: Compilers, registry: Registry, rules: seq<RoutingRule>, base: Context,
                                  lookup: Lookup, r: Option<nat>) {
    match r
    case Some(i) => i < |rules| && HoldsByLookup(env, registry, rules[i], base, lookup)
                    && forall k :: 0 <= k < i ==> !HoldsByLookup(env, registry, rules[k], base, lookup)
    case None => forall k :: 0 <= k < |rules| ==> !HoldsByLookup(env, registry, rules[k], base, lookup)
  }

  lemma FirstByLookup(env: Compilers, registry: Registry, rules: seq<RoutingRule>, base: Context, lookup: Lookup,
                      r: Option<nat>)
    ensures IsFirst(env, registry, rules, Resolved(base, lookup), r) <==>
            IsFirstByLookup(env, registry, rules, base, lookup, r)
  {
    forall k | 0 <= k < |rules|
      ensures RuleHolds(env, registry, rules[k], Resolved(base, lookup)) <==>
              HoldsByLookup(env, registry, rules[k], base, lookup)
    {
      ResolvedExactly(env, registry, rules[k], base, lookup);
    }
  }

  /** A rule found by resolving is a rule about target addresses, and the name has such addresses. */
  lemma SecondPassNeedsAddresses(env: Compilers, registry: Registry, rules: seq<RoutingRule>, base: Context,
                                 lookup: Lookup, i: nat)
    requires IsFirst(env, registry, rules, base, None) && IsFirst(env, registry, rules, Resolved(base, lookup), Some(i))
    ensures Sets(rules[i].geoips, rules[i].cidrs) != [] && base.targetIPs == [] && base.targetDomain != ""
    ensures lookup(base.targetDomain).Some?
    ensures GeoHolds(registry, Sets(rules[i].geoips, rules[i].cidrs), lookup(base.targetDomain).value)
  {
    assert !RuleHolds(env, registry, rules[i], base);
    ResolvingOnlyHelps(env, registry, rules[i], base, lookup);
  }

  ghost predicate RegularRules(registry: Registry, rules: seq<RoutingRule>) {
    forall i :: 0 <= i < |rules| ==> RegularRule(registry, rules[i])
  }

  /** The fields a rule gives are among its slots. */
  lemma {:induction false} GivenFrom(slots: seq<Slot>, i: nat) returns (k: nat)
    requires i < |Given(slots)|
    ensures k < |slots| && Given(slots)[i] == slots[k].field
  {
    var front := slots[..|slots| - 1];
    if i < |Given(front)| {
      k := GivenFrom(front, i);
    } else {
      k := |slots| - 1;
    }
  }

  /** A rule's address fields are those it declares. */
  lemma AddressField(r: RoutingRule, i: nat)
    requires i < |Fields(r)| && Fields(r)[i].GeoIPField?
    ensures var sets := Fields(r)[i].geoips;
            sets == Sets(r.geoips, r.cidrs) || sets == Sets(r.sourceGeoips, r.sourceCidrs)
  {
    var k := GivenFrom(FrontSlots(r) + BackSlots(r), i);
    AddressSlot(r, k);
  }

  lemma AddressSlot(r: RoutingRule, k: nat)
    requires k < |FrontSlots(r) + BackSlots(r)|
    ensures var f := (FrontSlots(r) + BackSlots(r))[k].field;
            f.GeoIPField? ==> f.geoips == Sets(r.geoips, r.cidrs) || f.geoips == Sets(r.sourceGeoips, r.sourceCidrs)
  {
  }

  lemma RuleMeansFields(registry: Registry, r: RoutingRule)
    ensures ValidRule(registry, r) ==> ValidFields(registry, Fields(r))
    ensures RegularRule(registry, r) ==> RegularFields(registry, Fields(r))
  {
    forall i | 0 <= i < |Fields(r)| && Fields(r)[i].GeoIPField?
      ensures ValidRule(registry, r) ==> ValidField(registry, Fields(r)[i])
      ensures RegularRule(registry, r) ==> RegularField(registry, Fields(r)[i])
    {
      AddressField(r, i);
    }
  }

  // ----- rule by rule, as lists

  ghost function FieldLists(rules: seq<RoutingRule>): (r: seq<seq<Field>>)
    ensures |r| == |rules|
  {
    if rules == [] then [] else FieldLists(rules[..|rules| - 1]) + [Fields(rules[|rules| - 1])]
  }

  lemma {:induction false} FieldListAt(rules: seq<RoutingRule>, i: nat)
    requires i < |rules|
    ensures FieldLists(rules)[i] == Fields(rules[i])
  {
    if i < |rules| - 1 {
      FieldListAt(rules[..|rules| - 1], i);
    }
  }

  /** None of the first n lists holds, as far as a no is right. */
  ghost predicate NoneHolds(env: Compilers, registry: Registry, lists: seq<seq<Field>>, ctx: Context, n: nat)
    requires n <= |lists|
  {
    n > 0 ==> NoneHolds(env, registry, lists, ctx, n - 1) && Told(env, registry, lists[n - 1], ctx, false)
  }

  lemma {:induction false} NoneHoldsAt(env: Compilers, registry: Registry, lists: seq<seq<Field>>, ctx: Context, n: nat,
                                       k: nat)
    requires k < n <= |lists| && NoneHolds(env, registry, lists, ctx, n)
    ensures Told(env, registry, lists[k], ctx, false)
  {
    if k < n - 1 {
      NoneHoldsAt(env, registry, lists, ctx, n - 1, k);
    }
  }

  /** The first list that was answered with yes, if there is one. */
  ghost predicate FirstHolding(env: Compilers, registry: Registry, lists: seq<seq<Field>>, ctx: Context, r: Option<nat>)
  {
    match r
    case Some(i) => i < |lists| && Told(env, registry, lists[i], ctx, true) && NoneHolds(env, registry, lists, ctx, i)
    case None => NoneHolds(env, registry, lists, ctx, |lists|)
  }

  /**
    A pick, rule by rule: a picked rule holds if its CIDRs are valid, and a rule passed over does not
    hold if its CIDRs are stepped.
   */
  ghost predicate Picked(env: Compilers, registry: Registry, rules: seq<RoutingRule>, ctx: Context, r: Option<nat>) {
    && (r.Some? ==>
          && r.value < |rules|
          && (ValidRule(registry, rules[r.value]) ==> RuleHolds(env, registry, rules[r.value], ctx)))
    && forall k :: 0 <= k < (if r.Some? then r.value else |rules|) && RegularRule(registry, rules[k]) ==>
         !RuleHolds(env, registry, rules[k], ctx)
  }

  lemma ToldRule(env: Compilers, registry: Registry, rules: seq<RoutingRule>, ctx: Context, k: nat, r: bool)
    requires k < |rules| && Told(env, registry, FieldLists(rules)[k], ctx, r)
    ensures r && ValidRule(registry, rules[k]) ==> RuleHolds(env, registry, rules[k], ctx)
    ensures !r && RegularRule(registry, rules[k]) ==> !RuleHolds(env, registry, rules[k], ctx)
  {
    FieldListAt(rules, k);
    ToldMeans(env, registry, Fields(rules[k]), ctx, r);
    FieldsMeanRule(env, registry, rules[k], ctx);
    RuleMeansFields(registry, rules[k]);
  }

  lemma FirstHoldingRule(env: Compilers, registry: Registry, rules: seq<RoutingRule>, ctx: Context, r: Option<nat>)
    requires FirstHolding(env, registry, FieldLists(rules), ctx, r)
    ensures Picked(env, registry, rules, ctx, r)
  {
    var n := if r.Some? then r.value else |rules|;
    forall k | 0 <= k < n
      ensures RegularRule(registry, rules[k]) ==> !RuleHolds(env, registry, rules[k], ctx)
    {
      NoneHoldsAt(env, registry, FieldLists(rules), ctx, n, k);
      ToldRule(env, registry, rules, ctx, k, false);
    }
    if r.Some? {
      ToldRule(env, registry, rules, ctx, n, true);
    }
  }

  /** What the sets of a configuration stand for: as declared, if equal country codes have equal contents. */
  ghost function Reading(registry: Registry, rules: seq<RoutingRule>): Registry {
    if forall k :: 0 <= k < |rules| ==> SameRule(registry, rules[k]) then map[] else registry
  }

  lemma PickedAsDeclared(env: Compilers, registry: Registry, rules: seq<RoutingRule>, ctx: Context, r: Option<nat>)
    requires Picked(env, registry, rules, ctx, r)
    ensures Picked(env, Reading(registry, rules), rules, ctx, r)
  {
    if forall k :: 0 <= k < |rules| ==> SameRule(registry, rules[k]) {
      forall k | 0 <= k < |rules|
        ensures RuleHolds(env, registry, rules[k], ctx) <==> RuleHolds(env, map[], rules[k], ctx)
        ensures ValidRule(map[], rules[k]) ==> ValidRule(registry, rules[k])
        ensures RegularRule(map[], rules[k]) ==> RegularRule(registry, rules[k])
      {
        SharingIsInvisible(env, registry, rules[k], ctx);
      }
    }
  }

  /** Over stepped CIDRs a pick is the first rule that holds. */
  lemma PickedIsFirst(env: Compilers, registry: Registry, rules: seq<RoutingRule>, ctx: Context, r: Option<nat>)
    requires Picked(env, registry, rules, ctx, r) && RegularRules(registry, rules)
    ensures IsFirst(env, registry, rules, ctx, r)
  {
    if r.Some? {
      assert RegularRule(registry, rules[r.value]);
    }
  }

  class Router {
    const env: Compilers
    const strategy: DomainStrategy
    const lookup: Lookup
    var rules: seq<seq<Condition>>
    // The fields the rules were compiled from, and the objects they use.
    ghost var fields: seq<seq<Field>>
    ghost var registry: Registry
    ghost var repr: set<object>

    constructor (env: Compilers, strategy: DomainStrategy, lookup: Lookup)
      ensures Valid() && fields == [] && this.env == env && this.strategy == strategy && this.lookup == lookup
    {
      this.env, this.strategy, this.lookup := env, strategy, lookup;
      rules, fields, registry, repr := [], [], map[], {};
    }

    ghost predicate Valid()
      reads this, repr
    {
      Parts(repr) && AllCompiled(repr, env, registry, rules, fields)
    }

    method Load(list: seq<seq<Condition>>, ghost lists: seq<seq<Field>>, ghost known: Registry,
                ghost objects: set<object>)
      requires Parts(objects) && AllCompiled(objects, env, known, list, lists)
      modifies this
      ensures Valid() && fields == lists && registry == known
    {
      rules, fields, registry, repr := list, lists, known, objects;
    }

    /** Init compiles the rules in order and stops at the first that cannot be. */
    method Init(config: seq<RoutingRule>, balancers: set<string>, container: GeoIPMatcherContainer) returns (ok: bool)
      requires container.Valid()
      modifies this, container
      ensures container.Valid() && Grown(old(container.registry), container.registry)
      ensures ok <==> AllAcceptable(env, container.registry, balancers, config)
      ensures ok ==> Valid() && fields == FieldLists(config) && registry == container.registry
    {
      var list;
      ghost var objects;
      list, objects := BuildRules(env, container, config, balancers);
      if list.None? {
        return false;
      }
      Load(list.value, FieldLists(config), container.registry, objects);
      ok := true;
    }

    method ApplyRule(i: nat, ctx: RoutingContext) returns (r: bool)
      requires Valid() && ctx.Valid() && i < |rules|
      modifies ctx
      ensures ctx.Valid()
      ensures NoneHolds(env, registry, fields, ctx.View(), i) ==>
                if r then FirstHolding(env, registry, fields, ctx.View(), Some(i))
                else NoneHolds(env, registry, fields, ctx.View(), i + 1)
    {
      AllCompiledAt(repr, env, registry, rules, fields, i);
      r := ApplyAll(rules[i], ctx, repr, env, registry, fields[i]);
    }

    lemma SameLength()
      requires Valid()
      ensures |rules| == |fields|
    {
    }

    /** The first rule that applies. */
    method FirstRule(ctx: RoutingContext) returns (r: Option<nat>)
      requires Valid() && ctx.Valid()
      modifies ctx
      ensures ctx.Valid() && FirstHolding(env, registry, fields, ctx.View(), r)
    {
      SameLength();
      assert ctx !in repr;
      ghost var view := ctx.View();
      var i := 0;
      while i < |rules|
        invariant 0 <= i <= |rules| == |fields|
        invariant ctx.Valid() && NoneHolds(env, registry, fields, view, i)
      {
        var holds := ApplyRule(i, ctx);
        if holds {
          return Some(i);
        }
        i := i + 1;
      }
      r := None;
    }

    /** The connection the rules are first asked about. */
    ghost function FirstView(base: Context): Context {
      if strategy == IpOnDemand then Resolved(base, lookup) else base
    }

    /** A second pass is made when the first finds nothing and there is a name to resolve. */
    ghost predicate Passes(base: Context, r: Option<nat>, second: bool) {
      if second then strategy == IpIfNonMatch && base.targetDomain != ""
      else r.Some? || strategy != IpIfNonMatch || base.targetDomain == ""
    }

    /** One pass, or two. */
    method PickInternal(base: Context) returns (r: Option<nat>, ghost second: bool)
      requires Valid()
      ensures Passes(base, r, second)
      ensures second ==> FirstHolding(env, registry, fields, base, None)
      ensures FirstHolding(env, registry, fields, if second then Resolved(base, lookup) else FirstView(base), r)
    {
      second := false;
      var ctx := new RoutingContext(base, if strategy == IpOnDemand then Some(lookup) else None);
      r := FirstRule(ctx);
      if r.Some? || strategy != IpIfNonMatch || base.targetDomain == "" {
        return;
      }
      second := true;
      var resolving := new RoutingContext(base, Some(lookup));
      r := FirstRule(resolving);
    }

    /**
      pickRouteInternal, on rules as they were declared: a picked rule holds, with the target resolved on demand,
      or in a second pass that is made only if no rule is picked without. Over stepped CIDRs, and so over disjoint
      ones, it is the first rule that holds.
     */
    method PickRoute(base: Context, ghost config: seq<RoutingRule>) returns (r: Option<nat>, ghost second: bool)
      requires Valid() && fields == FieldLists(config)
      ensures Passes(base, r, second)
      ensures second ==> Picked(env, Reading(registry, config), config, base, None)
      ensures Picked(env, Reading(registry, config), config,
                     if second then Resolved(base, lookup) else FirstView(base), r)
      ensures RegularRules(Reading(registry, config), config) ==>
                var none := IsFirst(env, Reading(registry, config), config, base, None);
                var resolves := strategy == IpOnDemand || (strategy == IpIfNonMatch && base.targetDomain != "" && none);
                if resolves then IsFirstByLookup(env, Reading(registry, config), config, base, lookup, r)
                else IsFirst(env, Reading(registry, config), config, base, r)
    {
      r, second := PickInternal(base);
      ghost var view := if second then Resolved(base, lookup) else FirstView(base);
      FirstHoldingRule(env, registry, config, view, r);
      PickedAsDeclared(env, registry, config, view, r);
      if second {
        FirstHoldingRule(env, registry, config, base, None);
        PickedAsDeclared(env, registry, config, base, None);
      }
      if RegularRules(Reading(registry, config), config) {
        PickedIsFirst(env, Reading(registry, config), config, view, r);
        FirstByLookup(env, Reading(registry, config), config, base, lookup, r);
        if second {
          PickedIsFirst(env, Reading(registry, config), config, base, None);
        }
      }
    }
  }

  lemma TakeStep<T>(s: seq<T>, i: nat)
    requires i < |s|
    ensures |s[..i + 1]| == i + 1 && s[..i + 1][..i] == s[..i] && s[..i + 1][i] == s[i]
  {
  }

  /** The rules are acceptable, and `list` is what they compile to. */
  ghost predicate Loaded(repr: set<object>, env: Compilers, registry: Registry, balancers: set<string>,
                         list: seq<seq<Condition>>, rules: seq<RoutingRule>)
    reads repr
    decreases |list|
  {
    && |list| == |rules|
    && (list != [] ==>
          && Loaded(repr, env, registry, balancers, list[..|list| - 1], rules[..|rules| - 1])
          && Acceptable(env, registry, balancers, rules[|rules| - 1])
          && Compiled(repr, env, registry, list[|list| - 1], Fields(rules[|rules| - 1])))
  }

  lemma {:induction false} LoadedMeans(repr: set<object>, env: Compilers, registry: Registry, balancers: set<string>,
                                       list: seq<seq<Condition>>, rules: seq<RoutingRule>)
    requires Loaded(repr, env, registry, balancers, list, rules)
    ensures AllAcceptable(env, registry, balancers, rules)
    ensures AllCompiled(repr, env, registry, list, FieldLists(rules))
    decreases |list|
  {
    if list != [] {
      LoadedMeans(repr, env, registry, balancers, list[..|list| - 1], rules[..|rules| - 1]);
      assert FieldLists(rules)[..|rules| - 1] == FieldLists(rules[..|rules| - 1]);
    }
  }

  lemma {:induction false} LoadedGrows(repr: set<object>, repr': set<object>, env: Compilers, a: Registry, b: Registry,
                                       balancers: set<string>, list: seq<seq<Condition>>, rules: seq<RoutingRule>)
    requires repr <= repr' && Grown(a, b) && Loaded(repr, env, a, balancers, list, rules)
    ensures Loaded(repr', env, b, balancers, list, rules)
    decreases |list|
  {
    if list != [] {
      var fields := Fields(rules[|rules| - 1]);
      LoadedGrows(repr, repr', env, a, b, balancers, list[..|list| - 1], rules[..|rules| - 1]);
      CompiledGrows(repr, repr', env, a, b, list[|list| - 1], fields);
      AllBuildableGrows(env, a, b, fields);
    }
  }

  lemma LoadedMore(repr: set<object>, env: Compilers, registry: Registry, balancers: set<string>,
                   list: seq<seq<Condition>>, config: seq<RoutingRule>, i: nat, conds: seq<Condition>)
    requires i < |config| && Loaded(repr, env, registry, balancers, list, config[..i])
    requires Acceptable(env, registry, balancers, config[i])
    requires Compiled(repr, env, registry, conds, Fields(config[i]))
    ensures Loaded(repr, env, registry, balancers, list + [conds], config[..i + 1])
  {
    TakeStep(config, i);
    assert (list + [conds])[..|list|] == list;
  }

  /** Appends one more rule. */
  method AddRule(env: Compilers, container: GeoIPMatcherContainer, list: seq<seq<Condition>>, config: seq<RoutingRule>,
                 balancers: set<string>, i: nat, ghost repr: set<object>)
    returns (list': Option<seq<seq<Condition>>>, ghost repr': set<object>)
    requires container.Valid() && Parts(repr) && i < |config|
    requires Loaded(repr, env, container.registry, balancers, list, config[..i])
    modifies container
    ensures container.Valid() && Grown(old(container.registry), container.registry) && Parts(repr')
    ensures list'.None? ==> !AllAcceptable(env, container.registry, balancers, config)
    ensures list'.Some? ==> Loaded(repr', env, container.registry, balancers, list'.value, config[..i + 1])
  {
    var conds;
    conds, repr' := BuildCondition(env, container, config[i], repr);
    if conds.None? || (config[i].balancingTag != "" && config[i].balancingTag !in balancers) {
      Unacceptable(env, container.registry, balancers, config, i);
      return None, repr';
    }
    list' := Some(list + [conds.value]);
    LoadedGrows(repr, repr', env, old(container.registry), container.registry, balancers, list, config[..i]);
    LoadedMore(repr', env, container.registry, balancers, list, config, i, conds.value);
  }

  lemma {:induction false} Unacceptable(env: Compilers, registry: Registry, balancers: set<string>,
                                        rules: seq<RoutingRule>, i: nat)
    requires i < |rules| && !Acceptable(env, registry, balancers, rules[i])
    ensures !AllAcceptable(env, registry, balancers, rules)
  {
    if i < |rules| - 1 {
      Unacceptable(env, registry, balancers, rules[..|rules| - 1], i);
    }
  }

  lemma GrownOn(a: Registry, b: Registry, c: Registry)
    requires Grown(a, b) && Grown(b, c)
    ensures Grown(a, c)
  {
  }

  method LoadRules(env: Compilers, container: GeoIPMatcherContainer, config: seq<RoutingRule>, balancers: set<string>)
    returns (rules: Option<seq<seq<Condition>>>, ghost repr: set<object>)
    requires container.Valid()
    modifies container
    ensures container.Valid() && Grown(old(container.registry), container.registry) && Parts(repr)
    ensures rules.None? ==> !AllAcceptable(env, container.registry, balancers, config)
    ensures rules.Some? ==> Loaded(repr, env, container.registry, balancers, rules.value, config)
  {
    repr, rules := {}, Some([]);
    var i := 0;
    while i < |config|
      invariant 0 <= i <= |config| && container.Valid() && Parts(repr) && rules.Some?
      invariant Grown(old(container.registry), container.registry)
      invariant Loaded(repr, env, container.registry, balancers, rules.value, config[..i])
    {
      ghost var before := container.registry;
      rules, repr := AddRule(env, container, rules.value, config, balancers, i, repr);
      GrownOn(old(container.registry), before, container.registry);
      if rules.None? {
        return;
      }
      i := i + 1;
    }
    assert config[..i] == config;
  }

  method BuildRules(env: Compilers, container: GeoIPMatcherContainer, config: seq<RoutingRule>, balancers: set<string>)
    returns (rules: Option<seq<seq<Condition>>>, ghost repr: set<object>)
    requires container.Valid()
    modifies container
    ensures container.Valid() && Grown(old(container.registry), container.registry) && Parts(repr)
    ensures rules.Some? <==> AllAcceptable(env, container.registry, balancers, config)
    ensures rules.Some? ==> AllCompiled(repr, env, container.registry, rules.value, FieldLists(config))
  {
    rules, repr := LoadRules(env, container, config, balancers);
    if rules.Some? {
      LoadedMeans(repr, env, container.registry, balancers, rules.value, config);
    }
  }

  ghost predicate AllCompiled(repr: set<object>, env: Compilers, registry: Registry, rules: seq<seq<Condition>>,
                              fields: seq<seq<Field>>)
    reads repr
    decreases |rules|
  {
    && |rules| == |fields|
    && (rules != [] ==>
          && AllCompiled(repr, env, registry, rules[..|rules| - 1], fields[..|fields| - 1])
          && Compiled(repr, env, registry, rules[|rules| - 1], fields[|fields| - 1]))
  }

  lemma {:induction false} AllCompiledAt(repr: set<object>, env: Compilers, registry: Registry,
                                         rules: seq<seq<Condition>>, fields: seq<seq<Field>>, i: nat)
    requires AllCompiled(repr, env, registry, rules, fields) && i < |rules|
    ensures Compiled(repr, env, registry, rules[i], fields[i])
    decreases |rules|
  {
    if i < |rules| - 1 {
      AllCompiledAt(repr, env, registry, rules[..|rules| - 1], fields[..|fields| - 1], i);
    }
  }

  ghost predicate Acceptable(env: Compilers, registry: Registry, balancers: set<string>, r: RoutingRule) {
    RuleBuildable(env, registry, r) && (r.balancingTag == "" || r.balancingTag in balancers)
  }

  ghost predicate AllAcceptable(env: Compilers, registry: Registry, balancers: set<string>, rules: seq<RoutingRule>) {
    rules != [] ==>
      && AllAcceptable(env, registry, balancers, rules[..|rules| - 1])
      && Acceptable(env, registry, balancers, rules[|rules| - 1])
  }
}
