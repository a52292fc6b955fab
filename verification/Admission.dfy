/** Admission to protected routes and the concurrency reservations of one server instance:
    internal/contexts/gateway/adapters/http/openai/limits.go:10-81, 136-197 and
    internal/contexts/gateway/application/usecases.go:46-94. */
module Admission {
  import opened Options
  import opened RateLimits

  datatype LimitPolicy = LimitPolicy(routeKey: string, requests: int, window: int, maxConcurrent: int,
                                     maxBody: int, enabled: bool)
  datatype Override = Override(clientId: string, policy: LimitPolicy)

  datatype Reason = InvalidClientKey | OtherKeyReason(name: string) | MissingLimitPolicy | AuditUnhealthy
                  | RateLimited | ConcurrencyLimited

  // What one call of release() closes over.
  class Reservation {
    const key: string
    var released: bool
    ghost var releases: nat

    constructor (key: string)
      ensures this.key == key && !released && releases == 0
    {
      this.key, released, releases := key, false, 0;
    }
  }

  class Concurrency {
    var counts: map<string, nat>
    ghost var held: set<Reservation>

    ghost function Held(key: string): set<Reservation>
      reads this
    {
      set r | r in held && r.key == key
    }

    function Count(key: string): nat
      reads this
    {
      if key in counts then counts[key] else 0
    }

    // The counter of each key is the number of reservations not yet released.
    ghost predicate Valid()
      reads this, held
    {
      && (forall r :: r in held ==> !r.released)
      && (forall key :: Count(key) == |Held(key)|)
      && forall key :: key in counts ==> counts[key] > 0
    }

    constructor ()
      ensures Valid() && held == {}
    {
      counts, held := map[], {};
      new;
      assert forall key :: Held(key) == {};
    }

    method Acquire(clientId: string, routeKey: string, max: int) returns (r: Option<Reservation>)
      requires Valid()
      modifies this
      ensures Valid()
      ensures r.Some? <==> max > 0 && old(Count(LimitKey(clientId, routeKey))) < max
      ensures r.Some? ==> fresh(r.value) && r.value.key == LimitKey(clientId, routeKey) && r.value.releases == 0
                          && held == old(held) + {r.value} && Count(r.value.key) <= max
      ensures r.None? ==> held == old(held) && counts == old(counts)
      ensures forall key :: key != LimitKey(clientId, routeKey) ==> Count(key) == old(Count(key))
    {
      if max <= 0 {
        return None;
      }
      var key := LimitKey(clientId, routeKey);
      var n := if key in counts then counts[key] else 0;
      if n >= max {
        return None;
      }
      var reservation := new Reservation(key);
      counts := counts[key := n + 1];
      held := held + {reservation};
      forall k ensures Held(k) == if k == key then old(Held(k)) + {reservation} else old(Held(k)) {
      }
      return Some(reservation);
    }

    // Only the first release of a reservation counts.
    method Release(r: Reservation)
      requires Valid() && (r.released <==> r !in held)
      modifies this, r
      ensures Valid() && r.released && held == old(held) - {r}
      ensures r.releases == old(r.releases) + 1
      ensures forall key :: Count(key) == old(Count(key)) - (if old(r in held) && key == r.key then 1 else 0)
    {
      r.releases := r.releases + 1;
      if r.released {
        return;
      }
      r.released := true;
      ghost var n := |Held(r.key)|;
      assert r in Held(r.key) && n >= 1 && Count(r.key) == n;
      held := held - {r};
      forall k ensures Held(k) == if k == r.key then old(Held(k)) - {r} else old(Held(k)) {
      }
      if (if r.key in counts then counts[r.key] else 0) <= 1 {
        counts := counts - {r.key};
      } else {
        counts := counts[r.key := counts[r.key] - 1];
      }
      assert Count(r.key) == n - 1 == |Held(r.key)|;
      forall k | k != r.key ensures Count(k) == |Held(k)| {
        assert Count(k) == old(Count(k)) && Held(k) == old(Held(k));
      }
    }
  }

  // ----- any interleaving -----

  datatype Action = Take(clientId: string, routeKey: string) | GiveBack(index: nat)

  // Acquires and releases in any order, releases repeated at will: under a fixed maximum for each
  // key no counter ever exceeds it.
  method RunActions(actions: seq<Action>, max: string -> int, s: Concurrency)
    requires s.Valid() && s.held == {}
    modifies s
    ensures s.Valid() && forall key :: s.Count(key) <= if max(key) > 0 then max(key) else 0
  {
    var issued: seq<Reservation> := [];
    assert forall key :: s.Held(key) == {};
    for i := 0 to |actions|
      invariant s.Valid() && forall key :: s.Count(key) <= if max(key) > 0 then max(key) else 0
      invariant forall r :: r in s.held ==> r in issued
      invariant forall r :: r in issued ==> fresh(r) && (r.released <==> r !in s.held)
    {
      match actions[i] {
        case Take(clientId, routeKey) =>
          var r := s.Acquire(clientId, routeKey, max(LimitKey(clientId, routeKey)));
          if r.Some? {
            issued := issued + [r.value];
          }
        case GiveBack(index) =>
          if index < |issued| {
            assert issued[index] in issued;
            s.Release(issued[index]);
          }
      }
    }
  }

  // ----- which limit applies -----

  predicate ValidPolicy(p: LimitPolicy) {
    p.enabled && p.routeKey != "" && p.requests > 0 && p.window > 0 && p.maxConcurrent > 0 && p.maxBody > 0
  }

  predicate ValidOverride(o: Override) { o.clientId != "" && ValidPolicy(o.policy) }

  datatype Route = Route(key: string, requireAuth: bool)

  ghost predicate Opens(routes: seq<Route>, key: string) {
    key != "" && exists r :: r in routes && r.key == key && r.requireAuth
  }

  ghost predicate Limits(policies: seq<LimitPolicy>, key: string) {
    exists p :: p in policies && ValidPolicy(p) && p.routeKey == key
  }

  function OverrideKey(o: Override): string { LimitKey(o.clientId, o.policy.routeKey) }

  ghost predicate Overridden(over: seq<Override>, key: string) {
    exists o :: o in over && ValidOverride(o) && OverrideKey(o) == key
  }

  ghost predicate OverriddenBy(over: seq<Override>, key: string, policy: LimitPolicy) {
    exists o :: o in over && ValidOverride(o) && OverrideKey(o) == key && o.policy == policy
  }

  method AuthenticatedRoutes(routes: seq<Route>) returns (r: set<string>)
    ensures forall key :: key in r <==> Opens(routes, key)
  {
    r := {};
    for i := 0 to |routes|
      invariant forall key :: key in r <==> Opens(routes[..i], key)
    {
      assert routes[..i + 1] == routes[..i] + [routes[i]];
      if routes[i].key != "" && routes[i].requireAuth {
        r := r + {routes[i].key};
      }
    }
    assert routes[..|routes|] == routes;
  }

  // A later valid entry replaces an earlier one.
  function PolicyMap(policies: seq<LimitPolicy>): map<string, LimitPolicy> {
    if policies == [] then map[]
    else
      var before, last := PolicyMap(policies[..|policies| - 1]), policies[|policies| - 1];
      if ValidPolicy(last) then before[last.routeKey := last] else before
  }

  function OverrideMap(over: seq<Override>): map<string, LimitPolicy> {
    if over == [] then map[]
    else
      var before, last := OverrideMap(over[..|over| - 1]), over[|over| - 1];
      if ValidOverride(last) then before[OverrideKey(last) := last.policy] else before
  }

  lemma {:induction false} PolicyMapKeys(policies: seq<LimitPolicy>, key: string)
    ensures key in PolicyMap(policies) <==> Limits(policies, key)
    ensures key in PolicyMap(policies) ==>
              var p := PolicyMap(policies)[key]; p in policies && ValidPolicy(p) && p.routeKey == key
  {
    if policies != [] {
      PolicyMapKeys(policies[..|policies| - 1], key);
      assert forall p :: p in policies <==> p in policies[..|policies| - 1] || p == policies[|policies| - 1];
    }
  }

  lemma {:induction false} OverrideMapKeys(over: seq<Override>, key: string)
    ensures key in OverrideMap(over) <==> Overridden(over, key)
    ensures key in OverrideMap(over) ==> OverriddenBy(over, key, OverrideMap(over)[key])
  {
    if over != [] {
      OverrideMapKeys(over[..|over| - 1], key);
      assert forall o :: o in over <==> o in over[..|over| - 1] || o == over[|over| - 1];
    }
  }

  method ValidPolicies(policies: seq<LimitPolicy>) returns (r: map<string, LimitPolicy>)
    ensures r == PolicyMap(policies)
  {
    r := map[];
    for i := 0 to |policies|
      invariant r == PolicyMap(policies[..i])
    {
      assert policies[..i + 1][..i] == policies[..i];
      if !ValidPolicy(policies[i]) {
        continue;
      }
      r := r[policies[i].routeKey := policies[i]];
    }
    assert policies[..|policies|] == policies;
  }

  method ValidOverrides(over: seq<Override>) returns (r: map<string, LimitPolicy>)
    ensures r == OverrideMap(over)
  {
    r := map[];
    for i := 0 to |over|
      invariant r == OverrideMap(over[..i])
    {
      assert over[..i + 1][..i] == over[..i];
      if !ValidOverride(over[i]) {
        continue;
      }
      r := r[OverrideKey(over[i]) := over[i].policy];
    }
    assert over[..|over|] == over;
  }

  class LimitResolver {
    var protectedRoutes: set<string>
    var routePolicies: map<string, LimitPolicy>
    var overrides: map<string, LimitPolicy>

    constructor (routes: seq<Route>, policies: seq<LimitPolicy>, over: seq<Override>)
      ensures routePolicies == PolicyMap(policies) && overrides == OverrideMap(over)
      ensures forall key :: key in protectedRoutes <==>
                || (key != "" && exists route :: route in routes && route.key == key && route.requireAuth)
                || exists p :: p in policies && UsableFor(p, key)
    {
      var open := AuthenticatedRoutes(routes);
      var limits := ValidPolicies(policies);
      var exceptions := ValidOverrides(over);
      protectedRoutes, routePolicies, overrides := open + limits.Keys, limits, exceptions;
      forall key ensures key in limits <==> Limits(policies, key) {
        PolicyMapKeys(policies, key);
      }
      assert forall key :: Limits(policies, key) <==> exists p :: p in policies && UsableFor(p, key);
    }

    // An override counts only on a route that has a policy of its own.
    function Effective(clientId: string, routeKey: string): Option<LimitPolicy>
      reads this
    {
      if routeKey !in routePolicies then None
      else if LimitKey(clientId, routeKey) in overrides then Some(overrides[LimitKey(clientId, routeKey)])
      else Some(routePolicies[routeKey])
    }
  }

  // ----- which limit applies, entry by entry -----

  // Enabled, named and with positive limits throughout.
  predicate Usable(p: LimitPolicy) {
    && p.enabled && p.routeKey != ""
    && 0 < p.requests && 0 < p.window && 0 < p.maxConcurrent && 0 < p.maxBody
  }

  predicate UsableFor(p: LimitPolicy, routeKey: string) { Usable(p) && p.routeKey == routeKey }

  predicate Excepts(o: Override, clientId: string, routeKey: string) {
    o.clientId != "" && o.clientId == clientId && UsableFor(o.policy, routeKey)
  }

  // The last usable policy of the route.
  ghost predicate RoutePolicy(policies: seq<LimitPolicy>, i: nat, routeKey: string) {
    && i < |policies| && UsableFor(policies[i], routeKey)
    && forall j :: i < j < |policies| ==> !UsableFor(policies[j], routeKey)
  }

  // The last usable exception for the client on the route.
  ghost predicate ClientException(over: seq<Override>, i: nat, clientId: string, routeKey: string) {
    && i < |over| && Excepts(over[i], clientId, routeKey)
    && forall j :: i < j < |over| ==> !Excepts(over[j], clientId, routeKey)
  }

  lemma {:induction false} PolicyIsLast(policies: seq<LimitPolicy>, i: nat, routeKey: string)
    requires RoutePolicy(policies, i, routeKey)
    ensures routeKey in PolicyMap(policies) && PolicyMap(policies)[routeKey] == policies[i]
  {
    if i < |policies| - 1 {
      assert !UsableFor(policies[|policies| - 1], routeKey);
      PolicyIsLast(policies[..|policies| - 1], i, routeKey);
    }
  }

  lemma {:induction false} OverrideIsLast(over: seq<Override>, i: nat, clientId: string, routeKey: string)
    requires NUL !in clientId && (forall o :: o in over ==> NUL !in o.clientId)
    requires ClientException(over, i, clientId, routeKey)
    ensures var key := LimitKey(clientId, routeKey);
            key in OverrideMap(over) && OverrideMap(over)[key] == over[i].policy
  {
    if i < |over| - 1 {
      var last := over[|over| - 1];
      assert last in over && !Excepts(last, clientId, routeKey);
      LimitKeyUnique(last.clientId, last.policy.routeKey, clientId, routeKey);
      OverrideIsLast(over[..|over| - 1], i, clientId, routeKey);
    }
  }

  lemma {:induction false} NoOverride(over: seq<Override>, clientId: string, routeKey: string)
    requires NUL !in clientId && (forall o :: o in over ==> NUL !in o.clientId)
    requires forall i :: 0 <= i < |over| ==> !Excepts(over[i], clientId, routeKey)
    ensures LimitKey(clientId, routeKey) !in OverrideMap(over)
  {
    if over != [] {
      var last := over[|over| - 1];
      assert last in over;
      LimitKeyUnique(last.clientId, last.policy.routeKey, clientId, routeKey);
      NoOverride(over[..|over| - 1], clientId, routeKey);
    }
  }

  // A route without a usable policy has no limit for anyone; otherwise the last usable exception of the
  // client applies, and where there is none the last usable policy of the route.
  lemma {:induction false} EffectiveExactly(r: LimitResolver, policies: seq<LimitPolicy>, over: seq<Override>,
                                            clientId: string, routeKey: string)
    requires r.routePolicies == PolicyMap(policies) && r.overrides == OverrideMap(over)
    requires NUL !in clientId && forall o :: o in over ==> NUL !in o.clientId
    ensures r.Effective(clientId, routeKey).None? <==>
            forall i :: 0 <= i < |policies| ==> !UsableFor(policies[i], routeKey)
    ensures forall i: nat | RoutePolicy(policies, i, routeKey) ::
              && (forall k: nat :: ClientException(over, k, clientId, routeKey) ==>
                    r.Effective(clientId, routeKey) == Some(over[k].policy))
              && ((forall k :: 0 <= k < |over| ==> !Excepts(over[k], clientId, routeKey)) ==>
                   r.Effective(clientId, routeKey) == Some(policies[i]))
  {
    PolicyMapKeys(policies, routeKey);
    assert Limits(policies, routeKey) <==> exists i :: 0 <= i < |policies| && UsableFor(policies[i], routeKey);
    forall i: nat | RoutePolicy(policies, i, routeKey)
      ensures routeKey in PolicyMap(policies) && PolicyMap(policies)[routeKey] == policies[i]
    {
      PolicyIsLast(policies, i, routeKey);
    }
    forall k: nat | ClientException(over, k, clientId, routeKey)
      ensures LimitKey(clientId, routeKey) in OverrideMap(over)
      ensures OverrideMap(over)[LimitKey(clientId, routeKey)] == over[k].policy
    {
      OverrideIsLast(over, k, clientId, routeKey);
    }
    if forall k :: 0 <= k < |over| ==> !Excepts(over[k], clientId, routeKey) {
      NoOverride(over, clientId, routeKey);
    }
  }

  // ----- admission -----

  // Who presents the key, or why it is refused.
  datatype Identity = Client(id: string) | Refused(reason: Reason)

  datatype Admitted = Allowed(clientId: string, maxBody: int, release: Reservation)
                    | Rejected(reason: Reason, clientId: string)

  // The checks run in this order and a failed one leaves the later ones undone: a request that is
  // refused before the rate check does not use up the rate, and only an admitted one holds capacity.
  method AdmitProtectedRoute(who: Identity, routeKey: string, now: int, defaultMaxBody: int, auditHealthy: bool,
                             limits: LimitResolver, rates: RateState, slots: Concurrency) returns (r: Admitted)
    requires slots.Valid()
    modifies rates, slots
    ensures slots.Valid()
    ensures who.Refused? ==> r == Rejected(who.reason, "")
    ensures who.Client? && limits.Effective(who.id, routeKey).None? ==> r == Rejected(MissingLimitPolicy, who.id)
    ensures who.Client? && limits.Effective(who.id, routeKey).Some? && !auditHealthy ==>
              r == Rejected(AuditUnhealthy, who.id)
    ensures who.Refused? || limits.Effective(who.id, routeKey).None? || !auditHealthy ==>
              rates.rates == old(rates.rates) && slots.held == old(slots.held)
    ensures who.Client? && limits.Effective(who.id, routeKey).Some? && auditHealthy ==>
              var policy := limits.Effective(who.id, routeKey).value;
              var rate := Rate(policy.requests, policy.window);
              var key := LimitKey(who.id, routeKey);
              var limiting := policy.requests > 0 && policy.window > 0;
              var inRate := limiting && Step(old(rates.WindowOf(key)), now, rate).1;
              && (limiting ==> rates.WindowOf(key) == Step(old(rates.WindowOf(key)), now, rate).0)
              && (forall other :: other != key ==> rates.WindowOf(other) == old(rates.WindowOf(other)))
              && if !inRate then r == Rejected(RateLimited, who.id) && slots.held == old(slots.held)
                 else if old(slots.Count(key)) >= policy.maxConcurrent then
                   r == Rejected(ConcurrencyLimited, who.id) && slots.held == old(slots.held)
                 else r.Allowed? && r.clientId == who.id
                      && r.maxBody == (if policy.maxBody <= 0 then defaultMaxBody else policy.maxBody)
                      && fresh(r.release) && r.release.key == key && r.release.releases == 0
                      && slots.held == old(slots.held) + {r.release}
  {
    if who.Refused? {
      return Rejected(who.reason, "");
    }
    var policy := limits.Effective(who.id, routeKey);
    if policy.None? {
      return Rejected(MissingLimitPolicy, who.id);
    }
    if !auditHealthy {
      return Rejected(AuditUnhealthy, who.id);
    }
    var allowed := rates.AllowRate(now, who.id, routeKey, Rate(policy.value.requests, policy.value.window));
    if !allowed {
      return Rejected(RateLimited, who.id);
    }
    var slot := slots.Acquire(who.id, routeKey, policy.value.maxConcurrent);
    if slot.None? {
      return Rejected(ConcurrencyLimited, who.id);
    }
    var maxBody := policy.value.maxBody;
    if maxBody <= 0 {
      maxBody := defaultMaxBody;
    }
    return Allowed(who.id, maxBody, slot.value);
  }
}
