/** Choosing a verdict provider for each route:
    internal/contexts/gateway/adapters/http/openai/gateway_config.go:387-416. */
module VerdictBindings {
  import opened Options
  import opened Sorting

  datatype Binding = Binding(routeKey: string, providerKey: string, disabled: bool, priority: int, mode: string)

  predicate Sooner(a: Binding, b: Binding) { a.priority < b.priority }

  predicate For(b: Binding, route: string) { !b.disabled && b.routeKey == route && route != "" }

  predicate Bad(b: Binding, providers: set<string>) { b.providerKey == "" || b.providerKey !in providers }

  // ----- the stable minimum -----

  // An enabled binding of a named route.
  predicate Eligible(b: Binding, route: string) { route != "" && b.routeKey == route && !b.disabled }

  // records[i] is the binding of the route: none has a lower priority, none of the same comes before.
  ghost predicate StableMin(records: seq<Binding>, route: string, i: nat) {
    && i < |records| && Eligible(records[i], route)
    && (forall j :: 0 <= j < |records| && Eligible(records[j], route) ==> records[i].priority <= records[j].priority)
    && (forall j :: 0 <= j < i && Eligible(records[j], route) ==> records[i].priority < records[j].priority)
  }

  function Best(records: seq<Binding>, route: string): Option<Binding> {
    if records == [] then None
    else
      var rest, head := Best(records[1..], route), records[0];
      if For(head, route) && (rest.None? || head.priority <= rest.value.priority) then Some(head) else rest
  }

  lemma {:induction false} BestIsStableMin(records: seq<Binding>, route: string) returns (i: nat)
    ensures Best(records, route).None? <==> forall j :: 0 <= j < |records| ==> !Eligible(records[j], route)
    ensures Best(records, route).Some? ==> StableMin(records, route, i) && records[i] == Best(records, route).value
  {
    if records == [] {
      i := 0;
    } else {
      var tail := records[1..];
      var k := BestIsStableMin(tail, route);
      assert forall j :: 0 <= j < |tail| ==> tail[j] == records[j + 1];
      assert forall j :: 0 < j < |records| ==> records[j] == tail[j - 1];
      var best := Best(tail, route);
      i := if For(records[0], route) && (best.None? || records[0].priority <= best.value.priority) then 0 else k + 1;
    }
  }

  lemma {:induction false} StableMinUnique(records: seq<Binding>, route: string, i: nat, k: nat)
    requires StableMin(records, route, i) && StableMin(records, route, k)
    ensures i == k
  {
  }

  // A stable minimum is the best binding, and there is no other.
  lemma {:induction false} BestIsThatMin(records: seq<Binding>, route: string, i: nat)
    requires StableMin(records, route, i)
    ensures Best(records, route) == Some(records[i])
  {
    var k := BestIsStableMin(records, route);
    StableMinUnique(records, route, i, k);
  }

  predicate Provided(b: Binding, providers: set<string>) { b.providerKey != "" && b.providerKey in providers }

  // ----- what the loop over the sorted records picks -----

  function First(sorted: seq<Binding>, route: string): Option<Binding> {
    if sorted == [] then None
    else
      var before, last := First(sorted[..|sorted| - 1], route), sorted[|sorted| - 1];
      if before.Some? then before else if For(last, route) then Some(last) else None
  }

  lemma {:induction false} FirstCons(head: Binding, rest: seq<Binding>, route: string)
    ensures First([head] + rest, route) == if For(head, route) then Some(head) else First(rest, route)
  {
    if rest == [] {
      assert [head] + rest == [head] && [head][..0] == [];
    } else {
      assert ([head] + rest)[..|rest|] == [head] + rest[..|rest| - 1];
      FirstCons(head, rest[..|rest| - 1], route);
    }
  }

  lemma {:induction false} FirstOfInsert(x: Binding, s: seq<Binding>, route: string)
    requires Sorted(s, Sooner)
    ensures var f := First(s, route);
            First(Insert(x, s, Sooner), route)
            == if For(x, route) && (f.None? || x.priority <= f.value.priority) then Some(x) else f
    ensures First(s, route).Some? ==> First(s, route).value in s
  {
    if s == [] {
      FirstCons(x, [], route);
    } else {
      assert s == [s[0]] + s[1..];
      FirstOfInsert(x, s[1..], route);
      FirstCons(s[0], s[1..], route);
      FirstCons(x, s, route);
      FirstCons(s[0], Insert(x, s[1..], Sooner), route);
      assert forall y :: y in s[1..] ==> !Sooner(y, s[0]);
    }
  }

  lemma {:induction false} FirstIsBest(records: seq<Binding>, route: string)
    ensures First(StableSort(records, Sooner), route) == Best(records, route)
  {
    if records != [] {
      assert StrictWeakOrder(Sooner);
      StableSortSorted(records[1..], Sooner);
      FirstIsBest(records[1..], route);
      FirstOfInsert(records[0], StableSort(records[1..], Sooner), route);
    }
  }

  // ----- the function -----

  ghost predicate Picks(bindings: map<string, Binding>, records: seq<Binding>) {
    forall route :: if Best(records, route).Some?
                    then route in bindings && bindings[route] == Best(records, route).value
                    else route !in bindings
  }

  // The bindings taken from the records so far.
  ghost predicate Collected(bindings: map<string, Binding>, s: seq<Binding>, providers: set<string>) {
    forall route ::
      && (route in bindings <==> First(s, route).Some?)
      && (route in bindings ==> bindings[route] == First(s, route).value && !Bad(bindings[route], providers))
  }

  lemma {:induction false} CollectNext(bindings: map<string, Binding>, s: seq<Binding>, b: Binding,
                                       providers: set<string>)
    requires Collected(bindings, s, providers)
    ensures b.disabled || b.routeKey == "" || b.routeKey in bindings ==> Collected(bindings, s + [b], providers)
    ensures !b.disabled && b.routeKey != "" && b.routeKey !in bindings && !Bad(b, providers) ==>
              Collected(bindings[b.routeKey := b], s + [b], providers)
  {
    assert (s + [b])[..|s|] == s;
    assert forall route :: First(s + [b], route)
                           == if First(s, route).Some? then First(s, route)
                              else if For(b, route) then Some(b) else None;
  }

  method PickBindings(records: seq<Binding>, providers: set<string>) returns (r: Option<map<string, Binding>>)
    ensures r.None? <==> exists route :: Best(records, route).Some? && Bad(Best(records, route).value, providers)
    ensures r.Some? ==> Picks(r.value, records)
  {
    if |records| == 0 {
      return Some(map[]);
    }
    var sorted := StableSort(records, Sooner);
    var bindings: map<string, Binding> := map[];
    for i := 0 to |sorted|
      invariant Collected(bindings, sorted[..i], providers)
    {
      var b := sorted[i];
      assert sorted[..i + 1] == sorted[..i] + [b];
      CollectNext(bindings, sorted[..i], b, providers);
      if b.disabled || b.routeKey == "" {
        continue;
      }
      if b.routeKey in bindings {
        continue;
      }
      if b.providerKey == "" || b.providerKey !in providers {
        Refused(records, sorted, i, providers);
        return None;
      }
      bindings := bindings[b.routeKey := b];
    }
    assert sorted[..|sorted|] == sorted;
    forall route ensures First(sorted, route) == Best(records, route) {
      FirstIsBest(records, route);
    }
    return Some(bindings);
  }

  lemma {:induction false} Refused(records: seq<Binding>, sorted: seq<Binding>, i: nat, providers: set<string>)
    requires sorted == StableSort(records, Sooner) && i < |sorted| && Bad(sorted[i], providers)
    requires For(sorted[i], sorted[i].routeKey) && First(sorted[..i], sorted[i].routeKey).None?
    ensures Best(records, sorted[i].routeKey) == Some(sorted[i])
  {
    assert sorted[..i + 1][..i] == sorted[..i];
    FirstStays(sorted, i + 1, sorted[i].routeKey);
    FirstIsBest(records, sorted[i].routeKey);
  }

  lemma {:induction false} FirstStays(s: seq<Binding>, n: nat, route: string)
    requires n <= |s| && First(s[..n], route).Some?
    ensures First(s, route) == First(s[..n], route)
  {
    if n < |s| {
      assert s[..|s| - 1][..n] == s[..n];
      FirstStays(s[..|s| - 1], n, route);
    } else {
      assert s[..n] == s;
    }
  }

  // ----- route by route -----

  ghost predicate SomeEligible(records: seq<Binding>, route: string) {
    exists j :: 0 <= j < |records| && Eligible(records[j], route)
  }

  // A route with an eligible binding has its stable minimum, and no other route has one.
  ghost predicate PickedFor(bindings: map<string, Binding>, records: seq<Binding>, route: string) {
    && (route in bindings <==> SomeEligible(records, route))
    && (route in bindings ==>
          exists i: nat :: StableMin(records, route, i) && bindings[route] == records[i])
  }

  // The stable minimum of some route names no provider, or one that is not there.
  ghost predicate SomeUnprovided(records: seq<Binding>, providers: set<string>) {
    exists route, i: nat :: StableMin(records, route, i) && !Provided(records[i], providers)
  }

  lemma {:induction false} BestPicked(bindings: map<string, Binding>, records: seq<Binding>, route: string)
    requires Picks(bindings, records)
    ensures PickedFor(bindings, records, route)
  {
    var i := BestIsStableMin(records, route);
  }

  lemma {:induction false} BadUnprovided(records: seq<Binding>, providers: set<string>)
    ensures SomeUnprovided(records, providers) <==>
            exists route :: Best(records, route).Some? && Bad(Best(records, route).value, providers)
  {
    if route :| Best(records, route).Some? && Bad(Best(records, route).value, providers) {
      var i := BestIsStableMin(records, route);
    }
    if route, i: nat :| StableMin(records, route, i) && !Provided(records[i], providers) {
      BestIsThatMin(records, route, i);
    }
  }

  // Each route gets its stable minimum; it is an error exactly if one of these is unprovided, so a bad
  // binding behind a valid one is never looked at.
  method RouteVerdictBindings(records: seq<Binding>, providers: set<string>) returns (r: Option<map<string, Binding>>)
    ensures r.None? <==> SomeUnprovided(records, providers)
    ensures r.Some? ==> forall route :: PickedFor(r.value, records, route)
    ensures r.Some? ==> forall route :: route in r.value ==> Provided(r.value[route], providers)
  {
    BadUnprovided(records, providers);
    r := PickBindings(records, providers);
    if r.Some? {
      forall route
        ensures PickedFor(r.value, records, route)
        ensures route in r.value ==> Provided(r.value[route], providers)
      {
        BestPicked(r.value, records, route);
        if route in r.value {
          var i: nat :| StableMin(records, route, i) && r.value[route] == records[i];
        }
      }
    }
  }
}
