/** internal/contexts/policy/domain/snapshot.go:107-155, 278-366: evaluating a request through the
    scope index and a findings cache, and the plain scan of all rules that this must agree with. */
module Evaluation {
  import opened Lists
  import opened Options
  import opened Detection
  import opened Policy

  // ----- which rules are visited -----

  function ScopeValues(value: string): seq<string> {
    if value == "" then [""] else [value, ""]
  }

  predicate MatchesScope(s: Scope, req: Request) {
    && (s.routeKey == "" || s.routeKey == req.routeKey)
    && (s.provider == "" || s.provider == req.provider)
    && (s.model == "" || s.model == req.model)
    && (s.direction == "" || s.direction == req.direction)
  }

  function OverDirections(route: string, provider: string, model: string, directions: seq<string>): seq<Scope> {
    if directions == [] then []
    else [Scope(route, provider, model, directions[0])] + OverDirections(route, provider, model, directions[1..])
  }

  function OverModels(route: string, provider: string, models: seq<string>, directions: seq<string>): seq<Scope> {
    if models == [] then []
    else OverDirections(route, provider, models[0], directions) + OverModels(route, provider, models[1..], directions)
  }

  function OverProviders(route: string, providers: seq<string>, models: seq<string>,
                         directions: seq<string>): seq<Scope>
  {
    if providers == [] then []
    else OverModels(route, providers[0], models, directions) + OverProviders(route, providers[1..], models, directions)
  }

  function OverRoutes(routes: seq<string>, providers: seq<string>, models: seq<string>,
                      directions: seq<string>): seq<Scope>
  {
    if routes == [] then []
    else OverProviders(routes[0], providers, models, directions)
         + OverRoutes(routes[1..], providers, models, directions)
  }

  // The keys in the order of the four nested loops.
  function CandidateScopes(req: Request): seq<Scope> {
    OverRoutes(ScopeValues(req.routeKey), ScopeValues(req.provider), ScopeValues(req.model), ScopeValues(req.direction))
  }

  lemma {:induction false} DirectionsExact(route: string, provider: string, model: string, directions: seq<string>)
    requires Distinct(directions)
    ensures Distinct(OverDirections(route, provider, model, directions))
    ensures forall s :: s in OverDirections(route, provider, model, directions) <==>
                        s.routeKey == route && s.provider == provider && s.model == model && s.direction in directions
  {
    if directions != [] {
      DirectionsExact(route, provider, model, directions[1..]);
      assert forall x :: x in directions <==> x == directions[0] || x in directions[1..];
    }
  }

  lemma {:induction false} ModelsExact(route: string, provider: string, models: seq<string>, directions: seq<string>)
    requires Distinct(models) && Distinct(directions)
    ensures Distinct(OverModels(route, provider, models, directions))
    ensures forall s :: s in OverModels(route, provider, models, directions) <==>
                        s.routeKey == route && s.provider == provider && s.model in models && s.direction in directions
  {
    if models != [] {
      DirectionsExact(route, provider, models[0], directions);
      ModelsExact(route, provider, models[1..], directions);
      assert forall x :: x in models <==> x == models[0] || x in models[1..];
      DistinctConcat(OverDirections(route, provider, models[0], directions),
                     OverModels(route, provider, models[1..], directions));
    }
  }

  lemma {:induction false} ProvidersExact(route: string, providers: seq<string>, models: seq<string>,
                                          directions: seq<string>)
    requires Distinct(providers) && Distinct(models) && Distinct(directions)
    ensures Distinct(OverProviders(route, providers, models, directions))
    ensures forall s :: s in OverProviders(route, providers, models, directions) <==>
                        s.routeKey == route && s.provider in providers && s.model in models && s.direction in directions
  {
    if providers != [] {
      ModelsExact(route, providers[0], models, directions);
      ProvidersExact(route, providers[1..], models, directions);
      assert forall x :: x in providers <==> x == providers[0] || x in providers[1..];
      DistinctConcat(OverModels(route, providers[0], models, directions),
                     OverProviders(route, providers[1..], models, directions));
    }
  }

  lemma {:induction false} RoutesExact(routes: seq<string>, providers: seq<string>, models: seq<string>,
                                       directions: seq<string>)
    requires Distinct(routes) && Distinct(providers) && Distinct(models) && Distinct(directions)
    ensures Distinct(OverRoutes(routes, providers, models, directions))
    ensures forall s :: s in OverRoutes(routes, providers, models, directions) <==>
                        s.routeKey in routes && s.provider in providers && s.model in models
                            && s.direction in directions
  {
    if routes != [] {
      ProvidersExact(routes[0], providers, models, directions);
      RoutesExact(routes[1..], providers, models, directions);
      assert forall x :: x in routes <==> x == routes[0] || x in routes[1..];
      DistinctConcat(OverProviders(routes[0], providers, models, directions),
                     OverRoutes(routes[1..], providers, models, directions));
    }
  }

  // The loops try exactly the scopes that match, none of them twice.
  lemma {:induction false} CandidatesExact(req: Request)
    ensures Distinct(CandidateScopes(req))
    ensures forall s :: s in CandidateScopes(req) <==> MatchesScope(s, req)
  {
    RoutesExact(ScopeValues(req.routeKey), ScopeValues(req.provider), ScopeValues(req.model),
                ScopeValues(req.direction));
  }

  function Visited(scopes: seq<Scope>, rules: seq<CompiledRule>): seq<CompiledRule> {
    if scopes == [] then [] else Visited(scopes[..|scopes| - 1], rules) + Bucket(rules, scopes[|scopes| - 1])
  }

  function Matching(rules: seq<CompiledRule>, req: Request): seq<CompiledRule> {
    if rules == [] then []
    else
      var last := rules[|rules| - 1];
      Matching(rules[..|rules| - 1], req) + (if MatchesScope(last.scope, req) then [last] else [])
  }

  lemma {:induction false} VisitedSnoc(scopes: seq<Scope>, rules: seq<CompiledRule>, last: CompiledRule)
    requires NoRepeats(scopes)
    ensures multiset(Visited(scopes, rules + [last]))
            == multiset(Visited(scopes, rules)) + (if last.scope in scopes then multiset{last} else multiset{})
  {
    if scopes != [] {
      var front, scope := scopes[..|scopes| - 1], scopes[|scopes| - 1];
      VisitedSnoc(front, rules, last);
      BucketSnoc(rules, last, scope);
      var one := if last.scope in front then multiset{last} else multiset{};
      var two := if last.scope == scope then multiset{last} else multiset{};
      var before, bucket := Visited(front, rules), Bucket(rules, scope);
      var longer, grown := Visited(front, rules + [last]), Bucket(rules + [last], scope);
      assert multiset(longer) == multiset(before) + one;
      assert multiset(grown) == multiset(bucket) + two;
      Regroup(before, bucket, longer, grown, one, two);
      assert last.scope in scopes <==> last.scope in front || last.scope == scope;
    }
  }

  lemma {:induction false} Regroup<T>(before: seq<T>, bucket: seq<T>, longer: seq<T>, grown: seq<T>, one: multiset<T>,
                                      two: multiset<T>)
    requires multiset(longer) == multiset(before) + one && multiset(grown) == multiset(bucket) + two
    ensures multiset(longer + grown) == multiset(before + bucket) + (one + two)
  {
    assert multiset(longer + grown) == multiset(longer) + multiset(grown);
    assert multiset(before + bucket) == multiset(before) + multiset(bucket);
  }

  lemma {:induction false} VisitedNothing(scopes: seq<Scope>)
    ensures Visited(scopes, []) == []
  {
    if scopes != [] {
      VisitedNothing(scopes[..|scopes| - 1]);
    }
  }

  // Every rule whose scope matches is visited exactly once, and no other rule is.
  lemma {:induction false} VisitedOnce(rules: seq<CompiledRule>, req: Request)
    ensures multiset(Visited(CandidateScopes(req), rules)) == multiset(Matching(rules, req))
  {
    var scopes := CandidateScopes(req);
    if rules == [] {
      VisitedNothing(scopes);
    } else {
      var front, last := rules[..|rules| - 1], rules[|rules| - 1];
      assert rules == front + [last];
      CandidatesExact(req);
      DistinctNoRepeats(scopes);
      VisitedSnoc(scopes, front, last);
      VisitedOnce(front, req);
    }
  }

  // ----- the findings cache -----

  type Cache = map<string, seq<Finding>>

  function Filled(cache: Cache, d: CompiledDetector, text: string, dt: Detectors): (r: Cache)
    ensures d.cacheKey in r
  {
    if d.cacheKey in cache then cache else cache[d.cacheKey := dt.find(d.detector, text)]
  }

  function CacheAfter(ds: seq<CompiledDetector>, text: string, dt: Detectors, cache: Cache): Cache {
    if ds == [] then cache
    else Filled(CacheAfter(ds[..|ds| - 1], text, dt, cache), ds[|ds| - 1], text, dt)
  }

  // What the last detector of ds is told when all of ds consult the cache in turn.
  function LastAnswer(ds: seq<CompiledDetector>, text: string, dt: Detectors, cache: Cache): seq<Finding>
    requires ds != []
  {
    CacheAfter(ds, text, dt, cache)[ds[|ds| - 1].cacheKey]
  }

  function CachedFindings(ds: seq<CompiledDetector>, text: string, dt: Detectors, cache: Cache): seq<Finding> {
    if ds == [] then []
    else CachedFindings(ds[..|ds| - 1], text, dt, cache) + LastAnswer(ds, text, dt, cache)
  }

  function DirectFindings(ds: seq<CompiledDetector>, text: string, dt: Detectors): seq<Finding> {
    if ds == [] then []
    else DirectFindings(ds[..|ds| - 1], text, dt) + dt.find(ds[|ds| - 1].detector, text)
  }

  // Detectors that share a cache key are the same detector.
  ghost predicate Faithful(ds: seq<CompiledDetector>) {
    forall a, b :: a in ds && b in ds && a.cacheKey == b.cacheKey ==> a.detector == b.detector
  }

  ghost predicate Truthful(cache: Cache, ds: seq<CompiledDetector>, text: string, dt: Detectors) {
    forall d :: d in ds && d.cacheKey in cache ==> cache[d.cacheKey] == dt.find(d.detector, text)
  }

  lemma {:induction false} CachedIsDirect(ds: seq<CompiledDetector>, all: seq<CompiledDetector>, text: string,
                                          dt: Detectors, cache: Cache)
    requires Faithful(all) && Truthful(cache, all, text, dt)
    requires forall d :: d in ds ==> d in all
    ensures CachedFindings(ds, text, dt, cache) == DirectFindings(ds, text, dt)
    ensures Truthful(CacheAfter(ds, text, dt, cache), all, text, dt)
  {
    if ds != [] {
      CachedIsDirect(ds[..|ds| - 1], all, text, dt, cache);
      assert ds[|ds| - 1] in all;
    }
  }

  lemma {:induction false} KeyStays(ds: seq<CompiledDetector>, n: nat, text: string, dt: Detectors, cache: Cache,
                                    key: string)
    requires n <= |ds| && key in CacheAfter(ds[..n], text, dt, cache)
    ensures var after := CacheAfter(ds, text, dt, cache);
            key in after && after[key] == CacheAfter(ds[..n], text, dt, cache)[key]
  {
    if n < |ds| {
      assert ds[..|ds| - 1][..n] == ds[..n];
      KeyStays(ds[..|ds| - 1], n, text, dt, cache, key);
    } else {
      assert ds[..n] == ds;
    }
  }

  lemma {:induction false} KeysConsulted(ds: seq<CompiledDetector>, text: string, dt: Detectors, cache: Cache,
                                         key: string)
    ensures key in CacheAfter(ds, text, dt, cache) <==> key in cache || exists d :: d in ds && d.cacheKey == key
  {
    if ds != [] {
      KeysConsulted(ds[..|ds| - 1], text, dt, cache, key);
      assert forall d :: d in ds <==> d in ds[..|ds| - 1] || d == ds[|ds| - 1];
    }
  }

  // The compiled detectors of one engine, as policy evaluation sees them.
  function Real(e: Engine): Detectors {
    Detectors(d => Compilable(d, e), d => Compile(d, e), (d, text) => Findings(d, text, e))
  }

  // Without faithfulness the cache is wrong for some engine and text: a detector that shares its
  // key with an earlier, different one is handed the other one's findings.
  lemma {:induction false} CacheConfusion(ds: seq<CompiledDetector>) returns (n: nat, e: Engine, text: string)
    requires !Faithful(ds) && forall d :: d in ds ==> d.detector.categories != []
    ensures 0 < n <= |ds|
    ensures LastAnswer(ds[..n], text, Real(e), map[]) != Findings(ds[n - 1].detector, text, e)
  {
    var first;
    first, n := ClashingPair(ds);
    e, text := Distinguishable(ds[first].detector, ds[n - 1].detector);
    assert ds[..n][..first] == ds[..first];
    FirstAnswers(ds[..n], first, text, Real(e));
  }

  // Each detector asked is told what it finds itself.
  ghost predicate AlwaysDirect(ds: seq<CompiledDetector>) {
    forall n: nat, e: Engine, text: string :: 0 < n <= |ds| ==>
      LastAnswer(ds[..n], text, Real(e), map[]) == Findings(ds[n - 1].detector, text, e)
  }

  // The cache answers right for every engine and text if and only if detectors with one key are equal.
  lemma {:induction false} FaithfulExactly(ds: seq<CompiledDetector>)
    requires forall d :: d in ds ==> d.detector.categories != []
    ensures Faithful(ds) <==> AlwaysDirect(ds)
  {
    if Faithful(ds) {
      forall n: nat, e: Engine, text: string | 0 < n <= |ds|
        ensures LastAnswer(ds[..n], text, Real(e), map[]) == Findings(ds[n - 1].detector, text, e)
      {
        CachedIsDirect(ds[..n - 1], ds, text, Real(e), map[]);
        assert ds[..n][..n - 1] == ds[..n - 1];
        assert ds[n - 1] in ds;
      }
    } else {
      var n, e, text := CacheConfusion(ds);
    }
  }

  lemma {:induction false} ClashingPair(ds: seq<CompiledDetector>) returns (first: nat, n: nat)
    requires !Faithful(ds)
    ensures first < n <= |ds| && ds[first].cacheKey == ds[n - 1].cacheKey && ds[first].detector != ds[n - 1].detector
    ensures forall d :: d in ds[..first] ==> d.cacheKey != ds[first].cacheKey
  {
    var a, b :| a in ds && b in ds && a.cacheKey == b.cacheKey && a.detector != b.detector;
    first := FirstWithKey(ds, a.cacheKey);
    var later := if ds[first].detector == a.detector then b else a;
    var at :| 0 <= at < |ds| && ds[at] == later;
    n := at + 1;
  }

  // A cache that starts empty answers with the findings of the first detector under the key.
  lemma {:induction false} FirstAnswers(ds: seq<CompiledDetector>, first: nat, text: string, dt: Detectors)
    requires first < |ds| && ds[first].cacheKey == ds[|ds| - 1].cacheKey
    requires forall d :: d in ds[..first] ==> d.cacheKey != ds[first].cacheKey
    ensures LastAnswer(ds, text, dt, map[]) == dt.find(ds[first].detector, text)
  {
    var key := ds[first].cacheKey;
    var upTo := ds[..first + 1];
    assert upTo[..first] == ds[..first] && upTo[first] == ds[first];
    KeysConsulted(ds[..first], text, dt, map[], key);
    assert CacheAfter(upTo, text, dt, map[])[key] == dt.find(ds[first].detector, text);
    KeyStays(ds, first + 1, text, dt, map[], key);
  }

  lemma {:induction false} FirstWithKey(ds: seq<CompiledDetector>, key: string) returns (i: nat)
    requires exists d :: d in ds && d.cacheKey == key
    ensures i < |ds| && ds[i].cacheKey == key && forall k :: 0 <= k < i ==> ds[k].cacheKey != key
  {
    if ds[0].cacheKey == key {
      i := 0;
    } else {
      assert ds == [ds[0]] + ds[1..];
      i := FirstWithKey(ds[1..], key);
      i := i + 1;
    }
  }

  method MatchRule(rule: CompiledRule, text: string, dt: Detectors, cache: Cache)
    returns (findings: seq<Finding>, filled: Cache)
    ensures findings == CachedFindings(rule.detectors, text, dt, cache)
    ensures filled == CacheAfter(rule.detectors, text, dt, cache)
  {
    var ds := rule.detectors;
    filled, findings := cache, [];
    if |ds| == 0 {
      return;
    }
    if |ds| == 1 {
      assert ds[..0] == [];
      if ds[0].cacheKey !in filled {
        filled := filled[ds[0].cacheKey := dt.find(ds[0].detector, text)];
      }
      findings := filled[ds[0].cacheKey];
      assert ds[..|ds| - 1] == [];
      assert CachedFindings([], text, dt, cache) == [];
      assert filled == CacheAfter(ds, text, dt, cache);
      assert CachedFindings(ds, text, dt, cache) == [] + findings == findings;
      return;
    }
    for i := 0 to |ds|
      invariant findings == CachedFindings(ds[..i], text, dt, cache)
      invariant filled == CacheAfter(ds[..i], text, dt, cache)
    {
      assert ds[..i + 1][..i] == ds[..i];
      if ds[i].cacheKey !in filled {
        filled := filled[ds[i].cacheKey := dt.find(ds[i].detector, text)];
      }
      findings := findings + filled[ds[i].cacheKey];
    }
    assert ds[..|ds|] == ds;
  }

  // ----- evaluation -----

  datatype Progress = Progress(cache: Cache, hits: seq<RuleHit>, findings: seq<Finding>, action: Action)

  function Visit(p: Progress, rule: CompiledRule, req: Request, dt: Detectors): Progress {
    if !MatchesScope(rule.scope, req) then p
    else
      var found := CachedFindings(rule.detectors, req.text, dt, p.cache);
      var cache := CacheAfter(rule.detectors, req.text, dt, p.cache);
      if found == [] then p.(cache := cache)
      else Progress(cache, p.hits + [RuleHit(rule.bundleKey, rule.key, rule.severity, rule.action, found)],
                    p.findings + found, Higher(p.action, rule.action))
  }

  function VisitAll(start: Progress, rules: seq<CompiledRule>, req: Request, dt: Detectors): Progress {
    if rules == [] then start
    else Visit(VisitAll(start, rules[..|rules| - 1], req, dt), rules[|rules| - 1], req, dt)
  }

  lemma {:induction false} VisitConcat(start: Progress, a: seq<CompiledRule>, b: seq<CompiledRule>, req: Request,
                                       dt: Detectors)
    ensures VisitAll(start, a + b, req, dt) == VisitAll(VisitAll(start, a, req, dt), b, req, dt)
  {
    if b == [] {
      assert a + b == a;
    } else {
      assert (a + b)[..|a + b| - 1] == a + b[..|b| - 1];
      VisitConcat(start, a, b[..|b| - 1], req, dt);
    }
  }

  function ModelAction(signal: Signal): Action {
    if signal.fallbackUsed then signal.fallback else signal.suggested
  }

  predicate SignalWins(signal: Signal, action: Action) {
    ValidAction(ModelAction(signal)) && Priority(ModelAction(signal)) > Priority(action)
  }

  function Decide(s: Snapshot, signal: Signal, action: Action, hits: seq<RuleHit>, findings: seq<Finding>): Decision {
    Decision(if SignalWins(signal, action) then ModelAction(signal) else action,
             s.defaultAction, hits, findings, SignalWins(signal, action), s.bundleKeys)
  }

  // ----- the action, by name -----

  ghost predicate FoundBy(hits: seq<RuleHit>, f: Finding) { exists h :: h in hits && f in h.findings }

  ghost predicate HitSays(hits: seq<RuleHit>, a: Action) { exists h :: h in hits && h.action == a }

  // The model's signal says so: its fallback counts if it was used, and its suggestion otherwise.
  predicate Signalled(signal: Signal, a: Action) {
    (signal.fallbackUsed && signal.fallback == a) || (!signal.fallbackUsed && signal.suggested == a)
  }

  // Block goes before redact and redact before shadow log; if none of them is called for, the rest applies.
  predicate Ranked(a: Action, block: bool, redact: bool, shadow: bool, rest: Action) {
    if block then a == Block else if redact then a == Redact else if shadow then a == ShadowLog else a == rest
  }

  // What the default action and the hits call for.
  ghost predicate CalledFor(a: Action, start: Action, hits: seq<RuleHit>) {
    Ranked(a, start == Block || HitSays(hits, Block), start == Redact || HitSays(hits, Redact),
           start == ShadowLog || HitSays(hits, ShadowLog), start)
  }

  // The same with the model's signal, which is applied if it calls for more.
  ghost predicate DecidedBy(d: Decision, start: Action, signal: Signal) {
    && ActionBy(d, start, signal)
    && d.defaultAction == start && forall f :: f in d.findings <==> FoundBy(d.hits, f)
  }

  ghost predicate ActionBy(d: Decision, start: Action, signal: Signal) {
    var block, redact, shadow := start == Block || HitSays(d.hits, Block), start == Redact || HitSays(d.hits, Redact),
      start == ShadowLog || HitSays(d.hits, ShadowLog);
    && Ranked(d.action, block || Signalled(signal, Block), redact || Signalled(signal, Redact),
              shadow || Signalled(signal, ShadowLog), start)
    && (d.signalApplied <==>
          || (Signalled(signal, Block) && !block) || (Signalled(signal, Redact) && !block && !redact)
          || (Signalled(signal, ShadowLog) && !block && !redact && !shadow))
  }

  lemma {:induction false} HitSnoc(hits: seq<RuleHit>, h: RuleHit, a: Action)
    ensures HitSays(hits + [h], a) <==> HitSays(hits, a) || h.action == a
  {
    assert h in hits + [h];
    assert forall x :: x in hits ==> x in hits + [h];
  }

  lemma {:induction false} VisitedFind(start: Action, rules: seq<CompiledRule>, req: Request, dt: Detectors, f: Finding)
    ensures var p := VisitAll(Progress(map[], [], [], start), rules, req, dt); f in p.findings <==> FoundBy(p.hits, f)
  {
    if rules != [] {
      VisitedFind(start, rules[..|rules| - 1], req, dt, f);
      var p := VisitAll(Progress(map[], [], [], start), rules[..|rules| - 1], req, dt);
      var q := Visit(p, rules[|rules| - 1], req, dt);
      if q.hits != p.hits {
        var h := q.hits[|p.hits|];
        assert q.hits == p.hits + [h] && q.findings == p.findings + h.findings;
        assert forall x :: x in q.hits <==> x in p.hits || x == h;
      }
    }
  }

  lemma {:induction false} VisitedCallFor(start: Action, rules: seq<CompiledRule>, req: Request, dt: Detectors)
    ensures var p := VisitAll(Progress(map[], [], [], start), rules, req, dt); CalledFor(p.action, start, p.hits)
  {
    if rules != [] {
      VisitedCallFor(start, rules[..|rules| - 1], req, dt);
      var p := VisitAll(Progress(map[], [], [], start), rules[..|rules| - 1], req, dt);
      var q := Visit(p, rules[|rules| - 1], req, dt);
      if q.hits != p.hits {
        var h := q.hits[|p.hits|];
        assert q.hits == p.hits + [h];
        HitSnoc(p.hits, h, Block);
        HitSnoc(p.hits, h, Redact);
        HitSnoc(p.hits, h, ShadowLog);
      }
    }
  }

  method Evaluate(snapshot: Option<Snapshot>, req: Request, dt: Detectors) returns (d: Decision)
    requires snapshot.Some? ==> snapshot.value.rulesByScope == IndexOf(snapshot.value.rules)
    ensures snapshot.None? ==> d == Decision(Allow, Allow, [], [], false, [])
    ensures snapshot.Some? ==>
              var s := snapshot.value;
              var p := VisitAll(Progress(map[], [], [], s.defaultAction), Visited(CandidateScopes(req), s.rules), req,
                                dt);
              d == Decide(s, req.signal, p.action, p.hits, p.findings)
    ensures snapshot.Some? ==> DecidedBy(d, snapshot.value.defaultAction, req.signal)
  {
    if snapshot.None? {
      return Decision(Allow, Allow, [], [], false, []);
    }
    var s := snapshot.value;
    var scopes := CandidateScopes(req);
    var p := Progress(map[], [], [], s.defaultAction);
    ghost var start := p;
    for i := 0 to |scopes|
      invariant p == VisitAll(start, Visited(scopes[..i], s.rules), req, dt)
    {
      var bucket := if scopes[i] in s.rulesByScope then s.rulesByScope[scopes[i]] else [];
      EmptyBucket(s.rules, scopes[i]);
      VisitScope(start, scopes, i, s.rules, req, dt);
      p := VisitBucket(p, bucket, req, dt);
    }
    assert scopes[..|scopes|] == scopes;
    VisitedCallFor(s.defaultAction, Visited(scopes, s.rules), req, dt);
    forall f ensures f in p.findings <==> FoundBy(p.hits, f) {
      VisitedFind(s.defaultAction, Visited(scopes, s.rules), req, dt, f);
    }
    var action, applied := p.action, false;
    var modelAction := req.signal.suggested;
    if req.signal.fallbackUsed {
      modelAction := req.signal.fallback;
    }
    if ValidAction(modelAction) && Priority(modelAction) > Priority(action) {
      action, applied := modelAction, true;
    }
    return Decision(action, s.defaultAction, p.hits, p.findings, applied, s.bundleKeys);
  }

  lemma {:induction false} VisitScope(start: Progress, scopes: seq<Scope>, i: nat, rules: seq<CompiledRule>,
                                      req: Request, dt: Detectors)
    requires i < |scopes|
    ensures VisitAll(start, Visited(scopes[..i + 1], rules), req, dt)
            == VisitAll(VisitAll(start, Visited(scopes[..i], rules), req, dt), Bucket(rules, scopes[i]), req, dt)
  {
    assert scopes[..i + 1][..i] == scopes[..i];
    VisitConcat(start, Visited(scopes[..i], rules), Bucket(rules, scopes[i]), req, dt);
  }

  method VisitBucket(start: Progress, rules: seq<CompiledRule>, req: Request, dt: Detectors) returns (p: Progress)
    ensures p == VisitAll(start, rules, req, dt)
  {
    p := start;
    for i := 0 to |rules|
      invariant p == VisitAll(start, rules[..i], req, dt)
    {
      assert rules[..i + 1][..i] == rules[..i];
      var rule := rules[i];
      if !MatchesScope(rule.scope, req) {
        continue;
      }
      var findings, cache := MatchRule(rule, req.text, dt, p.cache);
      p := p.(cache := cache);
      if |findings| == 0 {
        continue;
      }
      p := p.(action := Higher(p.action, rule.action),
              hits := p.hits + [RuleHit(rule.bundleKey, rule.key, rule.severity, rule.action, findings)],
              findings := p.findings + findings);
    }
    assert rules[..|rules|] == rules;
  }
}
