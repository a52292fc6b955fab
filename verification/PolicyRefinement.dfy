/** The indexed, cached evaluation against an index-free, cache-free scan of every rule. */
module PolicyRefinement {
  import opened Lists
  import opened Detection
  import opened Policy
  import opened Evaluation

  // ----- the plain scan -----

  function HitOf(rule: CompiledRule, req: Request, dt: Detectors): seq<RuleHit> {
    var found := DirectFindings(rule.detectors, req.text, dt);
    if !MatchesScope(rule.scope, req) || found == [] then []
    else [RuleHit(rule.bundleKey, rule.key, rule.severity, rule.action, found)]
  }

  function DirectHits(rules: seq<CompiledRule>, req: Request, dt: Detectors): seq<RuleHit> {
    if rules == [] then [] else DirectHits(rules[..|rules| - 1], req, dt) + HitOf(rules[|rules| - 1], req, dt)
  }

  function FindingsIn(h: RuleHit): seq<Finding> { h.findings }

  function ActionIn(h: RuleHit): seq<Action> { [h.action] }

  function FindingsOfHits(hits: seq<RuleHit>): seq<Finding> { FlatMap(hits, FindingsIn) }

  function HitActions(hits: seq<RuleHit>): seq<Action> { FlatMap(hits, ActionIn) }

  function ScanDecision(s: Snapshot, req: Request, dt: Detectors): Decision {
    var hits := DirectHits(s.rules, req, dt);
    Decide(s, req.signal, Strongest(s.defaultAction, HitActions(hits)), hits, FindingsOfHits(hits))
  }

  // What Evaluate returns, by its contract.
  function EvaluatedDecision(s: Snapshot, req: Request, dt: Detectors): Decision {
    var p := VisitAll(Progress(map[], [], [], s.defaultAction), Visited(CandidateScopes(req), s.rules), req, dt);
    Decide(s, req.signal, p.action, p.hits, p.findings)
  }

  ghost predicate SameDecision(a: Decision, b: Decision) {
    && a.action == b.action && a.defaultAction == b.defaultAction
    && a.signalApplied == b.signalApplied && a.bundleKeys == b.bundleKeys
    && multiset(a.hits) == multiset(b.hits) && multiset(a.findings) == multiset(b.findings)
  }

  // ----- refinement -----

  function DetectorsIn(r: CompiledRule): seq<CompiledDetector> { r.detectors }

  function AllDetectors(rules: seq<CompiledRule>): seq<CompiledDetector> { FlatMap(rules, DetectorsIn) }

  lemma {:induction false} AsFlatMap(rules: seq<CompiledRule>, req: Request, dt: Detectors,
                                     f: CompiledRule -> seq<RuleHit>)
    requires forall r :: f(r) == HitOf(r, req, dt)
    ensures DirectHits(rules, req, dt) == FlatMap(rules, f)
  {
    if rules != [] {
      AsFlatMap(rules[..|rules| - 1], req, dt, f);
    }
  }

  lemma {:induction false} OneHit(h: RuleHit, action: Action)
    ensures FindingsOfHits([h]) == h.findings && HitActions([h]) == [h.action]
    ensures Strongest(action, HitActions([h])) == Higher(action, h.action)
  {
    assert [h] == [] + [h];
    FlatMapSnoc([], h, FindingsIn);
    FlatMapSnoc([], h, ActionIn);
    assert FlatMap([], FindingsIn) + h.findings == h.findings;
    assert FlatMap([], ActionIn) + [h.action] == [h.action];
    assert Strongest(action, [h.action][..0]) == action;
  }

  lemma {:induction false} VisitDirect(p: Progress, rule: CompiledRule, all: seq<CompiledDetector>, req: Request,
                                       dt: Detectors)
    requires Faithful(all) && Truthful(p.cache, all, req.text, dt)
    requires forall d :: d in rule.detectors ==> d in all
    ensures var q, hits := Visit(p, rule, req, dt), HitOf(rule, req, dt);
            && Truthful(q.cache, all, req.text, dt) && q.hits == p.hits + hits
            && q.findings == p.findings + FindingsOfHits(hits)
            && q.action == Strongest(p.action, HitActions(hits))
  {
    CachedIsDirect(rule.detectors, all, req.text, dt, p.cache);
    var hits := HitOf(rule, req, dt);
    if hits != [] {
      OneHit(hits[0], p.action);
    }
  }

  lemma {:induction false} StrongestConcat(start: Action, a: seq<Action>, b: seq<Action>)
    ensures Strongest(start, a + b) == Strongest(Strongest(start, a), b)
  {
    if b == [] {
      assert a + b == a;
    } else {
      assert (a + b)[..|a + b| - 1] == a + b[..|b| - 1];
      StrongestConcat(start, a, b[..|b| - 1]);
    }
  }

  lemma {:induction false} VisitAllDirect(rules: seq<CompiledRule>, all: seq<CompiledDetector>, start: Action,
                                          req: Request, dt: Detectors)
    requires Faithful(all)
    requires forall r, d :: r in rules && d in r.detectors ==> d in all
    ensures var p, hits := VisitAll(Progress(map[], [], [], start), rules, req, dt), DirectHits(rules, req, dt);
            && Truthful(p.cache, all, req.text, dt) && p.hits == hits
            && p.findings == FindingsOfHits(hits) && p.action == Strongest(start, HitActions(hits))
  {
    if rules != [] {
      var front, last := rules[..|rules| - 1], rules[|rules| - 1];
      VisitAllDirect(front, all, start, req, dt);
      var p := VisitAll(Progress(map[], [], [], start), front, req, dt);
      assert last in rules;
      VisitDirect(p, last, all, req, dt);
      var before, more := DirectHits(front, req, dt), HitOf(last, req, dt);
      FlatMapConcat(before, more, FindingsIn);
      FlatMapConcat(before, more, ActionIn);
      StrongestConcat(start, HitActions(before), HitActions(more));
    }
  }

  lemma {:induction false} MatchingHits(rules: seq<CompiledRule>, req: Request, dt: Detectors)
    ensures DirectHits(Matching(rules, req), req, dt) == DirectHits(rules, req, dt)
    ensures forall r :: r in Matching(rules, req) ==> r in rules
  {
    if rules != [] {
      var front, last := rules[..|rules| - 1], rules[|rules| - 1];
      MatchingHits(front, req, dt);
      if MatchesScope(last.scope, req) {
        var kept := Matching(front, req);
        assert (kept + [last])[..|kept|] == kept;
      } else {
        assert Matching(rules, req) == Matching(front, req) + [] == Matching(front, req);
        assert DirectHits(rules, req, dt) == DirectHits(front, req, dt) + [] == DirectHits(front, req, dt);
      }
    }
  }

  lemma {:induction false} ActionsOfHits(rules: seq<CompiledRule>, req: Request, dt: Detectors)
    requires forall r :: r in rules ==> ValidAction(r.action)
    ensures forall a :: a in HitActions(DirectHits(rules, req, dt)) ==> ValidAction(a)
  {
    var hits := DirectHits(rules, req, dt);
    forall a | a in HitActions(hits) ensures ValidAction(a) {
      FlatMapMembers(hits, ActionIn, a);
      var h :| h in hits && a in ActionIn(h);
      var f := rule => HitOf(rule, req, dt);
      AsFlatMap(rules, req, dt, f);
      FlatMapMembers(rules, f, h);
    }
  }

  // With a faithful cache, the index and the cache change nothing but the order of the hits.
  lemma {:induction false} EvaluateRefinesScan(s: Snapshot, req: Request, dt: Detectors)
    requires Faithful(AllDetectors(s.rules))
    requires ValidAction(s.defaultAction) && forall r :: r in s.rules ==> ValidAction(r.action)
    ensures SameDecision(EvaluatedDecision(s, req, dt), ScanDecision(s, req, dt))
  {
    var visited, all := Visited(CandidateScopes(req), s.rules), AllDetectors(s.rules);
    VisitedOnce(s.rules, req);
    MatchingHits(s.rules, req, dt);
    MembersPermuted(visited, Matching(s.rules, req));
    forall r, d | r in visited && d in r.detectors ensures d in all {
      FlatMapMembers(s.rules, DetectorsIn, d);
    }
    VisitAllDirect(visited, all, s.defaultAction, req, dt);
    var seen, scanned := DirectHits(visited, req, dt), DirectHits(s.rules, req, dt);
    var f := rule => HitOf(rule, req, dt);
    AsFlatMap(visited, req, dt, f);
    AsFlatMap(Matching(s.rules, req), req, dt, f);
    FlatMapPermuted(visited, Matching(s.rules, req), f);
    FlatMapPermuted(seen, scanned, FindingsIn);
    FlatMapPermuted(scanned, seen, ActionIn);
    ActionsOfHits(s.rules, req, dt);
    StrongestPermuted(s.defaultAction, HitActions(scanned), HitActions(seen));
  }

  // ----- when compiled snapshots are faithful -----

  // The longer key starts with the shorter one and a slash.
  predicate Extends(longer: string, shorter: string) { shorter + "/" <= longer }

  // Bundle keys are distinct and none extends another.
  ghost predicate KeysApart(bundles: seq<Bundle>) {
    && (forall i, j :: 0 <= i < j < |bundles| ==> bundles[i].key != bundles[j].key)
    && (forall i, j :: 0 <= i < |bundles| && 0 <= j < |bundles| ==> !Extends(bundles[i].key, bundles[j].key))
  }

  lemma {:induction false} SlashFreeApart(longer: string, shorter: string)
    requires '/' !in longer
    ensures !Extends(longer, shorter)
  {
    var start := shorter + "/";
    assert start[|shorter|] == '/';
  }

  // Two bundles can share a cache key only if their keys are equal or one extends the other.
  lemma {:induction false} CacheKeyInjective(b1: string, k1: string, b2: string, k2: string)
    requires CacheKey(b1, k1) == CacheKey(b2, k2) && !Extends(b1, b2) && !Extends(b2, b1)
    ensures b1 == b2 && k1 == k2
  {
    if |b1| < |b2| {
      LongerExtends(b1, k1, b2, k2);
      assert false;
    }
    if |b2| < |b1| {
      LongerExtends(b2, k2, b1, k1);
      assert false;
    }
    var c := CacheKey(b1, k1);
    assert c[..|b1|] == b1 && c[..|b2|] == b2;
    assert c[|b1| + 1..] == k1 && c[|b2| + 1..] == k2;
  }

  lemma {:induction false} LongerExtends(b1: string, k1: string, b2: string, k2: string)
    requires CacheKey(b1, k1) == CacheKey(b2, k2) && |b1| < |b2|
    ensures Extends(b2, b1)
  {
    var c := CacheKey(b1, k1);
    assert c[..|b1| + 1] == b1 + "/" && c[..|b2|] == b2;
    assert c[..|b2|][..|b1| + 1] == c[..|b1| + 1];
  }

  ghost predicate EntryOf(d: CompiledDetector, b: Bundle, dt: Detectors) {
    exists key :: key in DetectorMap(b.key, b.detectors, dt) && DetectorMap(b.key, b.detectors, dt)[key] == d
                  && d.cacheKey == CacheKey(b.key, key)
  }

  lemma {:induction false} RuleListEntries(b: Bundle, rules: seq<Rule>, dt: Detectors, r: CompiledRule,
                                           d: CompiledDetector)
    requires r in RuleList(b.key, rules, DetectorMap(b.key, b.detectors, dt)) && d in r.detectors
    ensures EntryOf(d, b, dt) && ValidAction(r.action) && r.bundleKey == b.key
  {
    var compiled := DetectorMap(b.key, b.detectors, dt);
    var front, last := rules[..|rules| - 1], rules[|rules| - 1];
    if r in RuleList(b.key, front, compiled) {
      RuleListEntries(b, front, dt, r, d);
    } else {
      assert r == CompileRule(b.key, last, compiled);
      var i :| 0 <= i < |r.detectors| && r.detectors[i] == d;
      DetectorMapEntries(b.key, b.detectors, dt, last.detectorKeys[i]);
    }
  }

  lemma {:induction false} CompiledEntries(bundles: seq<Bundle>, dt: Detectors, r: CompiledRule, d: CompiledDetector)
    requires r in CompiledRules(bundles, dt) && d in r.detectors
    ensures exists i :: 0 <= i < |bundles| && EntryOf(d, bundles[i], dt)
  {
    var front, last := bundles[..|bundles| - 1], bundles[|bundles| - 1];
    if r in CompiledRules(front, dt) {
      CompiledEntries(front, dt, r, d);
      var i :| 0 <= i < |front| && EntryOf(d, front[i], dt);
      assert EntryOf(d, bundles[i], dt);
    } else {
      RuleListEntries(last, last.rules, dt, r, d);
      assert EntryOf(d, bundles[|bundles| - 1], dt);
    }
  }

  // Bundle keys that are apart make every cache key unambiguous.
  lemma {:induction false} KeysApartFaithful(bundles: seq<Bundle>, dt: Detectors)
    requires KeysApart(bundles)
    ensures Faithful(AllDetectors(CompiledRules(bundles, dt)))
  {
    var rules := CompiledRules(bundles, dt);
    var all := AllDetectors(rules);
    forall a, b | a in all && b in all && a.cacheKey == b.cacheKey ensures a.detector == b.detector {
      FlatMapMembers(rules, DetectorsIn, a);
      FlatMapMembers(rules, DetectorsIn, b);
      var ra :| ra in rules && a in ra.detectors;
      var rb :| rb in rules && b in rb.detectors;
      CompiledEntries(bundles, dt, ra, a);
      CompiledEntries(bundles, dt, rb, b);
      var i :| 0 <= i < |bundles| && EntryOf(a, bundles[i], dt);
      var j :| 0 <= j < |bundles| && EntryOf(b, bundles[j], dt);
      SameEntry(a, b, bundles[i], bundles[j], dt);
      assert i == j;
    }
  }

  lemma {:induction false} SameEntry(a: CompiledDetector, b: CompiledDetector, ba: Bundle, bb: Bundle, dt: Detectors)
    requires EntryOf(a, ba, dt) && EntryOf(b, bb, dt) && a.cacheKey == b.cacheKey
    requires !Extends(ba.key, bb.key) && !Extends(bb.key, ba.key)
    ensures ba.key == bb.key && (ba == bb ==> a == b)
  {
    var ka :| ka in DetectorMap(ba.key, ba.detectors, dt) && DetectorMap(ba.key, ba.detectors, dt)[ka] == a
              && a.cacheKey == CacheKey(ba.key, ka);
    var kb :| kb in DetectorMap(bb.key, bb.detectors, dt) && DetectorMap(bb.key, bb.detectors, dt)[kb] == b
              && b.cacheKey == CacheKey(bb.key, kb);
    CacheKeyInjective(ba.key, ka, bb.key, kb);
  }

  lemma {:induction false} RuleListActions(bundleKey: string, rules: seq<Rule>, compiled: map<string, CompiledDetector>)
    ensures forall r :: r in RuleList(bundleKey, rules, compiled) ==> ValidAction(r.action)
  {
    if rules != [] {
      RuleListActions(bundleKey, rules[..|rules| - 1], compiled);
    }
  }

  lemma {:induction false} CompiledActions(bundles: seq<Bundle>, dt: Detectors)
    requires Compiles(bundles, dt)
    ensures ValidAction(DefaultAction(bundles))
    ensures forall r :: r in CompiledRules(bundles, dt) ==> ValidAction(r.action)
  {
    if bundles != [] {
      var front, last := bundles[..|bundles| - 1], bundles[|bundles| - 1];
      assert forall i :: 0 <= i < |front| ==> front[i] == bundles[i];
      CompiledActions(front, dt);
      RuleListActions(last.key, last.rules, DetectorMap(last.key, last.detectors, dt));
    }
  }

  // The whole chain: any compiled list with keys apart evaluates like a scan, on every request.
  lemma {:induction false} SnapshotRefinesScan(bundles: seq<Bundle>, req: Request, dt: Detectors)
    requires Compiles(bundles, dt) && KeysApart(bundles)
    ensures SameDecision(EvaluatedDecision(SnapshotOf(bundles, dt), req, dt),
                         ScanDecision(SnapshotOf(bundles, dt), req, dt))
  {
    KeysApartFaithful(bundles, dt);
    CompiledActions(bundles, dt);
    EvaluateRefinesScan(SnapshotOf(bundles, dt), req, dt);
  }
}
