/** For which bundle keys the findings cache of internal/contexts/policy/domain/snapshot.go:107-178
    can change a decision. */
module CacheClash {
  import opened Lists
  import opened Detection
  import opened Policy
  import opened Evaluation
  import opened PolicyRefinement

  // Every list of bundles with these keys that compiles evaluates every request like the scan.
  ghost predicate AlwaysRefines(keys: seq<string>) {
    forall bundles: seq<Bundle>, req: Request, e: Engine ::
      BundleKeys(bundles) == keys && Compiles(bundles, Real(e)) ==>
        SameDecision(EvaluatedDecision(SnapshotOf(bundles, Real(e)), req, Real(e)),
                     ScanDecision(SnapshotOf(bundles, Real(e)), req, Real(e)))
  }

  ghost predicate Apart(keys: seq<string>) {
    && (forall i, j :: 0 <= i < j < |keys| ==> keys[i] != keys[j])
    && (forall i, j :: 0 <= i < |keys| && 0 <= j < |keys| ==> !Extends(keys[i], keys[j]))
  }

  // ----- two bundles that share a cache key -----

  const ANYWHERE: Scope := Scope("", "", "", "")

  function Defines(key: string, detectorKey: string, pattern: string): Bundle {
    Bundle(key, "", "", Allow, [Definition(detectorKey, Kind.Regex, pattern, ["secret"])],
           [Rule("rule", true, "", Block, [detectorKey], ANYWHERE)])
  }

  function Empty(key: string): Bundle { Bundle(key, "", "", Allow, [], []) }

  // An engine on which "q" is found at the front of every text and nothing else is found.
  function OnlyQ(): Engine {
    Engine(p => true, (p, t) => if p == "q" then [(0, 1)] else [], (t, h) => true, k => "p")
  }

  function Probe(): Request { Request("", "", "", "", "x", Signal(Allow, Allow, false)) }

  function DetectorFor(detectorKey: string, pattern: string): Detector {
    Detector(detectorKey, pattern, ["secret"], false)
  }

  function RuleFor(key: string, detectorKey: string, pattern: string): CompiledRule {
    CompiledRule(key, "rule", "", Block, ANYWHERE,
                 [CompiledDetector(CacheKey(key, detectorKey), DetectorFor(detectorKey, pattern))])
  }

  lemma {:induction false} CompiledDetectorFor(detectorKey: string, pattern: string)
    requires detectorKey != "" && pattern != ""
    ensures var def := Definition(detectorKey, Kind.Regex, pattern, ["secret"]);
            Compilable(def, OnlyQ()) && Compile(def, OnlyQ()) == DetectorFor(detectorKey, pattern)
  {
    FilterSnoc([], "secret", c => c != "");
    assert [] + ["secret"] == ["secret"];
  }

  lemma {:induction false} OneRule(b: Bundle, d: Detector, dt: Detectors)
    requires |b.detectors| == 1 && dt.accepts(b.detectors[0]) && dt.compile(b.detectors[0]) == d
    requires b == Defines(b.key, b.detectors[0].key, b.detectors[0].pattern) && b.key != ""
    ensures BundleOk(b, dt)
    ensures BundleRules(b, dt)
            == [CompiledRule(b.key, "rule", "", Block, ANYWHERE,
                             [CompiledDetector(CacheKey(b.key, b.detectors[0].key), d)])]
  {
    var def, rule := b.detectors[0], b.rules[0];
    DetectorMapSnoc(b.key, [], def, dt);
    assert [] + [def] == b.detectors && [] + [rule] == b.rules;
    var compiled := DetectorMap(b.key, b.detectors, dt);
    assert compiled == map[def.key := CompiledDetector(CacheKey(b.key, def.key), d)];
    assert RuleOk(rule, compiled);
    RuleListSnoc(b.key, [], rule, compiled);
    assert Pick(rule.detectorKeys, compiled) == [compiled[def.key]];
  }

  // The two defining bundles at their places among empty ones.
  function PlacedAt(keys: seq<string>, lo: nat, hi: nat, dl: string, dh: string, k: nat): (b: Bundle)
    requires k < |keys|
    ensures b.key == keys[k]
  {
    if k == lo then Defines(keys[k], dl, "p") else if k == hi then Defines(keys[k], dh, "q") else Empty(keys[k])
  }

  function Placed(keys: seq<string>, lo: nat, hi: nat, dl: string, dh: string, n: nat): (r: seq<Bundle>)
    requires n <= |keys|
    ensures |r| == n && forall k :: 0 <= k < n ==> r[k] == PlacedAt(keys, lo, hi, dl, dh, k)
  {
    if n == 0 then [] else Placed(keys, lo, hi, dl, dh, n - 1) + [PlacedAt(keys, lo, hi, dl, dh, n - 1)]
  }

  function RulesAt(lo: nat, hi: nat, r1: CompiledRule, r2: CompiledRule, k: nat): seq<CompiledRule> {
    if k == lo then [r1] else if k == hi then [r2] else []
  }

  lemma {:induction false} PlacedRules(keys: seq<string>, lo: nat, hi: nat, dl: string, dh: string, k: nat)
    requires k < |keys| && lo < hi && dl != "" && dh != "" && keys[k] != ""
    ensures BundleOk(PlacedAt(keys, lo, hi, dl, dh, k), Real(OnlyQ()))
    ensures hi < |keys| ==> BundleRules(PlacedAt(keys, lo, hi, dl, dh, k), Real(OnlyQ()))
                            == RulesAt(lo, hi, RuleFor(keys[lo], dl, "p"), RuleFor(keys[hi], dh, "q"), k)
  {
    var b, dt := PlacedAt(keys, lo, hi, dl, dh, k), Real(OnlyQ());
    if k == lo {
      CompiledDetectorFor(dl, "p");
      OneRule(b, DetectorFor(dl, "p"), dt);
    } else if k == hi {
      CompiledDetectorFor(dh, "q");
      OneRule(b, DetectorFor(dh, "q"), dt);
    } else {
      assert BundleRules(b, dt) == [];
    }
  }

  lemma {:induction false} PlacedCompiles(bundles: seq<Bundle>, lo: nat, hi: nat, r1: CompiledRule, r2: CompiledRule,
                                          dt: Detectors)
    requires forall k :: 0 <= k < |bundles| ==> PlacedWell(bundles[k], lo, hi, r1, r2, k, dt)
    ensures Compiles(bundles, dt) && DefaultAction(bundles) == Allow
    ensures CompiledRules(bundles, dt) == RulesUpTo(lo, hi, r1, r2, |bundles|)
  {
    if bundles != [] {
      var front := bundles[..|bundles| - 1];
      assert forall k :: 0 <= k < |front| ==> front[k] == bundles[k];
      PlacedCompiles(front, lo, hi, r1, r2, dt);
      assert PlacedWell(bundles[|bundles| - 1], lo, hi, r1, r2, |bundles| - 1, dt);
    }
  }

  ghost predicate PlacedWell(b: Bundle, lo: nat, hi: nat, r1: CompiledRule, r2: CompiledRule, k: nat, dt: Detectors) {
    BundleOk(b, dt) && b.defaultAction == Allow && BundleRules(b, dt) == RulesAt(lo, hi, r1, r2, k)
  }

  function RulesUpTo(lo: nat, hi: nat, r1: CompiledRule, r2: CompiledRule, n: nat): seq<CompiledRule> {
    if n == 0 then [] else RulesUpTo(lo, hi, r1, r2, n - 1) + RulesAt(lo, hi, r1, r2, n - 1)
  }

  lemma {:induction false} TwoRules(lo: nat, hi: nat, r1: CompiledRule, r2: CompiledRule, n: nat)
    requires lo < hi
    ensures n <= lo ==> RulesUpTo(lo, hi, r1, r2, n) == []
    ensures lo < n <= hi ==> RulesUpTo(lo, hi, r1, r2, n) == [r1]
    ensures hi < n ==> RulesUpTo(lo, hi, r1, r2, n) == [r1, r2]
  {
    if n > 0 {
      TwoRules(lo, hi, r1, r2, n - 1);
    }
  }

  lemma {:induction false} NoPattern(d: Detector)
    ensures d.pattern != "q" ==> Findings(d, "x", OnlyQ()) == []
    ensures d.pattern == "q" && d.categories != [] && !d.checked ==> Findings(d, "x", OnlyQ()) != []
  {
    Detection.OneHit(d, "x", OnlyQ(), (0, 1));
    if d.pattern == "q" && d.categories != [] && !d.checked {
      FindingsIffFires(d, "x", OnlyQ());
      assert (0, 1) in OnlyQ().find("q", "x");
    }
  }

  // A request that only rules without a scope match.
  predicate Plain(req: Request) {
    && req.routeKey == "" && req.provider == "" && req.model == "" && req.direction == ""
    && req.signal == Signal(Allow, Allow, false)
  }

  lemma {:induction false} PlainVisits(rules: seq<CompiledRule>, req: Request)
    requires Plain(req)
    ensures Visited(CandidateScopes(req), rules) == Bucket(rules, ANYWHERE)
  {
    var one := CandidateScopes(req);
    assert [""][1..] == [];
    assert OverDirections("", "", "", [""]) == [ANYWHERE] + [];
    assert OverModels("", "", [""], [""]) == [ANYWHERE] + [];
    assert OverProviders("", [""], [""], [""]) == [ANYWHERE] + [];
    assert one == [ANYWHERE];
    assert one[..0] == [];
    assert Visited([], rules) == [];
  }

  lemma {:induction false} PlainVisitsTwo(r1: CompiledRule, r2: CompiledRule, req: Request)
    requires Plain(req) && r1.scope == ANYWHERE && r2.scope == ANYWHERE
    ensures Visited(CandidateScopes(req), [r1, r2]) == [r1, r2]
  {
    PlainVisits([r1, r2], req);
    BucketSnoc([], r1, ANYWHERE);
    BucketSnoc([r1], r2, ANYWHERE);
    assert [] + [r1] == [r1] && [r1] + [r2] == [r1, r2];
  }

  lemma {:induction false} NoSignal(s: Snapshot, req: Request, action: Action, hits: seq<RuleHit>,
                                    findings: seq<Finding>)
    requires Plain(req)
    ensures Decide(s, req.signal, action, hits, findings).action == action
  {
  }

  // The first bundle's detector finds nothing, and the second one is never asked: what the scan
  // blocks is let through.
  lemma {:induction false} ClashingRules(r1: CompiledRule, r2: CompiledRule, s: Snapshot, req: Request, dt: Detectors)
    requires s.defaultAction == Allow && s.rules == [r1, r2] && Plain(req)
    requires r1.scope == ANYWHERE && r2.scope == ANYWHERE && r2.action == Block
    requires |r1.detectors| == 1 && |r2.detectors| == 1 && r1.detectors[0].cacheKey == r2.detectors[0].cacheKey
    requires dt.find(r1.detectors[0].detector, req.text) == [] && dt.find(r2.detectors[0].detector, req.text) != []
    ensures EvaluatedDecision(s, req, dt).action == Allow
    ensures ScanDecision(s, req, dt).action == Block
  {
    PlainVisitsTwo(r1, r2, req);
    var start := Progress(map[], [], [], Allow);
    var p, hits := VisitAll(start, [r1, r2], req, dt), DirectHits([r1, r2], req, dt);
    FirstMisses(start, r1, r2, req, dt);
    NoSignal(s, req, p.action, p.hits, p.findings);
    ScanSees(r1, r2, req, dt);
    NoSignal(s, req, Block, hits, FindingsOfHits(hits));
  }

  lemma {:induction false} FirstMisses(start: Progress, r1: CompiledRule, r2: CompiledRule, req: Request, dt: Detectors)
    requires start == Progress(map[], [], [], Allow) && r1.scope == ANYWHERE && r2.scope == ANYWHERE
    requires |r1.detectors| == 1 && |r2.detectors| == 1 && r1.detectors[0].cacheKey == r2.detectors[0].cacheKey
    requires dt.find(r1.detectors[0].detector, req.text) == []
    ensures VisitAll(start, [r1, r2], req, dt).action == Allow
  {
    var c1, c2 := r1.detectors[0], r2.detectors[0];
    OneCached(r1.detectors, req.text, dt, map[]);
    OneCached(r2.detectors, req.text, dt, map[c1.cacheKey := []]);
    assert [r1, r2][..1] == [r1] && [r1][..0] == [];
    assert VisitAll(start, [r1], req, dt) == Visit(start, r1, req, dt);
  }

  lemma {:induction false} OneCached(ds: seq<CompiledDetector>, text: string, dt: Detectors, cache: Cache)
    requires |ds| == 1
    ensures CacheAfter(ds, text, dt, cache) == Filled(cache, ds[0], text, dt)
    ensures CachedFindings(ds, text, dt, cache) == Filled(cache, ds[0], text, dt)[ds[0].cacheKey]
    ensures DirectFindings(ds, text, dt) == dt.find(ds[0].detector, text)
  {
    assert ds[..0] == [];
    var found, own := Filled(cache, ds[0], text, dt)[ds[0].cacheKey], dt.find(ds[0].detector, text);
    assert [] + found == found && [] + own == own;
  }

  lemma {:induction false} HitsOfTwo(r1: CompiledRule, r2: CompiledRule, req: Request, dt: Detectors)
    requires HitOf(r1, req, dt) == []
    ensures DirectHits([r1, r2], req, dt) == HitOf(r2, req, dt)
  {
    assert [r1, r2][..1] == [r1] && [r1][..0] == [];
    var none, hits := HitOf(r1, req, dt), HitOf(r2, req, dt);
    assert DirectHits([r1], req, dt) == [] + none == [];
    assert [] + hits == hits;
  }

  lemma {:induction false} HitOfOne(r: CompiledRule, req: Request, dt: Detectors)
    requires r.scope == ANYWHERE && |r.detectors| == 1
    ensures var found := dt.find(r.detectors[0].detector, req.text);
            HitOf(r, req, dt) == if found == [] then [] else [RuleHit(r.bundleKey, r.key, r.severity, r.action, found)]
  {
    OneCached(r.detectors, req.text, dt, map[]);
  }

  lemma {:induction false} OneBlocks(hits: seq<RuleHit>, hit: RuleHit)
    requires hits == [hit] && hit.action == Block
    ensures Strongest(Allow, HitActions(hits)) == Block
  {
    PolicyRefinement.OneHit(hit, Allow);
  }

  lemma {:induction false} ScanSees(r1: CompiledRule, r2: CompiledRule, req: Request, dt: Detectors)
    requires r1.scope == ANYWHERE && r2.scope == ANYWHERE && r2.action == Block
    requires |r1.detectors| == 1 && |r2.detectors| == 1
    requires dt.find(r1.detectors[0].detector, req.text) == [] && dt.find(r2.detectors[0].detector, req.text) != []
    ensures Strongest(Allow, HitActions(DirectHits([r1, r2], req, dt))) == Block
  {
    HitOfOne(r1, req, dt);
    HitOfOne(r2, req, dt);
    HitsOfTwo(r1, r2, req, dt);
    OneBlocks(HitOf(r2, req, dt), HitOf(r2, req, dt)[0]);
  }

  // ----- exactly which keys -----

  // Detector keys under which two bundles collide.
  lemma {:induction false} SharedKey(lo: string, hi: string) returns (dl: string, dh: string)
    requires lo == hi || Extends(hi, lo) || Extends(lo, hi)
    ensures dl != "" && dh != "" && CacheKey(lo, dl) == CacheKey(hi, dh)
  {
    dl, dh := "d", "d";
    if Extends(hi, lo) {
      dl := hi[|lo| + 1..] + "/d";
      assert hi == (lo + "/") + hi[|lo| + 1..];
    } else if Extends(lo, hi) {
      dh := lo[|hi| + 1..] + "/d";
      assert lo == (hi + "/") + lo[|hi| + 1..];
    }
  }

  // Keys that are not apart have bundles that compile and a request that the scan blocks and the
  // cached evaluation allows.
  lemma {:induction false} ClashChangesAction(keys: seq<string>) returns (bundles: seq<Bundle>, req: Request, e: Engine)
    requires (forall k :: k in keys ==> k != "") && !Apart(keys)
    ensures BundleKeys(bundles) == keys && Compiles(bundles, Real(e))
    ensures EvaluatedDecision(SnapshotOf(bundles, Real(e)), req, Real(e)).action == Allow
    ensures ScanDecision(SnapshotOf(bundles, Real(e)), req, Real(e)).action == Block
  {
    var lo, hi := ClashingPlaces(keys);
    var dl, dh := SharedKey(keys[lo], keys[hi]);
    bundles, req, e := Placed(keys, lo, hi, dl, dh, |keys|), Probe(), OnlyQ();
    var r1, r2 := RuleFor(keys[lo], dl, "p"), RuleFor(keys[hi], dh, "q");
    forall k | 0 <= k < |bundles| ensures PlacedWell(bundles[k], lo, hi, r1, r2, k, Real(e)) {
      assert keys[k] in keys;
      PlacedRules(keys, lo, hi, dl, dh, k);
    }
    PlacedCompiles(bundles, lo, hi, r1, r2, Real(e));
    TwoRules(lo, hi, r1, r2, |keys|);
    KeysOf(bundles);
    assert BundleKeys(bundles) == keys;
    NoPattern(r1.detectors[0].detector);
    NoPattern(r2.detectors[0].detector);
    ClashingRules(r1, r2, SnapshotOf(bundles, Real(e)), req, Real(e));
  }

  lemma {:induction false} ClashingPlaces(keys: seq<string>) returns (lo: nat, hi: nat)
    requires !Apart(keys)
    ensures lo < hi < |keys| && (keys[lo] == keys[hi] || Extends(keys[hi], keys[lo]) || Extends(keys[lo], keys[hi]))
  {
    if i, j :| 0 <= i < j < |keys| && keys[i] == keys[j] {
      lo, hi := i, j;
    } else {
      var i, j :| 0 <= i < |keys| && 0 <= j < |keys| && Extends(keys[i], keys[j]);
      assert |keys[i]| > |keys[j]|;
      lo, hi := if i < j then i else j, if i < j then j else i;
    }
  }

  lemma {:induction false} KeysOf(bundles: seq<Bundle>)
    ensures |BundleKeys(bundles)| == |bundles|
    ensures forall i :: 0 <= i < |bundles| ==> BundleKeys(bundles)[i] == bundles[i].key
  {
    if bundles != [] {
      KeysOf(bundles[..|bundles| - 1]);
    }
  }

  // The findings cache never changes a decision if and only if the bundle keys are distinct and none
  // of them starts with another one and a slash.
  lemma {:induction false} CacheIsSafeExactly(keys: seq<string>)
    requires forall k :: k in keys ==> k != ""
    ensures AlwaysRefines(keys) <==> Apart(keys)
  {
    if Apart(keys) {
      forall bundles: seq<Bundle>, req: Request, e: Engine
        | BundleKeys(bundles) == keys && Compiles(bundles, Real(e))
        ensures SameDecision(EvaluatedDecision(SnapshotOf(bundles, Real(e)), req, Real(e)),
                             ScanDecision(SnapshotOf(bundles, Real(e)), req, Real(e)))
      {
        KeysOf(bundles);
        SnapshotRefinesScan(bundles, req, Real(e));
      }
    } else {
      var bundles, req, e := ClashChangesAction(keys);
    }
  }
}
