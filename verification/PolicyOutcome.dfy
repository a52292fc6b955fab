/** What a list of bundles does to a request, said of its rules, definitions and default actions:
    internal/contexts/policy/domain/snapshot.go:44-155 and
    internal/contexts/detection/domain/regex.go:25-150 together. */
module PolicyOutcome {
  import opened Lists
  import opened Options
  import opened Detection
  import opened Policy
  import opened Evaluation
  import opened PolicyRefinement
  import opened CanonicalMeaning

  // ----- which lists compile -----

  ghost predicate Defined(b: Bundle, key: string) { exists d :: d in b.detectors && d.key == key }

  ghost predicate GoodDefinition(d: Definition, e: Engine) {
    && d.key != "" && !d.kind.OtherKind? && (d.kind.Regex? ==> d.pattern != "")
    && exists pattern :: PatternOf(d, pattern, e) && e.compiles(pattern)
  }

  ghost predicate GoodRule(b: Bundle, r: Rule) {
    && r.key != "" && r.action in {Allow, ShadowLog, Redact, Block}
    && forall key :: key in r.detectorKeys ==> Defined(b, key)
  }

  ghost predicate GoodBundle(b: Bundle, e: Engine) {
    && b.key != "" && b.defaultAction in {Allow, ShadowLog, Redact, Block}
    && (forall d :: d in b.detectors ==> GoodDefinition(d, e))
    && (forall r :: r in b.rules && r.enabled ==> GoodRule(b, r))
  }

  lemma {:induction false} RuleOkExactly(b: Bundle, r: Rule, e: Engine)
    ensures RuleOk(r, DetectorMap(b.key, b.detectors, Real(e))) <==> GoodRule(b, r)
  {
    var m := DetectorMap(b.key, b.detectors, Real(e));
    forall key ensures key in m <==> Defined(b, key) {
      DetectorMapEntries(b.key, b.detectors, Real(e), key);
    }
    assert KeysFound(r.detectorKeys, m) <==> forall key :: key in r.detectorKeys ==> key in m;
  }

  lemma {:induction false} CompilableExactly(d: Definition, e: Engine)
    ensures Compilable(d, e) <==> GoodDefinition(d, e)
  {
    assert PatternOf(d, EffectivePattern(d, e), e);
  }

  lemma {:induction false} BundleOkExactly(b: Bundle, e: Engine)
    ensures BundleOk(b, Real(e)) <==> GoodBundle(b, e)
  {
    forall d ensures Real(e).accepts(d) <==> GoodDefinition(d, e) {
      CompilableExactly(d, e);
    }
    forall r ensures RuleOk(r, DetectorMap(b.key, b.detectors, Real(e))) <==> GoodRule(b, r) {
      RuleOkExactly(b, r, e);
    }
    assert DetectorsOk(b.detectors, Real(e)) <==> forall d :: d in b.detectors ==> Real(e).accepts(d);
    var m := DetectorMap(b.key, b.detectors, Real(e));
    assert RulesOk(b.rules, m) <==> forall r :: r in b.rules && r.enabled ==> RuleOk(r, m);
  }

  // ----- which rules hit -----

  // The definition in force for a key is the last one.
  predicate InForce(defs: seq<Definition>, i: nat, key: string) {
    i < |defs| && defs[i].key == key && forall j :: i < j < |defs| ==> defs[j].key != key
  }

  // Something the rule finds in the request's text.
  ghost predicate FindsThat(b: Bundle, r: Rule, req: Request, e: Engine, f: Finding) {
    exists i: nat :: InForce(b.detectors, i, f.detectorKey) && f.detectorKey in r.detectorKeys
                     && CategoryOf(b.detectors[i], f.category)
                     && Occurs(b.detectors[i], req.text, e, f.start, f.end)
  }

  // The rule is enabled, each part of its scope is open or names the request's, and it finds something.
  ghost predicate RuleHits(b: Bundle, r: Rule, req: Request, e: Engine) {
    && r.enabled
    && (r.scope.routeKey == "" || r.scope.routeKey == req.routeKey)
    && (r.scope.provider == "" || r.scope.provider == req.provider)
    && (r.scope.model == "" || r.scope.model == req.model)
    && (r.scope.direction == "" || r.scope.direction == req.direction)
    && exists f :: FindsThat(b, r, req, e, f)
  }

  lemma {:induction false} MapInForce(bundleKey: string, defs: seq<Definition>, dt: Detectors, key: string)
    returns (i: nat)
    requires key in DetectorMap(bundleKey, defs, dt)
    ensures InForce(defs, i, key)
    ensures DetectorMap(bundleKey, defs, dt)[key].detector == dt.compile(defs[i])
  {
    if defs[|defs| - 1].key == key {
      i := |defs| - 1;
    } else {
      i := MapInForce(bundleKey, defs[..|defs| - 1], dt, key);
    }
  }

  lemma {:induction false} OneInForce(defs: seq<Definition>, i: nat, k: nat, key: string)
    requires InForce(defs, i, key) && InForce(defs, k, key)
    ensures i == k
  {
  }

  lemma {:induction false} DirectMembers(ds: seq<CompiledDetector>, text: string, dt: Detectors, f: Finding)
    ensures f in DirectFindings(ds, text, dt) <==> exists d :: d in ds && f in dt.find(d.detector, text)
  {
    if ds != [] {
      DirectMembers(ds[..|ds| - 1], text, dt, f);
      assert forall d :: d in ds <==> d in ds[..|ds| - 1] || d == ds[|ds| - 1];
    }
  }

  // What a compiled rule finds is what its bundle says it finds.
  lemma {:induction false} RuleFindings(b: Bundle, r: Rule, req: Request, e: Engine, f: Finding)
    requires RuleOk(r, DetectorMap(b.key, b.detectors, Real(e)))
    ensures f in DirectFindings(Pick(r.detectorKeys, DetectorMap(b.key, b.detectors, Real(e))), req.text, Real(e))
            <==> FindsThat(b, r, req, e, f)
  {
    var m := DetectorMap(b.key, b.detectors, Real(e));
    var ds := Pick(r.detectorKeys, m);
    DirectMembers(ds, req.text, Real(e), f);
    if d :| d in ds && f in Real(e).find(d.detector, req.text) {
      var k :| 0 <= k < |r.detectorKeys| && m[r.detectorKeys[k]] == d;
      var i := MapInForce(b.key, b.detectors, Real(e), r.detectorKeys[k]);
      FindingsExactly(b.detectors[i], req.text, e, f);
    }
    if FindsThat(b, r, req, e, f) {
      var i: nat :| InForce(b.detectors, i, f.detectorKey) && f.detectorKey in r.detectorKeys
                    && CategoryOf(b.detectors[i], f.category)
                    && Occurs(b.detectors[i], req.text, e, f.start, f.end);
      FoundByPick(b, r, req, e, f, i);
    }
  }

  lemma {:induction false} FoundByPick(b: Bundle, r: Rule, req: Request, e: Engine, f: Finding, i: nat)
    requires RuleOk(r, DetectorMap(b.key, b.detectors, Real(e)))
    requires InForce(b.detectors, i, f.detectorKey) && f.detectorKey in r.detectorKeys
    requires CategoryOf(b.detectors[i], f.category) && Occurs(b.detectors[i], req.text, e, f.start, f.end)
    ensures exists d :: d in Pick(r.detectorKeys, DetectorMap(b.key, b.detectors, Real(e)))
                        && f in Real(e).find(d.detector, req.text)
  {
    var m := DetectorMap(b.key, b.detectors, Real(e));
    var k :| 0 <= k < |r.detectorKeys| && r.detectorKeys[k] == f.detectorKey;
    var last := MapInForce(b.key, b.detectors, Real(e), f.detectorKey);
    OneInForce(b.detectors, i, last, f.detectorKey);
    FindingsExactly(b.detectors[i], req.text, e, f);
    var d := Pick(r.detectorKeys, m)[k];
    assert f in Real(e).find(d.detector, req.text);
  }

  // The hit that a rule of a bundle leaves.
  ghost predicate Reports(h: RuleHit, b: Bundle, r: Rule, req: Request, e: Engine) {
    && h.bundleKey == b.key && h.ruleKey == r.key && h.severity == r.severity && h.action == r.action
    && forall f :: f in h.findings <==> FindsThat(b, r, req, e, f)
  }

  lemma {:induction false} HitOfRule(b: Bundle, r: Rule, req: Request, e: Engine)
    requires r.enabled && RuleOk(r, DetectorMap(b.key, b.detectors, Real(e)))
    ensures var hit := HitOf(CompileRule(b.key, r, DetectorMap(b.key, b.detectors, Real(e))), req, Real(e));
            if RuleHits(b, r, req, e) then |hit| == 1 && Reports(hit[0], b, r, req, e) else hit == []
  {
    var found := DirectFindings(Pick(r.detectorKeys, DetectorMap(b.key, b.detectors, Real(e))), req.text, Real(e));
    forall f ensures f in found <==> FindsThat(b, r, req, e, f) {
      RuleFindings(b, r, req, e, f);
    }
    assert found != [] ==> found[0] in found;
  }

  ghost predicate HitBy(bundles: seq<Bundle>, req: Request, e: Engine, b: Bundle, r: Rule) {
    b in bundles && r in b.rules && RuleHits(b, r, req, e)
  }

  // Some rule that hits left this report.
  ghost predicate ReportOf(h: RuleHit, bundles: seq<Bundle>, req: Request, e: Engine) {
    exists b, r :: HitBy(bundles, req, e, b, r) && Reports(h, b, r, req, e)
  }

  ghost predicate ReportAmong(hits: multiset<RuleHit>, b: Bundle, r: Rule, req: Request, e: Engine) {
    exists h :: h in hits && Reports(h, b, r, req, e)
  }

  ghost predicate OnlyReports(hits: multiset<RuleHit>, bundles: seq<Bundle>, req: Request, e: Engine) {
    forall h {:trigger ReportOf(h, bundles, req, e)} :: h in hits ==> ReportOf(h, bundles, req, e)
  }

  ghost predicate AllReports(hits: multiset<RuleHit>, bundles: seq<Bundle>, req: Request, e: Engine) {
    forall b, r {:trigger ReportAmong(hits, b, r, req, e)} ::
      HitBy(bundles, req, e, b, r) ==> ReportAmong(hits, b, r, req, e)
  }

  // Every hit is the report of a rule that hits, and every such rule reports.
  lemma {:induction false} ScanHits(bundles: seq<Bundle>, req: Request, e: Engine)
    requires Compiles(bundles, Real(e))
    ensures var hits := multiset(DirectHits(CompiledRules(bundles, Real(e)), req, Real(e)));
            OnlyReports(hits, bundles, req, e) && AllReports(hits, bundles, req, e)
  {
    var hits := DirectHits(CompiledRules(bundles, Real(e)), req, Real(e));
    OnlyRulesReport(bundles, req, e, hits);
    forall b, r | HitBy(bundles, req, e, b, r) ensures ReportAmong(multiset(hits), b, r, req, e) {
      RuleReports(bundles, req, e, b, r);
    }
  }

  lemma {:induction false} OnlyRulesReport(bundles: seq<Bundle>, req: Request, e: Engine, hits: seq<RuleHit>)
    requires hits == DirectHits(CompiledRules(bundles, Real(e)), req, Real(e))
    ensures OnlyReports(multiset(hits), bundles, req, e)
  {
    forall h | h in multiset(hits) ensures ReportOf(h, bundles, req, e) {
      assert h in hits;
      HitReported(bundles, req, e, h);
    }
  }

  lemma {:induction false} RuleOrigin(bundles: seq<Bundle>, dt: Detectors, c: CompiledRule) returns (b: Bundle, r: Rule)
    requires c in CompiledRules(bundles, dt)
    ensures b in bundles && r in b.rules && r.enabled && RuleOk(r, DetectorMap(b.key, b.detectors, dt))
    ensures c == CompileRule(b.key, r, DetectorMap(b.key, b.detectors, dt))
  {
    CompiledMembers(bundles, dt, c);
    b :| b in bundles && c in BundleRules(b, dt);
    var m := DetectorMap(b.key, b.detectors, dt);
    RuleListMembers(b.key, b.rules, m, c);
    r :| r in b.rules && r.enabled && RuleOk(r, m) && CompileRule(b.key, r, m) == c;
  }

  lemma {:induction false} HitReported(bundles: seq<Bundle>, req: Request, e: Engine, h: RuleHit)
    requires h in DirectHits(CompiledRules(bundles, Real(e)), req, Real(e))
    ensures ReportOf(h, bundles, req, e)
  {
    var rules := CompiledRules(bundles, Real(e));
    var f := rule => HitOf(rule, req, Real(e));
    AsFlatMap(rules, req, Real(e), f);
    FlatMapMembers(rules, f, h);
    var c :| c in rules && h in f(c);
    var b, r := RuleOrigin(bundles, Real(e), c);
    HitOfRule(b, r, req, e);
    assert HitBy(bundles, req, e, b, r) && Reports(h, b, r, req, e);
  }

  lemma {:induction false} RuleReports(bundles: seq<Bundle>, req: Request, e: Engine, b: Bundle, r: Rule)
    requires Compiles(bundles, Real(e)) && HitBy(bundles, req, e, b, r)
    ensures ReportAmong(multiset(DirectHits(CompiledRules(bundles, Real(e)), req, Real(e))), b, r, req, e)
  {
    var rules := CompiledRules(bundles, Real(e));
    var m := DetectorMap(b.key, b.detectors, Real(e));
    assert BundleOk(b, Real(e)) && RuleOk(r, m);
    var c := CompileRule(b.key, r, m);
    RuleListMembers(b.key, b.rules, m, c);
    CompiledMembers(bundles, Real(e), c);
    HitOfRule(b, r, req, e);
    var f := rule => HitOf(rule, req, Real(e));
    AsFlatMap(rules, req, Real(e), f);
    var h := HitOf(c, req, Real(e))[0];
    FlatMapMembers(rules, f, h);
    assert h in multiset(DirectHits(rules, req, Real(e))) && Reports(h, b, r, req, e);
  }

  // ----- which action results -----

  // Some default action, or some rule that hits, says so.
  ghost predicate Said(bundles: seq<Bundle>, req: Request, e: Engine, a: Action) {
    || (exists b :: b in bundles && b.defaultAction == a)
    || (exists b, r :: HitBy(bundles, req, e, b, r) && r.action == a)
  }

  predicate Wins(a: Action, block: bool, redact: bool, shadow: bool) { Ranked(a, block, redact, shadow, Allow) }

  ghost predicate HasDefault(bundles: seq<Bundle>, a: Action) { exists b :: b in bundles && b.defaultAction == a }

  // What is decided, said of the bundles and the signal.
  ghost predicate Outcome(bundles: seq<Bundle>, req: Request, e: Engine, d: Decision) {
    var block, redact, shadow := Said(bundles, req, e, Block), Said(bundles, req, e, Redact),
      Said(bundles, req, e, ShadowLog);
    && Wins(d.action, block || Signalled(req.signal, Block), redact || Signalled(req.signal, Redact),
            shadow || Signalled(req.signal, ShadowLog))
    && (d.signalApplied <==>
          || (Signalled(req.signal, Block) && !block)
          || (Signalled(req.signal, Redact) && !block && !redact)
          || (Signalled(req.signal, ShadowLog) && !block && !redact && !shadow))
    && Wins(d.defaultAction, HasDefault(bundles, Block), HasDefault(bundles, Redact), HasDefault(bundles, ShadowLog))
    && OnlyReports(multiset(d.hits), bundles, req, e) && AllReports(multiset(d.hits), bundles, req, e)
    && |d.bundleKeys| == |bundles| && forall i :: 0 <= i < |bundles| ==> d.bundleKeys[i] == bundles[i].key
  }

  lemma {:induction false} StrongestWins(start: Action, actions: seq<Action>)
    requires ValidAction(start) && forall a :: a in actions ==> ValidAction(a)
    ensures Wins(Strongest(start, actions), start == Block || Block in actions, start == Redact || Redact in actions,
                 start == ShadowLog || ShadowLog in actions)
  {
    if actions != [] {
      var front, last := actions[..|actions| - 1], actions[|actions| - 1];
      assert forall a :: a in actions <==> a in front || a == last;
      StrongestWins(start, front);
    }
  }

  lemma {:induction false} DefaultWins(bundles: seq<Bundle>)
    requires forall b :: b in bundles ==> ValidAction(b.defaultAction)
    ensures Wins(DefaultAction(bundles), HasDefault(bundles, Block), HasDefault(bundles, Redact),
                 HasDefault(bundles, ShadowLog))
  {
    if bundles != [] {
      var front, last := bundles[..|bundles| - 1], bundles[|bundles| - 1];
      assert forall b :: b in bundles <==> b in front || b == last;
      DefaultWins(front);
      assert HasDefault(bundles, Block) <==> HasDefault(front, Block) || last.defaultAction == Block;
      assert HasDefault(bundles, Redact) <==> HasDefault(front, Redact) || last.defaultAction == Redact;
      assert HasDefault(bundles, ShadowLog) <==> HasDefault(front, ShadowLog) || last.defaultAction == ShadowLog;
    }
  }

  lemma {:induction false} SignalWinsExactly(signal: Signal, a: Action, block: bool, redact: bool, shadow: bool)
    requires Wins(a, block, redact, shadow)
    ensures Wins(if SignalWins(signal, a) then ModelAction(signal) else a, block || Signalled(signal, Block),
                 redact || Signalled(signal, Redact), shadow || Signalled(signal, ShadowLog))
    ensures SignalWins(signal, a) <==>
            || (Signalled(signal, Block) && !block) || (Signalled(signal, Redact) && !block && !redact)
            || (Signalled(signal, ShadowLog) && !block && !redact && !shadow)
  {
  }

  lemma {:induction false} SaidExactly(bundles: seq<Bundle>, req: Request, e: Engine, a: Action)
    requires Compiles(bundles, Real(e))
    ensures Said(bundles, req, e, a) <==>
            HasDefault(bundles, a) || a in HitActions(DirectHits(CompiledRules(bundles, Real(e)), req, Real(e)))
  {
    var hits := DirectHits(CompiledRules(bundles, Real(e)), req, Real(e));
    ScanHits(bundles, req, e);
    if b, r :| HitBy(bundles, req, e, b, r) && r.action == a {
      SaidIsHit(bundles, req, e, hits, b, r);
    }
    if a in HitActions(hits) {
      var b, r := HitIsSaid(bundles, req, e, hits, a);
    }
  }

  lemma {:induction false} SaidIsHit(bundles: seq<Bundle>, req: Request, e: Engine, hits: seq<RuleHit>, b: Bundle,
                                     r: Rule)
    requires AllReports(multiset(hits), bundles, req, e) && HitBy(bundles, req, e, b, r)
    ensures r.action in HitActions(hits)
  {
    assert ReportAmong(multiset(hits), b, r, req, e);
    var h := ReportFrom(multiset(hits), b, r, req, e);
    FlatMapMembers(hits, ActionIn, r.action);
    assert h in hits && r.action in ActionIn(h);
  }

  lemma {:induction false} HitIsSaid(bundles: seq<Bundle>, req: Request, e: Engine, hits: seq<RuleHit>, a: Action)
    returns (b: Bundle, r: Rule)
    requires OnlyReports(multiset(hits), bundles, req, e) && a in HitActions(hits)
    ensures HitBy(bundles, req, e, b, r) && r.action == a
  {
    FlatMapMembers(hits, ActionIn, a);
    var h :| h in hits && a in ActionIn(h);
    assert ReportOf(h, bundles, req, e) by {
      assert h in multiset(hits);
    }
    b, r := RuleBehind(h, bundles, req, e);
  }

  lemma {:induction false} ReportFrom(hits: multiset<RuleHit>, b: Bundle, r: Rule, req: Request, e: Engine)
    returns (h: RuleHit)
    requires ReportAmong(hits, b, r, req, e)
    ensures h in hits && h.action == r.action
  {
    h :| h in hits && Reports(h, b, r, req, e);
  }

  lemma {:induction false} RuleBehind(h: RuleHit, bundles: seq<Bundle>, req: Request, e: Engine)
    returns (b: Bundle, r: Rule)
    requires ReportOf(h, bundles, req, e)
    ensures HitBy(bundles, req, e, b, r) && r.action == h.action
  {
    b, r :| HitBy(bundles, req, e, b, r) && Reports(h, b, r, req, e);
  }

  lemma {:induction false} KeysOf(bundles: seq<Bundle>)
    ensures |BundleKeys(bundles)| == |bundles|
    ensures forall i :: 0 <= i < |bundles| ==> BundleKeys(bundles)[i] == bundles[i].key
  {
    if bundles != [] {
      KeysOf(bundles[..|bundles| - 1]);
    }
  }

  // With keys apart, evaluating a compiled list comes out as its bundles say.
  lemma {:induction false} DecidedAsSaid(bundles: seq<Bundle>, req: Request, e: Engine)
    requires Compiles(bundles, Real(e)) && KeysApart(bundles)
    ensures Outcome(bundles, req, e, EvaluatedDecision(SnapshotOf(bundles, Real(e)), req, Real(e)))
  {
    var dt, s := Real(e), SnapshotOf(bundles, Real(e));
    var hits := DirectHits(s.rules, req, dt);
    var start := DefaultAction(bundles);
    SnapshotRefinesScan(bundles, req, dt);
    ScanHits(bundles, req, e);
    CompiledActions(bundles, dt);
    ActionsOfHits(s.rules, req, dt);
    StrongestWins(start, HitActions(hits));
    DefaultsValid(bundles, dt);
    DefaultWins(bundles);
    KeysOf(bundles);
    StartsOrHits(bundles, req, e);
    SignalWinsExactly(req.signal, Strongest(start, HitActions(hits)), Said(bundles, req, e, Block),
                      Said(bundles, req, e, Redact), Said(bundles, req, e, ShadowLog));
  }

  lemma {:induction false} DefaultsValid(bundles: seq<Bundle>, dt: Detectors)
    requires Compiles(bundles, dt)
    ensures forall b :: b in bundles ==> ValidAction(b.defaultAction)
  {
    forall b | b in bundles ensures ValidAction(b.defaultAction) {
      var i :| 0 <= i < |bundles| && bundles[i] == b;
      assert BundleOk(bundles[i], dt);
    }
  }

  // The default action stands for the defaults: the strongest of them is what is left to compare.
  lemma {:induction false} StartsOrHits(bundles: seq<Bundle>, req: Request, e: Engine)
    requires Compiles(bundles, Real(e))
    ensures var actions := HitActions(DirectHits(CompiledRules(bundles, Real(e)), req, Real(e)));
            Wins(Strongest(DefaultAction(bundles), actions), Said(bundles, req, e, Block),
                 Said(bundles, req, e, Redact), Said(bundles, req, e, ShadowLog))
  {
    var rules := CompiledRules(bundles, Real(e));
    var actions := HitActions(DirectHits(rules, req, Real(e)));
    DefaultsValid(bundles, Real(e));
    DefaultWins(bundles);
    CompiledActions(bundles, Real(e));
    ActionsOfHits(rules, req, Real(e));
    StrongestWins(DefaultAction(bundles), actions);
    SaidExactly(bundles, req, e, Block);
    SaidExactly(bundles, req, e, Redact);
    SaidExactly(bundles, req, e, ShadowLog);
  }

  // Compiles a list and evaluates a request with it.
  method EvaluateBundles(bundles: seq<Bundle>, req: Request, e: Engine) returns (d: Option<Decision>)
    ensures d.Some? <==> forall b :: b in bundles ==> GoodBundle(b, e)
    ensures d.Some? && KeysApart(bundles) ==> Outcome(bundles, req, e, d.value)
  {
    forall b ensures BundleOk(b, Real(e)) <==> GoodBundle(b, e) {
      BundleOkExactly(b, e);
    }
    assert Compiles(bundles, Real(e)) <==> forall b :: b in bundles ==> BundleOk(b, Real(e));
    var s := CompileSnapshot(bundles, Real(e));
    if s.None? {
      return None;
    }
    var decision := Evaluate(s, req, Real(e));
    if KeysApart(bundles) {
      DecidedAsSaid(bundles, req, e);
    }
    return Some(decision);
  }
}
