/** What a list of bundles decides depends only on what its canonical form says:
    internal/contexts/policy/domain/snapshot.go:44-155 and 213-276 together. */
module CanonicalMeaning {
  import opened Lists
  import opened Detection
  import opened Policy
  import opened Evaluation
  import opened PolicyRefinement
  import opened Canonical

  // ----- the meaning, read off the values -----

  ghost predicate DefFires(d: DefValue, text: string, e: Engine) {
    Fires(EffectivePattern(Definition(d.key, d.kind, d.pattern, []), e), d.kind.PaymentCard?, text, e)
  }

  ghost predicate RuleFires(v: BundleValue, r: RuleValue, req: Request, e: Engine) {
    && r.enabled && MatchesScope(r.scope, req)
    && exists d :: d in v.detectors && d.key in r.detectorKeys && DefFires(d, req.text, e)
  }

  // An action a bundle puts forward for a request.
  ghost predicate Offers(v: BundleValue, a: Action, req: Request, e: Engine) {
    a == v.defaultAction || exists r :: r in v.rules && r.action == a && RuleFires(v, r, req, e)
  }

  ghost predicate Offered(values: multiset<BundleValue>, a: Action, req: Request, e: Engine) {
    a == Allow || exists v :: v in values && Offers(v, a, req, e)
  }

  ghost predicate ValueOk(v: BundleValue, e: Engine) {
    && v.key != "" && ValidAction(v.defaultAction)
    && (forall d :: d in v.detectors ==> AcceptedValue(d, e))
    && (forall r :: r in v.rules && r.enabled ==>
          r.key != "" && ValidAction(r.action)
          && forall k :: k in r.detectorKeys ==> exists d :: d in v.detectors && d.key == k)
  }

  // ----- members of a bundle and of its value -----

  lemma {:induction false} DefMembers(b: Bundle)
    ensures forall d :: d in b.detectors ==> DefValueOf(d) in BundleValueOf(b).detectors
    ensures forall v :: v in BundleValueOf(b).detectors ==> exists d :: d in b.detectors && DefValueOf(d) == v
  {
    forall v ensures v in BundleValueOf(b).detectors <==> exists d :: d in b.detectors && DefValueOf(d) == v {
      ImageMembers(b.detectors, DefValueOf, v);
    }
  }

  lemma {:induction false} RuleMembers(b: Bundle)
    ensures forall r :: r in b.rules ==> RuleValueOf(r) in BundleValueOf(b).rules
    ensures forall v :: v in BundleValueOf(b).rules ==> exists r :: r in b.rules && RuleValueOf(r) == v
  {
    forall v ensures v in BundleValueOf(b).rules <==> exists r :: r in b.rules && RuleValueOf(r) == v {
      ImageMembers(b.rules, RuleValueOf, v);
    }
  }

  lemma {:induction false} BundleMembers(bundles: seq<Bundle>)
    ensures forall b :: b in bundles ==> BundleValueOf(b) in Values(bundles)
    ensures forall v :: v in Values(bundles) ==> exists b :: b in bundles && BundleValueOf(b) == v
  {
    forall v ensures v in Values(bundles) <==> exists b :: b in bundles && BundleValueOf(b) == v {
      ImageMembers(bundles, BundleValueOf, v);
    }
  }

  lemma {:induction false} KeyByValue(b: Bundle, key: string)
    ensures HasKey(b.detectors, key) <==> exists v :: v in BundleValueOf(b).detectors && v.key == key
  {
    DefMembers(b);
    if HasKey(b.detectors, key) {
      var d :| d in b.detectors && d.key == key;
      assert DefValueOf(d).key == key;
    }
  }

  lemma {:induction false} RuleOkByValue(b: Bundle, r: Rule, e: Engine)
    requires r in b.rules
    ensures RuleOk(r, DetectorMap(b.key, b.detectors, Real(e)))
            <==> r.key != "" && ValidAction(r.action)
                 && forall k :: k in RuleValueOf(r).detectorKeys ==>
                      exists d :: d in BundleValueOf(b).detectors && d.key == k
  {
    forall k ensures k in DetectorMap(b.key, b.detectors, Real(e))
                     <==> exists d :: d in BundleValueOf(b).detectors && d.key == k {
      DetectorMapEntries(b.key, b.detectors, Real(e), k);
      KeyByValue(b, k);
    }
    var m := DetectorMap(b.key, b.detectors, Real(e));
    assert KeysFound(r.detectorKeys, m) <==> forall k :: k in r.detectorKeys ==> k in m;
    assert forall k :: k in RuleValueOf(r).detectorKeys <==> k in r.detectorKeys;
  }

  predicate AcceptedValue(v: DefValue, e: Engine) { Compilable(Definition(v.key, v.kind, v.pattern, []), e) }

  lemma {:induction false} DetectorsOkByValue(b: Bundle, e: Engine)
    ensures DetectorsOk(b.detectors, Real(e)) <==> forall v :: v in BundleValueOf(b).detectors ==> AcceptedValue(v, e)
  {
    if DetectorsOk(b.detectors, Real(e)) {
      forall v | v in BundleValueOf(b).detectors ensures AcceptedValue(v, e) {
        var d := ImageOrigin(b.detectors, DefValueOf, v);
        assert Real(e).accepts(d);
      }
    } else {
      var i :| 0 <= i < |b.detectors| && !Real(e).accepts(b.detectors[i]);
      var v := DefValueOf(b.detectors[i]);
      ImageMembers(b.detectors, DefValueOf, v);
      assert v in BundleValueOf(b).detectors && !AcceptedValue(v, e);
    }
  }

  lemma {:induction false} RulesOkByValue(b: Bundle, e: Engine)
    ensures var v := BundleValueOf(b);
            RulesOk(b.rules, DetectorMap(b.key, b.detectors, Real(e))) <==>
            forall r :: r in v.rules && r.enabled ==>
              r.key != "" && ValidAction(r.action)
              && forall k :: k in r.detectorKeys ==> exists d :: d in v.detectors && d.key == k
  {
    RuleMembers(b);
    forall r | r in b.rules
      ensures RuleOk(r, DetectorMap(b.key, b.detectors, Real(e)))
              <==> r.key != "" && ValidAction(r.action)
                   && forall k :: k in RuleValueOf(r).detectorKeys ==>
                        exists d :: d in BundleValueOf(b).detectors && d.key == k
    {
      RuleOkByValue(b, r, e);
    }
  }

  lemma {:induction false} BundleOkByValue(b: Bundle, e: Engine)
    ensures BundleOk(b, Real(e)) <==> ValueOk(BundleValueOf(b), e)
  {
    DetectorsOkByValue(b, e);
    RulesOkByValue(b, e);
  }

  lemma {:induction false} CompilesByValue(bundles: seq<Bundle>, e: Engine)
    ensures Compiles(bundles, Real(e)) <==> forall v :: v in Values(bundles) ==> ValueOk(v, e)
  {
    if Compiles(bundles, Real(e)) {
      forall v | v in Values(bundles) ensures ValueOk(v, e) {
        var b := ImageOrigin(bundles, BundleValueOf, v);
        BundleOkByValue(b, e);
      }
    } else {
      var i :| 0 <= i < |bundles| && !BundleOk(bundles[i], Real(e));
      BundleOkByValue(bundles[i], e);
      ImageMembers(bundles, BundleValueOf, BundleValueOf(bundles[i]));
    }
  }

  // ----- which compiled rules there are, and when they hit -----

  lemma {:induction false} RuleListMembers(bundleKey: string, rules: seq<Rule>,
                                           compiled: map<string, CompiledDetector>, c: CompiledRule)
    ensures c in RuleList(bundleKey, rules, compiled) <==>
            exists r :: r in rules && r.enabled && RuleOk(r, compiled) && CompileRule(bundleKey, r, compiled) == c
  {
    if rules != [] {
      RuleListMembers(bundleKey, rules[..|rules| - 1], compiled, c);
      assert forall r :: r in rules <==> r in rules[..|rules| - 1] || r == rules[|rules| - 1];
    }
  }

  lemma {:induction false} CompiledMembers(bundles: seq<Bundle>, dt: Detectors, c: CompiledRule)
    ensures c in CompiledRules(bundles, dt) <==> exists b :: b in bundles && c in BundleRules(b, dt)
  {
    if bundles != [] {
      CompiledMembers(bundles[..|bundles| - 1], dt, c);
      assert forall b :: b in bundles <==> b in bundles[..|bundles| - 1] || b == bundles[|bundles| - 1];
    }
  }

  lemma {:induction false} DirectNonEmpty(ds: seq<CompiledDetector>, text: string, dt: Detectors)
    ensures DirectFindings(ds, text, dt) != [] <==> exists d :: d in ds && dt.find(d.detector, text) != []
  {
    if ds != [] {
      DirectNonEmpty(ds[..|ds| - 1], text, dt);
      assert forall d :: d in ds <==> d in ds[..|ds| - 1] || d == ds[|ds| - 1];
    }
  }

  ghost predicate UniqueDetectors(v: BundleValue) {
    forall x, y :: x in v.detectors && y in v.detectors && x.key == y.key ==> x == y
  }

  lemma {:induction false} DetectorFires(b: Bundle, d: Definition, text: string, e: Engine)
    requires d in b.detectors && UniqueDetectors(BundleValueOf(b))
    ensures var m := DetectorMap(b.key, b.detectors, Real(e));
            d.key in m && (Real(e).find(m[d.key].detector, text) != [] <==> DefFires(DefValueOf(d), text, e))
  {
    DetectorMapEntries(b.key, b.detectors, Real(e), d.key);
    assert HasKey(b.detectors, d.key);
    var m := DetectorMap(b.key, b.detectors, Real(e));
    var o :| o in b.detectors && o.key == d.key
             && m[d.key] == CompiledDetector(CacheKey(b.key, d.key), Real(e).compile(o));
    DefMembers(b);
    assert DefValueOf(o) == DefValueOf(d);
    FindingsIffFires(Compile(o, e), text, e);
  }

  // A compiled rule finds something exactly when its value fires.
  lemma {:induction false} CompiledRuleFires(b: Bundle, r: Rule, req: Request, e: Engine)
    requires r in b.rules && r.enabled && UniqueDetectors(BundleValueOf(b))
    requires RuleOk(r, DetectorMap(b.key, b.detectors, Real(e)))
    ensures HitOf(CompileRule(b.key, r, DetectorMap(b.key, b.detectors, Real(e))), req, Real(e)) != []
            <==> RuleFires(BundleValueOf(b), RuleValueOf(r), req, e)
  {
    var ds := CompileRule(b.key, r, DetectorMap(b.key, b.detectors, Real(e))).detectors;
    DirectNonEmpty(ds, req.text, Real(e));
    if DirectFindings(ds, req.text, Real(e)) != [] {
      var d :| d in ds && Real(e).find(d.detector, req.text) != [];
      FindingDetector(b, r, req.text, e, d);
    } else if v :| v in BundleValueOf(b).detectors && v.key in RuleValueOf(r).detectorKeys && DefFires(v, req.text, e) {
      FiringDetector(b, r, req.text, e, v);
    }
  }

  lemma {:induction false} FindingDetector(b: Bundle, r: Rule, text: string, e: Engine, d: CompiledDetector)
    requires UniqueDetectors(BundleValueOf(b)) && RuleOk(r, DetectorMap(b.key, b.detectors, Real(e)))
    requires d in Pick(r.detectorKeys, DetectorMap(b.key, b.detectors, Real(e)))
    requires Real(e).find(d.detector, text) != []
    ensures exists v :: v in BundleValueOf(b).detectors && v.key in RuleValueOf(r).detectorKeys && DefFires(v, text, e)
  {
    var m := DetectorMap(b.key, b.detectors, Real(e));
    var i :| 0 <= i < |r.detectorKeys| && m[r.detectorKeys[i]] == d;
    var key := r.detectorKeys[i];
    DetectorMapEntries(b.key, b.detectors, Real(e), key);
    var def :| def in b.detectors && def.key == key;
    DetectorFires(b, def, text, e);
    ImageMembers(b.detectors, DefValueOf, DefValueOf(def));
    assert DefValueOf(def).key in RuleValueOf(r).detectorKeys;
  }

  lemma {:induction false} FiringDetector(b: Bundle, r: Rule, text: string, e: Engine, v: DefValue)
    requires UniqueDetectors(BundleValueOf(b)) && RuleOk(r, DetectorMap(b.key, b.detectors, Real(e)))
    requires v in BundleValueOf(b).detectors && v.key in RuleValueOf(r).detectorKeys && DefFires(v, text, e)
    ensures exists d :: d in Pick(r.detectorKeys, DetectorMap(b.key, b.detectors, Real(e)))
                        && Real(e).find(d.detector, text) != []
  {
    var m := DetectorMap(b.key, b.detectors, Real(e));
    var def := ImageOrigin(b.detectors, DefValueOf, v);
    DetectorFires(b, def, text, e);
    var i :| 0 <= i < |r.detectorKeys| && r.detectorKeys[i] == v.key;
    assert Pick(r.detectorKeys, m)[i] == m[v.key];
  }

  lemma {:induction false} HitMembers(rules: seq<CompiledRule>, req: Request, dt: Detectors, a: Action)
    ensures a in HitActions(DirectHits(rules, req, dt))
            <==> exists c :: c in rules && c.action == a && HitOf(c, req, dt) != []
  {
    var hits := DirectHits(rules, req, dt);
    var f := rule => HitOf(rule, req, dt);
    AsFlatMap(rules, req, dt, f);
    FlatMapMembers(hits, ActionIn, a);
    if a in HitActions(hits) {
      var h :| h in hits && a in ActionIn(h);
      FlatMapMembers(rules, f, h);
    }
    if c :| c in rules && c.action == a && HitOf(c, req, dt) != [] {
      FlatMapMembers(rules, f, HitOf(c, req, dt)[0]);
      assert HitOf(c, req, dt)[0] in hits && a in ActionIn(HitOf(c, req, dt)[0]);
    }
  }

  // ----- the action a list reaches -----

  ghost predicate UniqueDetectorKeys(values: multiset<BundleValue>) {
    forall v :: v in values ==> UniqueDetectors(v)
  }

  ghost function ScanAction(bundles: seq<Bundle>, req: Request, dt: Detectors): Action {
    Strongest(DefaultAction(bundles), HitActions(DirectHits(CompiledRules(bundles, dt), req, dt)))
  }

  lemma {:induction false} DefaultIsStrongest(bundles: seq<Bundle>)
    ensures var d := DefaultAction(bundles);
            && (d == Allow || exists b :: b in bundles && b.defaultAction == d)
            && forall b :: b in bundles ==> Priority(b.defaultAction) <= Priority(d)
  {
    if bundles != [] {
      DefaultIsStrongest(bundles[..|bundles| - 1]);
      assert forall b :: b in bundles <==> b in bundles[..|bundles| - 1] || b == bundles[|bundles| - 1];
    }
  }

  // Every hitting rule is an offer.
  lemma {:induction false} HitIsOffered(bundles: seq<Bundle>, req: Request, e: Engine, c: CompiledRule)
    requires UniqueDetectorKeys(Values(bundles))
    requires c in CompiledRules(bundles, Real(e)) && HitOf(c, req, Real(e)) != []
    ensures Offered(Values(bundles), c.action, req, e)
  {
    CompiledMembers(bundles, Real(e), c);
    var b :| b in bundles && c in BundleRules(b, Real(e));
    var m := DetectorMap(b.key, b.detectors, Real(e));
    RuleListMembers(b.key, b.rules, m, c);
    var r :| r in b.rules && r.enabled && RuleOk(r, m) && CompileRule(b.key, r, m) == c;
    BundleMembers(bundles);
    CompiledRuleFires(b, r, req, e);
    RuleMembers(b);
    assert RuleValueOf(r) in BundleValueOf(b).rules;
    assert Offers(BundleValueOf(b), c.action, req, e);
  }

  // Every offer that is not a default comes from a hitting rule.
  lemma {:induction false} OfferHits(bundles: seq<Bundle>, req: Request, e: Engine, v: BundleValue, r: RuleValue)
    requires Compiles(bundles, Real(e)) && UniqueDetectorKeys(Values(bundles))
    requires v in Values(bundles) && r in v.rules && RuleFires(v, r, req, e)
    ensures r.action in HitActions(DirectHits(CompiledRules(bundles, Real(e)), req, Real(e)))
  {
    BundleMembers(bundles);
    var b :| b in bundles && BundleValueOf(b) == v;
    RuleMembers(b);
    var rule :| rule in b.rules && RuleValueOf(rule) == r;
    var m := DetectorMap(b.key, b.detectors, Real(e));
    assert BundleOk(b, Real(e));
    CompiledRuleFires(b, rule, req, e);
    var c := CompileRule(b.key, rule, m);
    RuleListMembers(b.key, b.rules, m, c);
    CompiledMembers(bundles, Real(e), c);
    HitMembers(CompiledRules(bundles, Real(e)), req, Real(e), r.action);
  }

  // The scan reaches the strongest of the offers, which only the values decide.
  lemma {:induction false} ScanActionIsStrongest(bundles: seq<Bundle>, req: Request, e: Engine)
    requires Compiles(bundles, Real(e)) && UniqueDetectorKeys(Values(bundles))
    ensures var a := ScanAction(bundles, req, Real(e));
            && Offered(Values(bundles), a, req, e)
            && forall x :: Offered(Values(bundles), x, req, e) ==> Priority(x) <= Priority(a)
  {
    var rules := CompiledRules(bundles, Real(e));
    var actions := HitActions(DirectHits(rules, req, Real(e)));
    var a := ScanAction(bundles, req, Real(e));
    StrongestIs(DefaultAction(bundles), actions);
    DefaultIsStrongest(bundles);
    if a in actions {
      HitMembers(rules, req, Real(e), a);
      var c :| c in rules && c.action == a && HitOf(c, req, Real(e)) != [];
      HitIsOffered(bundles, req, e, c);
    } else if a != Allow {
      var b :| b in bundles && b.defaultAction == a;
      ImageMembers(bundles, BundleValueOf, BundleValueOf(b));
      assert Offers(BundleValueOf(b), a, req, e);
    }
    forall x | Offered(Values(bundles), x, req, e) ensures Priority(x) <= Priority(a) {
      if x != Allow {
        var v :| v in Values(bundles) && Offers(v, x, req, e);
        if x == v.defaultAction {
          var b := ImageOrigin(bundles, BundleValueOf, v);
        } else {
          var r :| r in v.rules && r.action == x && RuleFires(v, r, req, e);
          OfferHits(bundles, req, e, v, r);
        }
      }
    }
  }

  lemma {:induction false} ScanActionValid(bundles: seq<Bundle>, req: Request, dt: Detectors)
    requires Compiles(bundles, dt)
    ensures ValidAction(ScanAction(bundles, req, dt))
  {
    var rules := CompiledRules(bundles, dt);
    CompiledActions(bundles, dt);
    ActionsOfHits(rules, req, dt);
    StrongestIs(DefaultAction(bundles), HitActions(DirectHits(rules, req, dt)));
  }

  lemma {:induction false} SameDefault(b1: seq<Bundle>, b2: seq<Bundle>, dt: Detectors)
    requires Values(b1) == Values(b2) && Compiles(b1, dt) && Compiles(b2, dt)
    ensures DefaultAction(b1) == DefaultAction(b2)
  {
    DefaultNotWeaker(b1, b2);
    DefaultNotWeaker(b2, b1);
    CompiledActions(b1, dt);
    CompiledActions(b2, dt);
  }

  lemma {:induction false} DefaultNotWeaker(b1: seq<Bundle>, b2: seq<Bundle>)
    requires Values(b1) == Values(b2)
    ensures Priority(DefaultAction(b1)) <= Priority(DefaultAction(b2))
  {
    DefaultIsStrongest(b1);
    DefaultIsStrongest(b2);
    if DefaultAction(b1) != Allow {
      var b :| b in b1 && b.defaultAction == DefaultAction(b1);
      ImageMembers(b1, BundleValueOf, BundleValueOf(b));
      var o := ImageOrigin(b2, BundleValueOf, BundleValueOf(b));
      assert o.defaultAction == b.defaultAction;
    }
  }

  lemma {:induction false} SameScanAction(b1: seq<Bundle>, b2: seq<Bundle>, req: Request, e: Engine)
    requires Values(b1) == Values(b2) && UniqueDetectorKeys(Values(b1))
    requires Compiles(b1, Real(e)) && Compiles(b2, Real(e))
    ensures ScanAction(b1, req, Real(e)) == ScanAction(b2, req, Real(e))
  {
    ScanActionIsStrongest(b1, req, e);
    ScanActionIsStrongest(b2, req, e);
    ScanActionValid(b1, req, Real(e));
    ScanActionValid(b2, req, Real(e));
    StrongestUnique(ScanAction(b1, req, Real(e)), ScanAction(b2, req, Real(e)));
  }

  // ----- disabled rules and bundle keys -----

  function ActiveBundles(bundles: seq<Bundle>): (r: seq<Bundle>)
    ensures |r| == |bundles| && forall i :: 0 <= i < |r| ==> r[i] == Active(bundles[i])
  {
    if bundles == [] then [] else ActiveBundles(bundles[..|bundles| - 1]) + [Active(bundles[|bundles| - 1])]
  }

  lemma {:induction false} ActiveRuleList(bundleKey: string, rules: seq<Rule>, compiled: map<string, CompiledDetector>)
    ensures RuleList(bundleKey, ActiveRules(rules), compiled) == RuleList(bundleKey, rules, compiled)
  {
    if rules != [] {
      var front, last := rules[..|rules| - 1], rules[|rules| - 1];
      ActiveRuleList(bundleKey, front, compiled);
      var kept, list := ActiveRules(front), RuleList(bundleKey, front, compiled);
      if last.enabled {
        RuleListSnoc(bundleKey, kept, last, compiled);
      } else {
        assert kept + [] == kept && list + [] == list;
      }
    }
  }

  lemma {:induction false} ActiveMembers(rules: seq<Rule>, r: Rule)
    ensures r in ActiveRules(rules) <==> r in rules && r.enabled
  {
    if rules != [] {
      ActiveMembers(rules[..|rules| - 1], r);
    }
  }

  lemma {:induction false} ActiveRulesOk(rules: seq<Rule>, compiled: map<string, CompiledDetector>)
    ensures RulesOk(ActiveRules(rules), compiled) <==> RulesOk(rules, compiled)
  {
    var active := ActiveRules(rules);
    forall r ensures r in active <==> r in rules && r.enabled {
      ActiveMembers(rules, r);
    }
    assert RulesOk(rules, compiled) <==> forall r :: r in rules && r.enabled ==> RuleOk(r, compiled);
    assert RulesOk(active, compiled) <==> forall r :: r in active && r.enabled ==> RuleOk(r, compiled);
  }

  lemma {:induction false} ActiveBundle(b: Bundle, dt: Detectors)
    ensures BundleRules(Active(b), dt) == BundleRules(b, dt)
    ensures BundleOk(Active(b), dt) <==> BundleOk(b, dt)
  {
    ActiveRuleList(b.key, b.rules, DetectorMap(b.key, b.detectors, dt));
    ActiveRulesOk(b.rules, DetectorMap(b.key, b.detectors, dt));
  }

  lemma {:induction false} ActiveParts(bundles: seq<Bundle>, dt: Detectors)
    ensures CompiledRules(ActiveBundles(bundles), dt) == CompiledRules(bundles, dt)
    ensures DefaultAction(ActiveBundles(bundles)) == DefaultAction(bundles)
    ensures BundleKeys(ActiveBundles(bundles)) == BundleKeys(bundles)
  {
    if bundles != [] {
      var front, last := bundles[..|bundles| - 1], bundles[|bundles| - 1];
      ActiveParts(front, dt);
      ActiveBundle(last, dt);
      BundlesSnoc(ActiveBundles(front), Active(last), dt);
    }
  }

  // A snapshot knows nothing of disabled rules.
  lemma {:induction false} ActiveSnapshot(bundles: seq<Bundle>, dt: Detectors)
    ensures SnapshotOf(ActiveBundles(bundles), dt) == SnapshotOf(bundles, dt)
    ensures Compiles(ActiveBundles(bundles), dt) <==> Compiles(bundles, dt)
  {
    ActiveParts(bundles, dt);
    forall i | 0 <= i < |bundles| ensures BundleOk(ActiveBundles(bundles)[i], dt) <==> BundleOk(bundles[i], dt) {
      ActiveBundle(bundles[i], dt);
    }
  }

  function KeyOf(b: Bundle): string { b.key }

  ghost predicate DistinctKeys(bundles: seq<Bundle>) {
    forall i, j :: 0 <= i < j < |bundles| ==> bundles[i].key != bundles[j].key
  }

  lemma {:induction false} DistinctCounts(bundles: seq<Bundle>, k: string)
    requires DistinctKeys(bundles)
    ensures Image(bundles, KeyOf)[k] <= 1
  {
    if bundles != [] {
      var front, last := bundles[..|bundles| - 1], bundles[|bundles| - 1];
      DistinctCounts(front, k);
      if k in Image(front, KeyOf) {
        var b := ImageOrigin(front, KeyOf, k);
        var i :| 0 <= i < |front| && front[i] == b;
        assert bundles[i].key != last.key;
      }
    }
  }

  lemma {:induction false} CountsDistinct(bundles: seq<Bundle>)
    requires forall k :: Image(bundles, KeyOf)[k] <= 1
    ensures DistinctKeys(bundles)
  {
    if bundles != [] {
      var front, last := bundles[..|bundles| - 1], bundles[|bundles| - 1];
      forall k ensures Image(front, KeyOf)[k] <= 1 {
        assert Image(front, KeyOf)[k] <= Image(bundles, KeyOf)[k];
      }
      CountsDistinct(front);
      forall i | 0 <= i < |front| ensures bundles[i].key != last.key {
        ImageMembers(front, KeyOf, KeyOf(front[i]));
        assert Image(bundles, KeyOf)[last.key] == Image(front, KeyOf)[last.key] + 1;
      }
    }
  }

  lemma {:induction false} SameKeys(a: seq<Bundle>, b: seq<Bundle>)
    requires |a| == |b| && forall i :: 0 <= i < |a| ==> a[i].key == b[i].key
    ensures Image(a, KeyOf) == Image(b, KeyOf)
  {
    if a != [] {
      SameKeys(a[..|a| - 1], b[..|b| - 1]);
    }
  }

  lemma {:induction false} KeyIndex(a: seq<Bundle>, b: seq<Bundle>, i: nat) returns (k: nat)
    requires i < |b| && Image(a, KeyOf) == Image(b, KeyOf)
    ensures k < |a| && a[k].key == b[i].key
  {
    ImageMembers(b, KeyOf, KeyOf(b[i]));
    var x := ImageOrigin(a, KeyOf, KeyOf(b[i]));
    k :| 0 <= k < |a| && a[k] == x;
  }

  lemma {:induction false} KeysApartByImage(a: seq<Bundle>, b: seq<Bundle>)
    requires KeysApart(a) && Image(a, KeyOf) == Image(b, KeyOf)
    ensures KeysApart(b)
  {
    forall k ensures Image(b, KeyOf)[k] <= 1 {
      DistinctCounts(a, k);
    }
    CountsDistinct(b);
    forall i, j | 0 <= i < |b| && 0 <= j < |b| ensures !Extends(b[i].key, b[j].key) {
      var k := KeyIndex(a, b, i);
      var l := KeyIndex(a, b, j);
      assert !Extends(a[k].key, a[l].key);
    }
  }

  lemma {:induction false} KeysApartByCanonical(c: seq<Bundle>, bundles: seq<Bundle>)
    requires IsCanonical(c, bundles)
    ensures KeysApart(bundles) <==> KeysApart(c)
  {
    var each: seq<Bundle> :| CanonicalEach(each, bundles) && multiset(c) == multiset(each);
    SameKeys(each, bundles);
    ImagePermuted(c, each, KeyOf);
    if KeysApart(c) {
      KeysApartByImage(c, bundles);
    }
    if KeysApart(bundles) {
      KeysApartByImage(bundles, c);
    }
  }

  lemma {:induction false} ActiveKeysApart(bundles: seq<Bundle>)
    ensures KeysApart(ActiveBundles(bundles)) <==> KeysApart(bundles)
  {
    var active := ActiveBundles(bundles);
    assert forall i :: 0 <= i < |bundles| ==> active[i].key == bundles[i].key;
  }

  // ----- the theorem -----

  // Lists whose active bundles share a canonical form both compile or both fail, and decide the
  // same action, for the same reason, on every request and with every regular-expression engine.
  lemma {:induction false} SameCanonicalSameMeaning(b1: seq<Bundle>, b2: seq<Bundle>, c: seq<Bundle>, req: Request,
                                                    e: Engine)
    requires IsCanonical(c, ActiveBundles(b1)) && IsCanonical(c, ActiveBundles(b2))
    requires KeysApart(b1) && UniqueDetectorKeys(Values(b1))
    ensures Compiles(b1, Real(e)) <==> Compiles(b2, Real(e))
    ensures Compiles(b1, Real(e)) ==>
              var d1 := EvaluatedDecision(SnapshotOf(b1, Real(e)), req, Real(e));
              var d2 := EvaluatedDecision(SnapshotOf(b2, Real(e)), req, Real(e));
              d1.action == d2.action && d1.defaultAction == d2.defaultAction && d1.signalApplied == d2.signalApplied
  {
    var a1, a2 := ActiveBundles(b1), ActiveBundles(b2);
    CanonicalValues(c, a1);
    CanonicalValues(c, a2);
    CompilesByValue(a1, e);
    CompilesByValue(a2, e);
    ActiveSnapshot(b1, Real(e));
    ActiveSnapshot(b2, Real(e));
    KeysApartByCanonical(c, a1);
    KeysApartByCanonical(c, a2);
    ActiveKeysApart(b1);
    ActiveKeysApart(b2);
    if Compiles(b1, Real(e)) {
      ActiveUniqueDetectors(b1);
      SameScanAction(a1, a2, req, e);
      SameDefault(a1, a2, Real(e));
      SnapshotRefinesScan(a1, req, Real(e));
      SnapshotRefinesScan(a2, req, Real(e));
    }
  }

  lemma {:induction false} ActiveUniqueDetectors(bundles: seq<Bundle>)
    requires UniqueDetectorKeys(Values(bundles))
    ensures UniqueDetectorKeys(Values(ActiveBundles(bundles)))
  {
    var active := ActiveBundles(bundles);
    forall v | v in Values(active) ensures UniqueDetectors(v) {
      var b := ImageOrigin(active, BundleValueOf, v);
      var i :| 0 <= i < |active| && active[i] == b;
      ImageMembers(bundles, BundleValueOf, BundleValueOf(bundles[i]));
      assert BundleValueOf(bundles[i]).detectors == v.detectors;
    }
  }
}
