/** internal/contexts/policy/domain/snapshot.go: compiling bundles into an indexed snapshot and
    evaluating requests with a per-request findings cache, against a plain scan of the rules. */
module Policy {
  import opened Lists
  import opened Options
  import opened Detection

  datatype Action = Allow | ShadowLog | Redact | Block | OtherAction(name: string)

  datatype Scope = Scope(routeKey: string, provider: string, model: string, direction: string)
  datatype Rule = Rule(key: string, enabled: bool, severity: string, action: Action,
                       detectorKeys: seq<string>, scope: Scope)
  datatype Bundle = Bundle(key: string, version: string, source: string, defaultAction: Action,
                           detectors: seq<Definition>, rules: seq<Rule>)

  datatype CompiledDetector = CompiledDetector(cacheKey: string, detector: Detector)
  datatype CompiledRule = CompiledRule(bundleKey: string, key: string, severity: string, action: Action,
                                       scope: Scope, detectors: seq<CompiledDetector>)

  type Index = map<Scope, seq<CompiledRule>>
  datatype Snapshot = Snapshot(bundleKeys: seq<string>, defaultAction: Action,
                               rules: seq<CompiledRule>, rulesByScope: Index)

  datatype Signal = Signal(suggested: Action, fallback: Action, fallbackUsed: bool)
  datatype Request = Request(routeKey: string, provider: string, model: string, direction: string,
                             text: string, signal: Signal)

  datatype RuleHit = RuleHit(bundleKey: string, ruleKey: string, severity: string, action: Action,
                             findings: seq<Finding>)
  datatype Decision = Decision(action: Action, defaultAction: Action, hits: seq<RuleHit>,
                               findings: seq<Finding>, signalApplied: bool, bundleKeys: seq<string>)

  // ----- actions -----

  predicate ValidAction(a: Action) { !a.OtherAction? }

  function Priority(a: Action): nat {
    match a
    case ShadowLog => 1
    case Redact => 2
    case Block => 3
    case _ => 0
  }

  function Higher(left: Action, right: Action): Action {
    if Priority(right) > Priority(left) then right else left
  }

  function Strongest(start: Action, actions: seq<Action>): Action {
    if actions == [] then start else Higher(Strongest(start, actions[..|actions| - 1]), actions[|actions| - 1])
  }

  // A strongest action is one of the candidates and none of them beats it.
  ghost predicate IsStrongest(a: Action, start: Action, actions: seq<Action>) {
    && (a == start || a in actions)
    && Priority(start) <= Priority(a)
    && forall x :: x in actions ==> Priority(x) <= Priority(a)
  }

  lemma {:induction false} StrongestIs(start: Action, actions: seq<Action>)
    ensures IsStrongest(Strongest(start, actions), start, actions)
  {
    if actions != [] {
      var front := actions[..|actions| - 1];
      StrongestIs(start, front);
      assert forall x :: x in actions <==> x in front || x == actions[|actions| - 1];
    }
  }

  // Among valid actions the strongest is unique, so the order of the candidates is immaterial.
  lemma {:induction false} StrongestUnique(a: Action, b: Action)
    requires ValidAction(a) && ValidAction(b) && Priority(a) == Priority(b)
    ensures a == b
  {
  }

  lemma {:induction false} StrongestPermuted(start: Action, a: seq<Action>, b: seq<Action>)
    requires multiset(a) == multiset(b)
    requires ValidAction(start) && forall x :: x in a ==> ValidAction(x)
    ensures Strongest(start, a) == Strongest(start, b)
  {
    StrongestIs(start, a);
    StrongestIs(start, b);
    MembersPermuted(a, b);
    StrongestUnique(Strongest(start, a), Strongest(start, b));
  }

  // ----- compilation -----

  // What compilation and evaluation use of the detection package.
  datatype Detectors = Detectors(
    accepts: Definition -> bool,
    compile: Definition -> Detector,
    find: (Detector, string) -> seq<Finding>)

  function CacheKey(bundleKey: string, detectorKey: string): string { bundleKey + "/" + detectorKey }

  // A repeated detector key keeps its last definition.
  function DetectorMap(bundleKey: string, defs: seq<Definition>, dt: Detectors): map<string, CompiledDetector> {
    if defs == [] then map[]
    else
      var last := defs[|defs| - 1];
      DetectorMap(bundleKey, defs[..|defs| - 1], dt)
        [last.key := CompiledDetector(CacheKey(bundleKey, last.key), dt.compile(last))]
  }

  predicate HasKey(defs: seq<Definition>, key: string) { exists d :: d in defs && d.key == key }

  lemma {:induction false} DetectorMapEntries(bundleKey: string, defs: seq<Definition>, dt: Detectors, key: string)
    ensures var m := DetectorMap(bundleKey, defs, dt);
            && (key in m <==> HasKey(defs, key))
            && (key in m ==> exists d :: d in defs && d.key == key
                               && m[key] == CompiledDetector(CacheKey(bundleKey, key), dt.compile(d)))
  {
    if defs != [] {
      var front, last := defs[..|defs| - 1], defs[|defs| - 1];
      DetectorMapEntries(bundleKey, front, dt, key);
      assert forall d :: d in defs <==> d in front || d == last;
    }
  }

  lemma {:induction false} DetectorMapSnoc(bundleKey: string, defs: seq<Definition>, last: Definition, dt: Detectors)
    ensures DetectorMap(bundleKey, defs + [last], dt)
            == DetectorMap(bundleKey, defs, dt)
                 [last.key := CompiledDetector(CacheKey(bundleKey, last.key), dt.compile(last))]
  {
    assert (defs + [last])[..|defs|] == defs;
  }

  predicate KeysFound(keys: seq<string>, compiled: map<string, CompiledDetector>) {
    forall i :: 0 <= i < |keys| ==> keys[i] in compiled
  }

  function Pick(keys: seq<string>, compiled: map<string, CompiledDetector>): (r: seq<CompiledDetector>)
    requires KeysFound(keys, compiled)
    ensures |r| == |keys| && forall i :: 0 <= i < |keys| ==> r[i] == compiled[keys[i]]
  {
    seq(|keys|, i requires 0 <= i < |keys| => compiled[keys[i]])
  }

  predicate RuleOk(r: Rule, compiled: map<string, CompiledDetector>) {
    r.key != "" && ValidAction(r.action) && KeysFound(r.detectorKeys, compiled)
  }

  function CompileRule(bundleKey: string, r: Rule, compiled: map<string, CompiledDetector>): CompiledRule
    requires RuleOk(r, compiled)
  {
    CompiledRule(bundleKey, r.key, r.severity, r.action, r.scope, Pick(r.detectorKeys, compiled))
  }

  // Disabled rules leave no trace.
  function RuleEntry(bundleKey: string, r: Rule, compiled: map<string, CompiledDetector>): seq<CompiledRule> {
    if r.enabled && RuleOk(r, compiled) then [CompileRule(bundleKey, r, compiled)] else []
  }

  function RuleList(bundleKey: string, rules: seq<Rule>, compiled: map<string, CompiledDetector>): seq<CompiledRule> {
    if rules == [] then []
    else RuleList(bundleKey, rules[..|rules| - 1], compiled) + RuleEntry(bundleKey, rules[|rules| - 1], compiled)
  }

  lemma {:induction false} RuleListSnoc(bundleKey: string, rules: seq<Rule>, last: Rule,
                                        compiled: map<string, CompiledDetector>)
    ensures RuleList(bundleKey, rules + [last], compiled)
            == RuleList(bundleKey, rules, compiled) + RuleEntry(bundleKey, last, compiled)
  {
    assert (rules + [last])[..|rules|] == rules;
  }

  predicate DetectorsOk(defs: seq<Definition>, dt: Detectors) {
    forall i :: 0 <= i < |defs| ==> dt.accepts(defs[i])
  }

  predicate RulesOk(rules: seq<Rule>, compiled: map<string, CompiledDetector>) {
    forall i :: 0 <= i < |rules| && rules[i].enabled ==> RuleOk(rules[i], compiled)
  }

  predicate BundleOk(b: Bundle, dt: Detectors) {
    && b.key != "" && ValidAction(b.defaultAction)
    && DetectorsOk(b.detectors, dt)
    && RulesOk(b.rules, DetectorMap(b.key, b.detectors, dt))
  }

  function BundleRules(b: Bundle, dt: Detectors): seq<CompiledRule> {
    RuleList(b.key, b.rules, DetectorMap(b.key, b.detectors, dt))
  }

  function CompiledRules(bundles: seq<Bundle>, dt: Detectors): seq<CompiledRule> {
    if bundles == [] then []
    else CompiledRules(bundles[..|bundles| - 1], dt) + BundleRules(bundles[|bundles| - 1], dt)
  }

  function DefaultAction(bundles: seq<Bundle>): Action {
    if bundles == [] then Allow
    else Higher(DefaultAction(bundles[..|bundles| - 1]), bundles[|bundles| - 1].defaultAction)
  }

  function BundleKeys(bundles: seq<Bundle>): seq<string> {
    if bundles == [] then [] else BundleKeys(bundles[..|bundles| - 1]) + [bundles[|bundles| - 1].key]
  }

  predicate Compiles(bundles: seq<Bundle>, dt: Detectors) {
    forall i :: 0 <= i < |bundles| ==> BundleOk(bundles[i], dt)
  }

  lemma {:induction false} BundlesSnoc(bundles: seq<Bundle>, last: Bundle, dt: Detectors)
    ensures CompiledRules(bundles + [last], dt) == CompiledRules(bundles, dt) + BundleRules(last, dt)
    ensures DefaultAction(bundles + [last]) == Higher(DefaultAction(bundles), last.defaultAction)
    ensures BundleKeys(bundles + [last]) == BundleKeys(bundles) + [last.key]
  {
    assert (bundles + [last])[..|bundles|] == bundles;
  }

  ghost function SnapshotOf(bundles: seq<Bundle>, dt: Detectors): Snapshot {
    var rules := CompiledRules(bundles, dt);
    Snapshot(BundleKeys(bundles), DefaultAction(bundles), rules, IndexOf(rules))
  }

  method CompileDetectorMap(b: Bundle, dt: Detectors) returns (r: Option<map<string, CompiledDetector>>)
    ensures r.Some? <==> DetectorsOk(b.detectors, dt)
    ensures r.Some? ==> r.value == DetectorMap(b.key, b.detectors, dt)
  {
    var defs := b.detectors;
    var compiled := map[];
    for i := 0 to |defs|
      invariant forall j :: 0 <= j < i ==> dt.accepts(defs[j])
      invariant compiled == DetectorMap(b.key, defs[..i], dt)
    {
      if !dt.accepts(defs[i]) {
        return None;
      }
      assert defs[..i + 1] == defs[..i] + [defs[i]];
      DetectorMapSnoc(b.key, defs[..i], defs[i], dt);
      compiled := compiled[defs[i].key := CompiledDetector(CacheKey(b.key, defs[i].key), dt.compile(defs[i]))];
    }
    assert defs[..|defs|] == defs;
    return Some(compiled);
  }

  method DetectorsForRule(keys: seq<string>, compiled: map<string, CompiledDetector>)
    returns (res: Option<seq<CompiledDetector>>)
    ensures res.Some? <==> KeysFound(keys, compiled)
    ensures res.Some? ==> res.value == Pick(keys, compiled)
  {
    var detectors := [];
    for i := 0 to |keys|
      invariant |detectors| == i
      invariant forall j :: 0 <= j < i ==> keys[j] in compiled && detectors[j] == compiled[keys[j]]
    {
      if keys[i] !in compiled {
        return None;
      }
      detectors := detectors + [compiled[keys[i]]];
    }
    assert detectors == Pick(keys, compiled);
    return Some(detectors);
  }

  method CompileBundleRules(b: Bundle, compiled: map<string, CompiledDetector>)
    returns (res: Option<seq<CompiledRule>>)
    ensures res.Some? <==> RulesOk(b.rules, compiled)
    ensures res.Some? ==> res.value == RuleList(b.key, b.rules, compiled)
  {
    var rules := [];
    for i := 0 to |b.rules|
      invariant forall j :: 0 <= j < i && b.rules[j].enabled ==> RuleOk(b.rules[j], compiled)
      invariant rules == RuleList(b.key, b.rules[..i], compiled)
    {
      var rule := b.rules[i];
      assert b.rules[..i + 1] == b.rules[..i] + [rule];
      RuleListSnoc(b.key, b.rules[..i], rule, compiled);
      if !rule.enabled {
        continue;
      }
      if rule.key == "" || !ValidAction(rule.action) {
        return None;
      }
      var detectors := DetectorsForRule(rule.detectorKeys, compiled);
      if detectors.None? {
        return None;
      }
      rules := rules + [CompiledRule(b.key, rule.key, rule.severity, rule.action, rule.scope, detectors.value)];
    }
    assert b.rules[..|b.rules|] == b.rules;
    return Some(rules);
  }

  method CompileBundle(b: Bundle, dt: Detectors) returns (res: Option<seq<CompiledRule>>)
    ensures res.Some? <==> BundleOk(b, dt)
    ensures res.Some? ==> res.value == BundleRules(b, dt)
  {
    if b.key == "" || !ValidAction(b.defaultAction) {
      return None;
    }
    var compiled := CompileDetectorMap(b, dt);
    if compiled.None? {
      return None;
    }
    res := CompileBundleRules(b, compiled.value);
  }

  method CompileSnapshot(bundles: seq<Bundle>, dt: Detectors) returns (res: Option<Snapshot>)
    ensures res.Some? <==> Compiles(bundles, dt)
    ensures res.Some? ==> res.value == SnapshotOf(bundles, dt)
  {
    var rules, keys, defaultAction := [], [], Allow;
    for i := 0 to |bundles|
      invariant forall j :: 0 <= j < i ==> BundleOk(bundles[j], dt)
      invariant rules == CompiledRules(bundles[..i], dt)
      invariant keys == BundleKeys(bundles[..i])
      invariant defaultAction == DefaultAction(bundles[..i])
    {
      assert bundles[..i + 1] == bundles[..i] + [bundles[i]];
      BundlesSnoc(bundles[..i], bundles[i], dt);
      var more := CompileBundle(bundles[i], dt);
      if more.None? {
        return None;
      }
      rules := rules + more.value;
      defaultAction := Higher(defaultAction, bundles[i].defaultAction);
      keys := keys + [bundles[i].key];
    }
    assert bundles[..|bundles|] == bundles;
    var index := IndexRules(rules);
    return Some(Snapshot(keys, defaultAction, rules, index));
  }

  // ----- the scope index -----

  function Bucket(rules: seq<CompiledRule>, scope: Scope): seq<CompiledRule> {
    if rules == [] then []
    else
      var last := rules[|rules| - 1];
      Bucket(rules[..|rules| - 1], scope) + (if last.scope == scope then [last] else [])
  }

  lemma {:induction false} BucketSnoc(rules: seq<CompiledRule>, last: CompiledRule, scope: Scope)
    ensures Bucket(rules + [last], scope) == Bucket(rules, scope) + (if last.scope == scope then [last] else [])
  {
    assert (rules + [last])[..|rules|] == rules;
  }

  ghost function IndexOf(rules: seq<CompiledRule>): Index {
    map scope | scope in Scopes(rules) :: Bucket(rules, scope)
  }

  function Scopes(rules: seq<CompiledRule>): set<Scope> {
    if rules == [] then {} else Scopes(rules[..|rules| - 1]) + {rules[|rules| - 1].scope}
  }

  lemma {:induction false} EmptyBucket(rules: seq<CompiledRule>, scope: Scope)
    ensures scope !in Scopes(rules) ==> Bucket(rules, scope) == []
  {
    if rules != [] {
      EmptyBucket(rules[..|rules| - 1], scope);
    }
  }

  method IndexRules(rules: seq<CompiledRule>) returns (index: Index)
    ensures index == IndexOf(rules)
  {
    index := map[];
    for i := 0 to |rules|
      invariant index == IndexOf(rules[..i])
    {
      assert rules[..i + 1] == rules[..i] + [rules[i]];
      IndexSnoc(rules[..i], rules[i]);
      var scope := rules[i].scope;
      index := index[scope := (if scope in index then index[scope] else []) + [rules[i]]];
    }
    assert rules[..|rules|] == rules;
  }

  lemma {:induction false} IndexSnoc(rules: seq<CompiledRule>, last: CompiledRule)
    ensures IndexOf(rules + [last]) == IndexOf(rules)[last.scope := Bucket(rules, last.scope) + [last]]
    ensures last.scope !in IndexOf(rules) ==> Bucket(rules, last.scope) == []
  {
    var more := rules + [last];
    assert more[..|rules|] == rules;
    EmptyBucket(rules, last.scope);
    forall scope ensures Bucket(more, scope) == Bucket(rules, scope) + (if last.scope == scope then [last] else []) {
      BucketSnoc(rules, last, scope);
    }
    assert forall scope :: scope != last.scope ==> Bucket(more, scope) == Bucket(rules, scope);
  }
}
