/** internal/contexts/policy/domain/snapshot.go:192-276: the canonical form that feeds the snapshot
    hash. Sorting is unstable there, so a canonical form is any list the sorts may produce. */
module Canonical {
  import opened Lists
  import opened Sorting
  import opened Detection
  import opened Policy

  // ----- comparators: lexicographic on a few strings -----

  predicate RankLess(a: seq<string>, b: seq<string>)
    decreases |a|
  {
    b != [] && (a == [] || StringLess(a[0], b[0]) || (a[0] == b[0] && RankLess(a[1..], b[1..])))
  }

  lemma {:induction false} RankOrder(a: seq<string>, b: seq<string>, c: seq<string>)
    ensures !RankLess(a, a)
    ensures RankLess(a, b) && RankLess(b, c) ==> RankLess(a, c)
    ensures RankLess(a, c) ==> RankLess(a, b) || RankLess(b, c)
    ensures !RankLess(a, b) && !RankLess(b, a) ==> a == b
    decreases |a| + |b| + |c|
  {
    if a != [] {
      RankOrder(a[1..], if b != [] then b[1..] else b, if c != [] then c[1..] else c);
      var b0, c0 := if b != [] then b[0] else a[0], if c != [] then c[0] else a[0];
      StringLessOrder(a[0], b0, c0);
      StringLessOrder(b0, c0, a[0]);
      StringLessOrder(c0, a[0], b0);
      StringLessOrder(a[0], c0, b0);
      StringLessOrder(c0, b0, a[0]);
    }
    if a != [] && b != [] && a[0] == b[0] {
      assert a == [a[0]] + a[1..] && b == [b[0]] + b[1..];
    }
  }

  lemma {:induction false} RankedOrder<T(!new)>(less: (T, T) -> bool, rank: T -> seq<string>)
    requires forall a, b :: less(a, b) == RankLess(rank(a), rank(b))
    ensures StrictWeakOrder(less)
    ensures forall a, b :: !less(a, b) && !less(b, a) ==> rank(a) == rank(b)
  {
    forall a, b, c
      ensures !less(a, a)
      ensures less(a, b) && less(b, c) ==> less(a, c)
      ensures less(a, c) ==> less(a, b) || less(b, c)
      ensures !less(a, b) && !less(b, a) ==> rank(a) == rank(b)
    {
      RankOrder(rank(a), rank(b), rank(c));
    }
  }

  function KindName(k: Kind): string {
    match k
    case Regex => "regex"
    case Email => "email"
    case Phone => "phone"
    case PaymentCard => "payment_card"
    case Secret => "secret"
    case OtherKind(name) => name
  }

  function ActionName(a: Action): string {
    match a
    case Allow => "allow"
    case ShadowLog => "shadow_log"
    case Redact => "redact"
    case Block => "block"
    case OtherAction(name) => name
  }

  function DefRank(d: Definition): seq<string> { [d.key, KindName(d.kind), d.pattern] }
  function RuleRank(r: Rule): seq<string> { [r.key, ActionName(r.action), r.severity] }
  function BundleRank(b: Bundle): seq<string> { [b.key, b.version] }

  // Apart from kinds and actions that the parser does not know, equal ranks mean equal values.
  lemma {:induction false} RanksTellApart(d1: Definition, d2: Definition, r1: Rule, r2: Rule, b1: Bundle, b2: Bundle)
    requires !d1.kind.OtherKind? && !d2.kind.OtherKind? && !r1.action.OtherAction? && !r2.action.OtherAction?
    ensures DefRank(d1) == DefRank(d2) <==> d1.key == d2.key && d1.kind == d2.kind && d1.pattern == d2.pattern
    ensures RuleRank(r1) == RuleRank(r2) <==>
            r1.key == r2.key && r1.action == r2.action && r1.severity == r2.severity
    ensures BundleRank(b1) == BundleRank(b2) <==> b1.key == b2.key && b1.version == b2.version
  {
    assert BundleRank(b1)[0] == b1.key && BundleRank(b1)[1] == b1.version;
    NamesTellApart(d1.kind, d2.kind, r1.action, r2.action);
    assert DefRank(d1)[0] == d1.key && DefRank(d1)[1] == KindName(d1.kind) && DefRank(d1)[2] == d1.pattern;
    assert RuleRank(r1)[0] == r1.key && RuleRank(r1)[1] == ActionName(r1.action) && RuleRank(r1)[2] == r1.severity;
  }

  lemma {:induction false} NamesTellApart(k1: Kind, k2: Kind, a1: Action, a2: Action)
    requires !k1.OtherKind? && !k2.OtherKind? && !a1.OtherAction? && !a2.OtherAction?
    ensures KindName(k1) == KindName(k2) <==> k1 == k2
    ensures ActionName(a1) == ActionName(a2) <==> a1 == a2
  {
    assert |KindName(k1)| == |KindName(k2)| && k1 != k2 ==> KindName(k1)[0] != KindName(k2)[0];
    assert |ActionName(a1)| == |ActionName(a2)| && a1 != a2 ==> ActionName(a1)[0] != ActionName(a2)[0];
  }

  predicate DefLess(a: Definition, b: Definition) { RankLess(DefRank(a), DefRank(b)) }
  predicate RuleLess(a: Rule, b: Rule) { RankLess(RuleRank(a), RuleRank(b)) }
  predicate BundleLess(a: Bundle, b: Bundle) { RankLess(BundleRank(a), BundleRank(b)) }

  // ----- the canonical form -----

  function SortedStrings(values: seq<string>): seq<string> { StableSort(values, StringLess) }

  function NormDef(d: Definition): Definition { d.(categories := SortedStrings(d.categories)) }
  function NormRule(r: Rule): Rule { r.(detectorKeys := SortedStrings(r.detectorKeys)) }

  ghost predicate CanonicalDefs(c: seq<Definition>, defs: seq<Definition>) {
    multiset(c) == Image(defs, NormDef) && Sorted(c, DefLess)
  }

  ghost predicate CanonicalRules(c: seq<Rule>, rules: seq<Rule>) {
    multiset(c) == Image(rules, NormRule) && Sorted(c, RuleLess)
  }

  ghost predicate CanonicalBundle(c: Bundle, b: Bundle) {
    && c == b.(detectors := c.detectors, rules := c.rules)
    && CanonicalDefs(c.detectors, b.detectors)
    && CanonicalRules(c.rules, b.rules)
  }

  ghost predicate CanonicalEach(c: seq<Bundle>, bundles: seq<Bundle>) {
    |c| == |bundles| && forall i :: 0 <= i < |c| ==> CanonicalBundle(c[i], bundles[i])
  }

  ghost predicate IsCanonical(c: seq<Bundle>, bundles: seq<Bundle>) {
    Sorted(c, BundleLess) && exists each :: CanonicalEach(each, bundles) && multiset(c) == multiset(each)
  }

  method SortStrings(values: seq<string>) returns (r: seq<string>)
    ensures r == SortedStrings(values)
  {
    if |values| == 0 {
      return [];
    }
    StringLessIsOrder();
    r := SortSlice(values, StringLess);
    StableSortSorted(values, StringLess);
    SortedUnique(r, SortedStrings(values), StringLess);
  }

  lemma {:induction false} ImageSnoc<T, U>(s: seq<T>, i: nat, f: T -> U)
    requires i < |s|
    ensures Image(s[..i + 1], f) == Image(s[..i], f) + multiset{f(s[i])}
  {
    assert s[..i + 1][..i] == s[..i];
  }

  method NormalDefs(defs: seq<Definition>) returns (c: seq<Definition>)
    ensures multiset(c) == Image(defs, NormDef)
  {
    c := [];
    for i := 0 to |defs|
      invariant multiset(c) == Image(defs[..i], NormDef)
    {
      ImageSnoc(defs, i, NormDef);
      var categories := SortStrings(defs[i].categories);
      c := c + [defs[i].(categories := categories)];
    }
    assert defs[..|defs|] == defs;
  }

  method MakeCanonicalDefs(defs: seq<Definition>) returns (c: seq<Definition>)
    ensures CanonicalDefs(c, defs)
  {
    c := NormalDefs(defs);
    RankedOrder(DefLess, DefRank);
    c := SortSlice(c, DefLess);
  }

  method NormalRules(rules: seq<Rule>) returns (c: seq<Rule>)
    ensures multiset(c) == Image(rules, NormRule)
  {
    c := [];
    for i := 0 to |rules|
      invariant multiset(c) == Image(rules[..i], NormRule)
    {
      ImageSnoc(rules, i, NormRule);
      var keys := SortStrings(rules[i].detectorKeys);
      c := c + [rules[i].(detectorKeys := keys)];
    }
    assert rules[..|rules|] == rules;
  }

  method MakeCanonicalRules(rules: seq<Rule>) returns (c: seq<Rule>)
    ensures CanonicalRules(c, rules)
  {
    c := NormalRules(rules);
    RankedOrder(RuleLess, RuleRank);
    c := SortSlice(c, RuleLess);
  }

  method CanonicalBundles(bundles: seq<Bundle>) returns (c: seq<Bundle>)
    ensures IsCanonical(c, bundles)
  {
    c := [];
    for i := 0 to |bundles|
      invariant CanonicalEach(c, bundles[..i])
    {
      var detectors := MakeCanonicalDefs(bundles[i].detectors);
      var rules := MakeCanonicalRules(bundles[i].rules);
      c := c + [bundles[i].(detectors := detectors, rules := rules)];
    }
    assert bundles[..|bundles|] == bundles;
    RankedOrder(BundleLess, BundleRank);
    c := SortSlice(c, BundleLess);
  }

  function ActiveRules(rules: seq<Rule>): seq<Rule> {
    if rules == [] then []
    else
      var last := rules[|rules| - 1];
      ActiveRules(rules[..|rules| - 1]) + (if last.enabled then [last] else [])
  }

  function Active(b: Bundle): Bundle { b.(rules := ActiveRules(b.rules)) }

  // ----- what a list of bundles says, order aside -----

  datatype DefValue = DefValue(key: string, kind: Kind, pattern: string, categories: multiset<string>)
  datatype RuleValue = RuleValue(key: string, enabled: bool, severity: string, action: Action,
                                 detectorKeys: multiset<string>, scope: Scope)
  datatype BundleValue = BundleValue(key: string, version: string, source: string, defaultAction: Action,
                                     detectors: multiset<DefValue>, rules: multiset<RuleValue>)

  function DefValueOf(d: Definition): DefValue { DefValue(d.key, d.kind, d.pattern, multiset(d.categories)) }

  function RuleValueOf(r: Rule): RuleValue {
    RuleValue(r.key, r.enabled, r.severity, r.action, multiset(r.detectorKeys), r.scope)
  }

  function BundleValueOf(b: Bundle): BundleValue {
    BundleValue(b.key, b.version, b.source, b.defaultAction,
                Image(b.detectors, DefValueOf), Image(b.rules, RuleValueOf))
  }

  function Values(bundles: seq<Bundle>): multiset<BundleValue> { Image(bundles, BundleValueOf) }

  // ----- the canonical form keeps the values -----

  lemma {:induction false} ImageOfImage<T, U, V>(s: seq<T>, c: seq<U>, f: T -> U, g: U -> V, h: T -> V)
    requires multiset(c) == Image(s, f) && forall x :: x in s ==> g(f(x)) == h(x)
    ensures Image(c, g) == Image(s, h)
  {
    if s == [] {
      assert |multiset(c)| == 0;
    } else {
      var front, x := s[..|s| - 1], s[|s| - 1];
      assert f(x) in multiset(c);
      var l, r := TakeOut(c, f(x));
      assert c == l + [f(x)] + r;
      Cancel(multiset(l + r), Image(front, f), f(x));
      ImageOfImage(front, l + r, f, g, h);
      ImageTakenOut(l, f(x), r, g);
    }
  }

  lemma {:induction false} CanonicalBundleValue(c: Bundle, b: Bundle)
    requires CanonicalBundle(c, b)
    ensures BundleValueOf(c) == BundleValueOf(b)
  {
    ImageOfImage(b.detectors, c.detectors, NormDef, DefValueOf, DefValueOf);
    ImageOfImage(b.rules, c.rules, NormRule, RuleValueOf, RuleValueOf);
  }

  lemma {:induction false} CanonicalEachValues(c: seq<Bundle>, bundles: seq<Bundle>)
    requires CanonicalEach(c, bundles)
    ensures Values(c) == Values(bundles)
  {
    if c != [] {
      CanonicalBundleValue(c[|c| - 1], bundles[|c| - 1]);
      CanonicalEachValues(c[..|c| - 1], bundles[..|c| - 1]);
    }
  }

  lemma {:induction false} CanonicalValues(c: seq<Bundle>, bundles: seq<Bundle>)
    requires IsCanonical(c, bundles)
    ensures Values(c) == Values(bundles)
  {
    var each :| CanonicalEach(each, bundles) && multiset(c) == multiset(each);
    CanonicalEachValues(each, bundles);
    ImagePermuted(c, each, BundleValueOf);
  }

  // ----- and under unique keys it is determined by them -----

  ghost predicate UniqueBy<T(!new)>(s: seq<T>, rank: T -> seq<string>) {
    forall x, y :: x in s && y in s && rank(x) == rank(y) ==> x == y
  }

  // Detector keys are unique in each bundle, and so are the (key, action, severity) of its rules.
  ghost predicate UniqueInside(b: Bundle) {
    && (forall x, y :: x in b.detectors && y in b.detectors && x.key == y.key ==> x == y)
    && UniqueBy(b.rules, RuleRank)
  }

  ghost predicate UniqueKeys(bundles: seq<Bundle>) {
    && (forall i, j :: 0 <= i < j < |bundles| ==> bundles[i].key != bundles[j].key)
    && (forall b :: b in bundles ==> UniqueInside(b))
  }

  lemma {:induction false} SortedStringsUnique(a: seq<string>, b: seq<string>)
    requires multiset(a) == multiset(b)
    ensures SortedStrings(a) == SortedStrings(b)
  {
    StringLessIsOrder();
    StableSortSorted(a, StringLess);
    StableSortSorted(b, StringLess);
    SortedUnique(SortedStrings(a), SortedStrings(b), StringLess);
  }

  ghost predicate NormalDef(d: Definition) { exists o :: d == NormDef(o) }
  ghost predicate NormalRule(r: Rule) { exists o :: r == NormRule(o) }

  lemma {:induction false} NormalDefsEqual(x: Definition, y: Definition)
    requires NormalDef(x) && NormalDef(y) && DefValueOf(x) == DefValueOf(y)
    ensures x == y
  {
    var ox :| x == NormDef(ox);
    var oy :| y == NormDef(oy);
    SortedStringsUnique(ox.categories, oy.categories);
  }

  lemma {:induction false} NormalRulesEqual(x: Rule, y: Rule)
    requires NormalRule(x) && NormalRule(y) && RuleValueOf(x) == RuleValueOf(y)
    ensures x == y
  {
    var ox :| x == NormRule(ox);
    var oy :| y == NormRule(oy);
    SortedStringsUnique(ox.detectorKeys, oy.detectorKeys);
  }

  lemma {:induction false} SortedByRankUnique<T(!new)>(a: seq<T>, b: seq<T>, less: (T, T) -> bool,
                                                       rank: T -> seq<string>)
    requires forall x, y :: less(x, y) == RankLess(rank(x), rank(y))
    requires UniqueBy(a, rank) && multiset(a) == multiset(b) && Sorted(a, less) && Sorted(b, less)
    ensures a == b
  {
    RankedOrder(less, rank);
    SortedUnique(a, b, less);
  }

  lemma {:induction false} CanonicalDefsNormal(c: seq<Definition>, defs: seq<Definition>)
    requires CanonicalDefs(c, defs)
    ensures forall x :: x in c ==> NormalDef(x)
  {
    forall x | x in c ensures NormalDef(x) {
      assert x in multiset(c);
      ImageMembers(defs, NormDef, x);
    }
  }

  lemma {:induction false} CanonicalRulesNormal(c: seq<Rule>, rules: seq<Rule>)
    requires CanonicalRules(c, rules)
    ensures forall x :: x in c ==> NormalRule(x)
  {
    forall x | x in c ensures NormalRule(x) {
      assert x in multiset(c);
      ImageMembers(rules, NormRule, x);
    }
  }

  lemma {:induction false} CanonicalDefsUnique(c: seq<Definition>, defs: seq<Definition>)
    requires CanonicalDefs(c, defs)
    requires forall x, y :: x in defs && y in defs && x.key == y.key ==> x == y
    ensures UniqueBy(c, DefRank)
  {
    forall x, y | x in c && y in c && DefRank(x) == DefRank(y) ensures x == y {
      assert x in multiset(c) && y in multiset(c);
      ImageMembers(defs, NormDef, x);
      ImageMembers(defs, NormDef, y);
      assert x.key == DefRank(x)[0] == DefRank(y)[0] == y.key;
    }
  }

  lemma {:induction false} CanonicalRulesUnique(c: seq<Rule>, rules: seq<Rule>)
    requires CanonicalRules(c, rules) && UniqueBy(rules, RuleRank)
    ensures UniqueBy(c, RuleRank)
  {
    forall x, y | x in c && y in c && RuleRank(x) == RuleRank(y) ensures x == y {
      assert x in multiset(c) && y in multiset(c);
      ImageMembers(rules, NormRule, x);
      ImageMembers(rules, NormRule, y);
      var ox :| ox in rules && NormRule(ox) == x;
      var oy :| oy in rules && NormRule(oy) == y;
      assert RuleRank(ox) == RuleRank(x) && RuleRank(oy) == RuleRank(y);
    }
  }

  lemma {:induction false} CanonicalDefsEqual(c1: seq<Definition>, d1: seq<Definition>, c2: seq<Definition>,
                                              d2: seq<Definition>)
    requires CanonicalDefs(c1, d1) && CanonicalDefs(c2, d2)
    requires forall x, y :: x in d1 && y in d1 && x.key == y.key ==> x == y
    requires Image(c1, DefValueOf) == Image(c2, DefValueOf)
    ensures c1 == c2
  {
    CanonicalDefsNormal(c1, d1);
    CanonicalDefsNormal(c2, d2);
    forall x, y | x in c1 && y in c2 && DefValueOf(x) == DefValueOf(y) ensures x == y {
      NormalDefsEqual(x, y);
    }
    ImageInjective(c1, c2, DefValueOf);
    CanonicalDefsUnique(c1, d1);
    SortedByRankUnique(c1, c2, DefLess, DefRank);
  }

  lemma {:induction false} CanonicalRulesEqual(c1: seq<Rule>, r1: seq<Rule>, c2: seq<Rule>, r2: seq<Rule>)
    requires CanonicalRules(c1, r1) && CanonicalRules(c2, r2) && UniqueBy(r1, RuleRank)
    requires Image(c1, RuleValueOf) == Image(c2, RuleValueOf)
    ensures c1 == c2
  {
    CanonicalRulesNormal(c1, r1);
    CanonicalRulesNormal(c2, r2);
    forall x, y | x in c1 && y in c2 && RuleValueOf(x) == RuleValueOf(y) ensures x == y {
      NormalRulesEqual(x, y);
    }
    ImageInjective(c1, c2, RuleValueOf);
    CanonicalRulesUnique(c1, r1);
    SortedByRankUnique(c1, c2, RuleLess, RuleRank);
  }

  lemma {:induction false} CanonicalBundleEqual(c1: Bundle, b1: Bundle, c2: Bundle, b2: Bundle)
    requires CanonicalBundle(c1, b1) && CanonicalBundle(c2, b2) && UniqueInside(b1)
    requires BundleValueOf(c1) == BundleValueOf(c2)
    ensures c1 == c2
  {
    CanonicalDefsEqual(c1.detectors, b1.detectors, c2.detectors, b2.detectors);
    CanonicalRulesEqual(c1.rules, b1.rules, c2.rules, b2.rules);
  }

  lemma {:induction false} CanonicalMember(c: seq<Bundle>, bundles: seq<Bundle>, x: Bundle) returns (b: Bundle)
    requires IsCanonical(c, bundles) && x in c
    ensures b in bundles && CanonicalBundle(x, b)
  {
    var each :| CanonicalEach(each, bundles) && multiset(c) == multiset(each);
    MembersPermuted(c, each);
    var i :| 0 <= i < |each| && each[i] == x;
    b := bundles[i];
  }

  lemma {:induction false} SameRankSamePlace(each: seq<Bundle>, bundles: seq<Bundle>, i: nat, j: nat)
    requires CanonicalEach(each, bundles) && UniqueKeys(bundles) && i < |each| && j < |each|
    requires BundleRank(each[i]) == BundleRank(each[j])
    ensures i == j
  {
    assert bundles[i].key == each[i].key == BundleRank(each[i])[0];
    assert bundles[j].key == each[j].key == BundleRank(each[j])[0];
  }

  lemma {:induction false} CanonicalKeysUnique(c: seq<Bundle>, bundles: seq<Bundle>)
    requires IsCanonical(c, bundles) && UniqueKeys(bundles)
    ensures UniqueBy(c, BundleRank)
  {
    var each :| CanonicalEach(each, bundles) && multiset(c) == multiset(each);
    MembersPermuted(c, each);
    EachUnique(each, bundles);
  }

  lemma {:induction false} EachUnique(each: seq<Bundle>, bundles: seq<Bundle>)
    requires CanonicalEach(each, bundles) && UniqueKeys(bundles)
    ensures UniqueBy(each, BundleRank)
  {
    forall x, y | x in each && y in each && BundleRank(x) == BundleRank(y) ensures x == y {
      var i :| 0 <= i < |each| && each[i] == x;
      var j :| 0 <= j < |each| && each[j] == y;
      SameRankSamePlace(each, bundles, i, j);
    }
  }

  // Two lists have the same canonical form exactly when they say the same, whatever their order
  // and whichever of its possible results each unstable sort produced.
  lemma {:induction false} CanonicalComplete(b1: seq<Bundle>, b2: seq<Bundle>, c1: seq<Bundle>, c2: seq<Bundle>)
    requires IsCanonical(c1, b1) && IsCanonical(c2, b2) && UniqueKeys(b1)
    ensures c1 == c2 <==> Values(b1) == Values(b2)
  {
    CanonicalValues(c1, b1);
    CanonicalValues(c2, b2);
    if Values(b1) == Values(b2) {
      forall x, y | x in c1 && y in c2 && BundleValueOf(x) == BundleValueOf(y) ensures x == y {
        var o1 := CanonicalMember(c1, b1, x);
        var o2 := CanonicalMember(c2, b2, y);
        CanonicalBundleEqual(x, o1, y, o2);
      }
      ImageInjective(c1, c2, BundleValueOf);
      CanonicalKeysUnique(c1, b1);
      SortedByRankUnique(c1, c2, BundleLess, BundleRank);
    }
  }
}
