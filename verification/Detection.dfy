/** internal/contexts/detection/domain/regex.go: compiling a definition and matching text.
    The regular-expression engine and the Luhn check are parameters. */
module Detection {
  import opened Lists

  datatype Kind = Regex | Email | Phone | PaymentCard | Secret | OtherKind(name: string)

  datatype Definition = Definition(key: string, kind: Kind, pattern: string, categories: seq<string>)

  datatype Engine = Engine(
    compiles: string -> bool,
    find: (string, string) -> seq<(int, int)>,
    accepts: (string, (int, int)) -> bool,
    builtIn: Kind -> string)

  datatype Detector = Detector(key: string, pattern: string, categories: seq<string>, checked: bool)

  datatype Finding = Finding(detectorKey: string, category: string, start: int, end: int)

  function DefaultCategory(kind: Kind): string {
    match kind
    case Email => "pii.email"
    case Phone => "pii.phone"
    case PaymentCard => "pii.payment_card"
    case Secret => "secret.token"
    case _ => "custom.regex"
  }

  predicate BuiltIn(kind: Kind) { !kind.Regex? && !kind.OtherKind? }

  // The pattern that will be compiled; only the regex kind insists on its own.
  function EffectivePattern(def: Definition, e: Engine): string {
    if BuiltIn(def.kind) && def.pattern == "" then e.builtIn(def.kind) else def.pattern
  }

  predicate Compilable(def: Definition, e: Engine) {
    && def.key != ""
    && (BuiltIn(def.kind) || (def.kind.Regex? && def.pattern != ""))
    && e.compiles(EffectivePattern(def, e))
  }

  method NormalizeCategories(categories: seq<string>, fallback: string) returns (r: seq<string>)
    ensures r == Normalized(categories, fallback)
  {
    if |categories| == 0 {
      return [fallback];
    }
    r := [];
    for i := 0 to |categories|
      invariant r == Filter(categories[..i], c => c != "")
    {
      assert categories[..i + 1] == categories[..i] + [categories[i]];
      FilterSnoc(categories[..i], categories[i], c => c != "");
      if categories[i] == "" {
        continue;
      }
      r := r + [categories[i]];
    }
    assert categories[..|categories|] == categories;
    if |r| == 0 {
      return [fallback];
    }
  }

  function Normalized(categories: seq<string>, fallback: string): (r: seq<string>)
    ensures r != []
  {
    var kept := Filter(categories, c => c != "");
    if kept == [] then [fallback] else kept
  }

  function Compile(def: Definition, e: Engine): Detector {
    Detector(def.key, EffectivePattern(def, e), Normalized(def.categories, DefaultCategory(def.kind)),
             def.kind.PaymentCard?)
  }

  // One finding per accepted hit and category.
  function Findings(d: Detector, text: string, e: Engine): seq<Finding> {
    if text == "" then []
    else FlatMap(e.find(d.pattern, text), hit => HitFindings(d, text, e, hit))
  }

  function HitFindings(d: Detector, text: string, e: Engine, hit: (int, int)): seq<Finding> {
    if d.checked && !e.accepts(text, hit) then []
    else Map(d.categories, c => Finding(d.key, c, hit.0, hit.1))
  }

  method Match(d: Detector, text: string, e: Engine) returns (findings: seq<Finding>)
    ensures findings == Findings(d, text, e)
  {
    if text == "" {
      return [];
    }
    var hits := e.find(d.pattern, text);
    findings := [];
    for i := 0 to |hits|
      invariant findings == FlatMap(hits[..i], hit => HitFindings(d, text, e, hit))
    {
      assert hits[..i + 1] == hits[..i] + [hits[i]];
      FlatMapSnoc(hits[..i], hits[i], hit => HitFindings(d, text, e, hit));
      if d.checked && !e.accepts(text, hits[i]) {
        continue;
      }
      var more := FindingsOfHit(d, hits[i]);
      findings := findings + more;
    }
    assert hits[..|hits|] == hits;
  }

  method FindingsOfHit(d: Detector, hit: (int, int)) returns (findings: seq<Finding>)
    ensures findings == Map(d.categories, c => Finding(d.key, c, hit.0, hit.1))
  {
    findings := [];
    for j := 0 to |d.categories|
      invariant findings == Map(d.categories, c => Finding(d.key, c, hit.0, hit.1))[..j]
    {
      findings := findings + [Finding(d.key, d.categories[j], hit.0, hit.1)];
    }
  }

  // ----- findings, said of the definition -----

  // Its own categories, or the default one of its kind if it names none.
  predicate CategoryOf(def: Definition, category: string) {
    || (category != "" && category in def.categories)
    || ((forall c :: c in def.categories ==> c == "")
        && category == match def.kind
           case Regex => "custom.regex"
           case Email => "pii.email"
           case Phone => "pii.phone"
           case PaymentCard => "pii.payment_card"
           case Secret => "secret.token"
           case OtherKind(_) => "custom.regex")
  }

  // Its own pattern; the kinds that have one built in may leave it out.
  predicate PatternOf(def: Definition, pattern: string, e: Engine) {
    if def.pattern == "" && def.kind in {Email, Phone, PaymentCard, Secret} then pattern == e.builtIn(def.kind)
    else pattern == def.pattern
  }

  // The engine finds it in the text, and a card number passes the check.
  ghost predicate Occurs(def: Definition, text: string, e: Engine, start: int, end: int) {
    && text != "" && (def.kind.PaymentCard? ==> e.accepts(text, (start, end)))
    && exists pattern :: PatternOf(def, pattern, e) && (start, end) in e.find(pattern, text)
  }

  lemma {:induction false} NormalizedMembers(categories: seq<string>, fallback: string, category: string)
    ensures category in Normalized(categories, fallback) <==>
            || (category != "" && category in categories)
            || ((forall c :: c in categories ==> c == "") && category == fallback)
  {
    var kept := Filter(categories, c => c != "");
    forall c ensures c in kept <==> c in categories && c != "" {
      FilterMembers(categories, c => c != "", c);
    }
    assert kept != [] ==> kept[0] in kept;
  }

  // A definition finds each of its occurrences, under each of its categories, and nothing else.
  lemma {:induction false} FindingsExactly(def: Definition, text: string, e: Engine, f: Finding)
    ensures f in Findings(Compile(def, e), text, e) <==>
            f.detectorKey == def.key && CategoryOf(def, f.category) && Occurs(def, text, e, f.start, f.end)
  {
    var d := Compile(def, e);
    assert PatternOf(def, d.pattern, e);
    NormalizedMembers(def.categories, DefaultCategory(def.kind), f.category);
    if text != "" {
      FlatMapMembers(e.find(d.pattern, text), hit => HitFindings(d, text, e, hit), f);
      HitMembers(d, text, e, (f.start, f.end), f);
    }
  }

  lemma {:induction false} HitMembers(d: Detector, text: string, e: Engine, hit: (int, int), f: Finding)
    ensures f in HitFindings(d, text, e, hit) <==>
            && (d.checked ==> e.accepts(text, hit)) && f.detectorKey == d.key && f.category in d.categories
            && f.start == hit.0 && f.end == hit.1
  {
    if f.category in d.categories && (d.checked ==> e.accepts(text, hit)) {
      var i :| 0 <= i < |d.categories| && d.categories[i] == f.category;
      assert HitFindings(d, text, e, hit)[i] == Finding(d.key, f.category, hit.0, hit.1);
    }
  }

  // One finding for each accepted hit and category, so none is doubled.
  lemma {:induction false} FindingsCount(d: Detector, text: string, e: Engine)
    ensures text != "" ==>
              |Findings(d, text, e)|
              == |Filter(e.find(d.pattern, text), hit => !d.checked || e.accepts(text, hit))| * |d.categories|
  {
    if text != "" {
      HitsCount(e.find(d.pattern, text), d, text, e);
    }
  }

  lemma {:induction false} HitsCount(hits: seq<(int, int)>, d: Detector, text: string, e: Engine)
    ensures |FlatMap(hits, hit => HitFindings(d, text, e, hit))|
            == |Filter(hits, hit => !d.checked || e.accepts(text, hit))| * |d.categories|
  {
    if hits != [] {
      var front, last := hits[..|hits| - 1], hits[|hits| - 1];
      HitsCount(front, d, text, e);
      OneMore(|Filter(front, hit => !d.checked || e.accepts(text, hit))|, |d.categories|);
      assert |HitFindings(d, text, e, last)| == if !d.checked || e.accepts(text, last) then |d.categories| else 0;
    }
  }

  lemma {:induction false} OneMore(k: nat, c: nat)
    ensures (k + 1) * c == k * c + c
  {
  }

  // Whether a definition fires does not depend on the order of its categories.
  ghost predicate Fires(pattern: string, checked: bool, text: string, e: Engine) {
    text != "" && exists hit :: hit in e.find(pattern, text) && (checked ==> e.accepts(text, hit))
  }

  lemma {:induction false} FindingsIffFires(d: Detector, text: string, e: Engine)
    requires d.categories != []
    ensures Findings(d, text, e) != [] <==> Fires(d.pattern, d.checked, text, e)
  {
    var f := hit => HitFindings(d, text, e, hit);
    if text != "" {
      if Fires(d.pattern, d.checked, text, e) {
        var hit :| hit in e.find(d.pattern, text) && (d.checked ==> e.accepts(text, hit));
        var y := Finding(d.key, d.categories[0], hit.0, hit.1);
        assert f(hit)[0] == y;
        FlatMapMembers(e.find(d.pattern, text), f, y);
      }
      if Findings(d, text, e) != [] {
        var y := Findings(d, text, e)[0];
        FlatMapMembers(e.find(d.pattern, text), f, y);
      }
    }
  }

  // Detectors that differ in any respect can be told apart by some engine and text.
  lemma {:induction false} Distinguishable(a: Detector, b: Detector) returns (e: Engine, text: string)
    requires a != b && a.categories != [] && b.categories != []
    ensures Findings(a, text, e) != Findings(b, text, e)
  {
    text := "x";
    var once: seq<(int, int)> := [(0, 1)];
    if a.pattern != b.pattern {
      e := Engine(p => true, (p, t) => if p == a.pattern then once else [], (t, h) => true, k => "x");
    } else if a.checked != b.checked {
      e := Engine(p => true, (p, t) => once, (t, h) => false, k => "x");
    } else {
      e := Engine(p => true, (p, t) => once, (t, h) => true, k => "x");
    }
    OneHit(a, text, e, (0, 1));
    OneHit(b, text, e, (0, 1));
    if a.pattern == b.pattern && a.checked == b.checked {
      SameFindings(a, b, (0, 1));
    } else if a.pattern == b.pattern {
      assert |HitFindings(a, text, e, (0, 1))| != |HitFindings(b, text, e, (0, 1))|;
    }
  }

  lemma {:induction false} OneHit(d: Detector, text: string, e: Engine, hit: (int, int))
    requires text != ""
    ensures e.find(d.pattern, text) == [hit] ==> Findings(d, text, e) == HitFindings(d, text, e, hit)
    ensures e.find(d.pattern, text) == [] ==> Findings(d, text, e) == []
  {
    if e.find(d.pattern, text) == [hit] {
      FlatMapSnoc([], hit, h => HitFindings(d, text, e, h));
      assert [] + [hit] == [hit];
    }
  }

  lemma {:induction false} SameFindings(a: Detector, b: Detector, hit: (int, int))
    requires a.categories != [] && b.categories != []
    requires a.key != b.key || a.categories != b.categories
    ensures Map(a.categories, c => Finding(a.key, c, hit.0, hit.1))
            != Map(b.categories, c => Finding(b.key, c, hit.0, hit.1))
  {
    var fa, fb := Map(a.categories, c => Finding(a.key, c, hit.0, hit.1)),
      Map(b.categories, c => Finding(b.key, c, hit.0, hit.1));
    if a.key != b.key {
      assert fa[0] != fb[0];
    } else if |fa| == |fb| {
      var i :| 0 <= i < |fa| && a.categories[i] != b.categories[i];
      assert fa[i] != fb[i];
    }
  }
}
