/** internal/contexts/gateway/adapters/http/openai/openai_redaction.go: redacting a decoded body
    in place from spans over its joined text. */
module Documents {
  import opened Options
  import opened Utf8
  import opened Redaction
  import opened TextTree
  import opened Segments

  // ----- spans over the joined text, seen from one segment -----

  ghost predicate Touched(spans: seq<Span>, position: int) {
    exists s :: s in spans && s.start <= position < s.end
  }

  // Which bytes of the joined text some span touches.
  ghost function JoinedMask(size: nat, spans: seq<Span>): (mask: seq<bool>)
    ensures |mask| == size && forall k :: 0 <= k < size ==> mask[k] == Touched(spans, k)
  {
    seq(size, k => Touched(spans, k))
  }

  ghost function SegmentMask(seg: Segment, spans: seq<Span>): (mask: seq<bool>)
    ensures |mask| == |seg.text| && forall k :: 0 <= k < |mask| ==> mask[k] == Touched(spans, seg.start + k)
  {
    seq(|seg.text|, k => Touched(spans, seg.start + k))
  }

  function Clip(seg: Segment, s: Span): Span {
    Span((if s.start > seg.start then s.start else seg.start) - seg.start,
         (if s.end < seg.end then s.end else seg.end) - seg.start)
  }

  // The local spans that appendAbsoluteTextSpan collects.
  function Clipped(seg: Segment, spans: seq<Span>): seq<Span> {
    if spans == [] then []
    else
      var last := Clip(seg, spans[|spans| - 1]);
      Clipped(seg, spans[..|spans| - 1]) + (if last.start >= last.end then [] else [last])
  }

  lemma {:induction false} ClippedMembers(seg: Segment, spans: seq<Span>, c: Span)
    ensures c in Clipped(seg, spans) <==> exists s :: s in spans && Clip(seg, s) == c && c.start < c.end
  {
    if spans != [] {
      var n := |spans| - 1;
      ClippedMembers(seg, spans[..n], c);
      assert forall s :: s in spans <==> s in spans[..n] || s == spans[n];
    }
  }

  lemma {:induction false} ClippedMask(seg: Segment, spans: seq<Span>)
    requires seg.end == seg.start + |seg.text|
    ensures Mask(|seg.text|, Clipped(seg, spans)) == SegmentMask(seg, spans)
  {
    var size := |seg.text|;
    forall k | 0 <= k < size ensures Covered(size, Clipped(seg, spans), k) == Touched(spans, seg.start + k) {
      if Touched(spans, seg.start + k) {
        var s :| s in spans && s.start <= seg.start + k < s.end;
        ClippedMembers(seg, spans, Clip(seg, s));
        assert InRange(size, Clip(seg, s));
      }
      if Covered(size, Clipped(seg, spans), k) {
        var c :| c in Clipped(seg, spans) && InRange(size, c) && c.start <= k < c.end;
        ClippedMembers(seg, spans, c);
      }
    }
  }

  // A clipped span cuts into the middle of a character.
  ghost predicate SplitsCharacter(seg: Segment, spans: seq<Span>) {
    exists s :: s in spans && !Clean(seg.text, Clip(seg, s))
  }

  lemma {:induction false} ClippedOutcome(seg: Segment, spans: seq<Span>)
    requires seg.end == seg.start + |seg.text|
    ensures Redact(seg.text, Clipped(seg, spans))
            == if SplitsCharacter(seg, spans) then Failed
               else Done(Render(seg.text, SegmentMask(seg, spans), false), Runs(SegmentMask(seg, spans), false))
  {
    ClippedMask(seg, spans);
    if SplitsCharacter(seg, spans) {
      var s :| s in spans && !Clean(seg.text, Clip(seg, s));
      ClippedMembers(seg, spans, Clip(seg, s));
      assert Clip(seg, s) in Clipped(seg, spans);
    }
    forall c | c in Clipped(seg, spans) && !Clean(seg.text, c) ensures SplitsCharacter(seg, spans) {
      ClippedMembers(seg, spans, c);
    }
  }

  // ----- the rewritten document -----

  ghost function NewText(seg: Segment, spans: seq<Span>): seq<Byte> {
    Render(seg.text, SegmentMask(seg, spans), false)
  }

  ghost function RewriteOne(j: Json, seg: Segment, spans: seq<Span>): Json {
    if Runs(SegmentMask(seg, spans), false) == 0 then j else Put(j, seg.path, String(NewText(seg, spans)))
  }

  ghost function Rewrite(j: Json, segments: seq<Segment>, spans: seq<Span>): Json {
    if segments == [] then j
    else RewriteOne(Rewrite(j, segments[..|segments| - 1], spans), segments[|segments| - 1], spans)
  }

  ghost function Redactions(segments: seq<Segment>, spans: seq<Span>): nat {
    if segments == [] then 0
    else Redactions(segments[..|segments| - 1], spans)
         + Runs(SegmentMask(segments[|segments| - 1], spans), false)
  }

  ghost function TouchedBytes(segments: seq<Segment>, spans: seq<Span>): nat {
    if segments == [] then 0
    else TouchedBytes(segments[..|segments| - 1], spans)
         + CoveredBytes(SegmentMask(segments[|segments| - 1], spans))
  }

  function TotalBytes(texts: seq<seq<Byte>>): nat {
    if texts == [] then 0 else TotalBytes(texts[..|texts| - 1]) + |texts[|texts| - 1]|
  }

  ghost function TextsOf(segments: seq<Segment>): seq<seq<Byte>> {
    seq(|segments|, i requires 0 <= i < |segments| => segments[i].text)
  }

  ghost function NewTexts(segments: seq<Segment>, spans: seq<Span>): seq<seq<Byte>> {
    seq(|segments|, i requires 0 <= i < |segments| => NewText(segments[i], spans))
  }

  // The number of redactions is what the lengths show: touched bytes go and ten come for each.
  lemma {:induction false} CountLaw(segments: seq<Segment>, spans: seq<Span>)
    ensures TotalBytes(NewTexts(segments, spans)) + TouchedBytes(segments, spans)
            == TotalBytes(TextsOf(segments)) + 10 * Redactions(segments, spans)
  {
    if segments != [] {
      var front, last := segments[..|segments| - 1], segments[|segments| - 1];
      CountLaw(front, spans);
      RenderLength(last.text, SegmentMask(last, spans), false);
      assert TextsOf(segments)[..|front|] == TextsOf(front);
      assert NewTexts(segments, spans)[..|front|] == NewTexts(front, spans);
    }
  }

  ghost function RedactedLeaves(leaves: seq<Leaf>, spans: seq<Span>, n: nat): (r: seq<Leaf>)
    requires n <= |leaves|
    ensures |r| == |leaves|
  {
    seq(|leaves|, i requires 0 <= i < |leaves| =>
      Leaf(leaves[i].path, if i < n then NewText(SegmentOf(leaves, i), spans) else leaves[i].text))
  }

  lemma {:induction false} NoRuns(text: seq<Byte>, mask: seq<bool>)
    requires |mask| == |text| && Runs(mask, false) == 0
    ensures Render(text, mask, false) == text
  {
    if text != [] {
      NoRuns(text[1..], mask[1..]);
    }
  }

  lemma {:induction false} RewriteSnoc(j: Json, segments: seq<Segment>, spans: seq<Span>, n: nat)
    requires n < |segments|
    ensures Rewrite(j, segments[..n + 1], spans) == RewriteOne(Rewrite(j, segments[..n], spans), segments[n], spans)
    ensures Redactions(segments[..n + 1], spans)
            == Redactions(segments[..n], spans) + Runs(SegmentMask(segments[n], spans), false)
  {
    assert segments[..n + 1][..n] == segments[..n];
  }

  lemma {:induction false} RedactedSnoc(leaves: seq<Leaf>, spans: seq<Span>, n: nat)
    requires n < |leaves|
    ensures RedactedLeaves(leaves, spans, n + 1)
            == RedactedLeaves(leaves, spans, n)[n := Leaf(leaves[n].path, NewText(SegmentOf(leaves, n), spans))]
    ensures Runs(SegmentMask(SegmentOf(leaves, n), spans), false) == 0 ==>
              RedactedLeaves(leaves, spans, n + 1) == RedactedLeaves(leaves, spans, n)
  {
    var seg := SegmentOf(leaves, n);
    if Runs(SegmentMask(seg, spans), false) == 0 {
      NoRuns(seg.text, SegmentMask(seg, spans));
    }
  }

  lemma {:induction false} RewriteNext(sel: Selector, j: Json, leaves: seq<Leaf>, spans: seq<Span>, n: nat)
    requires Proper(sel) && n < |leaves| && leaves[n].text != []
    requires Leaves(sel, j) == RedactedLeaves(leaves, spans, n)
    ensures Leaves(sel, RewriteOne(j, SegmentOf(leaves, n), spans)) == RedactedLeaves(leaves, spans, n + 1)
  {
    var seg := SegmentOf(leaves, n);
    var mask := SegmentMask(seg, spans);
    RedactedSnoc(leaves, spans, n);
    if Runs(mask, false) != 0 {
      RenderNonEmpty(seg.text, mask);
      assert Leaves(sel, j)[n].path == seg.path;
      PutLeaf(sel, j, n, NewText(seg, spans));
    }
  }

  lemma {:induction false} RewritePrefix(sel: Selector, j: Json, leaves: seq<Leaf>, spans: seq<Span>, n: nat)
    requires Proper(sel) && leaves == Leaves(sel, j) && n <= |leaves|
    ensures Leaves(sel, Rewrite(j, Layout(leaves)[..n], spans)) == RedactedLeaves(leaves, spans, n)
  {
    if n == 0 {
      assert RedactedLeaves(leaves, spans, 0) == leaves;
    } else {
      RewriteSnoc(j, Layout(leaves), spans, n - 1);
      RewritePrefix(sel, j, leaves, spans, n - 1);
      LeafIsString(sel, j, n - 1);
      RewriteNext(sel, Rewrite(j, Layout(leaves)[..n - 1], spans), leaves, spans, n - 1);
    }
  }

  ghost predicate NotALeaf(leaves: seq<Leaf>, q: Path) {
    forall i :: 0 <= i < |leaves| ==> leaves[i].path != q
  }

  lemma {:induction false} RewriteElsewhere(sel: Selector, j: Json, leaves: seq<Leaf>, spans: seq<Span>, n: nat,
                                            q: Path)
    requires Proper(sel) && leaves == Leaves(sel, j) && n <= |leaves| && NotALeaf(leaves, q)
    ensures ShapeAt(Rewrite(j, Layout(leaves)[..n], spans), q) == ShapeAt(j, q)
  {
    if n > 0 {
      RewriteSnoc(j, Layout(leaves), spans, n - 1);
      RewriteElsewhere(sel, j, leaves, spans, n - 1, q);
      RewritePrefix(sel, j, leaves, spans, n - 1);
      var before := Rewrite(j, Layout(leaves)[..n - 1], spans);
      assert leaves[n - 1].path != q && Layout(leaves)[n - 1] == SegmentOf(leaves, n - 1);
      RewriteOneElsewhere(sel, before, leaves, spans, n - 1, q);
    }
  }

  lemma {:induction false} RewriteOneElsewhere(sel: Selector, j: Json, leaves: seq<Leaf>, spans: seq<Span>, n: nat,
                                               q: Path)
    requires n < |leaves| && leaves[n].path != q && Leaves(sel, j) == RedactedLeaves(leaves, spans, n)
    ensures ShapeAt(RewriteOne(j, SegmentOf(leaves, n), spans), q) == ShapeAt(j, q)
  {
    var seg := SegmentOf(leaves, n);
    LeafIsString(sel, j, n);
    PutElsewhere(j, seg.path, q, NewText(seg, spans));
  }

  lemma {:induction false} SliceOfMask(leaves: seq<Leaf>, spans: seq<Span>, i: nat)
    requires i < |leaves|
    ensures var s, joined := SegmentOf(leaves, i), JoinedText(leaves);
            && s.end <= |joined| && joined[s.start..s.end] == leaves[i].text
            && JoinedMask(|joined|, spans)[s.start..s.end] == SegmentMask(s, spans)
  {
    SegmentHoldsText(leaves, i);
  }

  // Extracting the rewritten document finds the same places; each holds its slice of the joined
  // text with exactly the touched bytes replaced, and nothing outside those places changed.
  lemma {:induction false} RedactionEndToEnd(sel: Selector, j: Json, spans: seq<Span>, i: nat)
    requires Proper(sel) && i < |Leaves(sel, j)|
    ensures var leaves, s := Leaves(sel, j), SegmentOf(Leaves(sel, j), i);
            var after := Leaves(sel, Rewrite(j, Layout(leaves), spans));
            var joined, mask := JoinedText(leaves), JoinedMask(|JoinedText(leaves)|, spans);
            && |after| == |leaves|
            && s.end <= |joined| && joined[s.start..s.end] == leaves[i].text
            && after[i] == Leaf(leaves[i].path, Render(joined[s.start..s.end], mask[s.start..s.end], false))
  {
    var leaves := Leaves(sel, j);
    assert Layout(leaves)[..|leaves|] == Layout(leaves);
    RewritePrefix(sel, j, leaves, spans, |leaves|);
    SliceOfMask(leaves, spans, i);
  }

  lemma {:induction false} RedactionElsewhere(sel: Selector, j: Json, spans: seq<Span>, q: Path)
    requires Proper(sel) && NotALeaf(Leaves(sel, j), q)
    ensures ShapeAt(Rewrite(j, Layout(Leaves(sel, j)), spans), q) == ShapeAt(j, q)
  {
    var leaves := Leaves(sel, j);
    assert Layout(leaves)[..|leaves|] == Layout(leaves);
    RewriteElsewhere(sel, j, leaves, spans, |leaves|, q);
  }

  // Redaction of a document whose strings are well-formed leaves them well-formed.
  lemma {:induction false} RedactionKeepsUtf8(sel: Selector, j: Json, spans: seq<Span>, i: nat)
    requires Proper(sel) && i < |Leaves(sel, j)|
    requires WellFormed(Leaves(sel, j)[i].text) && !SplitsCharacter(SegmentOf(Leaves(sel, j), i), spans)
    ensures i < |Leaves(sel, Rewrite(j, Layout(Leaves(sel, j)), spans))|
    ensures WellFormed(Leaves(sel, Rewrite(j, Layout(Leaves(sel, j)), spans))[i].text)
  {
    var leaves := Leaves(sel, j);
    var seg := SegmentOf(leaves, i);
    assert Layout(leaves)[..|leaves|] == Layout(leaves);
    RewritePrefix(sel, j, leaves, spans, |leaves|);
    ClippedOutcome(seg, spans);
    RedactKeepsUtf8(seg.text, Clipped(seg, spans));
  }

  // ----- the code -----

  class Document {
    var body: Json

    constructor (body: Json)
      ensures this.body == body
    {
      this.body := body;
    }

    // The setter closure of one segment.
    method Apply(path: Path, text: seq<Byte>)
      modifies this
      ensures body == Put(old(body), path, String(text))
    {
      body := Put(body, path, String(text));
    }
  }

  method SpansForSegment(seg: Segment, findings: seq<Span>, matched: seq<Span>) returns (spans: seq<Span>)
    ensures spans == Clipped(seg, findings + matched)
  {
    spans := [];
    for i := 0 to |findings|
      invariant spans == Clipped(seg, findings[..i])
    {
      spans := AppendAbsoluteSpan(spans, seg, findings[i], findings[..i]);
      assert findings[..i] + [findings[i]] == findings[..i + 1];
    }
    assert findings + matched[..0] == findings[..|findings|];
    for i := 0 to |matched|
      invariant spans == Clipped(seg, findings + matched[..i])
    {
      spans := AppendAbsoluteSpan(spans, seg, matched[i], findings + matched[..i]);
      assert findings + matched[..i] + [matched[i]] == findings + matched[..i + 1];
    }
    assert matched[..|matched|] == matched;
  }

  method AppendAbsoluteSpan(spans: seq<Span>, seg: Segment, s: Span, ghost seen: seq<Span>) returns (r: seq<Span>)
    requires spans == Clipped(seg, seen)
    ensures r == Clipped(seg, seen + [s])
  {
    assert (seen + [s])[..|seen|] == seen;
    var start := if s.start > seg.start then s.start else seg.start;
    var end := if s.end < seg.end then s.end else seg.end;
    if start >= end {
      return spans;
    }
    return spans + [Span(start - seg.start, end - seg.start)];
  }

  // No span cuts into the middle of a character of a segment.
  ghost predicate NoneSplit(segments: seq<Segment>, spans: seq<Span>) {
    segments == [] || (NoneSplit(segments[..|segments| - 1], spans)
        && !SplitsCharacter(segments[|segments| - 1], spans))
  }

  lemma {:induction false} NoneSplitMeans(segments: seq<Segment>, spans: seq<Span>)
    ensures NoneSplit(segments, spans) <==> forall i :: 0 <= i < |segments| ==> !SplitsCharacter(segments[i], spans)
  {
    if segments != [] {
      NoneSplitMeans(segments[..|segments| - 1], spans);
    }
  }

  lemma {:induction false} NoneSplitSnoc(segments: seq<Segment>, i: nat, spans: seq<Span>)
    requires i < |segments|
    ensures NoneSplit(segments[..i + 1], spans)
            <==> NoneSplit(segments[..i], spans) && !SplitsCharacter(segments[i], spans)
  {
    assert segments[..i + 1][..i] == segments[..i];
  }

  lemma {:induction false} SomeSplits(segments: seq<Segment>, i: nat, spans: seq<Span>)
    requires i < |segments| && SplitsCharacter(segments[i], spans)
    ensures !NoneSplit(segments, spans)
  {
    NoneSplitMeans(segments, spans);
  }

  method RedactTextSegments(doc: Document, segments: seq<Segment>, findings: seq<Span>, matched: seq<Span>)
    returns (r: Option<nat>)
    requires forall i :: 0 <= i < |segments| ==> segments[i].end == segments[i].start + |segments[i].text|
    modifies doc
    ensures r.Some? <==> NoneSplit(segments, findings + matched)
    ensures r.Some? ==> r.value == Redactions(segments, findings + matched)
    ensures r.Some? ==> doc.body == Rewrite(old(doc.body), segments, findings + matched)
    ensures r.None? ==> exists k :: 0 <= k < |segments| && SplitsCharacter(segments[k], findings + matched)
                                    && doc.body == Rewrite(old(doc.body), segments[..k], findings + matched)
  {
    var redactions := 0;
    ghost var all := findings + matched;
    for i := 0 to |segments|
      invariant NoneSplit(segments[..i], all)
      invariant redactions == Redactions(segments[..i], all)
      invariant doc.body == Rewrite(old(doc.body), segments[..i], all)
    {
      RewriteSnoc(old(doc.body), segments, all, i);
      NoneSplitSnoc(segments, i, all);
      var count := RedactSegment(doc, segments[i], findings, matched);
      if count.None? {
        SomeSplits(segments, i, all);
        return None;
      }
      redactions := redactions + count.value;
    }
    assert segments[..|segments|] == segments;
    return Some(redactions);
  }

  // One round of the loop: the body changes only when something was redacted.
  method RedactSegment(doc: Document, seg: Segment, findings: seq<Span>, matched: seq<Span>) returns (r: Option<nat>)
    requires seg.end == seg.start + |seg.text|
    modifies doc
    ensures r.None? <==> SplitsCharacter(seg, findings + matched)
    ensures r.None? ==> doc.body == old(doc.body)
    ensures r.Some? ==> r.value == Runs(SegmentMask(seg, findings + matched), false)
    ensures r.Some? ==> doc.body == RewriteOne(old(doc.body), seg, findings + matched)
  {
    ClippedOutcome(seg, findings + matched);
    var spans := SpansForSegment(seg, findings, matched);
    if |spans| == 0 {
      NoneCovered(seg.text, spans);
      return Some(0);
    }
    var a := new Span[|spans|](i requires 0 <= i < |spans| => spans[i]);
    assert a[..] == spans;
    var redacted := RedactText(seg.text, a);
    if redacted.Failed? {
      return None;
    }
    if redacted.count != 0 {
      doc.Apply(seg.path, redacted.text);
    }
    return Some(redacted.count);
  }
}
