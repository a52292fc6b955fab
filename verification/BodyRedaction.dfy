/** Extracting, redacting and extracting again, for the four OpenAI body shapes:
    internal/contexts/gateway/adapters/http/openai/openai_protocol.go:32-96 and
    openai_redaction.go:12-35. */
module BodyRedaction {
  import opened Options
  import opened Utf8
  import opened Redaction
  import opened TextTree
  import opened TextPaths
  import opened Segments
  import opened Documents
  import opened Extractors

  function SelectorOf(shape: BodyKind): (sel: Selector)
    ensures Proper(sel)
  {
    ExtractorsProper();
    match shape
    case ChatInput => CHAT_INPUT
    case ChatOutput => CHAT_OUTPUT
    case ResponsesInput => RESPONSES_INPUT
    case ResponsesOutput => RESPONSES_OUTPUT
  }

  // The segments are the strings at exactly these places, in the order of the places.
  ghost predicate Inspects(shape: BodyKind, body: Json, segments: seq<Segment>) {
    && (forall p :: HoldsText(shape, body, p) <==> InSegment(p, segments))
    && (forall i :: 0 <= i < |segments| ==> Get(body, segments[i].path) == Some(String(segments[i].text)))
    && forall i, k :: 0 <= i < k < |segments| ==> Before(segments[i].path, segments[k].path)
  }

  ghost predicate InSegment(p: Path, segments: seq<Segment>) {
    exists i :: 0 <= i < |segments| && segments[i].path == p
  }

  lemma {:induction false} SelectorPlaces(shape: BodyKind, body: Json, p: Path)
    ensures Reaches(SelectorOf(shape), body, p) <==> HoldsText(shape, body, p)
  {
    match shape {
      case ChatInput => ChatInputPlaces(body, p);
      case ChatOutput => ChatOutputPlaces(body, p);
      case ResponsesInput => ResponsesInputPlaces(body, p);
      case ResponsesOutput => ResponsesOutputPlaces(body, p);
    }
  }

  lemma {:induction false} LayoutInspects(shape: BodyKind, body: Json)
    ensures Inspects(shape, body, Layout(Leaves(SelectorOf(shape), body)))
  {
    var sel := SelectorOf(shape);
    var leaves := Leaves(sel, body);
    var segments := Layout(leaves);
    forall p ensures HoldsText(shape, body, p) <==> InSegment(p, segments) {
      SelectorPlaces(shape, body, p);
      if Reaches(sel, body, p) {
        var i := ReachedIsLeaf(sel, body, p);
        assert segments[i].path == p;
      }
      if InSegment(p, segments) {
        var i :| 0 <= i < |segments| && segments[i].path == p;
        LeafReached(sel, body, i);
      }
    }
    forall i | 0 <= i < |segments| ensures Get(body, segments[i].path) == Some(String(segments[i].text)) {
      LeafIsString(sel, body, i);
    }
    forall i, k | 0 <= i < k < |segments| ensures Before(segments[i].path, segments[k].path) {
      SelectorsAscending();
      LeavesInOrder(sel, body, i, k);
    }
  }

  method Extract(shape: BodyKind, body: map<string, Json>) returns (text: seq<Byte>, segments: seq<Segment>)
    ensures text == JoinedText(Leaves(SelectorOf(shape), Object(body)))
    ensures segments == Layout(Leaves(SelectorOf(shape), Object(body)))
    ensures Inspects(shape, Object(body), segments)
  {
    LayoutInspects(shape, Object(body));
    match shape {
      case ChatInput => text, segments := ExtractChatInput(body);
      case ChatOutput => text, segments := ExtractChatOutput(body);
      case ResponsesInput => text, segments := ExtractResponsesInput(body);
      case ResponsesOutput => text, segments := ExtractResponsesOutput(body);
    }
  }

  // What the extracted strings of `before` become: each is its slice of the joined text with the
  // touched bytes replaced, at the same place, and no other place has changed.
  ghost predicate Redacted(sel: Selector, before: Json, after: Json, spans: seq<Span>) {
    var was, now := Leaves(sel, before), Leaves(sel, after);
    var joined, mask := JoinedText(was), JoinedMask(|JoinedText(was)|, spans);
    && |now| == |was|
    && (forall i :: 0 <= i < |was| ==>
          var s := SegmentOf(was, i);
          && s.end <= |joined| && joined[s.start..s.end] == was[i].text
          && now[i] == Leaf(was[i].path, Render(joined[s.start..s.end], mask[s.start..s.end], false)))
    && (forall q :: NotALeaf(was, q) ==> ShapeAt(after, q) == ShapeAt(before, q))
  }

  ghost predicate AllWellFormed(leaves: seq<Leaf>) {
    forall i :: 0 <= i < |leaves| ==> WellFormed(leaves[i].text)
  }

  ghost predicate SomeSplit(leaves: seq<Leaf>, spans: seq<Span>) {
    exists i :: 0 <= i < |leaves| && SplitsCharacter(SegmentOf(leaves, i), spans)
  }

  lemma {:induction false} RewriteRedacts(sel: Selector, j: Json, spans: seq<Span>)
    requires Proper(sel)
    ensures Redacted(sel, j, Rewrite(j, Layout(Leaves(sel, j)), spans), spans)
    ensures AllWellFormed(Leaves(sel, j)) && !SomeSplit(Leaves(sel, j), spans) ==>
              AllWellFormed(Leaves(sel, Rewrite(j, Layout(Leaves(sel, j)), spans)))
  {
    var leaves := Leaves(sel, j);
    var after := Rewrite(j, Layout(leaves), spans);
    assert Layout(leaves)[..|leaves|] == Layout(leaves);
    RewritePrefix(sel, j, leaves, spans, |leaves|);
    forall i | 0 <= i < |leaves|
      ensures var s, joined := SegmentOf(leaves, i), JoinedText(leaves);
              && s.end <= |joined| && joined[s.start..s.end] == leaves[i].text
              && Leaves(sel, after)[i]
                 == Leaf(leaves[i].path, Render(joined[s.start..s.end], JoinedMask(|joined|, spans)[s.start..s.end],
                                                false))
      ensures AllWellFormed(leaves) && !SomeSplit(leaves, spans) ==> WellFormed(Leaves(sel, after)[i].text)
    {
      RedactionEndToEnd(sel, j, spans, i);
      if AllWellFormed(leaves) && !SomeSplit(leaves, spans) {
        RedactionKeepsUtf8(sel, j, spans, i);
      }
    }
    forall q | NotALeaf(leaves, q) ensures ShapeAt(after, q) == ShapeAt(j, q) {
      RedactionElsewhere(sel, j, spans, q);
    }
  }

  lemma {:induction false} BodyIsNoLeaf(sel: Selector, j: Json)
    requires j.Object?
    ensures NotALeaf(Leaves(sel, j), [])
  {
    forall i | 0 <= i < |Leaves(sel, j)| ensures Leaves(sel, j)[i].path != [] {
      LeafIsString(sel, j, i);
    }
  }

  // A place that holds no inspected text is as it was, and one that does still holds some.
  ghost predicate PlacesKept(shape: BodyKind, before: Json, after: Json) {
    && (forall p :: !HoldsText(shape, before, p) ==> ShapeAt(after, p) == ShapeAt(before, p))
    && (forall p :: HoldsText(shape, before, p) <==> HoldsText(shape, after, p))
  }

  lemma {:induction false} SamePaths(sel: Selector, before: Json, after: Json, spans: seq<Span>)
    requires Redacted(sel, before, after, spans)
    ensures |Leaves(sel, after)| == |Leaves(sel, before)|
    ensures forall i :: 0 <= i < |Leaves(sel, before)| ==> Leaves(sel, after)[i].path == Leaves(sel, before)[i].path
    ensures forall q :: NotALeaf(Leaves(sel, before), q) ==> ShapeAt(after, q) == ShapeAt(before, q)
  {
  }

  lemma {:induction false} SameSegments(was: seq<Leaf>, now: seq<Leaf>, p: Path)
    requires |now| == |was| && forall i :: 0 <= i < |was| ==> now[i].path == was[i].path
    ensures InSegment(p, Layout(was)) <==> InSegment(p, Layout(now))
    ensures InSegment(p, Layout(was)) || NotALeaf(was, p)
  {
    assert forall i :: 0 <= i < |was| ==> Layout(was)[i].path == was[i].path == Layout(now)[i].path;
  }

  lemma {:induction false} RedactedKeepsPlaces(shape: BodyKind, before: Json, after: Json, spans: seq<Span>)
    requires Redacted(SelectorOf(shape), before, after, spans)
    ensures PlacesKept(shape, before, after)
  {
    var was, now := Leaves(SelectorOf(shape), before), Leaves(SelectorOf(shape), after);
    LayoutInspects(shape, before);
    LayoutInspects(shape, after);
    SamePaths(SelectorOf(shape), before, after, spans);
    forall p
      ensures HoldsText(shape, before, p) <==> HoldsText(shape, after, p)
      ensures !HoldsText(shape, before, p) ==> ShapeAt(after, p) == ShapeAt(before, p)
    {
      SameSegments(was, now, p);
    }
  }

  // Extracts a body, redacts it, and extracts it again. It is refused exactly if a span cuts into
  // the middle of a character of an extracted string.
  method RedactBody(shape: BodyKind, doc: Document, findings: seq<Span>, matched: seq<Span>)
    returns (r: Option<nat>, text: seq<Byte>, segments: seq<Segment>)
    requires doc.body.Object?
    modifies doc
    ensures r.None? <==> SomeSplit(Leaves(SelectorOf(shape), old(doc.body)), findings + matched)
    ensures r.Some? ==>
              && Redacted(SelectorOf(shape), old(doc.body), doc.body, findings + matched)
              && r.value == Redactions(Layout(Leaves(SelectorOf(shape), old(doc.body))), findings + matched)
              && doc.body.Object?
              && text == JoinedText(Leaves(SelectorOf(shape), doc.body))
              && segments == Layout(Leaves(SelectorOf(shape), doc.body))
              && Inspects(shape, doc.body, segments) && PlacesKept(shape, old(doc.body), doc.body)
              && (AllWellFormed(Leaves(SelectorOf(shape), old(doc.body))) ==>
                   AllWellFormed(Leaves(SelectorOf(shape), doc.body)))
  {
    ghost var sel, before, spans := SelectorOf(shape), doc.body, findings + matched;
    text, segments := Extract(shape, doc.body.fields);
    assert before == Object(doc.body.fields);
    ghost var leaves := Leaves(sel, before);
    assert forall i :: 0 <= i < |leaves| ==> segments[i] == SegmentOf(leaves, i);
    NoneSplitMeans(segments, spans);
    r := RedactTextSegments(doc, segments, findings, matched);
    RewriteRedacts(sel, before, spans);
    BodyIsNoLeaf(sel, before);
    if r.Some? {
      assert ShapeAt(doc.body, []) == ShapeAt(before, []);
      text, segments := Extract(shape, doc.body.fields);
      assert doc.body == Object(doc.body.fields);
      RedactedKeepsPlaces(shape, before, doc.body, spans);
    }
  }
}
