/** internal/contexts/gateway/application/redaction.go: splicing a token over byte spans.
    The reference is positional: look at every byte, keep it if no usable span covers it,
    and write one token where a run of covered bytes begins. */
module Redaction {
  import opened Utf8
  import Sorting
  import opened Strings

  // "[REDACTED]"
  const TOKEN: seq<Byte> := [0x5B, 0x52, 0x45, 0x44, 0x41, 0x43, 0x54, 0x45, 0x44, 0x5D]

  datatype Span = Span(start: int, end: int)

  datatype Outcome = Failed | Done(text: seq<Byte>, count: nat)

  // ----- the reference -----

  predicate InRange(size: nat, s: Span) { 0 <= s.start < s.end <= size }

  ghost predicate Covered(size: nat, spans: seq<Span>, k: int) {
    exists s :: s in spans && InRange(size, s) && s.start <= k < s.end
  }

  ghost function Mask(size: nat, spans: seq<Span>): (mask: seq<bool>)
    ensures |mask| == size
    ensures forall k :: 0 <= k < size ==> mask[k] == Covered(size, spans, k)
  {
    seq(size, k => Covered(size, spans, k))
  }

  // prev: was the byte in front of text covered?
  function Render(text: seq<Byte>, mask: seq<bool>, prev: bool): seq<Byte>
    requires |mask| == |text|
  {
    if text == [] then []
    else if !mask[0] then [text[0]] + Render(text[1..], mask[1..], false)
    else (if prev then [] else TOKEN) + Render(text[1..], mask[1..], true)
  }

  function Runs(mask: seq<bool>, prev: bool): nat {
    if mask == [] then 0
    else (if mask[0] && !prev then 1 else 0) + Runs(mask[1..], mask[0])
  }

  function CoveredBytes(mask: seq<bool>): nat {
    if mask == [] then 0 else (if mask[0] then 1 else 0) + CoveredBytes(mask[1..])
  }

  predicate ValidBoundary(text: seq<Byte>, offset: int)
    requires 0 <= offset <= |text|
  {
    offset == 0 || offset == |text| || RuneStart(text[offset])
  }

  predicate Clean(text: seq<Byte>, s: Span) {
    InRange(|text|, s) ==> ValidBoundary(text, s.start) && ValidBoundary(text, s.end)
  }

  ghost function Redact(text: seq<Byte>, spans: seq<Span>): Outcome {
    if exists s :: s in spans && !Clean(text, s) then Failed
    else Done(Render(text, Mask(|text|, spans), false), Runs(Mask(|text|, spans), false))
  }

  // ----- laws of the reference -----

  lemma {:induction false} RenderConcat(a: seq<Byte>, b: seq<Byte>, ma: seq<bool>, mb: seq<bool>, prev: bool)
    requires |ma| == |a| && |mb| == |b|
    ensures var last := if ma == [] then prev else ma[|ma| - 1];
            && Render(a + b, ma + mb, prev) == Render(a, ma, prev) + Render(b, mb, last)
            && Runs(ma + mb, prev) == Runs(ma, prev) + Runs(mb, last)
  {
    if a == [] {
      assert a + b == b && ma + mb == mb;
    } else {
      var rest, rm := a[1..], ma[1..];
      assert (a + b)[0] == a[0] && (ma + mb)[0] == ma[0];
      assert (a + b)[1..] == rest + b && (ma + mb)[1..] == rm + mb;
      RenderConcat(rest, b, rm, mb, ma[0]);
      var last := if rm == [] then ma[0] else rm[|rm| - 1];
      var piece := if !ma[0] then [a[0]] else if prev then [] else TOKEN;
      assert Render(a + b, ma + mb, prev) == piece + (Render(rest, rm, ma[0]) + Render(b, mb, last));
      Associative(piece, Render(rest, rm, ma[0]), Render(b, mb, last));
    }
  }

  lemma {:induction false} RenderConstant(text: seq<Byte>, mask: seq<bool>, bit: bool, prev: bool)
    requires |mask| == |text| && forall k :: 0 <= k < |mask| ==> mask[k] == bit
    ensures !bit ==> Render(text, mask, prev) == text && Runs(mask, prev) == 0
    ensures bit && (prev || text == []) ==> Render(text, mask, prev) == [] && Runs(mask, prev) == 0
    ensures bit && !prev && text != [] ==> Render(text, mask, prev) == TOKEN && Runs(mask, prev) == 1
  {
    if text != [] {
      RenderConstant(text[1..], mask[1..], bit, bit);
    }
  }

  // Only the set of spans matters: their order and repetition do not.
  lemma {:induction false} OrderIndependent(text: seq<Byte>, a: seq<Span>, b: seq<Span>)
    requires forall s :: s in a <==> s in b
    ensures Redact(text, a) == Redact(text, b)
  {
    forall k | 0 <= k < |text| ensures Covered(|text|, a, k) == Covered(|text|, b, k) {}
    assert Mask(|text|, a) == Mask(|text|, b);
  }

  lemma {:induction false} RenderLength(text: seq<Byte>, mask: seq<bool>, prev: bool)
    requires |mask| == |text|
    ensures |Render(text, mask, prev)| + CoveredBytes(mask) == |text| + 10 * Runs(mask, prev)
  {
    if text != [] {
      RenderLength(text[1..], mask[1..], mask[0]);
    }
  }

  lemma {:induction false} LengthLaw(text: seq<Byte>, spans: seq<Span>)
    requires Redact(text, spans).Done?
    ensures var d := Redact(text, spans);
            |d.text| + CoveredBytes(Mask(|text|, spans)) == |text| + 10 * d.count
  {
    RenderLength(text, Mask(|text|, spans), false);
  }

  // Text that is non-empty stays non-empty.
  lemma {:induction false} RenderNonEmpty(text: seq<Byte>, mask: seq<bool>)
    requires |mask| == |text| && text != []
    ensures Render(text, mask, false) != []
  {
  }

  // A mask that only changes at character starts never splits a character.
  ghost predicate CutsAtStarts(text: seq<Byte>, mask: seq<bool>)
    requires |mask| == |text|
  {
    forall k :: 0 < k < |text| && mask[k] != mask[k - 1] ==> RuneStart(text[k])
  }

  lemma {:induction false} RenderWellFormed(text: seq<Byte>, mask: seq<bool>, prev: bool)
    requires |mask| == |text| && CutsAtStarts(text, mask) && WellFormed(text)
    ensures WellFormed(Render(text, mask, prev))
    decreases |text|
  {
    if text != [] {
      var n := CharLen(text);
      var head, tail, hm, tm := text[..n], text[n..], mask[..n], mask[n..];
      ConstantUpTo(text, mask, n);
      assert text == head + tail && mask == hm + tm;
      RenderConcat(head, tail, hm, tm, prev);
      RenderWellFormed(tail, tm, mask[0]);
      FirstCharRendered(head, hm, prev);
      WellFormedConcat(Render(head, hm, prev), Render(tail, tm, mask[0]));
    }
  }

  lemma {:induction false} FirstCharRendered(head: seq<Byte>, mask: seq<bool>, prev: bool)
    requires |mask| == |head| > 0 && CharLen(head) == |head|
    requires forall k :: 0 <= k < |mask| ==> mask[k] == mask[0]
    ensures WellFormed(Render(head, mask, prev))
  {
    RenderConstant(head, mask, mask[0], prev);
    assert head[|head|..] == [];
    if Render(head, mask, prev) == TOKEN {
      AsciiWellFormed(Render(head, mask, prev));
    }
  }

  lemma {:induction false} ConstantUpTo(text: seq<Byte>, mask: seq<bool>, n: nat)
    requires |mask| == |text| && CutsAtStarts(text, mask) && 0 < n <= |text|
    requires forall i :: 0 < i < n ==> Tail(text[i])
    ensures forall i :: 0 <= i < n ==> mask[i] == mask[0]
  {
    if n > 1 {
      ConstantUpTo(text, mask, n - 1);
      assert mask[n - 1] == mask[n - 2];
    }
  }

  lemma {:induction false} AsciiWellFormed(s: seq<Byte>)
    requires forall i :: 0 <= i < |s| ==> s[i] <= 0x7F
    ensures WellFormed(s)
  {
    if s != [] {
      AsciiWellFormed(s[1..]);
    }
  }

  // Redaction keeps UTF-8, whatever the spans, because every cut passed the boundary test.
  lemma {:induction false} RedactKeepsUtf8(text: seq<Byte>, spans: seq<Span>)
    requires WellFormed(text) && Redact(text, spans).Done?
    ensures WellFormed(Redact(text, spans).text)
  {
    var mask := Mask(|text|, spans);
    forall k | 0 < k < |text| && mask[k] != mask[k - 1] ensures RuneStart(text[k]) {
      var at := if mask[k] then k else k - 1;
      var s :| s in spans && InRange(|text|, s) && s.start <= at < s.end;
      assert Clean(text, s);
      assert !Covered(|text|, spans, k + k - 1 - at);
      assert k == s.start || k == s.end;
    }
    RenderWellFormed(text, mask, false);
  }

  // ----- the algorithm -----

  predicate ByStart(a: Span, b: Span) { a.start < b.start }

  method SortSpans(spans: array<Span>)
    modifies spans
    ensures multiset(spans[..]) == multiset(old(spans[..]))
    ensures Sorting.Sorted(spans[..], ByStart)
  {
    var sorted := Sorting.SortSlice(spans[..], ByStart);
    assert |sorted| == |multiset(sorted)| == spans.Length;
    forall i | 0 <= i < spans.Length {
      spans[i] := sorted[i];
    }
    assert spans[..] == sorted;
  }

  // In bounds, ordered, and never touching.
  ghost predicate Separated(size: nat, merged: seq<Span>) {
    && (forall s :: s in merged ==> InRange(size, s))
    && (forall i, j :: 0 <= i < j < |merged| ==> merged[i].end < merged[j].start)
  }

  // Both lists are ordered by start, so only the last merged span can meet the next one.
  lemma {:induction false} AbsorbKeeps(size: nat, merged: seq<Span>, span: Span, next: seq<Span>)
    requires Separated(size, merged) && InRange(size, span)
    requires merged != [] ==> merged[|merged| - 1].start <= span.start
    requires next == if merged == [] || span.start > merged[|merged| - 1].end then merged + [span]
                     else if span.end > merged[|merged| - 1].end
                     then merged[|merged| - 1 := Span(merged[|merged| - 1].start, span.end)]
                     else merged
    ensures Separated(size, next) && next[|next| - 1].start <= span.start
    ensures forall k :: Covered(size, next, k) <==> Covered(size, merged, k) || span.start <= k < span.end
  {
    if merged == [] || span.start > merged[|merged| - 1].end {
      CoverAppend(size, merged, span);
      forall i | 0 <= i < |merged| ensures merged[i].end < span.start {
        assert merged[|merged| - 1] in merged;
      }
    } else {
      var last, rest := merged[|merged| - 1], merged[..|merged| - 1];
      assert merged == rest + [last] && last in merged;
      CoverAppend(size, rest, last);
      if span.end > last.end {
        var wider := Span(last.start, span.end);
        assert next == rest + [wider];
        CoverAppend(size, rest, wider);
      }
    }
  }

  method Merge(text: seq<Byte>, spans: seq<Span>) returns (ok: bool, merged: seq<Span>)
    requires Sorting.Sorted(spans, ByStart)
    ensures ok <==> forall s :: s in spans ==> Clean(text, s)
    ensures ok ==> Separated(|text|, merged)
    ensures ok ==> forall k :: Covered(|text|, merged, k) <==> Covered(|text|, spans, k)
  {
    merged := [];
    for i := 0 to |spans|
      invariant forall j :: 0 <= j < i ==> Clean(text, spans[j])
      invariant Separated(|text|, merged)
      invariant forall j :: i <= j < |spans| && merged != [] ==> merged[|merged| - 1].start <= spans[j].start
      invariant forall k :: Covered(|text|, merged, k) <==> Covered(|text|, spans[..i], k)
    {
      var span := spans[i];
      assert spans[..i + 1] == spans[..i] + [span];
      CoverAppend(|text|, spans[..i], span);
      if !InRange(|text|, span) {
        continue;
      }
      if !ValidBoundary(text, span.start) || !ValidBoundary(text, span.end) {
        assert span in spans && !Clean(text, span);
        return false, [];
      }
      ghost var before := merged;
      if merged == [] || span.start > merged[|merged| - 1].end {
        merged := merged + [span];
      } else if span.end > merged[|merged| - 1].end {
        merged := merged[|merged| - 1 := Span(merged[|merged| - 1].start, span.end)];
      }
      AbsorbKeeps(|text|, before, span, merged);
    }
    ok := true;
    assert spans[..|spans|] == spans;
  }

  lemma {:induction false} CoverAppend(size: nat, spans: seq<Span>, s: Span)
    ensures forall k :: Covered(size, spans + [s], k) <==>
                        Covered(size, spans, k) || (InRange(size, s) && s.start <= k < s.end)
  {
    forall k
      ensures Covered(size, spans + [s], k) <==>
              Covered(size, spans, k) || (InRange(size, s) && s.start <= k < s.end)
    {
      if Covered(size, spans, k) {
        var t :| t in spans && InRange(size, t) && t.start <= k < t.end;
        assert t in spans + [s];
      }
      if InRange(size, s) && s.start <= k < s.end {
        assert s in spans + [s];
      }
    }
  }

  method Splice(text: seq<Byte>, merged: seq<Span>) returns (out: seq<Byte>)
    requires Separated(|text|, merged)
    ensures out == Render(text, Mask(|text|, merged), false)
    ensures |merged| == Runs(Mask(|text|, merged), false)
  {
    ghost var mask := Mask(|text|, merged);
    out := [];
    var offset := 0;
    for i := 0 to |merged|
      invariant offset == if i == 0 then 0 else merged[i - 1].end
      invariant 0 <= offset <= |text|
      invariant out == Render(text[..offset], mask[..offset], false)
      invariant i == Runs(mask[..offset], false)
    {
      var span := merged[i];
      assert span in merged && (i > 0 ==> merged[i - 1] in merged);
      forall k | offset <= k <= span.start ensures mask[k] == (k == span.start) {
        if k < span.start {
          GapUncovered(|text|, merged, i, k);
        }
      }
      SpliceStep(text, mask, offset, span);
      out := out + text[offset..span.start] + TOKEN;
      offset := span.end;
    }
    forall k | offset <= k < |text| ensures !mask[k] {
      GapUncovered(|text|, merged, |merged|, k);
    }
    RenderGap(text[..offset], text[offset..], mask[..offset], mask[offset..]);
    assert text[..offset] + text[offset..] == text && mask[..offset] + mask[offset..] == mask;
    out := out + text[offset..];
  }

  lemma {:induction false} GapUncovered(size: nat, merged: seq<Span>, i: nat, k: int)
    requires Separated(size, merged) && i <= |merged|
    requires i > 0 ==> merged[i - 1].end <= k
    requires i < |merged| ==> k < merged[i].start
    ensures !Covered(size, merged, k)
  {
    forall j | 0 <= j < |merged| ensures !(merged[j].start <= k < merged[j].end) {
      assert i > 0 ==> merged[i - 1] in merged;
      assert i < |merged| ==> merged[i] in merged;
    }
  }

  lemma {:induction false} SpliceStep(text: seq<Byte>, mask: seq<bool>, offset: nat, s: Span)
    requires |mask| == |text| && offset <= s.start < s.end <= |text|
    requires forall k :: offset <= k < s.end ==> mask[k] == (k >= s.start)
    requires offset == s.start ==> offset == 0
    ensures Render(text[..s.end], mask[..s.end], false)
            == Render(text[..offset], mask[..offset], false) + text[offset..s.start] + TOKEN
    ensures Runs(mask[..s.end], false) == Runs(mask[..offset], false) + 1
  {
    Pieces(text, offset, s.start);
    Pieces(mask, offset, s.start);
    RenderGap(text[..offset], text[offset..s.start], mask[..offset], mask[offset..s.start]);
    Pieces(text, s.start, s.end);
    Pieces(mask, s.start, s.end);
    RenderRun(text[..s.start], text[s.start..s.end], mask[..s.start], mask[s.start..s.end]);
  }

  lemma {:induction false} RenderGap(head: seq<Byte>, gap: seq<Byte>, hm: seq<bool>, gm: seq<bool>)
    requires |hm| == |head| && |gm| == |gap| && forall k :: 0 <= k < |gm| ==> !gm[k]
    ensures Render(head + gap, hm + gm, false) == Render(head, hm, false) + gap
    ensures Runs(hm + gm, false) == Runs(hm, false)
  {
    var last := if hm == [] then false else hm[|hm| - 1];
    RenderConstant(gap, gm, false, last);
    RenderConcat(head, gap, hm, gm, false);
  }

  lemma {:induction false} RenderRun(head: seq<Byte>, run: seq<Byte>, hm: seq<bool>, rm: seq<bool>)
    requires |hm| == |head| && |rm| == |run| > 0 && forall k :: 0 <= k < |rm| ==> rm[k]
    requires hm != [] ==> !hm[|hm| - 1]
    ensures Render(head + run, hm + rm, false) == Render(head, hm, false) + TOKEN
    ensures Runs(hm + rm, false) == Runs(hm, false) + 1
  {
    RenderConstant(run, rm, true, false);
    RenderConcat(head, run, hm, rm, false);
  }

  lemma {:induction false} Pieces<T>(s: seq<T>, i: nat, j: nat)
    requires i <= j <= |s|
    ensures s[..j] == s[..i] + s[i..j]
  {
  }

  // A string of ASCII characters as bytes.
  function Ascii(s: string): (b: seq<Byte>)
    requires forall i :: 0 <= i < |s| ==> s[i] < '\U{80}'
    ensures |b| == |s| && forall i :: 0 <= i < |s| ==> b[i] == s[i] as int
  {
    seq(|s|, i requires 0 <= i < |s| => s[i] as int)
  }

  // One span that starts and ends at characters is replaced by the token.
  lemma {:induction false} OneSpan(text: seq<Byte>, start: nat, end: nat)
    requires start < end <= |text|
    requires !(0x80 <= text[start] <= 0xBF) || start == 0
    requires end == |text| || !(0x80 <= text[end] <= 0xBF)
    ensures Redact(text, [Span(start, end)]) == Done(text[..start] + Ascii("[REDACTED]") + text[end..], 1)
  {
    var s, mask := Span(start, end), Mask(|text|, [Span(start, end)]);
    assert Ascii("[REDACTED]") == TOKEN;
    assert [s][0] == s;
    forall k | 0 <= k < |text| ensures mask[k] == (start <= k < end) {
      assert s in [s];
    }
    assert text[..0] == [] && mask[..0] == [];
    SpliceStep(text, mask, 0, s);
    assert text[..0] + text[0..start] == text[..start];
    RenderGap(text[..end], text[end..], mask[..end], mask[end..]);
    assert text[..end] + text[end..] == text && mask[..end] + mask[end..] == mask;
    assert [] + text[0..start] + TOKEN == text[..start] + TOKEN;
  }

  method RedactText(text: seq<Byte>, spans: array<Span>) returns (r: Outcome)
    modifies spans
    ensures r == Redact(text, old(spans[..]))
    ensures multiset(spans[..]) == multiset(old(spans[..])) && (spans.Length > 0 ==> Sorting.Sorted(spans[..], ByStart))
  {
    ghost var given := spans[..];
    if spans.Length == 0 {
      NoneCovered(text, given);
      return Done(text, 0);
    }
    SortSpans(spans);
    assert forall s :: s in spans[..] <==> s in multiset(spans[..]);
    assert forall s :: s in given <==> s in multiset(given);
    var ok, merged := Merge(text, spans[..]);
    OrderIndependent(text, given, spans[..]);
    if !ok {
      return Failed;
    }
    assert Mask(|text|, merged) == Mask(|text|, spans[..]);
    if merged == [] {
      NoneCovered(text, merged);
      return Done(text, 0);
    }
    var out := Splice(text, merged);
    return Done(out, |merged|);
  }

  lemma {:induction false} NoneCovered(text: seq<Byte>, spans: seq<Span>)
    requires spans == []
    ensures Render(text, Mask(|text|, spans), false) == text && Runs(Mask(|text|, spans), false) == 0
  {
    RenderConstant(text, Mask(|text|, spans), false, false);
  }
}
