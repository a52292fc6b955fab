/** internal/contexts/gateway/adapters/http/openai/openai_text.go:13-18, 46-112: the accumulator that
    lays the extracted strings out in one joined text. */
module Segments {
  import opened Utf8
  import opened TextTree
  import opened Strings

  datatype Segment = Segment(start: nat, end: nat, text: seq<Byte>, path: Path)

  const NEWLINE: seq<Byte> := [0x0A]

  function Texts(leaves: seq<Leaf>): seq<seq<Byte>> {
    seq(|leaves|, i requires 0 <= i < |leaves| => leaves[i].text)
  }

  function JoinedText(leaves: seq<Leaf>): seq<Byte> { Join(Texts(leaves), NEWLINE) }

  function Offset(leaves: seq<Leaf>, i: nat): nat
    requires i <= |leaves|
  {
    if i == 0 then 0 else Offset(leaves, i - 1) + |leaves[i - 1].text| + 1
  }

  function SegmentOf(leaves: seq<Leaf>, i: nat): Segment
    requires i < |leaves|
  {
    var start := Offset(leaves, i);
    Segment(start, start + |leaves[i].text|, leaves[i].text, leaves[i].path)
  }

  function Layout(leaves: seq<Leaf>): (r: seq<Segment>)
    ensures |r| == |leaves|
  {
    seq(|leaves|, i requires 0 <= i < |leaves| => SegmentOf(leaves, i))
  }

  lemma {:induction false} OffsetPrefix(a: seq<Leaf>, b: seq<Leaf>, i: nat)
    requires i <= |a|
    ensures Offset(a + b, i) == Offset(a, i)
  {
    if i > 0 {
      OffsetPrefix(a, b, i - 1);
    }
  }

  lemma {:induction false} JoinedSnoc(front: seq<Leaf>, last: Leaf)
    ensures JoinedText(front + [last])
            == if front == [] then last.text else JoinedText(front) + NEWLINE + last.text
  {
    assert Texts(front + [last]) == Texts(front) + [last.text];
    JoinAppend(Texts(front), last.text, NEWLINE);
  }

  lemma {:induction false} JoinedLength(leaves: seq<Leaf>)
    ensures Offset(leaves, |leaves|) == if leaves == [] then 0 else |JoinedText(leaves)| + 1
  {
    if leaves != [] {
      var front, last := leaves[..|leaves| - 1], leaves[|leaves| - 1];
      assert leaves == front + [last];
      JoinedSnoc(front, last);
      JoinedLength(front);
      OffsetPrefix(front, [last], |front|);
    }
  }

  // The range of every segment holds exactly its text.
  lemma {:induction false} SegmentHoldsText(leaves: seq<Leaf>, i: nat)
    requires i < |leaves|
    ensures var s := SegmentOf(leaves, i);
            s.end <= |JoinedText(leaves)| && JoinedText(leaves)[s.start..s.end] == leaves[i].text
    decreases |leaves|
  {
    var n := |leaves| - 1;
    var front, last := leaves[..n], leaves[n];
    assert leaves == front + [last];
    JoinedSnoc(front, last);
    OffsetPrefix(front, [last], i);
    if i < n {
      SegmentHoldsText(front, i);
      var s, whole := SegmentOf(front, i), JoinedText(leaves);
      assert whole[..|JoinedText(front)|] == JoinedText(front);
      assert whole[s.start..s.end] == whole[..|JoinedText(front)|][s.start..s.end];
    } else {
      JoinedLength(front);
    }
  }

  // The segments cover the joined text in order, with one line feed between neighbours.
  lemma {:induction false} SegmentsFollow(leaves: seq<Leaf>, i: nat)
    requires i < |leaves|
    ensures SegmentOf(leaves, 0).start == 0
    ensures if i == |leaves| - 1 then SegmentOf(leaves, i).end == |JoinedText(leaves)|
            else
              && SegmentOf(leaves, i + 1).start == SegmentOf(leaves, i).end + 1
              && SegmentOf(leaves, i).end < |JoinedText(leaves)| && JoinedText(leaves)[SegmentOf(leaves, i).end] == 0x0A
    decreases |leaves|
  {
    JoinedLength(leaves);
    var n := |leaves| - 1;
    var front, last := leaves[..n], leaves[n];
    assert leaves == front + [last];
    if i < n {
      JoinedSnoc(front, last);
      OffsetPrefix(front, [last], i);
      SegmentsFollow(front, i);
      assert JoinedText(leaves)[..|JoinedText(front)|] == JoinedText(front);
    }
  }

  // What the accumulator's fields say about the leaves added so far.
  ghost predicate Laid(parts: seq<seq<Byte>>, segments: seq<Segment>, length: nat, found: seq<Leaf>) {
    && segments == Layout(found)
    && parts == Texts(found)
    && length == |JoinedText(found)|
  }

  lemma {:induction false} LaidNext(parts: seq<seq<Byte>>, segments: seq<Segment>, length: nat, found: seq<Leaf>,
                                    leaf: Leaf)
    requires Laid(parts, segments, length, found)
    ensures var start := if |parts| > 0 then length + 1 else length;
            var end := start + |leaf.text|;
            Laid(parts + [leaf.text], segments + [Segment(start, end, leaf.text, leaf.path)], end, found + [leaf])
  {
    JoinedSnoc(found, leaf);
    JoinedLength(found);
    forall i | 0 <= i <= |found| ensures Offset(found + [leaf], i) == Offset(found, i) {
      OffsetPrefix(found, [leaf], i);
    }
  }

  class TextAccumulator {
    var parts: seq<seq<Byte>>
    var segments: seq<Segment>
    var length: nat
    ghost var found: seq<Leaf>

    ghost predicate Valid()
      reads this
    {
      Laid(parts, segments, length, found)
    }

    constructor ()
      ensures Valid() && found == []
    {
      parts, segments, length, found := [], [], 0, [];
    }

    method Add(text: seq<Byte>, path: Path)
      requires Valid()
      modifies this
      ensures Valid() && found == old(found) + (if text == [] then [] else [Leaf(path, text)])
    {
      if text == [] {
        return;
      }
      LaidNext(parts, segments, length, found, Leaf(path, text));
      if |parts| > 0 {
        length := length + 1;
      }
      var start := length;
      parts := parts + [text];
      length := length + |text|;
      segments := segments + [Segment(start, length, text, path)];
      found := found + [Leaf(path, text)];
    }

    method Text() returns (text: seq<Byte>)
      requires Valid()
      ensures text == JoinedText(found)
    {
      text := Join(parts, NEWLINE);
    }
  }

  lemma {:induction false} AtNested(prefix: Path, step: Step, leaves: seq<Leaf>)
    ensures At(prefix, At([step], leaves)) == At(prefix + [step], leaves)
  {
    forall i | 0 <= i < |leaves|
      ensures prefix + ([step] + leaves[i].path) == (prefix + [step]) + leaves[i].path
    {
    }
  }

  lemma {:induction false} AtConcat(prefix: Path, a: seq<Leaf>, b: seq<Leaf>)
    ensures At(prefix, a + b) == At(prefix, a) + At(prefix, b)
  {
  }

  lemma {:induction false} AtEmpty(leaves: seq<Leaf>)
    ensures At([], leaves) == leaves
  {
    forall i | 0 <= i < |leaves| ensures [] + leaves[i].path == leaves[i].path {}
  }

  lemma {:induction false} ItemLeavesSnoc(sel: Selector, items: seq<Json>, n: nat, from: nat)
    requires n < |items|
    ensures ItemLeaves(sel, items[..n + 1], from)
            == ItemLeaves(sel, items[..n], from) + At([Index(from + n)], Leaves(sel, items[n]))
    decreases n
  {
    assert items[..n + 1][0] == items[0] && items[..n + 1][1..] == items[1..][..n];
    if n > 0 {
      assert items[..n][0] == items[0] && items[..n][1..] == items[1..][..n - 1];
      ItemLeavesSnoc(sel, items[1..], n - 1, from + 1);
      var head, middle := At([Index(from)], Leaves(sel, items[0])), ItemLeaves(sel, items[1..][..n - 1], from + 1);
      var last := At([Index(from + n)], Leaves(sel, items[n]));
      assert ItemLeaves(sel, items[..n], from) == head + middle;
      assert ItemLeaves(sel, items[..n + 1], from) == head + (middle + last);
      Associative(head, middle, last);
    }
  }

  // The leaves under the first n items of an array that stands at path at.
  ghost function Visited(sel: Selector, items: seq<Json>, n: nat, at: Path): seq<Leaf>
    requires n <= |items|
  {
    At(at, ItemLeaves(sel, items[..n], 0))
  }

  lemma {:induction false} VisitNext(sel: Selector, items: seq<Json>, n: nat, at: Path)
    requires n < |items|
    ensures Visited(sel, items, n + 1, at)
            == Visited(sel, items, n, at) + At(at + [Index(n)], Leaves(sel, items[n]))
    ensures Leaves(sel, items[n]) == [] ==> Visited(sel, items, n + 1, at) == Visited(sel, items, n, at)
  {
    ItemLeavesSnoc(sel, items, n, 0);
    AtConcat(at, ItemLeaves(sel, items[..n], 0), At([Index(n)], Leaves(sel, items[n])));
    AtNested(at, Index(n), Leaves(sel, items[n]));
  }

  method AppendTextSegments(acc: TextAccumulator, value: Json, at: Path)
    requires acc.Valid()
    modifies acc
    ensures acc.Valid() && acc.found == old(acc.found) + At(at, Leaves(Deep, value))
    decreases value, 1
  {
    match value {
      case String(s) =>
        acc.Add(s, at);
        assert at + [] == at;
      case Array(items) =>
        AppendItems(acc, items, at);
      case Object(_) =>
        AppendObject(acc, value, at);
      case _ =>
    }
  }

  method AppendItems(acc: TextAccumulator, items: seq<Json>, at: Path)
    requires acc.Valid()
    modifies acc
    ensures acc.Valid() && acc.found == old(acc.found) + At(at, ItemLeaves(Deep, items, 0))
    decreases items, 0
  {
    for i := 0 to |items|
      invariant acc.Valid() && acc.found == old(acc.found) + Visited(Deep, items, i, at)
    {
      VisitNext(Deep, items, i, at);
      AppendTextSegments(acc, items[i], at + [Index(i)]);
    }
    assert items[..|items|] == items;
  }

  method AppendObject(acc: TextAccumulator, value: Json, at: Path)
    requires acc.Valid() && value.Object?
    modifies acc
    ensures acc.Valid() && acc.found == old(acc.found) + At(at, Leaves(Deep, value))
    decreases value, 0, 1
  {
    ghost var before := acc.found;
    ObjectLeaves(value, at);
    if "text" in value.fields {
      AppendMember(acc, value, "text", at);
      return;
    }
    AppendMember(acc, value, "content", at);
    AppendMember(acc, value, "output", at);
    AppendMember(acc, value, "item", at);
    AppendMember(acc, value, "response", at);
    AppendMember(acc, value, "refusal", at);
    Regroup(before, Member(value, "content", at), Member(value, "output", at), Member(value, "item", at),
                Member(value, "response", at), Member(value, "refusal", at));
  }

  // An absent member decodes as nil, which appends nothing.
  method AppendMember(acc: TextAccumulator, value: Json, name: string, at: Path)
    requires acc.Valid() && value.Object?
    modifies acc
    ensures acc.Valid() && acc.found == old(acc.found) + Member(value, name, at)
    decreases value, 0, 0
  {
    if name in value.fields {
      AppendTextSegments(acc, value.fields[name], at + [Key(name)]);
      AtNested(at, Key(name), Leaves(Deep, value.fields[name]));
    }
  }

  ghost function Member(value: Json, name: string, at: Path): seq<Leaf>
    requires value.Object?
  {
    At(at, MemberLeaves(name, Deep, value))
  }

  lemma {:induction false} ObjectLeaves(value: Json, at: Path)
    requires value.Object?
    ensures "text" in value.fields ==> At(at, Leaves(Deep, value)) == Member(value, "text", at)
    ensures "text" !in value.fields ==>
              At(at, Leaves(Deep, value))
              == Member(value, "content", at) + Member(value, "output", at) + Member(value, "item", at)
                 + Member(value, "response", at) + Member(value, "refusal", at)
  {
    var list := DeepFields(value.fields);
    if "text" in value.fields {
      FieldsFrom(list, value, at, 0);
    } else {
      FieldsFrom(list, value, at, 0);
      FieldsFrom(list, value, at, 1);
      FieldsFrom(list, value, at, 2);
      FieldsFrom(list, value, at, 3);
      FieldsFrom(list, value, at, 4);
      LeftNested(Member(value, "content", at), Member(value, "output", at), Member(value, "item", at),
                 Member(value, "response", at), Member(value, "refusal", at));
    }
  }

  ghost function Rest(list: seq<Field>, value: Json, at: Path, n: nat): seq<Leaf>
    requires value.Object? && n <= |list|
  {
    At(at, FieldLeaves(list[n..], value))
  }

  lemma {:induction false} FieldsFrom(list: seq<Field>, value: Json, at: Path, n: nat)
    requires value.Object? && n < |list| && list[n].sel == Deep
    ensures Rest(list, value, at, n) == Member(value, list[n].name, at) + Rest(list, value, at, n + 1)
    ensures n == 0 ==> Rest(list, value, at, n) == At(at, FieldLeaves(list, value))
    ensures n + 1 == |list| ==> Rest(list, value, at, n + 1) == []
  {
    assert n == 0 ==> list[n..] == list;
    assert list[n..][0] == list[n] && list[n..][1..] == list[n + 1..];
    AtConcat(at, MemberLeaves(list[n].name, list[n].sel, value), FieldLeaves(list[n + 1..], value));
  }

  lemma {:induction false} LeftNested<T>(a: seq<T>, b: seq<T>, c: seq<T>, d: seq<T>, e: seq<T>)
    ensures a + (b + (c + (d + (e + [])))) == a + b + c + d + e
  {
  }

  lemma {:induction false} Regroup<T>(s: seq<T>, a: seq<T>, b: seq<T>, c: seq<T>, d: seq<T>, e: seq<T>)
    ensures s + a + b + c + d + e == s + (a + b + c + d + e)
  {
  }
}
