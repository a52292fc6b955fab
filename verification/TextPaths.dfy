/** Which places of the four OpenAI body shapes hold inspected text, by member names and positions:
    internal/contexts/gateway/adapters/http/openai/openai_text.go:46-93, openai_chat.go:28-69 and
    openai_responses.go:21-66. */
module TextPaths {
  import opened TextTree

  // ----- the places, by name -----

  datatype BodyKind = ChatInput | ChatOutput | ResponsesInput | ResponsesOutput

  // The members in which text is looked for. A "text" member hides the others.
  predicate TextMember(name: string, fields: map<string, Json>) {
    && name in fields
    && (name == "text" || ("text" !in fields && name in {"content", "output", "item", "response", "refusal"}))
  }

  // Array positions and text members lead from j to a string that is not empty.
  predicate LeadsToText(j: Json, p: Path)
    decreases |p|
  {
    if p == [] then j.String? && j.text != []
    else
      match p[0]
      case Index(i) => j.Array? && i < |j.items| && LeadsToText(j.items[i], p[1..])
      case Key(name) => j.Object? && TextMember(name, j.fields) && LeadsToText(j.fields[name], p[1..])
  }

  // The path goes through these places to a value from which the rest of it leads to text.
  predicate TextAfter(body: Json, p: Path, n: nat)
    requires n <= |p|
  {
    Get(body, p[..n]).Some? && LeadsToText(Get(body, p[..n]).value, p[n..])
  }

  predicate HoldsText(kind: BodyKind, body: Json, p: Path) {
    match kind
    case ChatInput =>
      // messages[i].content
      |p| >= 3 && p[0] == Key("messages") && p[1].Index? && p[2] == Key("content") && TextAfter(body, p, 3)
    case ChatOutput =>
      // choices[i].message.content
      && |p| >= 4 && p[0] == Key("choices") && p[1].Index? && p[2] == Key("message") && p[3] == Key("content")
      && TextAfter(body, p, 4)
    case ResponsesInput =>
      // input
      |p| >= 1 && p[0] == Key("input") && TextAfter(body, p, 1)
    case ResponsesOutput =>
      // output_text, and the objects output[i].content[k]
      || (|p| >= 1 && p[0] == Key("output_text") && TextAfter(body, p, 1))
      || (|p| >= 5 && p[0] == Key("output") && p[1].Index? && p[2] == Key("content") && p[3].Index? && p[4].Key?
          && TextAfter(body, p, 4))
  }

  // ----- their order -----

  // The order in which members are visited.
  function KeyRank(name: string): nat {
    if name == "output_text" then 0
    else if name == "content" then 1
    else if name == "output" then 2
    else if name == "item" then 3
    else if name == "response" then 4
    else if name == "refusal" then 5
    else 6
  }

  predicate StepBefore(a: Step, b: Step) {
    if a.Index? then b.Index? && a.i < b.i else b.Key? && KeyRank(a.name) < KeyRank(b.name)
  }

  // Where the paths part, the first takes the earlier item or member.
  predicate Before(p: Path, q: Path)
    decreases |p|
  {
    p != [] && q != [] && (StepBefore(p[0], q[0]) || (p[0] == q[0] && Before(p[1..], q[1..])))
  }

  lemma {:induction false} BeforeDiffers(p: Path, q: Path)
    requires Before(p, q)
    ensures p != q
    decreases |p|
  {
    if p[0] == q[0] {
      BeforeDiffers(p[1..], q[1..]);
    }
  }

  lemma {:induction false} BeforeUnder(prefix: Step, p: Path, q: Path)
    requires Before(p, q)
    ensures Before([prefix] + p, [prefix] + q)
  {
    assert ([prefix] + p)[1..] == p && ([prefix] + q)[1..] == q;
  }

  // ----- what a selector reaches -----

  predicate Reaches(sel: Selector, j: Json, p: Path)
    decreases |p|, sel
  {
    match sel
    case Deep => LeadsToText(j, p)
    case DeepObject => j.Object? && LeadsToText(j, p)
    case Each(of) =>
      j.Array? && p != [] && p[0].Index? && p[0].i < |j.items| && Reaches(of, j.items[p[0].i], p[1..])
    case Fields(list) =>
      && j.Object? && p != [] && p[0].Key? && p[0].name in j.fields
      && exists k :: 0 <= k < |list| && list[k].name == p[0].name && Reaches(list[k].sel, j.fields[p[0].name], p[1..])
  }

  lemma {:induction false} DeepNames(fields: map<string, Json>, name: string)
    requires name in fields
    ensures TextMember(name, fields)
            <==> exists k :: 0 <= k < |DeepFields(fields)| && DeepFields(fields)[k].name == name
    ensures forall k :: 0 <= k < |DeepFields(fields)| ==> DeepFields(fields)[k].sel == Deep
  {
    var list := DeepFields(fields);
    if "text" in fields {
      assert list[0].name == "text";
    } else {
      assert list[0].name == "content" && list[1].name == "output" && list[2].name == "item";
      assert list[3].name == "response" && list[4].name == "refusal";
    }
  }

  // Deep, and DeepObject on an object, take their members as Fields would.
  lemma {:induction false} DeepAsFields(j: Json, p: Path)
    requires j.Object?
    ensures LeadsToText(j, p) <==> Reaches(Fields(DeepFields(j.fields)), j, p)
  {
    if p != [] && p[0].Key? && p[0].name in j.fields {
      DeepNames(j.fields, p[0].name);
    }
  }

  lemma {:induction false} LeafReached(sel: Selector, j: Json, i: nat)
    requires i < |Leaves(sel, j)|
    ensures Reaches(sel, j, Leaves(sel, j)[i].path)
    decreases j, 1, 0
  {
    if j.Array? {
      var of := if sel.Each? then sel.of else Deep;
      ItemReached(of, j.items, 0, i);
    } else if j.Object? {
      var list := if sel.Fields? then sel.list else DeepFields(j.fields);
      FieldReached(list, j, i);
      DeepAsFields(j, Leaves(sel, j)[i].path);
    }
  }

  lemma {:induction false} ItemReached(of: Selector, items: seq<Json>, from: nat, i: nat)
    requires i < |ItemLeaves(of, items, from)|
    ensures var p := ItemLeaves(of, items, from)[i].path;
            && p != [] && p[0].Index? && from <= p[0].i < from + |items|
            && Reaches(of, items[p[0].i - from], p[1..])
    decreases items, 1, 0
  {
    var first := Leaves(of, items[0]);
    var p := ItemLeaves(of, items, from)[i].path;
    if i < |first| {
      LeafReached(of, items[0], i);
      assert p == [Index(from)] + first[i].path && p[1..] == first[i].path;
    } else {
      ItemReached(of, items[1..], from + 1, i - |first|);
      assert items[1..][p[0].i - from - 1] == items[p[0].i - from];
    }
  }

  lemma {:induction false} FieldReached(list: seq<Field>, j: Json, i: nat)
    requires j.Object? && i < |FieldLeaves(list, j)|
    ensures Reaches(Fields(list), j, FieldLeaves(list, j)[i].path)
    decreases j, 0, |list|
  {
    var name, sel := list[0].name, list[0].sel;
    var first := MemberLeaves(name, sel, j);
    var p := FieldLeaves(list, j)[i].path;
    if i < |first| {
      var inner := Leaves(sel, j.fields[name]);
      LeafReached(sel, j.fields[name], i);
      assert p == [Key(name)] + inner[i].path && p[1..] == inner[i].path;
      assert list[0].name == p[0].name && Reaches(list[0].sel, j.fields[p[0].name], p[1..]);
    } else {
      FieldReached(list[1..], j, i - |first|);
      var k :| 0 <= k < |list[1..]| && list[1..][k].name == p[0].name
               && Reaches(list[1..][k].sel, j.fields[p[0].name], p[1..]);
      assert list[k + 1].name == p[0].name && Reaches(list[k + 1].sel, j.fields[p[0].name], p[1..]);
    }
  }

  lemma {:induction false} ReachedIsLeaf(sel: Selector, j: Json, p: Path) returns (i: nat)
    requires Reaches(sel, j, p)
    ensures i < |Leaves(sel, j)| && Leaves(sel, j)[i].path == p
    decreases j, 1, 0
  {
    if j.Array? {
      var of := if sel.Each? then sel.of else Deep;
      i := ReachedItem(of, j.items, 0, p[0].i, p[1..]);
      assert p == [Index(p[0].i)] + p[1..];
    } else if j.Object? {
      var list := if sel.Fields? then sel.list else DeepFields(j.fields);
      DeepAsFields(j, p);
      var k :| 0 <= k < |list| && list[k].name == p[0].name && Reaches(list[k].sel, j.fields[p[0].name], p[1..]);
      i := ReachedField(list, j, k, p);
    } else {
      i := 0;
    }
  }

  lemma {:induction false} ReachedItem(of: Selector, items: seq<Json>, from: nat, n: nat, p: Path) returns (i: nat)
    requires n < |items| && Reaches(of, items[n], p)
    ensures i < |ItemLeaves(of, items, from)| && ItemLeaves(of, items, from)[i].path == [Index(from + n)] + p
    decreases items, 1, 0
  {
    if n == 0 {
      i := ReachedIsLeaf(of, items[0], p);
    } else {
      assert items[1..][n - 1] == items[n];
      i := ReachedItem(of, items[1..], from + 1, n - 1, p);
      i := |Leaves(of, items[0])| + i;
    }
  }

  lemma {:induction false} ReachedField(list: seq<Field>, j: Json, k: nat, p: Path) returns (i: nat)
    requires j.Object? && k < |list| && p != [] && p[0].Key? && p[0].name in j.fields
    requires list[k].name == p[0].name && Reaches(list[k].sel, j.fields[p[0].name], p[1..])
    ensures i < |FieldLeaves(list, j)| && FieldLeaves(list, j)[i].path == p
    decreases j, 0, |list|
  {
    if k == 0 {
      i := ReachedIsLeaf(list[0].sel, j.fields[p[0].name], p[1..]);
      assert p == [Key(p[0].name)] + p[1..];
    } else {
      i := ReachedField(list[1..], j, k - 1, p);
      i := |MemberLeaves(list[0].name, list[0].sel, j)| + i;
    }
  }

  // ----- visiting order -----

  // The members of each list are visited by rank.
  predicate Ascending(sel: Selector) {
    match sel
    case Each(of) => Ascending(of)
    case Fields(list) => AscendingList(list)
    case _ => true
  }

  predicate AscendingList(list: seq<Field>) {
    list == [] ||
    (&& Ascending(list[0].sel)
     && (forall k :: 1 <= k < |list| ==> KeyRank(list[0].name) < KeyRank(list[k].name))
     && AscendingList(list[1..]))
  }

  lemma {:induction false} LeavesInOrder(sel: Selector, j: Json, i: nat, k: nat)
    requires Ascending(sel) && i < k < |Leaves(sel, j)|
    ensures Before(Leaves(sel, j)[i].path, Leaves(sel, j)[k].path)
    decreases j, 1, 0
  {
    if j.Array? {
      ItemsInOrder(if sel.Each? then sel.of else Deep, j.items, 0, i, k);
    } else if j.Object? {
      DeepAscending(j.fields);
      FieldsInOrder(if sel.Fields? then sel.list else DeepFields(j.fields), j, i, k);
    }
  }

  lemma {:induction false} ItemsInOrder(of: Selector, items: seq<Json>, from: nat, i: nat, k: nat)
    requires Ascending(of) && i < k < |ItemLeaves(of, items, from)|
    ensures Before(ItemLeaves(of, items, from)[i].path, ItemLeaves(of, items, from)[k].path)
    decreases items, 1, 0
  {
    var n := |Leaves(of, items[0])|;
    if k < n {
      LeavesInOrder(of, items[0], i, k);
      BeforeUnder(Index(from), Leaves(of, items[0])[i].path, Leaves(of, items[0])[k].path);
    } else if i < n {
      ItemIsString(of, items[1..], from + 1, k - n);
      FirstAndLater(of, items, from, i, k);
    } else {
      ItemsInOrder(of, items[1..], from + 1, i - n, k - n);
    }
  }

  lemma {:induction false} FirstAndLater(of: Selector, items: seq<Json>, from: nat, i: nat, k: nat)
    requires i < k < |ItemLeaves(of, items, from)| && i < |Leaves(of, items[0])| <= k
    requires var q := ItemLeaves(of, items[1..], from + 1)[k - |Leaves(of, items[0])|].path;
             q != [] && q[0].Index? && q[0].i > from
    ensures Before(ItemLeaves(of, items, from)[i].path, ItemLeaves(of, items, from)[k].path)
  {
    var p := ItemLeaves(of, items, from)[i].path;
    assert p == [Index(from)] + Leaves(of, items[0])[i].path;
    assert p[0] == Index(from);
  }

  lemma {:induction false} FieldsInOrder(list: seq<Field>, j: Json, i: nat, k: nat)
    requires j.Object? && AscendingList(list) && i < k < |FieldLeaves(list, j)|
    ensures Before(FieldLeaves(list, j)[i].path, FieldLeaves(list, j)[k].path)
    decreases j, 0, |list|
  {
    var name, sel := list[0].name, list[0].sel;
    var first := MemberLeaves(name, sel, j);
    if k < |first| {
      LeavesInOrder(sel, j.fields[name], i, k);
      BeforeUnder(Key(name), Leaves(sel, j.fields[name])[i].path, Leaves(sel, j.fields[name])[k].path);
    } else {
      FieldIsString(list[1..], j, k - |first|);
      if i >= |first| {
        FieldsInOrder(list[1..], j, i - |first|, k - |first|);
      } else {
        var later := FieldLeaves(list[1..], j)[k - |first|].path[0].name;
        var n :| 0 <= n < |list[1..]| && list[1..][n].name == later;
        assert list[n + 1].name == later;
      }
    }
  }

  lemma {:induction false} AscendingCons(head: Field, tail: seq<Field>)
    requires Ascending(head.sel) && AscendingList(tail)
    requires forall k :: 0 <= k < |tail| ==> KeyRank(head.name) < KeyRank(tail[k].name)
    ensures AscendingList([head] + tail)
  {
    var list := [head] + tail;
    assert list[1..] == tail;
  }

  lemma {:induction false} AscendingOne(head: Field)
    requires Ascending(head.sel)
    ensures AscendingList([head])
  {
    AscendingCons(head, []);
    assert [head] + [] == [head];
  }

  lemma {:induction false} DeepAscending(fields: map<string, Json>)
    ensures AscendingList(DeepFields(fields))
  {
    if "text" in fields {
      AscendingOne(Field("text", Deep));
    } else {
      OthersAscending(DeepFields(fields));
    }
  }

  lemma {:induction false} OthersAscending(list: seq<Field>)
    requires list == [Field("content", Deep), Field("output", Deep), Field("item", Deep), Field("response", Deep),
                      Field("refusal", Deep)]
    ensures AscendingList(list)
  {
    AscendingOne(list[4]);
    AscendingCons(list[3], list[4..]);
    assert [list[3]] + list[4..] == list[3..];
    AscendingCons(list[2], list[3..]);
    assert [list[2]] + list[3..] == list[2..];
    AscendingCons(list[1], list[2..]);
    assert [list[1]] + list[2..] == list[1..];
    AscendingCons(list[0], list[1..]);
    assert [list[0]] + list[1..] == list;
  }

  lemma {:induction false} SelectorsAscending()
    ensures Ascending(CHAT_INPUT) && Ascending(CHAT_OUTPUT) && Ascending(RESPONSES_INPUT)
    ensures Ascending(RESPONSES_OUTPUT)
  {
    AscendingOne(Field("content", Deep));
    AscendingOne(Field("message", CONTENT));
    AscendingOne(Field("content", Each(DeepObject)));
    AscendingOne(Field("messages", Each(CONTENT)));
    AscendingOne(Field("choices", Each(MESSAGE)));
    AscendingOne(Field("input", Deep));
    AscendingOne(Field("output", Each(PARTS)));
    AscendingCons(Field("output_text", Deep), [Field("output", Each(PARTS))]);
    assert [Field("output_text", Deep)] + [Field("output", Each(PARTS))] == RESPONSES_OUTPUT.list;
  }

  // ----- the selectors reach these places -----

  lemma {:induction false} OneField(name: string, sel: Selector, j: Json, p: Path)
    ensures Reaches(Fields([Field(name, sel)]), j, p) <==>
            p != [] && p[0] == Key(name) && Get(j, p[..1]).Some? && Reaches(sel, Get(j, p[..1]).value, p[1..])
  {
    var list := [Field(name, sel)];
    assert list[0] == Field(name, sel);
    if p != [] {
      assert p[..1] == [p[0]] && [p[0]][1..] == [];
    }
  }

  lemma {:induction false} OneItem(of: Selector, j: Json, p: Path)
    ensures Reaches(Each(of), j, p) <==>
            p != [] && p[0].Index? && Get(j, p[..1]).Some? && Reaches(of, Get(j, p[..1]).value, p[1..])
  {
    if p != [] {
      assert p[..1] == [p[0]] && [p[0]][1..] == [];
    }
  }

  // Going on from the place that a path leads to.
  lemma {:induction false} GetFurther(j: Json, p: Path, n: nat, m: nat)
    requires n <= m <= |p|
    ensures Get(j, p[..n]).None? ==> Get(j, p[..m]).None?
    ensures Get(j, p[..n]).Some? ==> Get(j, p[..m]) == Get(Get(j, p[..n]).value, p[n..][..m - n])
    decreases n
  {
    assert p[n..][..m - n] == p[n..m];
    if n == 0 {
      assert p[..0] == [] && p[0..m] == p[..m];
    } else {
      assert p[..n][1..] == p[1..][..n - 1] && p[..m][1..] == p[1..][..m - 1];
      assert p[1..][n - 1..][..m - n] == p[n..m];
      if p[0].Key? && j.Object? && p[0].name in j.fields {
        GetFurther(j.fields[p[0].name], p[1..], n - 1, m - 1);
      } else if p[0].Index? && j.Array? && p[0].i < |j.items| {
        GetFurther(j.items[p[0].i], p[1..], n - 1, m - 1);
      }
    }
  }

  // The first n steps lead somewhere, and from there the selector reaches the rest.
  predicate ReachesAfter(sel: Selector, body: Json, p: Path, n: nat) {
    n <= |p| && Get(body, p[..n]).Some? && Reaches(sel, Get(body, p[..n]).value, p[n..])
  }

  lemma {:induction false} MemberAfter(name: string, sel: Selector, body: Json, p: Path, n: nat)
    ensures ReachesAfter(Fields([Field(name, sel)]), body, p, n) <==>
            |p| > n && p[n] == Key(name) && ReachesAfter(sel, body, p, n + 1)
  {
    if n < |p| {
      GetFurther(body, p, n, n + 1);
      assert p[n..][1..] == p[n + 1..];
    }
    if n <= |p| && Get(body, p[..n]).Some? {
      OneField(name, sel, Get(body, p[..n]).value, p[n..]);
    }
  }

  lemma {:induction false} ItemAfter(of: Selector, body: Json, p: Path, n: nat)
    ensures ReachesAfter(Each(of), body, p, n) <==> |p| > n && p[n].Index? && ReachesAfter(of, body, p, n + 1)
  {
    if n < |p| {
      GetFurther(body, p, n, n + 1);
      assert p[n..][1..] == p[n + 1..];
    }
    if n <= |p| && Get(body, p[..n]).Some? {
      OneItem(of, Get(body, p[..n]).value, p[n..]);
    }
  }

  lemma {:induction false} FromTheRoot(sel: Selector, body: Json, p: Path)
    ensures ReachesAfter(sel, body, p, 0) <==> Reaches(sel, body, p)
  {
    assert p[..0] == [] && p[0..] == p;
  }

  lemma {:induction false} ChatInputPlaces(body: Json, p: Path)
    ensures Reaches(CHAT_INPUT, body, p) <==> HoldsText(ChatInput, body, p)
  {
    FromTheRoot(CHAT_INPUT, body, p);
    MemberAfter("messages", Each(CONTENT), body, p, 0);
    ItemAfter(CONTENT, body, p, 1);
    MemberAfter("content", Deep, body, p, 2);
  }

  lemma {:induction false} ChatOutputPlaces(body: Json, p: Path)
    ensures Reaches(CHAT_OUTPUT, body, p) <==> HoldsText(ChatOutput, body, p)
  {
    FromTheRoot(CHAT_OUTPUT, body, p);
    MemberAfter("choices", Each(MESSAGE), body, p, 0);
    ItemAfter(MESSAGE, body, p, 1);
    MemberAfter("message", CONTENT, body, p, 2);
    MemberAfter("content", Deep, body, p, 3);
  }

  lemma {:induction false} ResponsesInputPlaces(body: Json, p: Path)
    ensures Reaches(RESPONSES_INPUT, body, p) <==> HoldsText(ResponsesInput, body, p)
  {
    FromTheRoot(RESPONSES_INPUT, body, p);
    MemberAfter("input", Deep, body, p, 0);
  }

  lemma {:induction false} EitherField(a: Field, b: Field, body: Json, p: Path)
    ensures Reaches(Fields([a, b]), body, p) <==> Reaches(Fields([a]), body, p) || Reaches(Fields([b]), body, p)
  {
    assert [a, b][0] == a && [a, b][1] == b && [a][0] == a && [b][0] == b;
  }

  lemma {:induction false} ResponsesOutputPlaces(body: Json, p: Path)
    ensures Reaches(RESPONSES_OUTPUT, body, p) <==> HoldsText(ResponsesOutput, body, p)
  {
    EitherField(Field("output_text", Deep), Field("output", Each(PARTS)), body, p);
    FromTheRoot(Fields([Field("output_text", Deep)]), body, p);
    MemberAfter("output_text", Deep, body, p, 0);
    FromTheRoot(Fields([Field("output", Each(PARTS))]), body, p);
    MemberAfter("output", Each(PARTS), body, p, 0);
    ItemAfter(PARTS, body, p, 1);
    MemberAfter("content", Each(DeepObject), body, p, 2);
    ItemAfter(DeepObject, body, p, 3);
    if |p| >= 4 && Get(body, p[..4]).Some? && p[4..] != [] {
      assert p[4..][0] == p[4];
    }
  }
}
