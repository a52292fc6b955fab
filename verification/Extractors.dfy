/** internal/contexts/gateway/adapters/http/openai/openai_chat.go:28-69 and
    openai_responses.go:21-66: the inspected text of the four OpenAI body shapes. */
module Extractors {
  import opened Strings
  import opened Utf8
  import opened TextTree
  import opened Segments

  lemma {:induction false} OnlyField(name: string, sel: Selector, j: Json)
    requires j.Object?
    ensures Leaves(Fields([Field(name, sel)]), j) == MemberLeaves(name, sel, j)
  {
    var list := [Field(name, sel)];
    assert list[1..] == [];
    assert FieldLeaves(list[1..], j) == [];
    assert FieldLeaves(list, j) == MemberLeaves(list[0].name, list[0].sel, j) + [];
  }

  method ExtractChatInput(body: map<string, Json>) returns (text: seq<Byte>, segments: seq<Segment>)
    ensures text == JoinedText(Leaves(CHAT_INPUT, Object(body)))
    ensures segments == Layout(Leaves(CHAT_INPUT, Object(body)))
  {
    OnlyField("messages", Each(CONTENT), Object(body));
    if "messages" !in body || !body["messages"].Array? {
      return [], [];
    }
    var acc := new TextAccumulator();
    var messages := body["messages"].items;
    for i := 0 to |messages|
      invariant acc.Valid() && fresh(acc)
      invariant acc.found == Visited(CONTENT, messages, i, [Key("messages")])
    {
      VisitNext(CONTENT, messages, i, [Key("messages")]);
      if !messages[i].Object? {
        continue;
      }
      OnlyField("content", Deep, messages[i]);
      AppendMember(acc, messages[i], "content", [Key("messages")] + [Index(i)]);
    }
    assert messages[..|messages|] == messages;
    text := acc.Text();
    segments := acc.segments;
  }

  method ExtractChatOutput(body: map<string, Json>) returns (text: seq<Byte>, segments: seq<Segment>)
    ensures text == JoinedText(Leaves(CHAT_OUTPUT, Object(body)))
    ensures segments == Layout(Leaves(CHAT_OUTPUT, Object(body)))
  {
    OnlyField("choices", Each(MESSAGE), Object(body));
    if "choices" !in body || !body["choices"].Array? {
      return [], [];
    }
    var acc := new TextAccumulator();
    var choices := body["choices"].items;
    for i := 0 to |choices|
      invariant acc.Valid() && fresh(acc)
      invariant acc.found == Visited(MESSAGE, choices, i, [Key("choices")])
    {
      VisitNext(MESSAGE, choices, i, [Key("choices")]);
      if !choices[i].Object? {
        continue;
      }
      OnlyField("message", CONTENT, choices[i]);
      var fields := choices[i].fields;
      if "message" !in fields || !fields["message"].Object? {
        continue;
      }
      OnlyField("content", Deep, fields["message"]);
      var at := [Key("choices")] + [Index(i)];
      AtNested(at, Key("message"), Leaves(CONTENT, fields["message"]));
      AppendMember(acc, fields["message"], "content", at + [Key("message")]);
    }
    assert choices[..|choices|] == choices;
    text := acc.Text();
    segments := acc.segments;
  }

  method ExtractResponsesInput(body: map<string, Json>) returns (text: seq<Byte>, segments: seq<Segment>)
    ensures text == JoinedText(Leaves(RESPONSES_INPUT, Object(body)))
    ensures segments == Layout(Leaves(RESPONSES_INPUT, Object(body)))
  {
    OnlyField("input", Deep, Object(body));
    var acc := new TextAccumulator();
    AppendMember(acc, Object(body), "input", []);
    AtEmpty(MemberLeaves("input", Deep, Object(body)));
    assert acc.found == MemberLeaves("input", Deep, Object(body));
    text := acc.Text();
    segments := acc.segments;
  }

  method ExtractResponsesOutput(body: map<string, Json>) returns (text: seq<Byte>, segments: seq<Segment>)
    ensures text == JoinedText(Leaves(RESPONSES_OUTPUT, Object(body)))
    ensures segments == Layout(Leaves(RESPONSES_OUTPUT, Object(body)))
  {
    ResponsesFields(body);
    var acc := new TextAccumulator();
    AppendMember(acc, Object(body), "output_text", []);
    AtEmpty(MemberLeaves("output_text", Deep, Object(body)));
    assert acc.found == MemberLeaves("output_text", Deep, Object(body));
    if "output" in body && body["output"].Array? {
      AppendOutputItems(acc, body["output"].items);
    }
    assert acc.found == Leaves(RESPONSES_OUTPUT, Object(body));
    text := acc.Text();
    segments := acc.segments;
  }

  lemma {:induction false} ResponsesFields(body: map<string, Json>)
    ensures Leaves(RESPONSES_OUTPUT, Object(body))
            == MemberLeaves("output_text", Deep, Object(body))
               + (if "output" in body && body["output"].Array?
                  then At([Key("output")], ItemLeaves(PARTS, body["output"].items, 0)) else [])
    ensures !("output" in body && body["output"].Array?) ==>
              Leaves(RESPONSES_OUTPUT, Object(body)) == MemberLeaves("output_text", Deep, Object(body))
  {
    var list := RESPONSES_OUTPUT.list;
    assert list[1..] == [Field("output", Each(PARTS))];
    OnlyField("output", Each(PARTS), Object(body));
    assert FieldLeaves(list[1..], Object(body)) == MemberLeaves("output", Each(PARTS), Object(body));
  }

  method AppendOutputItems(acc: TextAccumulator, output: seq<Json>)
    requires acc.Valid()
    modifies acc
    ensures acc.Valid() && acc.found == old(acc.found) + At([Key("output")], ItemLeaves(PARTS, output, 0))
  {
    for i := 0 to |output|
      invariant acc.Valid() && acc.found == old(acc.found) + Visited(PARTS, output, i, [Key("output")])
    {
      VisitNext(PARTS, output, i, [Key("output")]);
      Associative(old(acc.found), Visited(PARTS, output, i, [Key("output")]),
                  At([Key("output")] + [Index(i)], Leaves(PARTS, output[i])));
      AppendOutputItem(acc, output[i], [Key("output")] + [Index(i)]);
    }
    assert output[..|output|] == output;
  }

  method AppendOutputItem(acc: TextAccumulator, item: Json, at: Path)
    requires acc.Valid()
    modifies acc
    ensures acc.Valid() && acc.found == old(acc.found) + At(at, Leaves(PARTS, item))
  {
    if !item.Object? {
      return;
    }
    OnlyField("content", Each(DeepObject), item);
    var fields := item.fields;
    if "content" !in fields || !fields["content"].Array? {
      return;
    }
    AtNested(at, Key("content"), Leaves(Each(DeepObject), fields["content"]));
    AppendContentParts(acc, fields["content"].items, at + [Key("content")]);
  }

  method AppendContentParts(acc: TextAccumulator, content: seq<Json>, at: Path)
    requires acc.Valid()
    modifies acc
    ensures acc.Valid() && acc.found == old(acc.found) + At(at, ItemLeaves(DeepObject, content, 0))
  {
    for i := 0 to |content|
      invariant acc.Valid() && acc.found == old(acc.found) + Visited(DeepObject, content, i, at)
    {
      VisitNext(DeepObject, content, i, at);
      Associative(old(acc.found), Visited(DeepObject, content, i, at),
                  At(at + [Index(i)], Leaves(DeepObject, content[i])));
      AppendPart(acc, content[i], at + [Index(i)]);
    }
    assert content[..|content|] == content;
  }

  method AppendPart(acc: TextAccumulator, part: Json, at: Path)
    requires acc.Valid()
    modifies acc
    ensures acc.Valid() && acc.found == old(acc.found) + At(at, Leaves(DeepObject, part))
  {
    if part.Object? {
      AppendObject(acc, part, at);
    }
  }
}
