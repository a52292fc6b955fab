/** internal/contexts/gateway/adapters/http/openai/openai_text.go, openai_chat.go,
    openai_responses.go and openai_redaction.go: which strings of a decoded JSON body are
    inspected, where they land in the joined text, and how redactions go back in place.
    A setter closure is modelled by the path of the string that it assigns. */
module TextTree {
  import opened Options
  import opened Utf8

  datatype Json =
    | Null
    | Bool(b: bool)
    | Number(repr: string)
    | String(text: seq<Byte>)
    | Array(items: seq<Json>)
    | Object(fields: map<string, Json>)

  datatype Step = Key(name: string) | Index(i: nat)
  type Path = seq<Step>

  function Get(j: Json, p: Path): Option<Json>
    decreases |p|
  {
    if p == [] then Some(j)
    else if p[0].Key? && j.Object? && p[0].name in j.fields then Get(j.fields[p[0].name], p[1..])
    else if p[0].Index? && j.Array? && p[0].i < |j.items| then Get(j.items[p[0].i], p[1..])
    else None
  }

  // Assigns v at an existing place.
  function Put(j: Json, p: Path, v: Json): Json
    decreases |p|
  {
    if p == [] then v
    else if p[0].Key? && j.Object? && p[0].name in j.fields then
      Object(j.fields[p[0].name := Put(j.fields[p[0].name], p[1..], v)])
    else if p[0].Index? && j.Array? && p[0].i < |j.items| then
      Array(j.items[p[0].i := Put(j.items[p[0].i], p[1..], v)])
    else j
  }

  // What one place holds, not looking into its children.
  datatype Shape = Absent | Scalar(value: Json) | ArrayOf(size: nat) | ObjectOf(names: set<string>)

  function ShapeAt(j: Json, p: Path): Shape {
    match Get(j, p)
    case None => Absent
    case Some(Array(items)) => ArrayOf(|items|)
    case Some(Object(fields)) => ObjectOf(fields.Keys)
    case Some(value) => Scalar(value)
  }

  lemma {:induction false} PutElsewhere(j: Json, p: Path, q: Path, v: seq<Byte>)
    requires Get(j, p).Some? && Get(j, p).value.String? && p != q
    ensures ShapeAt(Put(j, p, String(v)), q) == ShapeAt(j, q)
    decreases |p|
  {
    if p != [] && q != [] && p[0] == q[0] {
      assert p == [p[0]] + p[1..] && q == [q[0]] + q[1..];
      PutElsewhere(if p[0].Key? then j.fields[p[0].name] else j.items[p[0].i], p[1..], q[1..], v);
    }
  }

  lemma {:induction false} ShapeBelow(j: Json, step: Step, q: Path)
    ensures j.Object? && step.Key? && step.name in j.fields ==>
              ShapeAt(j, [step] + q) == ShapeAt(j.fields[step.name], q)
    ensures j.Array? && step.Index? && step.i < |j.items| ==> ShapeAt(j, [step] + q) == ShapeAt(j.items[step.i], q)
  {
    assert ([step] + q)[1..] == q;
  }

  // Values that look alike at every place are equal.
  lemma {:induction false} SameShapesSame(a: Json, b: Json)
    requires forall q :: ShapeAt(a, q) == ShapeAt(b, q)
    ensures a == b
  {
    assert ShapeAt(a, []) == ShapeAt(b, []);
    if a.Object? {
      forall name | name in a.fields ensures a.fields[name] == b.fields[name] {
        forall q ensures ShapeAt(a.fields[name], q) == ShapeAt(b.fields[name], q) {
          ShapeBelow(a, Key(name), q);
          ShapeBelow(b, Key(name), q);
        }
        SameShapesSame(a.fields[name], b.fields[name]);
      }
      assert a.fields == b.fields;
    } else if a.Array? {
      forall i | 0 <= i < |a.items| ensures a.items[i] == b.items[i] {
        forall q ensures ShapeAt(a.items[i], q) == ShapeAt(b.items[i], q) {
          ShapeBelow(a, Index(i), q);
          ShapeBelow(b, Index(i), q);
        }
        SameShapesSame(a.items[i], b.items[i]);
      }
      assert a.items == b.items;
    }
  }

  // ----- which strings are text -----

  // Deep is appendTextSegments; DeepObject is the same for a value known to be an object.
  datatype Selector = Deep | DeepObject | Each(of: Selector) | Fields(list: seq<Field>)
  datatype Field = Field(name: string, sel: Selector)

  const CONTENT := Fields([Field("content", Deep)])
  const MESSAGE := Fields([Field("message", CONTENT)])
  const PARTS := Fields([Field("content", Each(DeepObject))])

  const CHAT_INPUT := Fields([Field("messages", Each(CONTENT))])
  const CHAT_OUTPUT := Fields([Field("choices", Each(MESSAGE))])
  const RESPONSES_INPUT := Fields([Field("input", Deep)])
  const RESPONSES_OUTPUT := Fields([Field("output_text", Deep), Field("output", Each(PARTS))])

  // A "text" member hides the others.
  function DeepFields(fields: map<string, Json>): seq<Field> {
    if "text" in fields then [Field("text", Deep)]
    else [Field("content", Deep), Field("output", Deep), Field("item", Deep), Field("response", Deep),
          Field("refusal", Deep)]
  }

  datatype Leaf = Leaf(path: Path, text: seq<Byte>)

  function At(prefix: Path, leaves: seq<Leaf>): (r: seq<Leaf>)
    ensures |r| == |leaves|
  {
    seq(|leaves|, i requires 0 <= i < |leaves| => Leaf(prefix + leaves[i].path, leaves[i].text))
  }

  // The non-empty strings under j that the selector reaches, in visiting order.
  function Leaves(sel: Selector, j: Json): seq<Leaf>
    decreases j, 1, 0
  {
    match sel
    case Deep =>
      (match j
       case String(s) => if s == [] then [] else [Leaf([], s)]
       case Array(items) => ItemLeaves(Deep, items, 0)
       case Object(fields) => FieldLeaves(DeepFields(fields), j)
       case _ => [])
    case DeepObject => if j.Object? then FieldLeaves(DeepFields(j.fields), j) else []
    case Each(of) => if j.Array? then ItemLeaves(of, j.items, 0) else []
    case Fields(list) => if j.Object? then FieldLeaves(list, j) else []
  }

  function ItemLeaves(sel: Selector, items: seq<Json>, from: nat): seq<Leaf>
    decreases items, 1, 0
  {
    if items == [] then []
    else At([Index(from)], Leaves(sel, items[0])) + ItemLeaves(sel, items[1..], from + 1)
  }

  function FieldLeaves(list: seq<Field>, j: Json): seq<Leaf>
    requires j.Object?
    decreases j, 0, |list|
  {
    if list == [] then []
    else MemberLeaves(list[0].name, list[0].sel, j) + FieldLeaves(list[1..], j)
  }

  function MemberLeaves(name: string, sel: Selector, j: Json): seq<Leaf>
    requires j.Object?
    decreases j, 0, 0
  {
    if name in j.fields then At([Key(name)], Leaves(sel, j.fields[name])) else []
  }

  // No object member is selected twice.
  predicate Proper(sel: Selector) {
    match sel
    case Each(of) => Proper(of)
    case Fields(list) => ProperList(list)
    case _ => true
  }

  predicate ProperList(list: seq<Field>) {
    list == [] ||
    (&& Proper(list[0].sel)
     && (forall k :: 1 <= k < |list| ==> list[k].name != list[0].name)
     && ProperList(list[1..]))
  }

  lemma {:induction false} ProperCons(head: Field, tail: seq<Field>)
    requires Proper(head.sel) && ProperList(tail) && forall k :: 0 <= k < |tail| ==> tail[k].name != head.name
    ensures ProperList([head] + tail)
  {
    var list := [head] + tail;
    assert list[1..] == tail;
  }

  lemma {:induction false} ProperOne(head: Field)
    requires Proper(head.sel)
    ensures ProperList([head])
  {
    ProperCons(head, []);
    assert [head] + [] == [head];
  }

  lemma {:induction false} DeepFieldsProper(fields: map<string, Json>)
    ensures ProperList(DeepFields(fields))
  {
    if "text" in fields {
      ProperOne(Field("text", Deep));
    } else {
      OtherMembersProper(Field("content", Deep), Field("output", Deep), Field("item", Deep), Field("response", Deep),
                         Field("refusal", Deep));
    }
  }

  lemma {:induction false} OtherMembersProper(a: Field, b: Field, c: Field, d: Field, e: Field)
    requires a == Field("content", Deep) && b == Field("output", Deep) && c == Field("item", Deep)
    requires d == Field("response", Deep) && e == Field("refusal", Deep)
    ensures ProperList([a, b, c, d, e])
  {
    ProperOne(e);
    ProperCons(d, [e]);
    assert [d] + [e] == [d, e];
    ProperCons(c, [d, e]);
    assert [c] + [d, e] == [c, d, e];
    ProperCons(b, [c, d, e]);
    assert [b] + [c, d, e] == [b, c, d, e];
    ProperCons(a, [b, c, d, e]);
    assert [a] + [b, c, d, e] == [a, b, c, d, e];
  }

  lemma {:induction false} ExtractorsProper()
    ensures Proper(CHAT_INPUT) && Proper(CHAT_OUTPUT) && Proper(RESPONSES_INPUT) && Proper(RESPONSES_OUTPUT)
  {
    ProperOne(Field("content", Deep));
    ProperOne(Field("message", CONTENT));
    ProperOne(Field("content", Each(DeepObject)));
    ProperOne(Field("messages", Each(CONTENT)));
    ProperOne(Field("choices", Each(MESSAGE)));
    ProperOne(Field("input", Deep));
    ProperOne(Field("output", Each(PARTS)));
    ProperCons(Field("output_text", Deep), [Field("output", Each(PARTS))]);
    assert [Field("output_text", Deep)] + [Field("output", Each(PARTS))] == RESPONSES_OUTPUT.list;
  }

  // ----- replacing one string replaces one leaf -----

  lemma {:induction false} LeafIsString(sel: Selector, j: Json, i: nat)
    requires i < |Leaves(sel, j)|
    ensures var leaf := Leaves(sel, j)[i];
            leaf.text != [] && Get(j, leaf.path) == Some(String(leaf.text))
    decreases j, 1, 0
  {
    if j.Array? {
      ItemIsString(if sel.Each? then sel.of else Deep, j.items, 0, i);
    } else if j.Object? {
      FieldIsString(if sel.Fields? then sel.list else DeepFields(j.fields), j, i);
    }
  }

  lemma {:induction false} ItemIsString(sel: Selector, items: seq<Json>, from: nat, i: nat)
    requires i < |ItemLeaves(sel, items, from)|
    ensures var leaf := ItemLeaves(sel, items, from)[i];
            && leaf.text != [] && leaf.path != [] && leaf.path[0].Index?
            && from <= leaf.path[0].i < from + |items|
            && Get(items[leaf.path[0].i - from], leaf.path[1..]) == Some(String(leaf.text))
    decreases items, 1, 0
  {
    var first, tail := Leaves(sel, items[0]), items[1..];
    var leaf := ItemLeaves(sel, items, from)[i];
    if i < |first| {
      LeafIsString(sel, items[0], i);
      assert leaf == Leaf([Index(from)] + first[i].path, first[i].text);
      assert leaf.path[1..] == first[i].path;
    } else {
      ItemIsString(sel, tail, from + 1, i - |first|);
      assert leaf == ItemLeaves(sel, tail, from + 1)[i - |first|];
      var n := leaf.path[0].i - from;
      assert tail[n - 1] == items[n];
    }
  }

  lemma {:induction false} FieldIsString(list: seq<Field>, j: Json, i: nat)
    requires j.Object? && i < |FieldLeaves(list, j)|
    ensures var leaf := FieldLeaves(list, j)[i];
            && leaf.text != [] && leaf.path != [] && leaf.path[0].Key?
            && leaf.path[0].name in j.fields
            && (exists k :: 0 <= k < |list| && list[k].name == leaf.path[0].name)
            && Get(j.fields[leaf.path[0].name], leaf.path[1..]) == Some(String(leaf.text))
    decreases j, 0, |list|
  {
    var name, sel := list[0].name, list[0].sel;
    var first := MemberLeaves(name, sel, j);
    if i < |first| {
      var inner := Leaves(sel, j.fields[name]);
      LeafIsString(sel, j.fields[name], i);
      assert ([Key(name)] + inner[i].path)[1..] == inner[i].path;
    } else {
      FieldIsString(list[1..], j, i - |first|);
      var leaf := FieldLeaves(list[1..], j)[i - |first|];
      var k :| 0 <= k < |list[1..]| && list[1..][k].name == leaf.path[0].name;
      assert list[k + 1].name == leaf.path[0].name;
    }
  }

  lemma {:induction false} PutLeaf(sel: Selector, j: Json, i: nat, t: seq<Byte>)
    requires Proper(sel) && i < |Leaves(sel, j)| && t != []
    ensures var leaf := Leaves(sel, j)[i];
            Leaves(sel, Put(j, leaf.path, String(t))) == Leaves(sel, j)[i := Leaf(leaf.path, t)]
    decreases j, 2, 0
  {
    if j.Array? {
      PutArrayLeaf(sel, j, i, t);
    } else if j.Object? {
      PutObjectLeaf(sel, j, i, t);
    }
  }

  lemma {:induction false} PutArrayLeaf(sel: Selector, j: Json, i: nat, t: seq<Byte>)
    requires Proper(sel) && j.Array? && i < |Leaves(sel, j)| && t != []
    ensures var leaf := Leaves(sel, j)[i];
            Leaves(sel, Put(j, leaf.path, String(t))) == Leaves(sel, j)[i := Leaf(leaf.path, t)]
    decreases j, 0, 1
  {
    var of := if sel.Each? then sel.of else Deep;
    assert Leaves(sel, j) == ItemLeaves(of, j.items, 0);
    ItemIsString(of, j.items, 0, i);
    var p := ItemLeaves(of, j.items, 0)[i].path;
    var n, q := p[0].i, p[1..];
    assert p == [Index(n)] + q;
    PutItemLeaf(of, j.items, 0, i, n, q, t);
    var changed := j.items[n := Put(j.items[n], q, String(t))];
    assert Put(j, p, String(t)) == Array(changed);
    assert Leaves(sel, Array(changed)) == ItemLeaves(of, changed, 0);
  }

  lemma {:induction false} PutObjectLeaf(sel: Selector, j: Json, i: nat, t: seq<Byte>)
    requires Proper(sel) && j.Object? && i < |Leaves(sel, j)| && t != []
    ensures var leaf := Leaves(sel, j)[i];
            Leaves(sel, Put(j, leaf.path, String(t))) == Leaves(sel, j)[i := Leaf(leaf.path, t)]
    decreases j, 1, 0
  {
    var list := if sel.Fields? then sel.list else DeepFields(j.fields);
    DeepFieldsProper(j.fields);
    FieldIsString(list, j, i);
    PutFieldLeaf(list, j, i, t);
  }

  lemma {:induction false} AtUpdate(prefix: Path, leaves: seq<Leaf>, i: nat, t: seq<Byte>)
    requires i < |leaves|
    ensures At(prefix, leaves[i := Leaf(leaves[i].path, t)])
            == At(prefix, leaves)[i := Leaf(prefix + leaves[i].path, t)]
  {
  }

  lemma {:induction false} PutItemLeaf(sel: Selector, items: seq<Json>, from: nat, i: nat, n: nat, p: Path,
                                       t: seq<Byte>)
    requires Proper(sel) && i < |ItemLeaves(sel, items, from)| && t != [] && n < |items|
    requires ItemLeaves(sel, items, from)[i].path == [Index(from + n)] + p
    ensures ItemLeaves(sel, items[n := Put(items[n], p, String(t))], from)
            == ItemLeaves(sel, items, from)[i := Leaf([Index(from + n)] + p, t)]
    decreases items, 1, 0
  {
    var head, tail := Leaves(sel, items[0]), items[1..];
    var leaf, item := Leaf([Index(from + n)] + p, t), Put(items[n], p, String(t));
    assert leaf.path[0] == Index(from + n) && leaf.path[1..] == p;
    if i < |head| {
      assert leaf.path == [Index(from)] + head[i].path;
      assert leaf.path[0] == Index(from) && n == 0;
      assert leaf.path[1..] == head[i].path;
      PutLeaf(sel, items[0], i, t);
      ReplaceHead(sel, items, from, i, item, t);
    } else {
      var k := i - |head|;
      ItemIsString(sel, tail, from + 1, k);
      assert ItemLeaves(sel, tail, from + 1)[k].path == leaf.path;
      assert tail[n - 1] == items[n];
      PutItemLeaf(sel, tail, from + 1, k, n - 1, p, t);
      ReplaceTail(sel, items, from, k, n, item, leaf);
    }
  }

  lemma {:induction false} ReplaceHead(sel: Selector, items: seq<Json>, from: nat, i: nat, item: Json, t: seq<Byte>)
    requires items != [] && i < |Leaves(sel, items[0])|
    requires Leaves(sel, item) == Leaves(sel, items[0])[i := Leaf(Leaves(sel, items[0])[i].path, t)]
    ensures ItemLeaves(sel, items[0 := item], from)
            == ItemLeaves(sel, items, from)[i := Leaf(ItemLeaves(sel, items, from)[i].path, t)]
  {
    AtUpdate([Index(from)], Leaves(sel, items[0]), i, t);
    assert items[0 := item][1..] == items[1..];
  }

  lemma {:induction false} ReplaceTail(sel: Selector, items: seq<Json>, from: nat, i: nat, n: nat, item: Json,
                                       leaf: Leaf)
    requires 0 < n < |items| && i < |ItemLeaves(sel, items[1..], from + 1)|
    requires ItemLeaves(sel, items[1..][n - 1 := item], from + 1)
             == ItemLeaves(sel, items[1..], from + 1)[i := leaf]
    ensures ItemLeaves(sel, items[n := item], from)
            == ItemLeaves(sel, items, from)[|Leaves(sel, items[0])| + i := leaf]
  {
    assert items[n := item][1..] == items[1..][n - 1 := item];
  }

  lemma {:induction false} PutFieldLeaf(list: seq<Field>, j: Json, i: nat, t: seq<Byte>)
    requires j.Object? && ProperList(list) && i < |FieldLeaves(list, j)| && t != []
    requires var p := FieldLeaves(list, j)[i].path; p != [] && p[0].Key? && p[0].name in j.fields
    ensures var all := FieldLeaves(list, j);
            FieldLeaves(list, Put(j, all[i].path, String(t))) == all[i := Leaf(all[i].path, t)]
    decreases j, 0, |list|
  {
    var all := FieldLeaves(list, j);
    var p := all[i].path;
    var changed := Put(j, p, String(t));
    var name, sel := list[0].name, list[0].sel;
    var first := MemberLeaves(name, sel, j);
    if i < |first| {
      var inner := Leaves(sel, j.fields[name]);
      assert p[1..] == inner[i].path;
      PutLeaf(sel, j.fields[name], i, t);
      AtUpdate([Key(name)], inner, i, t);
      OtherFields(list[1..], j, changed, name);
    } else {
      FieldIsString(list[1..], j, i - |first|);
      PutFieldLeaf(list[1..], j, i - |first|, t);
      assert p[0].name != name;
    }
  }

  lemma {:induction false} OtherFields(list: seq<Field>, j: Json, changed: Json, name: string)
    requires j.Object? && changed.Object?
    requires forall k :: 0 <= k < |list| ==> list[k].name != name
    requires forall other :: other != name ==>
               (other in j.fields <==> other in changed.fields)
               && (other in j.fields ==> j.fields[other] == changed.fields[other])
    ensures FieldLeaves(list, changed) == FieldLeaves(list, j)
  {
    if list != [] {
      OtherFields(list[1..], j, changed, name);
    }
  }
}
