/** What a frame says, read off its lines: internal/contexts/gateway/adapters/http/openai/sse.go:78-131. */
module SseText {
  import opened Strings
  import opened Utf8
  import opened Sse

  // ----- lines -----

  // A name and a value with a colon and at most one space between them, or a name alone.
  predicate LineSays(line: string, name: string, value: string) {
    && ':' !in name
    && (|| line == name + (": " + value)
        || (line == name + (":" + value) && !([' '] <= value))
        || (line == name && value == ""))
  }

  lemma {:induction false} ColonOf(name: string, rest: string)
    requires ':' !in name
    ensures ColonAt(name + (":" + rest)) == |name| && ColonAt(name) == |name|
  {
    var line := name + (":" + rest);
    assert line[|name|] == ':';
    assert forall i :: 0 <= i < |name| ==> line[i] == name[i];
  }

  lemma {:induction false} SaysNamed(line: string, name: string, value: string)
    requires LineSays(line, name, value)
    ensures FieldName(line) == name && FieldValue(line) == value
  {
    if line == name && value == "" {
      ColonOf(name, value);
    } else {
      var rest := if line == name + (": " + value) then " " + value else value;
      assert line == name + (":" + rest);
      ColonOf(name, rest);
      assert line[|name| + 1..] == rest && line[..|name|] == name;
      assert rest == " " + value ==> rest[1..] == value;
    }
  }

  lemma {:induction false} JoinedSays(name: string, rest: string)
    requires ':' !in name
    ensures LineSays(name + (":" + rest), name, if [' '] <= rest then rest[1..] else rest)
  {
    if [' '] <= rest {
      assert ":" + rest == ": " + rest[1..];
    }
  }

  lemma {:induction false} NamedSays(line: string)
    ensures LineSays(line, FieldName(line), FieldValue(line))
  {
    var n := ColonAt(line);
    if n < |line| {
      JoinedSays(line[..n], line[n + 1..]);
      assert line == line[..n] + (":" + line[n + 1..]);
    } else {
      assert line[..n] == line;
    }
  }

  // Every line says one thing, which is the name and value the parser takes from it.
  lemma {:induction false} LineExactly(line: string, name: string, value: string)
    ensures LineSays(line, name, value) <==> FieldName(line) == name && FieldValue(line) == value
  {
    NamedSays(line);
    if LineSays(line, name, value) {
      SaysNamed(line, name, value);
    }
  }

  // The last line of that name has this value.
  ghost predicate LastSays(lines: seq<string>, i: nat, name: string, value: string) {
    && i < |lines| && LineSays(lines[i], name, value)
    && forall j, v :: i < j < |lines| ==> !LineSays(lines[j], name, v)
  }

  ghost predicate NoneSays(lines: seq<string>, name: string) {
    forall j, v :: 0 <= j < |lines| ==> !LineSays(lines[j], name, v)
  }

  // The field of a frame that keeps the last value.
  function LastField(f: Fields, name: string): string
    requires name in {"event", "id", "retry"}
  {
    if name == "event" then f.event else if name == "id" then f.id else f.retry
  }

  lemma {:induction false} AddField(f: Fields, line: string, name: string, value: string)
    requires name in {"event", "id", "retry"}
    ensures LineSays(line, name, value) ==> LastField(Add(f, line), name) == value
    ensures (forall v :: !LineSays(line, name, v)) ==> LastField(Add(f, line), name) == LastField(f, name)
  {
    LineExactly(line, name, value);
    LineExactly(line, name, FieldValue(line));
    assert line != "" && line[0] == ':' ==> FieldName(line) == "";
  }

  lemma {:induction false} FieldIsLast(lines: seq<string>, i: nat, name: string, value: string)
    requires name in {"event", "id", "retry"} && LastSays(lines, i, name, value)
    ensures LastField(Collect(lines), name) == value
  {
    var n := |lines| - 1;
    AddField(Collect(lines[..n]), lines[n], name, value);
    if i < n {
      assert forall v :: !LineSays(lines[n], name, v);
      assert lines[..n][i] == lines[i];
      FieldIsLast(lines[..n], i, name, value);
    }
  }

  lemma {:induction false} FieldAbsent(lines: seq<string>, name: string)
    requires name in {"event", "id", "retry"} && NoneSays(lines, name)
    ensures LastField(Collect(lines), name) == ""
  {
    if lines != [] {
      var n := |lines| - 1;
      AddField(Collect(lines[..n]), lines[n], name, "");
      FieldAbsent(lines[..n], name);
    }
  }

  lemma {:induction false} DataExactly(line: string, value: string)
    ensures LineSays(line, "data", value) <==> IsData(line) && FieldValue(line) == value
  {
    LineExactly(line, "data", value);
    assert line != "" && line[0] == ':' ==> FieldName(line) == "";
  }

  // ----- white space -----

  // A string of bytes, one character each.
  function AsChars(b: seq<Byte>): (r: string)
    ensures |r| == |b| && forall i :: 0 <= i < |b| ==> r[i] == b[i] as char
  {
    seq(|b|, i requires 0 <= i < |b| => b[i] as char)
  }

  // The characters with the Unicode property White_Space.
  predicate WhiteSpace(c: char) {
    || c == ' ' || '\t' <= c <= '\r' || c in {'\U{85}', '\U{A0}', '\U{1680}', '\U{2028}', '\U{2029}', '\U{202F}'}
    || '\U{2000}' <= c <= '\U{200A}' || c in {'\U{205F}', '\U{3000}'}
  }

  // A character in UTF-8.
  function Spelled(c: char): (r: string)
    ensures |r| == |Encode(c)| && forall i :: 0 <= i < |r| ==> r[i] == Encode(c)[i] as char
  {
    AsChars(Encode(c))
  }

  lemma {:induction false} ThreeByteSum(n: int)
    requires 0 <= n
    ensures n == 0x1000 * (n / 0x1000) + 0x40 * (n / 0x40 % 0x40) + n % 0x40
  {
    assert n / 0x40 / 0x40 == n / 0x1000;
  }

  lemma {:induction false} SpaceExactly(c: char)
    ensures IsSpace(Spelled(c)) <==> WhiteSpace(c)
  {
    var n := c as int;
    if 0x800 <= n < 0x10000 {
      LongSpace(c);
    } else if n < 0x800 {
      ShortSpace(c);
    }
  }

  lemma {:induction false} ShortSpace(c: char)
    requires c as int < 0x800
    ensures IsSpace(Spelled(c)) <==> WhiteSpace(c)
  {
  }

  lemma {:induction false} LongSpace(c: char)
    requires 0x800 <= c as int < 0x10000
    ensures IsSpace(Spelled(c)) <==> WhiteSpace(c)
  {
    ThreeByteSum(c as int);
  }

  // The character that a byte string recognised as white space spells.
  lemma {:induction false} SpaceSpelled(s: string) returns (c: char)
    requires IsSpace(s)
    ensures WhiteSpace(c) && Spelled(c) == s
  {
    if |s| == 3 {
      c := LongSpelled(s);
    } else {
      c := s[|s| - 1];
      ShortSpace(c);
      assert |Spelled(c)| == |s| && Spelled(c)[|s| - 1] == s[|s| - 1];
    }
  }

  lemma {:induction false} LongSpelled(s: string) returns (c: char)
    requires IsSpace(s) && |s| == 3
    ensures WhiteSpace(c) && Spelled(c) == s
  {
    var n := 0x1000 * (s[0] as int - 0xE0) + 0x40 * (s[1] as int - 0x80) + (s[2] as int - 0x80);
    c := n as char;
    ThreeByteSum(n);
    LongSpace(c);
  }

  lemma {:induction false} LeadSpelled(s: string) returns (c: char)
    requires Lead(s) > 0
    ensures WhiteSpace(c) && Spelled(c) == s[..Lead(s)]
  {
    var n := Lead(s);
    var space := if n == 1 then [s[0]] else if n == 2 then [s[0], s[1]] else [s[0], s[1], s[2]];
    assert s[..n] == space;
    c := SpaceSpelled(space);
  }

  lemma {:induction false} TrailSpelled(s: string) returns (c: char)
    requires Trail(s) > 0
    ensures WhiteSpace(c) && Spelled(c) == s[|s| - Trail(s)..]
  {
    var n, k := Trail(s), |s|;
    var space := if n == 1 then [s[k - 1]] else if n == 2 then [s[k - 2], s[k - 1]]
                 else [s[k - 3], s[k - 2], s[k - 1]];
    assert s[k - n..] == space;
    c := SpaceSpelled(space);
  }

  lemma {:induction false} LeadIs(space: string, rest: string)
    requires IsSpace(space)
    ensures Lead(space + rest) == |space| && (space + rest)[|space|..] == rest
  {
    var s := space + rest;
    assert forall i :: 0 <= i < |space| ==> s[i] == space[i];
  }

  lemma {:induction false} TrailIs(rest: string, space: string)
    requires IsSpace(space)
    ensures Trail(rest + space) == |space| && (rest + space)[..|rest|] == rest
  {
    var s := rest + space;
    assert forall i :: 0 <= i < |space| ==> s[|rest| + i] == space[i];
  }

  // These characters in UTF-8.
  function Spelling(cs: string): string {
    if cs == "" then "" else Spelled(cs[0]) + Spelling(cs[1..])
  }

  predicate AllWhite(cs: string) { forall i :: 0 <= i < |cs| ==> WhiteSpace(cs[i]) }

  lemma {:induction false} SpellingSnoc(cs: string, c: char)
    ensures Spelling(cs + [c]) == Spelling(cs) + Spelled(c)
  {
    if cs == "" {
      assert ([] + [c])[1..] == "" && Spelling("") == "";
      assert cs + [c] == [c];
    } else {
      assert (cs + [c])[1..] == cs[1..] + [c];
      SpellingSnoc(cs[1..], c);
    }
  }

  lemma {:induction false} TrimsLeft(cs: string, rest: string)
    requires AllWhite(cs)
    ensures TrimLeft(Spelling(cs) + rest) == TrimLeft(rest)
  {
    if cs == "" {
      assert "" + rest == rest;
    } else {
      var first, more := Spelled(cs[0]), Spelling(cs[1..]) + rest;
      assert Spelling(cs) + rest == first + more;
      SpaceExactly(cs[0]);
      LeadIs(first, more);
      TrimsLeft(cs[1..], rest);
    }
  }

  lemma {:induction false} TrimsRight(rest: string, cs: string)
    requires AllWhite(cs)
    ensures TrimRight(rest + Spelling(cs)) == TrimRight(rest)
  {
    if cs == "" {
      assert rest + "" == rest;
    } else {
      var front, c := cs[..|cs| - 1], cs[|cs| - 1];
      assert cs == front + [c];
      SpellingSnoc(front, c);
      assert rest + Spelling(cs) == (rest + Spelling(front)) + Spelled(c);
      SpaceExactly(c);
      TrailIs(rest + Spelling(front), Spelled(c));
      TrimsRight(rest, front);
    }
  }

  lemma {:induction false} LeftPart(s: string) returns (cs: string)
    ensures AllWhite(cs) && s == Spelling(cs) + TrimLeft(s)
    decreases |s|
  {
    var n := Lead(s);
    if n == 0 {
      cs := "";
    } else {
      var c := LeadSpelled(s);
      var more := LeftPart(s[n..]);
      cs := [c] + more;
      LeftMore(s, n, c, more, TrimLeft(s[n..]));
    }
  }

  lemma {:induction false} LeftMore(s: string, n: nat, c: char, more: string, rest: string)
    requires n <= |s| && Spelled(c) == s[..n] && s[n..] == Spelling(more) + rest
    ensures s == Spelling([c] + more) + rest
  {
    assert ([c] + more)[1..] == more && s == s[..n] + s[n..];
    Associative(s[..n], Spelling(more), rest);
  }

  // Trimming takes off the character that ends the string, or nothing.
  lemma {:induction false} TrimsOne(s: string) returns (n: nat, c: char)
    ensures n <= |s| && (n == |s| ==> TrimRight(s) == s)
    ensures n < |s| ==> WhiteSpace(c) && Spelled(c) == s[n..] && TrimRight(s) == TrimRight(s[..n])
  {
    n, c := |s| - Trail(s), ' ';
    if n < |s| {
      c := TrailSpelled(s);
    }
  }

  lemma {:induction false} RightPart(s: string) returns (cs: string)
    ensures AllWhite(cs) && s == TrimRight(s) + Spelling(cs)
    decreases |s|
  {
    var n, c := TrimsOne(s);
    if n == |s| {
      cs := "";
    } else {
      var more := RightPart(s[..n]);
      cs := more + [c];
      RightMore(s, n, c, more, TrimRight(s[..n]));
    }
  }

  lemma {:induction false} RightMore(s: string, n: nat, c: char, more: string, rest: string)
    requires n <= |s| && Spelled(c) == s[n..] && s[..n] == rest + Spelling(more)
    ensures s == rest + Spelling(more + [c])
  {
    SpellingSnoc(more, c);
    assert s == s[..n] + s[n..];
    Associative(rest, Spelling(more), s[n..]);
  }

  // [DONE] with nothing but white space around it.
  ghost predicate SaysDone(data: string) {
    exists a, b :: AllWhite(a) && AllWhite(b) && data == Spelling(a) + ("[DONE]" + Spelling(b))
  }

  lemma {:induction false} DoneExactly(data: string)
    ensures IsDone(data) <==> SaysDone(data)
  {
    if IsDone(data) {
      var a := LeftPart(data);
      var b := RightPart(TrimLeft(data));
      assert data == Spelling(a) + ("[DONE]" + Spelling(b));
    }
    if a, b :| AllWhite(a) && AllWhite(b) && data == Spelling(a) + ("[DONE]" + Spelling(b)) {
      TrimsLeft(a, "[DONE]" + Spelling(b));
      DoneKept(Spelling(b));
      TrimsRight("[DONE]", b);
    }
  }

  lemma {:induction false} DoneKept(rest: string)
    ensures TrimLeft("[DONE]" + rest) == "[DONE]" + rest && TrimRight("[DONE]") == "[DONE]"
  {
    var s, t := "[DONE]" + rest, "[DONE]";
    assert s[0] == '[' && t[5] == ']' && t[4] == 'E' && t[3] == 'N';
    assert Lead(s) == 0 && Trail(t) == 0;
  }

  // ----- the frame -----

  // The value of the last line of that name, and empty without one.
  ghost predicate FieldSays(value: string, lines: seq<string>, name: string) {
    && (forall i: nat, v :: LastSays(lines, i, name, v) ==> value == v)
    && (NoneSays(lines, name) ==> value == "")
  }

  lemma {:induction false} FieldExactly(lines: seq<string>, name: string)
    requires name in {"event", "id", "retry"}
    ensures FieldSays(LastField(Collect(lines), name), lines, name)
  {
    forall i: nat, v | LastSays(lines, i, name, v) ensures LastField(Collect(lines), name) == v {
      FieldIsLast(lines, i, name, v);
    }
    if NoneSays(lines, name) {
      FieldAbsent(lines, name);
    }
  }

  // Event, id and retry are what the lines say, the data is what the standard dispatches for them, and
  // the frame is done if the data says so.
  lemma {:induction false} FrameExactly(lines: seq<string>, raw: string)
    ensures var f := FrameOf(lines, raw);
            && FieldSays(f.event, lines, "event") && FieldSays(f.id, lines, "id") && FieldSays(f.retry, lines, "retry")
            && f.data == StandardData(lines) && (f.done <==> SaysDone(f.data)) && f.raw == raw
  {
    FieldExactly(lines, "event");
    FieldExactly(lines, "id");
    FieldExactly(lines, "retry");
    DataTrimmed(lines);
    DoneExactly(FrameOf(lines, raw).data);
  }
}
