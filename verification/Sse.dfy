/** Splitting a server-sent event stream into frames: internal/contexts/gateway/adapters/http/openai/sse.go.
    A character stands for one byte. */
module Sse {
  import opened Strings

  const MAX_FRAME_BYTES: nat := 1_048_576
  const DONE_MARK: string := "[DONE]"

  datatype Frame = Frame(event: string, data: string, id: string, retry: string, comment: string,
                         done: bool, raw: string)

  // How the underlying reader ends once its bytes are read.
  datatype Ending = AtEof | AtError

  datatype NextResult = Next(frame: Frame) | Eof | TooLarge | ReadFailed

  // ----- lines -----

  function FirstNewline(s: string): (n: nat)
    ensures n <= |s| && (n < |s| ==> s[n] == '\n') && forall i :: 0 <= i < n ==> s[i] != '\n'
  {
    if s == "" || s[0] == '\n' then 0 else FirstNewline(s[1..]) + 1
  }

  // The bytes up to and with the first newline, or all of them.
  function FirstLine(s: string): (line: string)
    ensures line <= s && (s != "" ==> line != "")
  {
    var n := FirstNewline(s);
    if n < |s| then s[..n + 1] else s
  }

  function TrimEnd(s: string, c: char): string {
    if s != "" && s[|s| - 1] == c then s[..|s| - 1] else s
  }

  function Trimmed(line: string): string { TrimEnd(TrimEnd(line, '\n'), '\r') }

  lemma {:induction false} PrefixOf(a: string, b: string, c: string)
    ensures b <= c <==> a + b <= a + c
    ensures a + b == a + c <==> b == c
  {
    assert (a + b)[|a|..] == b && (a + c)[|a|..] == c;
  }

  lemma {:induction false} StillPrefix(s: string, line: string, head: string)
    requires line <= s && head <= s[|line|..]
    ensures line + head <= s && (head == s[|line|..] ==> line + head == s)
  {
    assert s == line + s[|line|..];
    PrefixOf(line, head, s[|line|..]);
  }

  // The next frame of s: its bytes, its lines, and whether a blank line ended it.
  function TakeFrame(s: string): (r: (string, seq<string>, bool))
    ensures r.0 <= s && (!r.2 ==> r.0 == s)
  {
    if s == "" then ("", [], false)
    else
      var line := FirstLine(s);
      var tail := s[|line|..];
      if Trimmed(line) == "" then (line, [], true)
      else
        var rest := TakeFrame(tail);
        StillPrefix(s, line, rest.0);
        (line + rest.0, [Trimmed(line)] + rest.1, rest.2)
  }

  // ----- fields -----

  function ColonAt(line: string): (n: nat)
    ensures n <= |line| && (n < |line| ==> line[n] == ':') && forall i :: 0 <= i < n ==> line[i] != ':'
  {
    if line == "" || line[0] == ':' then 0 else ColonAt(line[1..]) + 1
  }

  function DropSpace(s: string): string { if s != "" && s[0] == ' ' then s[1..] else s }

  function FieldName(line: string): string { line[..ColonAt(line)] }

  function FieldValue(line: string): string {
    if ColonAt(line) < |line| then DropSpace(line[ColonAt(line) + 1..]) else ""
  }

  datatype Fields = Fields(event: string, data: seq<string>, id: string, retry: string, comments: seq<string>)

  function Collect(lines: seq<string>): Fields {
    if lines == [] then Fields("", [], "", "", [])
    else Add(Collect(lines[..|lines| - 1]), lines[|lines| - 1])
  }

  function Add(f: Fields, line: string): Fields {
    if line != "" && line[0] == ':' then f.(comments := f.comments + [DropSpace(line[1..])])
    else
      var name, value := FieldName(line), FieldValue(line);
      if name == "event" then f.(event := value)
      else if name == "data" then f.(data := f.data + [value])
      else if name == "id" then f.(id := value)
      else if name == "retry" then f.(retry := value)
      else f
  }

  // unicode.IsSpace, in UTF-8.
  predicate IsSpace(c: string) {
    || (|c| == 1 && (c[0] == ' ' || '\t' <= c[0] <= '\r'))
    || (|c| == 2 && c[0] == '\U{C2}' && (c[1] == '\U{85}' || c[1] == '\U{A0}'))
    || (|c| == 3 && c[0] == '\U{E1}' && c[1] == '\U{9A}' && c[2] == '\U{80}')
    || (|c| == 3 && c[0] == '\U{E2}' && c[1] == '\U{80}'
        && ('\U{80}' <= c[2] <= '\U{8A}' || c[2] == '\U{A8}' || c[2] == '\U{A9}' || c[2] == '\U{AF}'))
    || (|c| == 3 && c[0] == '\U{E2}' && c[1] == '\U{81}' && c[2] == '\U{9F}')
    || (|c| == 3 && c[0] == '\U{E3}' && c[1] == '\U{80}' && c[2] == '\U{80}')
  }

  // How many bytes the white space character at the front of s has, if there is one.
  function Lead(s: string): (n: nat)
    ensures n <= |s|
  {
    if |s| >= 1 && IsSpace([s[0]]) then 1
    else if |s| >= 2 && IsSpace([s[0], s[1]]) then 2
    else if |s| >= 3 && IsSpace([s[0], s[1], s[2]]) then 3
    else 0
  }

  function Trail(s: string): (n: nat)
    ensures n <= |s|
  {
    var k := |s|;
    if k >= 1 && IsSpace([s[k - 1]]) then 1
    else if k >= 2 && IsSpace([s[k - 2], s[k - 1]]) then 2
    else if k >= 3 && IsSpace([s[k - 3], s[k - 2], s[k - 1]]) then 3
    else 0
  }

  function TrimLeft(s: string): string
    decreases |s|
  {
    if Lead(s) == 0 then s else TrimLeft(s[Lead(s)..])
  }

  function TrimRight(s: string): string
    decreases |s|
  {
    if Trail(s) == 0 then s else TrimRight(s[..|s| - Trail(s)])
  }

  predicate IsDone(data: string) { TrimRight(TrimLeft(data)) == DONE_MARK }

  function FrameOf(lines: seq<string>, raw: string): Frame {
    var f := Collect(lines);
    var data := Join(f.data, "\n");
    Frame(f.event, data, f.id, f.retry, Join(f.comments, "\n"), IsDone(data), raw)
  }

  method ParseLines(lines: seq<string>) returns (frame: Frame)
    ensures frame == FrameOf(lines, "")
  {
    var event, id, retry := "", "", "";
    var dataParts, commentParts := [], [];
    for i := 0 to |lines|
      invariant Fields(event, dataParts, id, retry, commentParts) == Collect(lines[..i])
    {
      assert lines[..i + 1][..i] == lines[..i];
      var line := lines[i];
      if line != "" && line[0] == ':' {
        commentParts := commentParts + [DropSpace(line[1..])];
        continue;
      }
      var colon := ColonAt(line);
      var field, value := line[..colon], "";
      if colon < |line| {
        value := DropSpace(line[colon + 1..]);
      }
      if field == "event" {
        event := value;
      } else if field == "data" {
        dataParts := dataParts + [value];
      } else if field == "id" {
        id := value;
      } else if field == "retry" {
        retry := value;
      }
    }
    assert lines[..|lines|] == lines;
    var data := Join(dataParts, "\n");
    return Frame(event, data, id, retry, Join(commentParts, "\n"), IsDone(data), "");
  }

  // ----- the parser -----

  // What Next answers when s is still unread, what is then unread, and whether the parser is done.
  function NextOf(s: string, ending: Ending): (NextResult, string, bool) {
    var t := TakeFrame(s);
    Answer(t.0, t.1, t.2, s[|t.0|..], ending)
  }

  function Answer(raw: string, lines: seq<string>, blank: bool, rest: string, ending: Ending)
    : (NextResult, string, bool)
  {
    if |raw| > MAX_FRAME_BYTES then (TooLarge, "", false)
    else if blank then (Next(FrameOf(lines, raw)), rest, FrameOf(lines, raw).done)
    else if ending.AtError? then (ReadFailed, "", false)
    else if lines != [] then (Next(FrameOf(lines, raw)), "", true)
    else (Eof, "", true)
  }

  class SSEParser {
    var rest: string
    const ending: Ending
    var done: bool

    constructor (input: string, ending: Ending)
      ensures rest == input && this.ending == ending && !done
    {
      rest, this.ending, done := input, ending, false;
    }

    // bufio.Reader.ReadString('\n'): the line, and whether the reader ended instead of a newline.
    method ReadLine() returns (line: string, ended: bool)
      modifies this`rest
      ensures line == FirstLine(old(rest)) && rest == old(rest)[|line|..]
      ensures ended <==> FirstNewline(old(rest)) == |old(rest)|
    {
      var n := FirstNewline(rest);
      ended := n == |rest|;
      line := if ended then rest else rest[..n + 1];
      rest := rest[|line|..];
    }

    method Next() returns (r: NextResult)
      modifies this
      ensures old(done) ==> r.Eof? && done && rest == old(rest)
      ensures !old(done) ==> r == NextOf(old(rest), ending).0
      ensures !old(done) && (r.Next? || r.Eof?) ==>
                rest == NextOf(old(rest), ending).1 && done == NextOf(old(rest), ending).2
    {
      if done {
        return Eof;
      }
      ghost var unread := rest;
      var raw, lines, blank := ReadFrame();
      r := Conclude(raw, lines, blank);
      assert |raw| <= MAX_FRAME_BYTES ==> NextOf(unread, ending) == Answer(raw, lines, blank, unread[|raw|..], ending);
    }

    // What the lines read amount to.
    method Conclude(raw: string, lines: seq<string>, blank: bool) returns (r: NextResult)
      requires !done && (|raw| <= MAX_FRAME_BYTES && !blank ==> rest == "")
      modifies this`done
      ensures var a := Answer(raw, lines, blank, rest, ending);
              r == a.0 && (r.Next? || r.Eof? ==> rest == a.1 && done == a.2)
    {
      if |raw| > MAX_FRAME_BYTES {
        return TooLarge;
      }
      if !blank {
        if ending.AtEof? {
          done := true;
        }
        if ending.AtError? {
          return ReadFailed;
        }
        if |lines| == 0 {
          return Eof;
        }
      }
      var frame := ParseLines(lines);
      frame := frame.(raw := raw);
      if frame.done {
        done := true;
      }
      return NextResult.Next(frame);
    }

    // The loop over lines; it gives up once the frame is too large.
    method ReadFrame() returns (raw: string, lines: seq<string>, blank: bool)
      modifies this`rest
      ensures var t := TakeFrame(old(rest));
              if |t.0| > MAX_FRAME_BYTES then |raw| > MAX_FRAME_BYTES
              else raw == t.0 && lines == t.1 && blank == t.2 && rest == old(rest)[|raw|..]
    {
      raw, lines, blank := "", [], false;
      ghost var whole := rest;
      while true
        invariant PartOf(whole, raw, lines, rest) && |raw| <= MAX_FRAME_BYTES
        decreases |rest|
      {
        var stop;
        raw, lines, blank, stop := ReadOn(raw, lines, whole);
        if stop {
          return;
        }
      }
    }

    // One turn of the loop.
    method ReadOn(raw: string, lines: seq<string>, ghost whole: string)
      returns (more: string, all: seq<string>, blank: bool, stop: bool)
      requires PartOf(whole, raw, lines, rest)
      modifies this`rest
      ensures !stop ==> PartOf(whole, more, all, rest) && |more| <= MAX_FRAME_BYTES && |rest| < |old(rest)|
      ensures stop ==> |more| <= |TakeFrame(whole).0|
      ensures stop && |more| <= MAX_FRAME_BYTES ==> TakeFrame(whole) == (more, all, blank) && rest == whole[|more|..]
    {
      PartTurn(whole, raw, lines, rest);
      more, all, blank, stop := raw, lines, false, true;
      var line, ended := ReadLine();
      if |line| > 0 {
        more := raw + line;
        if |more| > MAX_FRAME_BYTES {
          return;
        }
        var trimmed := Trimmed(line);
        if trimmed == "" {
          blank := true;
          return;
        }
        all := lines + [trimmed];
      }
      stop := ended;
    }
  }

  // Part of the frame at the front of whole has been read.
  ghost predicate PartOf(whole: string, raw: string, lines: seq<string>, rest: string) {
    && raw <= whole && rest == whole[|raw|..]
    && var t, more := TakeFrame(whole), TakeFrame(rest);
       t.0 == raw + more.0 && t.1 == lines + more.1 && t.2 == more.2
  }

  lemma {:induction false} PartEnd(whole: string, raw: string, lines: seq<string>)
    requires PartOf(whole, raw, lines, "")
    ensures TakeFrame(whole) == (raw, lines, false)
  {
    assert raw + "" == raw && lines + [] == lines;
  }

  lemma {:induction false} PartNext(whole: string, raw: string, lines: seq<string>, rest: string)
    requires PartOf(whole, raw, lines, rest) && rest != ""
    ensures var line := FirstLine(rest);
            var after := rest[|line|..];
            && raw + line <= whole && after == whole[|raw + line|..]
            && |raw + line| <= |TakeFrame(whole).0|
            && (if Trimmed(line) == "" then TakeFrame(whole) == (raw + line, lines, true)
                else PartOf(whole, raw + line, lines + [Trimmed(line)], after))
  {
    var line := FirstLine(rest);
    var after := rest[|line|..];
    TakeLine(rest);
    NextPiece(whole, raw, line, after);
    if Trimmed(line) == "" {
      assert lines + [] == lines;
    } else {
      LongerPart(whole, raw, lines, rest, line, after);
    }
  }

  lemma {:induction false} LongerPart(whole: string, raw: string, lines: seq<string>, rest: string, line: string,
                                      after: string)
    requires raw + line <= whole && after == whole[|raw + line|..]
    requires var t, more, last := TakeFrame(whole), TakeFrame(rest), TakeFrame(after);
             && t.0 == raw + more.0 && t.1 == lines + more.1 && t.2 == more.2
             && more.0 == line + last.0 && more.1 == [Trimmed(line)] + last.1 && more.2 == last.2
    ensures PartOf(whole, raw + line, lines + [Trimmed(line)], after) && |raw + line| <= |TakeFrame(whole).0|
  {
    var last := TakeFrame(after);
    Associative(raw, line, last.0);
    Associative(lines, [Trimmed(line)], last.1);
  }

  lemma {:induction false} NextPiece(whole: string, raw: string, line: string, after: string)
    requires raw <= whole && whole[|raw|..] == line + after
    ensures raw + line <= whole && after == whole[|raw + line|..]
  {
    assert whole == raw + (line + after);
    Associative(raw, line, after);
    assert ((raw + line) + after)[|raw + line|..] == after;
  }

  lemma {:induction false} TakeLine(s: string)
    requires s != ""
    ensures var line, t := FirstLine(s), TakeFrame(s);
            var rest := TakeFrame(s[|line|..]);
            && s == line + s[|line|..]
            && (Trimmed(line) == "" ==> t == (line, [], true))
            && (Trimmed(line) != "" ==> t.0 == line + rest.0 && t.1 == [Trimmed(line)] + rest.1 && t.2 == rest.2)
  {
    var line := FirstLine(s);
    assert line <= s;
    assert s == line + s[|line|..];
  }

  // One turn of the loop in ReadFrame.
  lemma {:induction false} PartTurn(whole: string, raw: string, lines: seq<string>, rest: string)
    requires PartOf(whole, raw, lines, rest)
    ensures rest == "" ==> TakeFrame(whole) == (raw, lines, false)
    ensures rest != "" ==>
              var line := FirstLine(rest);
              var after := rest[|line|..];
              && |raw + line| <= |TakeFrame(whole).0|
              && (if Trimmed(line) == ""
                  then TakeFrame(whole) == (raw + line, lines, true) && after == whole[|raw + line|..]
                  else PartOf(whole, raw + line, lines + [Trimmed(line)], after))
    ensures rest != "" && FirstNewline(rest) == |rest| && Trimmed(rest) != "" ==>
              TakeFrame(whole) == (raw + rest, lines + [Trimmed(rest)], false)
  {
    if rest == "" {
      PartEnd(whole, raw, lines);
    } else {
      PartNext(whole, raw, lines, rest);
      if FirstNewline(rest) == |rest| && Trimmed(rest) != "" {
        assert rest[|rest|..] == "";
        PartEnd(whole, raw + rest, lines + [Trimmed(rest)]);
      }
    }
  }

  // ----- whole streams -----

  datatype Run = Run(frames: seq<Frame>, last: NextResult, unread: string)

  // Every frame consumes input.
  lemma {:induction false} NextConsumes(s: string, ending: Ending)
    ensures var (r, rest, done) := NextOf(s, ending);
            r.Next? ==> 0 < |r.frame.raw| <= 1_048_576 && s == r.frame.raw + rest && |rest| < |s|
                        && (done && rest != "" ==> r.frame.done) && (r.frame.done ==> done || rest == "")
  {
    var t := TakeFrame(s);
    assert s == t.0 + s[|t.0|..];
  }

  // The frames of a stream, up to the first answer that is not a frame or to the [DONE] frame.
  function Frames(s: string, ending: Ending): Run
    decreases |s|
  {
    NextConsumes(s, ending);
    var (r, rest, done) := NextOf(s, ending);
    if !r.Next? then Run([], r, rest)
    else if done then Run([r.frame], Eof, rest)
    else
      var more := Frames(rest, ending);
      Run([r.frame] + more.frames, more.last, more.unread)
  }

  function Raws(frames: seq<Frame>): string {
    if frames == [] then "" else frames[0].raw + Raws(frames[1..])
  }

  // Frames within the size limit, none but the last of which says [DONE].
  predicate WellFramed(frames: seq<Frame>) {
    frames == [] ||
    (0 < |frames[0].raw| <= MAX_FRAME_BYTES && (|frames| > 1 ==> !frames[0].done) && WellFramed(frames[1..]))
  }

  predicate LastDone(frames: seq<Frame>) { frames != [] && frames[|frames| - 1].done }

  // Cut after blank lines, no piece of the input exceeds the limit, up to a piece that says [DONE] or
  // else to the end of an input that ends well.
  predicate FramesFit(s: string, ending: Ending)
    decreases |s|
  {
    var (raw, lines, blank) := TakeFrame(s);
    && |raw| <= 1_048_576
    && if raw == "" || !blank then ending.AtEof? else IsDoneFrame(lines) || FramesFit(s[|raw|..], ending)
  }

  predicate IsDoneFrame(lines: seq<string>) { IsDone(Join(Collect(lines).data, "\n")) }

  // The stream is read to a proper end if and only if its pieces fit.
  lemma {:induction false} EofExactly(s: string, ending: Ending)
    ensures Frames(s, ending).last.Eof? <==> FramesFit(s, ending)
    decreases |s|
  {
    var (raw, lines, blank) := TakeFrame(s);
    NextConsumes(s, ending);
    if |raw| <= MAX_FRAME_BYTES && blank && !IsDoneFrame(lines) {
      EofExactly(s[|raw|..], ending);
    }
  }

  // The frames are the input, cut up: nothing is dropped, added or reordered. An input whose pieces
  // fit is read to its end or through its first [DONE] frame.
  lemma {:induction false} FramingLosesNothing(s: string, ending: Ending)
    ensures var run := Frames(s, ending);
            && Raws(run.frames) <= s && WellFramed(run.frames)
            && (FramesFit(s, ending) ==> s == Raws(run.frames) + run.unread
                                         && (run.unread == "" || LastDone(run.frames)))
  {
    EofExactly(s, ending);
    FramesCutUp(s, ending);
  }

  lemma {:induction false} FramesCutUp(s: string, ending: Ending)
    ensures var run := Frames(s, ending);
            && Raws(run.frames) <= s && WellFramed(run.frames)
            && (run.last.Eof? ==> s == Raws(run.frames) + run.unread && (run.unread == "" || LastDone(run.frames)))
    decreases |s|
  {
    NextConsumes(s, ending);
    var (r, rest, done) := NextOf(s, ending);
    if r.Next? {
      if done {
        OneRaw(r.frame);
      } else {
        FramesCutUp(rest, ending);
        var more := Frames(rest, ending);
        FirstRaw(r.frame, more.frames);
        PrefixOf(r.frame.raw, Raws(more.frames), rest);
        Associative(r.frame.raw, Raws(more.frames), more.unread);
      }
    }
  }

  lemma {:induction false} OneRaw(frame: Frame)
    ensures Raws([frame]) == frame.raw && (0 < |frame.raw| <= MAX_FRAME_BYTES ==> WellFramed([frame]))
  {
    assert [frame][1..] == [];
  }

  lemma {:induction false} FirstRaw(frame: Frame, frames: seq<Frame>)
    ensures Raws([frame] + frames) == frame.raw + Raws(frames)
    ensures 0 < |frame.raw| <= MAX_FRAME_BYTES && !frame.done && WellFramed(frames) ==> WellFramed([frame] + frames)
    ensures LastDone(frames) ==> LastDone([frame] + frames)
  {
    assert ([frame] + frames)[1..] == frames;
  }

  // ----- section 9.2.6 of the WHATWG HTML standard -----

  // Lines end at LF, CR LF or CR.
  function LineEnd(s: string): (n: nat)
    ensures n <= |s| && (n < |s| ==> s[n] == '\n' || s[n] == '\r')
    ensures forall i :: 0 <= i < n ==> s[i] != '\n' && s[i] != '\r'
  {
    if s == "" || s[0] == '\n' || s[0] == '\r' then 0 else LineEnd(s[1..]) + 1
  }

  function AfterLine(s: string): (rest: string)
    ensures s != "" ==> |rest| < |s|
  {
    var n := LineEnd(s);
    if n == |s| then ""
    else if s[n] == '\r' && n + 1 < |s| && s[n + 1] == '\n' then s[n + 2..]
    else s[n + 1..]
  }

  function StandardLines(s: string): seq<string>
    decreases |s|
  {
    if s == "" then [] else [s[..LineEnd(s)]] + StandardLines(AfterLine(s))
  }

  predicate IsData(line: string) { (line == "" || line[0] != ':') && FieldName(line) == "data" }

  // The data buffer: each data line adds its value and a LF; dispatch drops the last LF.
  function DataBuffer(lines: seq<string>): string {
    if lines == [] then ""
    else
      var line := lines[|lines| - 1];
      var before := DataBuffer(lines[..|lines| - 1]);
      if IsData(line) then before + FieldValue(line) + "\n" else before
  }

  function StandardData(lines: seq<string>): string { TrimEnd(DataBuffer(lines), '\n') }

  // No carriage return stands alone.
  predicate PlainEnds(s: string) { forall i :: 0 <= i < |s| && s[i] == '\r' ==> i + 1 < |s| && s[i + 1] == '\n' }

  lemma {:induction false} FirstLineStandard(s: string)
    requires PlainEnds(s) && s != ""
    ensures Trimmed(FirstLine(s)) == s[..LineEnd(s)] && AfterLine(s) == s[|FirstLine(s)|..]
  {
    var e := LineEnd(s);
    if e == |s| {
      TrimNothing(s);
    } else if s[e] == '\r' {
      assert s[e + 1] == '\n';
      CutsAt(s, e + 1);
      assert s[..e + 2] == s[..e] + ['\r', '\n'];
      TrimCrLf(s[..e]);
    } else {
      CutsAt(s, e);
      assert s[..e + 1] == s[..e] + ['\n'];
      TrimLf(s[..e]);
    }
  }

  lemma {:induction false} CutsAt(s: string, n: nat)
    requires n < |s| && s[n] == '\n' && forall i :: 0 <= i < n ==> s[i] != '\n'
    ensures FirstLine(s) == s[..n + 1]
  {
    assert FirstNewline(s) == n;
  }

  predicate NoEnds(line: string) { forall i :: 0 <= i < |line| ==> line[i] != '\n' && line[i] != '\r' }

  lemma {:induction false} TrimNothing(line: string)
    requires NoEnds(line)
    ensures Trimmed(line) == line && FirstLine(line) == line
  {
  }

  lemma {:induction false} TrimLf(line: string)
    requires NoEnds(line)
    ensures Trimmed(line + ['\n']) == line
  {
    assert TrimEnd(line + ['\n'], '\n') == line;
  }

  lemma {:induction false} TrimCrLf(line: string)
    requires NoEnds(line)
    ensures Trimmed(line + ['\r', '\n']) == line
  {
    assert TrimEnd(line + ['\r', '\n'], '\n') == line + ['\r'];
    assert TrimEnd(line + ['\r'], '\r') == line;
  }

  lemma {:induction false} TailPlain(s: string, n: nat)
    requires PlainEnds(s) && n <= |s|
    ensures PlainEnds(s[n..])
  {
  }

  // With LF and CR LF line ends a frame has the standard's lines, without the blank one that ends it.
  lemma {:induction false} FrameLinesStandard(s: string)
    requires PlainEnds(s)
    ensures var t := TakeFrame(s);
            StandardLines(t.0) == t.1 + (if t.2 then [""] else [])
    decreases |s|
  {
    if s != "" {
      var line := FirstLine(s);
      if Trimmed(line) == "" {
        BlankLine(s);
      } else {
        TailPlain(s, |line|);
        FrameLinesStandard(s[|line|..]);
        LongerFrame(s);
      }
    }
  }

  lemma {:induction false} LongerFrame(s: string)
    requires PlainEnds(s) && s != "" && Trimmed(FirstLine(s)) != ""
    ensures StandardLines(TakeFrame(s).0) == [Trimmed(FirstLine(s))] + StandardLines(TakeFrame(s[|FirstLine(s)|..]).0)
  {
    var line, raw := FirstLine(s), TakeFrame(s).0;
    var more := TakeFrame(s[|line|..]).0;
    assert raw == line + more;
    FirstLineStandard(s);
    PrefixLine(s, raw);
    assert raw[|line|..] == more;
  }

  lemma {:induction false} BlankLine(s: string)
    requires PlainEnds(s) && s != "" && Trimmed(FirstLine(s)) == ""
    ensures StandardLines(FirstLine(s)) == [""]
  {
    var line := FirstLine(s);
    FirstLineStandard(s);
    assert LineEnd(s) == 0 && LineEnd(line) == 0;
    assert AfterLine(line) == "";
  }

  lemma {:induction false} PrefixLine(s: string, p: string)
    requires PlainEnds(s) && p <= s && FirstLine(s) <= p && s != ""
    ensures p != "" && p[..LineEnd(p)] == s[..LineEnd(s)] && AfterLine(p) == p[|FirstLine(s)|..]
  {
    FirstLineStandard(s);
    assert forall i :: 0 <= i < |p| ==> p[i] == s[i];
    var line := FirstLine(s);
    assert LineEnd(s) <= |line|;
    assert LineEnd(p) == LineEnd(s) by {
      assert LineEnd(s) < |p| ==> p[LineEnd(s)] == s[LineEnd(s)];
    }
  }

  // The buffer after some data lines.
  function Buffered(data: seq<string>): string { if data == [] then "" else Join(data, "\n") + "\n" }

  lemma {:induction false} BufferedSnoc(data: seq<string>, value: string)
    ensures Buffered(data + [value]) == Buffered(data) + value + "\n"
  {
    JoinAppend(data, value, "\n");
  }

  lemma {:induction false} AddData(f: Fields, line: string)
    ensures Buffered(Add(f, line).data)
            == if IsData(line) then Buffered(f.data) + FieldValue(line) + "\n" else Buffered(f.data)
  {
    BufferedSnoc(f.data, FieldValue(line));
  }

  lemma {:induction false} DataJoined(lines: seq<string>)
    ensures DataBuffer(lines) == Buffered(Collect(lines).data)
  {
    if lines != [] {
      var front, line := lines[..|lines| - 1], lines[|lines| - 1];
      DataJoined(front);
      AddData(Collect(front), line);
    }
  }

  lemma {:induction false} DataTrimmed(lines: seq<string>)
    ensures StandardData(lines) == Join(Collect(lines).data, "\n")
  {
    DataJoined(lines);
    var joined := Join(Collect(lines).data, "\n");
    assert TrimEnd(joined + "\n", '\n') == joined;
  }

  lemma {:induction false} BlankLineDispatches(lines: seq<string>)
    ensures StandardData(lines + [""]) == StandardData(lines)
  {
    assert (lines + [""])[..|lines|] == lines;
  }

  // The data of a frame is what the standard dispatches for the frame's bytes.
  lemma {:induction false} FrameDataStandard(s: string)
    requires PlainEnds(s)
    ensures var t := TakeFrame(s);
            FrameOf(t.1, t.0).data == StandardData(StandardLines(t.0))
  {
    var (raw, lines, blank) := TakeFrame(s);
    FrameLinesStandard(s);
    DataTrimmed(lines);
    BlankLineDispatches(lines);
    assert lines + [] == lines;
  }
}
