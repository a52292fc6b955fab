/** internal/contexts/gateway/application/stream_buffer.go: the sliding detection window, the bounded
    collector, and which stretches of a stream some window shows whole. Text is a sequence of
    characters; a delta is decoded JSON and so always well-formed. */
module StreamBuffer {
  import opened Strings
  import opened Utf8

  function CharBytes(c: char): nat {
    if c < '\U{80}' then 1 else if c < '\U{800}' then 2 else if c < '\U{10000}' then 3 else 4
  }

  function ByteLen(s: string): nat {
    if s == "" then 0 else ByteLen(s[..|s| - 1]) + CharBytes(s[|s| - 1])
  }

  lemma {:induction false} ByteLenConcat(a: string, b: string)
    ensures ByteLen(a + b) == ByteLen(a) + ByteLen(b)
  {
    if b == "" {
      assert a + b == a;
    } else {
      assert (a + b)[..|a + b| - 1] == a + b[..|b| - 1];
      ByteLenConcat(a, b[..|b| - 1]);
    }
  }

  lemma {:induction false} EncodeLength(c: char)
    ensures |Encode(c)| == CharBytes(c)
  {
  }

  // The length counted is that of the well-formed UTF-8 of the text.
  lemma {:induction false} ByteLenIsUtf8(s: string)
    ensures ByteLen(s) == |EncodeAll(s)| && WellFormed(EncodeAll(s))
  {
    if s != "" {
      ByteLenIsUtf8(s[..|s| - 1]);
      EncodeWellFormed(s[|s| - 1]);
      EncodeLength(s[|s| - 1]);
      WellFormedConcat(EncodeAll(s[..|s| - 1]), Encode(s[|s| - 1]));
    }
  }

  // The last `limit` characters.
  function Suffix(s: string, limit: int): string {
    if limit <= 0 then "" else if |s| > limit then s[|s| - limit..] else s
  }

  class StreamWindow {
    const limit: int
    var text: string
    ghost var seen: string

    ghost predicate Valid()
      reads this
    {
      text == Suffix(seen, limit)
    }

    constructor (limit: int)
      ensures Valid() && this.limit == limit && seen == ""
    {
      this.limit, text, seen := limit, "", "";
    }

    method Append(delta: string)
      requires Valid()
      modifies this
      ensures Valid() && seen == old(seen) + delta
    {
      seen := seen + delta;
      if limit <= 0 {
        text := "";
        return;
      }
      text := text + delta;
      if |text| > limit {
        text := text[|text| - limit..];
      }
    }
  }

  class StreamTextCollector {
    const limit: int
    var buf: string
    ghost var accepted: seq<string>

    ghost predicate Valid()
      reads this
    {
      buf == Concat(accepted) && (buf == "" || ByteLen(buf) <= limit)
    }

    constructor (limit: int)
      ensures Valid() && this.limit == limit && buf == "" && accepted == []
    {
      this.limit, buf, accepted := limit, "", [];
    }

    method Append(delta: string) returns (ok: bool)
      requires Valid()
      modifies this
      ensures Valid()
      ensures ok <==> limit > 0 && ByteLen(old(buf) + delta) <= limit
      ensures accepted == if ok then old(accepted) + [delta] else old(accepted)
      ensures buf == if ok then old(buf) + delta else old(buf)
    {
      if limit <= 0 {
        return false;
      }
      ByteLenConcat(buf, delta);
      if ByteLen(buf) + ByteLen(delta) > limit {
        return false;
      }
      ConcatAppend(accepted, delta);
      buf, accepted := buf + delta, accepted + [delta];
      return true;
    }
  }

  class Buffer {
    const window: StreamWindow
    const collector: StreamTextCollector

    ghost predicate Valid()
      reads this, window, collector
    {
      window.Valid() && collector.Valid()
    }

    constructor (windowLimit: int, collectionLimit: int)
      ensures Valid() && fresh(window) && fresh(collector)
      ensures window.limit == windowLimit && collector.limit == collectionLimit
      ensures window.seen == "" && collector.buf == ""
    {
      window := new StreamWindow(windowLimit);
      collector := new StreamTextCollector(collectionLimit);
    }

    method ObserveDelta(delta: string) returns (windowText: string, collected: bool)
      requires Valid()
      modifies window, collector
      ensures Valid() && window.seen == old(window.seen) + delta
      ensures windowText == Suffix(window.seen, window.limit)
      ensures collected <==> collector.limit > 0 && ByteLen(old(collector.buf) + delta) <= collector.limit
      ensures collector.buf == if collected then old(collector.buf) + delta else old(collector.buf)
    {
      window.Append(delta);
      windowText := window.text;
      collected := collector.Append(delta);
    }
  }

  // ----- what detection can miss -----

  // Characters of the stream after its first i deltas.
  function Seen(deltas: seq<string>, i: nat): nat
    requires i <= |deltas|
  {
    if i == 0 then 0 else Seen(deltas, i - 1) + |deltas[i - 1]|
  }

  lemma {:induction false} SeenIsLength(deltas: seq<string>, i: nat)
    requires i <= |deltas|
    ensures Seen(deltas, i) == |Concat(deltas[..i])|
  {
    if i > 0 {
      SeenIsLength(deltas, i - 1);
      assert deltas[..i] == deltas[..i - 1] + [deltas[i - 1]];
      ConcatAppend(deltas[..i - 1], deltas[i - 1]);
    } else {
      assert deltas[..0] == [];
    }
  }

  lemma {:induction false} SeenMonotone(deltas: seq<string>, i: nat, j: nat)
    requires i <= j <= |deltas|
    ensures Seen(deltas, i) <= Seen(deltas, j)
  {
    if i < j {
      SeenMonotone(deltas, i, j - 1);
    }
  }

  // The window after delta i holds the stretch of length m at position p.
  predicate Shows(deltas: seq<string>, limit: nat, i: nat, p: nat, m: nat)
    requires i <= |deltas|
  {
    i > 0 && p + m <= Seen(deltas, i) <= p + limit
  }

  ghost predicate Covered(deltas: seq<string>, limit: nat, p: nat, m: nat) {
    exists i :: 0 <= i <= |deltas| && Shows(deltas, limit, i, p, m)
  }

  // The window after delta i contains that stretch of the stream, character for character.
  lemma {:induction false} ShowsText(deltas: seq<string>, limit: nat, i: nat, p: nat, m: nat) returns (q: nat)
    requires i <= |deltas| && m >= 1 && Shows(deltas, limit, i, p, m)
    ensures var stream, text := Concat(deltas), Suffix(Concat(deltas[..i]), limit);
            p + m <= |stream| && q + m <= |text| && text[q..q + m] == stream[p..p + m]
  {
    SeenIsLength(deltas, i);
    var sofar := Concat(deltas[..i]);
    var text := Suffix(sofar, limit);
    ConcatPrefix(deltas, i);
    assert Concat(deltas)[p..p + m] == sofar[p..p + m];
    var from := |sofar| - |text|;
    assert text == sofar[from..];
    q := p - from;
    assert text[q..q + m] == sofar[p..p + m];
  }

  lemma {:induction false} ConcatPrefix(deltas: seq<string>, i: nat)
    requires i <= |deltas|
    ensures Concat(deltas[..i]) <= Concat(deltas)
  {
    if i < |deltas| {
      assert deltas[..|deltas| - 1][..i] == deltas[..i];
      ConcatPrefix(deltas[..|deltas| - 1], i);
    } else {
      assert deltas[..i] == deltas;
    }
  }

  // The first delta after which the stretch is complete is the only one that matters.
  lemma {:induction false} FirstComplete(deltas: seq<string>, end: nat, n: nat) returns (i: nat)
    requires n <= |deltas| && 1 <= end <= Seen(deltas, n)
    ensures 0 < i <= n && Seen(deltas, i - 1) < end <= Seen(deltas, i)
  {
    if Seen(deltas, n - 1) < end {
      i := n;
    } else {
      i := FirstComplete(deltas, end, n - 1);
    }
  }

  // Delta i does not push out the start of a stretch that ends in it.
  predicate Gentle(deltas: seq<string>, limit: nat, m: nat, i: nat)
    requires 0 < i <= |deltas|
  {
    deltas[i - 1] == "" || Seen(deltas, i) < m || Seen(deltas, i) <= limit
    || |deltas[i - 1]| <= limit - m + 1
  }

  // Every stretch of length m is shown whole by some window exactly when every delta is gentle.
  lemma {:induction false} WindowComplete(deltas: seq<string>, limit: nat, m: nat)
    requires 1 <= m
    ensures (forall p :: 0 <= p && p + m <= Seen(deltas, |deltas|) ==> Covered(deltas, limit, p, m))
            <==> (forall i :: 0 < i <= |deltas| ==> Gentle(deltas, limit, m, i))
  {
    if forall i :: 0 < i <= |deltas| ==> Gentle(deltas, limit, m, i) {
      forall p | 0 <= p && p + m <= Seen(deltas, |deltas|) ensures Covered(deltas, limit, p, m) {
        var i := FirstComplete(deltas, p + m, |deltas|);
        assert Gentle(deltas, limit, m, i);
        assert Shows(deltas, limit, i, p, m);
      }
    } else {
      var i :| 0 < i <= |deltas| && !Gentle(deltas, limit, m, i);
      Missed(deltas, limit, m, i);
    }
  }

  lemma {:induction false} Missed(deltas: seq<string>, limit: nat, m: nat, i: nat)
    requires 1 <= m && 0 < i <= |deltas| && !Gentle(deltas, limit, m, i)
    ensures exists p :: 0 <= p && p + m <= Seen(deltas, |deltas|) && !Covered(deltas, limit, p, m)
  {
    var before := Seen(deltas, i - 1);
    var p := if before + 1 >= m then before + 1 - m else 0;
    SeenMonotone(deltas, i, |deltas|);
    forall j | 0 <= j <= |deltas| ensures !Shows(deltas, limit, j, p, m) {
      if j < i {
        SeenMonotone(deltas, j, i - 1);
      } else {
        SeenMonotone(deltas, i, j);
      }
    }
    assert !Covered(deltas, limit, p, m);
  }

  // Short deltas are enough.
  lemma {:induction false} SmallDeltasComplete(deltas: seq<string>, limit: nat, m: nat, p: nat)
    requires 1 <= m && p + m <= Seen(deltas, |deltas|)
    requires forall i :: 0 <= i < |deltas| ==> |deltas[i]| <= limit - m + 1
    ensures Covered(deltas, limit, p, m)
  {
    WindowComplete(deltas, limit, m);
    assert forall i :: 0 < i <= |deltas| ==> Gentle(deltas, limit, m, i);
  }
}
