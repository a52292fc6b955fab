/** File names of the event spool: internal/contexts/traffic/adapters/events/spool_records.go:64-117
    and spool_claims.go:59-69. Times are nanoseconds since the epoch. */
module SpoolNames {
  import opened Sorting
  import opened Strings

  // ----- decimal numbers -----

  function Digit(d: nat): char
    requires d < 10
  {
    (48 + d) as char
  }

  function Digits(n: nat): (r: string)
    ensures r != []
  {
    if n < 10 then [Digit(n)] else Digits(n / 10) + [Digit(n % 10)]
  }

  function Zeros(k: nat): (r: string)
    ensures |r| == k
  {
    if k == 0 then [] else ['0'] + Zeros(k - 1)
  }

  function PadNat(n: nat, width: nat): string {
    var d := Digits(n);
    if |d| < width then Zeros(width - |d|) + d else d
  }

  // A sign counts as part of the width.
  function Padded(n: int, width: nat): string
    requires width > 0
  {
    if n < 0 then ['-'] + PadNat(-n, width - 1) else PadNat(n, width)
  }

  function Pow10(k: nat): (r: nat)
    ensures r > 0
  {
    if k == 0 then 1 else 10 * Pow10(k - 1)
  }

  // The last `width` digits of n.
  function Fixed(n: nat, width: nat): (r: string)
    ensures |r| == width
  {
    if width == 0 then [] else Fixed(n / 10, width - 1) + [Digit(n % 10)]
  }

  lemma {:induction false} DigitsFixed(n: nat)
    ensures Digits(n) == Fixed(n, |Digits(n)|) && n < Pow10(|Digits(n)|)
  {
    if n >= 10 {
      DigitsFixed(n / 10);
    } else {
      assert Fixed(n, 1) == Fixed(n / 10, 0) + [Digit(n % 10)];
    }
  }

  lemma {:induction false} DigitsShortest(n: nat, width: nat)
    requires n < Pow10(width) && width > 0
    ensures |Digits(n)| <= width
  {
    if n >= 10 {
      DigitsShortest(n / 10, width - 1);
    }
  }

  lemma {:induction false} FixedZero(width: nat)
    ensures Fixed(0, width) == Zeros(width)
  {
    if width > 0 {
      FixedZero(width - 1);
      ZerosSnoc(width - 1);
    }
  }

  lemma {:induction false} ZerosSnoc(k: nat)
    ensures Zeros(k + 1) == Zeros(k) + ['0']
  {
    if k > 0 {
      ZerosSnoc(k - 1);
      assert ['0'] + (Zeros(k - 1) + ['0']) == (['0'] + Zeros(k - 1)) + ['0'];
    }
  }

  lemma {:induction false} FixedWiden(n: nat, width: nat, more: nat)
    requires n < Pow10(width)
    ensures Fixed(n, width + more) == Zeros(more) + Fixed(n, width)
  {
    if width == 0 {
      FixedZero(more);
      assert Zeros(more) + [] == Zeros(more);
    } else {
      FixedWiden(n / 10, width - 1, more);
      assert (Zeros(more) + Fixed(n / 10, width - 1)) + [Digit(n % 10)]
             == Zeros(more) + (Fixed(n / 10, width - 1) + [Digit(n % 10)]);
    }
  }

  // The printed width of a number padded to `width`.
  function Width(n: nat, width: nat): (w: nat)
    ensures w >= width
  {
    if |Digits(n)| < width then width else |Digits(n)|
  }

  lemma {:induction false} PadIsFixed(n: nat, width: nat)
    ensures PadNat(n, width) == Fixed(n, Width(n, width)) && n < Pow10(Width(n, width))
  {
    DigitsFixed(n);
    var d := |Digits(n)|;
    if d < width {
      FixedWiden(n, d, width - d);
      PowMonotone(d, width);
    }
  }

  lemma {:induction false} PowMonotone(a: nat, b: nat)
    requires a <= b
    ensures Pow10(a) <= Pow10(b)
  {
    if a < b {
      PowMonotone(a, b - 1);
    }
  }

  // ----- order of names -----

  lemma {:induction false} Less1(a: char, x: string, b: char, y: string)
    ensures StringLess([a] + x, [b] + y) <==> a < b || (a == b && StringLess(x, y))
  {
    assert ([a] + x)[1..] == x && ([b] + y)[1..] == y;
  }

  lemma {:induction false} PrefixOrder(p: string, a: string, b: string)
    ensures StringLess(p + a, p + b) <==> StringLess(a, b)
  {
    if p == [] {
      assert p + a == a && p + b == b;
    } else {
      assert p + a == [p[0]] + (p[1..] + a) && p + b == [p[0]] + (p[1..] + b);
      Less1(p[0], p[1..] + a, p[0], p[1..] + b);
      PrefixOrder(p[1..], a, b);
    }
  }

  // Numbers of one width sort like numbers.
  lemma {:induction false} FixedOrder(a: nat, b: nat, width: nat, x: string, y: string)
    requires a < Pow10(width) && b < Pow10(width)
    ensures StringLess(Fixed(a, width) + x, Fixed(b, width) + y) <==> a < b || (a == b && StringLess(x, y))
  {
    if width == 0 {
      assert [] + x == x && [] + y == y;
    } else {
      var da, db := [Digit(a % 10)], [Digit(b % 10)];
      assert Fixed(a, width) + x == Fixed(a / 10, width - 1) + (da + x);
      assert Fixed(b, width) + y == Fixed(b / 10, width - 1) + (db + y);
      FixedOrder(a / 10, b / 10, width - 1, da + x, db + y);
      Less1(Digit(a % 10), x, Digit(b % 10), y);
    }
  }

  // ----- record identifiers -----

  const TIME_WIDTH: nat := 20
  const SEQ_WIDTH: nat := 16

  function CleanChar(c: char): char {
    if c == '/' || c == '\\' || c == ':' then '_' else c
  }

  function CleanChars(s: string): (r: string)
    ensures |r| == |s| && forall i :: 0 <= i < |s| ==> r[i] == CleanChar(s[i])
  {
    if s == [] then [] else [CleanChar(s[0])] + CleanChars(s[1..])
  }

  function Clean(eventId: string): string {
    CleanChars(if eventId == "" then "event" else eventId)
  }

  function RecordId(nanos: int, number: nat, eventId: string): string {
    Padded(nanos, TIME_WIDTH) + (['-'] + (PadNat(number, SEQ_WIDTH) + (['-'] + Clean(eventId))))
  }

  lemma {:induction false} FixedPad(n: nat, width: nat)
    requires n < Pow10(width) && width > 0
    ensures PadNat(n, width) == Fixed(n, width)
  {
    DigitsShortest(n, width);
    PadIsFixed(n, width);
  }

  lemma {:induction false} PaddedOrder(n1: nat, x1: string, n2: nat, x2: string, width: nat)
    requires width > 0 && n1 < Pow10(width) && n2 < Pow10(width)
    ensures StringLess(PadNat(n1, width) + (['-'] + x1), PadNat(n2, width) + (['-'] + x2))
            <==> n1 < n2 || (n1 == n2 && StringLess(x1, x2))
  {
    FixedPad(n1, width);
    FixedPad(n2, width);
    FixedOrder(n1, n2, width, ['-'] + x1, ['-'] + x2);
    Less1('-', x1, '-', x2);
  }

  lemma {:induction false} Regroup(a: string, b: string, c: string, tail: string)
    ensures (a + (['-'] + (b + (['-'] + c)))) + tail == a + (['-'] + (b + (['-'] + (c + tail))))
  {
  }

  // Identifiers sort by time, then by sequence number, for every int64 time from the epoch on
  // and every sequence number of at most sixteen digits.
  lemma {:induction false} RecordIdOrder(n1: nat, s1: nat, e1: string, n2: nat, s2: nat, e2: string, tail: string)
    requires n1 < Pow10(TIME_WIDTH) && n2 < Pow10(TIME_WIDTH)
    requires s1 < Pow10(SEQ_WIDTH) && s2 < Pow10(SEQ_WIDTH)
    ensures StringLess(RecordId(n1, s1, e1) + tail, RecordId(n2, s2, e2) + tail)
            <==> n1 < n2 || (n1 == n2 && (s1 < s2 || (s1 == s2 && StringLess(Clean(e1) + tail, Clean(e2) + tail))))
  {
    Regroup(PadNat(n1, TIME_WIDTH), PadNat(s1, SEQ_WIDTH), Clean(e1), tail);
    Regroup(PadNat(n2, TIME_WIDTH), PadNat(s2, SEQ_WIDTH), Clean(e2), tail);
    var x1, x2 := Clean(e1) + tail, Clean(e2) + tail;
    PaddedOrder(s1, x1, s2, x2, SEQ_WIDTH);
    PaddedOrder(n1, PadNat(s1, SEQ_WIDTH) + (['-'] + x1), n2, PadNat(s2, SEQ_WIDTH) + (['-'] + x2), TIME_WIDTH);
  }

  // What is left of n without its last k digits.
  function Leading(n: nat, k: nat): nat {
    if k == 0 then n else Leading(n / 10, k - 1)
  }

  // Longer sequence numbers: with equal times, the earlier record sorts first exactly when its
  // number does not exceed the leading digits of the later one.
  lemma {:induction false} SequenceOrder(a: nat, b: nat, x: string, y: string, width: nat)
    requires a < b
    ensures var wa, wb := Width(a, width), Width(b, width);
            && wa <= wb
            && (StringLess(PadNat(a, width) + (['-'] + x), PadNat(b, width) + (['-'] + y))
                <==> a <= Leading(b, wb - wa))
  {
    var wa, wb := Width(a, width), Width(b, width);
    PadIsFixed(a, width);
    PadIsFixed(b, width);
    DigitsMonotone(a, b);
    var more := wb - wa;
    FixedSplit(b, wa, more);
    var q := Leading(b, more);
    var rest := Fixed(b, more) + (['-'] + y);
    assert Fixed(b, wb) + (['-'] + y) == Fixed(q, wa) + rest;
    FixedOrder(a, q, wa, ['-'] + x, rest);
    DashFirst(b, more, x, y);
    if more == 0 {
      assert rest == ['-'] + y;
    }
  }

  lemma {:induction false} DashFirst(n: nat, width: nat, x: string, y: string)
    ensures width > 0 ==> StringLess(['-'] + x, Fixed(n, width) + (['-'] + y))
  {
    if width > 0 {
      FixedDigitFirst(n, width);
      var r := Fixed(n, width);
      assert r + (['-'] + y) == [r[0]] + (r[1..] + (['-'] + y));
      Less1('-', x, r[0], r[1..] + (['-'] + y));
    }
  }

  lemma {:induction false} DigitsMonotone(a: nat, b: nat)
    requires a <= b
    ensures |Digits(a)| <= |Digits(b)|
  {
    if b >= 10 && a >= 10 {
      DigitsMonotone(a / 10, b / 10);
    }
  }

  lemma {:induction false} FixedSplit(n: nat, front: nat, back: nat)
    requires n < Pow10(front + back)
    ensures Fixed(n, front + back) == Fixed(Leading(n, back), front) + Fixed(n, back)
    ensures Leading(n, back) < Pow10(front)
  {
    if back > 0 {
      var less := back - 1;
      assert front + back == (front + less) + 1;
      FixedSplit(n / 10, front, less);
      SplitSnoc(Fixed(Leading(n, back), front), Fixed(n / 10, less), [Digit(n % 10)]);
    } else {
      assert Fixed(n, front) + [] == Fixed(n, front);
    }
  }

  lemma {:induction false} SplitSnoc(a: string, b: string, c: string)
    ensures (a + b) + c == a + (b + c)
  {
  }

  lemma {:induction false} FixedDigitFirst(n: nat, width: nat)
    requires width > 0
    ensures Fixed(n, width)[0] > '-'
  {
    if width > 1 {
      FixedDigitFirst(n / 10, width - 1);
    }
  }

  // The order does break at the seventeenth digit.
  lemma {:induction false} OrderBreaks(x: string, y: string, width: nat)
    requires width > 0
    ensures !StringLess(PadNat(Pow10(width) - 1, width) + (['-'] + x), PadNat(Pow10(width), width) + (['-'] + y))
  {
    var b := Pow10(width);
    DigitsShortest(b - 1, width);
    DigitsFixed(b);
    PowerDigits(width);
    SequenceOrder(b - 1, b, x, y, width);
    assert Leading(b, 1) == b / 10 < b - 1;
  }

  lemma {:induction false} PowerDigits(width: nat)
    ensures |Digits(Pow10(width))| == width + 1
  {
    if width > 0 {
      PowerDigits(width - 1);
    }
  }

  // ----- distinct records have distinct names -----

  predicate Decimal(s: string) { forall i :: 0 <= i < |s| ==> '0' <= s[i] <= '9' }

  lemma {:induction false} DigitsDecimal(n: nat)
    ensures Decimal(Digits(n))
  {
    if n >= 10 {
      DigitsDecimal(n / 10);
    }
  }

  lemma {:induction false} FixedDecimal(n: nat, width: nat)
    ensures Decimal(Fixed(n, width))
  {
    if width > 0 {
      FixedDecimal(n / 10, width - 1);
    }
  }

  lemma {:induction false} PadInjective(a: nat, b: nat, width: nat)
    ensures PadNat(a, width) == PadNat(b, width) <==> a == b
    ensures Decimal(PadNat(a, width))
  {
    PadIsFixed(a, width);
    PadIsFixed(b, width);
    FixedDecimal(a, Width(a, width));
    if PadNat(a, width) == PadNat(b, width) {
      FixedOrder(a, b, Width(a, width), "", "");
      FixedOrder(b, a, Width(a, width), "", "");
      var s := PadNat(a, width) + "";
      StringLessOrder(s, s, s);
    }
  }

  lemma {:induction false} PadCut(n1: nat, x1: string, n2: nat, x2: string, width: nat)
    ensures PadNat(n1, width) + (['-'] + x1) == PadNat(n2, width) + (['-'] + x2) <==> n1 == n2 && x1 == x2
  {
    PadInjective(n1, n2, width);
    PadInjective(n2, n1, width);
    CutUnique(PadNat(n1, width), x1, PadNat(n2, width), x2, '-');
  }

  lemma {:induction false} SamePrefix(p: string, x: string, y: string)
    ensures p + x == p + y <==> x == y
  {
    assert (p + x)[|p|..] == x && (p + y)[|p|..] == y;
  }

  lemma {:induction false} SignShows(n: nat, x: string, y: string, width: nat)
    ensures PadNat(n, width) + x != ['-'] + y
  {
    PadInjective(n, n, width);
    PadIsFixed(n, width);
    assert (PadNat(n, width) + x)[0] == PadNat(n, width)[0];
  }

  lemma {:induction false} PaddedCut(n1: int, x1: string, n2: int, x2: string, width: nat)
    requires width > 0
    ensures Padded(n1, width) + (['-'] + x1) == Padded(n2, width) + (['-'] + x2) <==> n1 == n2 && x1 == x2
  {
    var t1, t2 := ['-'] + x1, ['-'] + x2;
    if n1 >= 0 && n2 >= 0 {
      PadCut(n1, x1, n2, x2, width);
    } else if n1 < 0 && n2 < 0 {
      var a1, a2 := PadNat(-n1, width - 1), PadNat(-n2, width - 1);
      Associative(['-'], a1, t1);
      Associative(['-'], a2, t2);
      SamePrefix(['-'], a1 + t1, a2 + t2);
      PadCut(-n1, x1, -n2, x2, width - 1);
    } else if n1 < 0 {
      SignShows(n2, t2, PadNat(-n1, width - 1) + t1, width);
      Associative(['-'], PadNat(-n1, width - 1), t1);
    } else {
      SignShows(n1, t1, PadNat(-n2, width - 1) + t2, width);
      Associative(['-'], PadNat(-n2, width - 1), t2);
    }
  }

  // Records share an identifier exactly when they share time, sequence number and cleaned event id,
  // for all times and sequence numbers. One process never reuses a sequence number.
  lemma {:induction false} RecordIdUnique(n1: int, s1: nat, e1: string, n2: int, s2: nat, e2: string)
    ensures RecordId(n1, s1, e1) == RecordId(n2, s2, e2) <==> n1 == n2 && s1 == s2 && Clean(e1) == Clean(e2)
  {
    var x1, x2 := PadNat(s1, SEQ_WIDTH) + (['-'] + Clean(e1)), PadNat(s2, SEQ_WIDTH) + (['-'] + Clean(e2));
    PaddedCut(n1, x1, n2, x2, TIME_WIDTH);
    PadCut(s1, Clean(e1), s2, Clean(e2), SEQ_WIDTH);
  }

  // ----- what a name shows -----

  // The number that a string of decimal digits denotes.
  function Value(s: string): int {
    if s == [] then 0 else 10 * Value(s[..|s| - 1]) + (s[|s| - 1] as int - 48)
  }

  // The same with a sign in front.
  function Signed(s: string): int {
    if s != [] && s[0] == '-' then -Value(s[1..]) else Value(s)
  }

  lemma {:induction false} ValueOfDigits(n: nat)
    ensures Value(Digits(n)) == n
  {
    if n >= 10 {
      ValueOfDigits(n / 10);
      ValueSnoc(Digits(n / 10), n % 10);
    } else {
      assert [Digit(n)][..0] == [];
    }
  }

  lemma {:induction false} ValueSnoc(s: string, d: nat)
    requires d < 10
    ensures Value(s + [Digit(d)]) == 10 * Value(s) + d
  {
    assert (s + [Digit(d)])[..|s|] == s;
  }

  lemma {:induction false} ValueOfZeros(k: nat, s: string)
    ensures Value(Zeros(k) + s) == Value(s)
  {
    if s != [] {
      assert (Zeros(k) + s)[..k + |s| - 1] == Zeros(k) + s[..|s| - 1];
      ValueOfZeros(k, s[..|s| - 1]);
    } else if k > 0 {
      ZerosSnoc(k - 1);
      assert Zeros(k) + s == Zeros(k - 1) + ['0'];
      ValueSnoc(Zeros(k - 1), 0);
      ValueOfZeros(k - 1, []);
      assert Zeros(k - 1) + [] == Zeros(k - 1);
    }
  }

  lemma {:induction false} PadShows(n: nat, width: nat)
    ensures Value(PadNat(n, width)) == n && Decimal(PadNat(n, width)) && width <= |PadNat(n, width)|
    ensures width > 0 && n < Pow10(width) ==> |PadNat(n, width)| == width
  {
    ValueOfDigits(n);
    PadInjective(n, n, width);
    PadIsFixed(n, width);
    if |Digits(n)| < width {
      ValueOfZeros(width - |Digits(n)|, Digits(n));
    }
    if width > 0 && n < Pow10(width) {
      FixedPad(n, width);
    }
  }

  lemma {:induction false} PaddedShows(n: int, width: nat)
    requires width > 0
    ensures Signed(Padded(n, width)) == n && width <= |Padded(n, width)|
    ensures 0 <= n < Pow10(width) ==> |Padded(n, width)| == width
  {
    if n < 0 {
      PadShows(-n, width - 1);
      assert Padded(n, width)[1..] == PadNat(-n, width - 1);
    } else {
      PadShows(n, width);
    }
  }

  // A separator becomes an underscore and every other character stays; no id at all reads "event".
  predicate ShowsEvent(name: string, eventId: string) {
    if eventId == "" then name == "event"
    else
      && |name| == |eventId|
      && forall i :: 0 <= i < |name| ==>
           name[i] == if eventId[i] == '/' || eventId[i] == '\\' || eventId[i] == ':' then '_' else eventId[i]
  }

  // An identifier shows the time in nanoseconds, padded to twenty places, the sequence number, padded to
  // sixteen, and the event id.
  lemma {:induction false} RecordIdReads(nanos: int, number: nat, eventId: string)
    returns (time: string, sequence: string, name: string)
    ensures RecordId(nanos, number, eventId) == time + ("-" + (sequence + ("-" + name)))
    ensures Signed(time) == nanos && |time| >= 20
    ensures Decimal(sequence) && Value(sequence) == number && |sequence| >= 16
    ensures 0 <= nanos < Pow10(20) ==> |time| == 20
    ensures number < Pow10(16) ==> |sequence| == 16
    ensures ShowsEvent(name, eventId)
  {
    time, sequence, name := Padded(nanos, TIME_WIDTH), PadNat(number, SEQ_WIDTH), Clean(eventId);
    PaddedShows(nanos, TIME_WIDTH);
    PadShows(number, SEQ_WIDTH);
    CleanShows(eventId);
  }

  lemma {:induction false} CleanShows(eventId: string)
    ensures ShowsEvent(Clean(eventId), eventId)
  {
    var e := "event";
    assert CleanChars(e) == e;
  }

  // The name can be read as that of a record made then, with this number, for this event.
  ghost predicate Reads(id: string, nanos: int, number: nat, eventId: string) {
    exists time, sequence, name ::
      && id == time + ("-" + (sequence + ("-" + name))) && ShowsEvent(name, eventId)
      && Signed(time) == nanos && Value(sequence) == number
  }

  lemma {:induction false} RecordIdShown(nanos: int, number: nat, eventId: string)
    ensures Reads(RecordId(nanos, number, eventId), nanos, number, eventId)
  {
    var time, sequence, name := RecordIdReads(nanos, number, eventId);
  }

  // An event id is kept as it is if it is not empty and free of separators.
  predicate PlainId(eventId: string) { eventId != "" && '/' !in eventId && '\\' !in eventId && ':' !in eventId }

  lemma {:induction false} PlainIdKept(eventId: string)
    requires PlainId(eventId)
    ensures Clean(eventId) == eventId
  {
    forall i | 0 <= i < |eventId| ensures CleanChars(eventId)[i] == eventId[i] {
      assert eventId[i] in eventId;
    }
  }

  // ----- claims -----

  const INFLIGHT: string := ".inflight."
  const JSON: string := ".json"

  predicate OccursAt(s: string, sub: string, i: int) {
    0 <= i <= |s| - |sub| && s[i..i + |sub|] == sub
  }

  predicate Contains(s: string, sub: string) { exists i :: 0 <= i <= |s| && OccursAt(s, sub, i) }

  predicate EndsWith(s: string, sub: string) { OccursAt(s, sub, |s| - |sub|) }

  // The first position of sub in s from `from` on, or |s| if there is none.
  function FirstAt(s: string, sub: string, from: nat): (i: nat)
    requires from <= |s|
    ensures from <= i <= |s| && (OccursAt(s, sub, i) || i == |s|)
    ensures forall j :: from <= j < i ==> !OccursAt(s, sub, j)
    decreases |s| - from
  {
    if from == |s| || OccursAt(s, sub, from) then from else FirstAt(s, sub, from + 1)
  }

  function TrimSuffix(s: string, suffix: string): string {
    if EndsWith(s, suffix) then s[..|s| - |suffix|] else s
  }

  function ClaimTag(pid: nat, number: nat): string { Digits(pid) + (['.'] + Digits(number)) }

  function ClaimPath(path: string, pid: nat, number: nat): string {
    TrimSuffix(path, JSON) + (INFLIGHT + ClaimTag(pid, number))
  }

  function OriginalPath(path: string): string {
    var i := FirstAt(path, INFLIGHT, 0);
    if OccursAt(path, INFLIGHT, i) then path[..i] + JSON else path
  }

  predicate IsRecordFile(name: string) { EndsWith(name, JSON) && !Contains(name, INFLIGHT) }

  predicate IsClaim(name: string) { Contains(name, INFLIGHT) }

  // The marker overlaps a copy of itself in its last dot only.
  lemma {:induction false} MarkerOverlap(s: string, i: int, j: int)
    requires OccursAt(s, INFLIGHT, i) && OccursAt(s, INFLIGHT, j) && i < j
    ensures j >= i + 9
  {
    assert s[j] == s[j..j + 10][0] == '.';
    var k := j - i;
    if k < 10 {
      assert s[i..i + 10][k] == s[j];
      assert INFLIGHT[k] == '.';
    }
  }

  // Undoing a claim gives the path back exactly for record paths without the marker.
  lemma {:induction false} OriginalInvertsClaim(path: string, pid: nat, number: nat)
    ensures OriginalPath(ClaimPath(path, pid, number)) == path <==> EndsWith(path, JSON) && !Contains(path, INFLIGHT)
    ensures IsClaim(ClaimPath(path, pid, number))
  {
    var base, claim := TrimSuffix(path, JSON), ClaimPath(path, pid, number);
    assert claim[|base|..|base| + 10] == INFLIGHT;
    assert OccursAt(claim, INFLIGHT, |base|);
    var i := FirstAt(claim, INFLIGHT, 0);
    assert i <= |base|;
    assert claim[..|base|] == base;
    if EndsWith(path, JSON) {
      assert path == base + JSON;
      if i == |base| {
        MarkerFree(path, base, claim);
      } else {
        MarkerOverlap(claim, i, |base|);
        assert claim[i..i + 10] == (base + ".")[i..i + 10] == path[i..i + 10];
        assert OccursAt(path, INFLIGHT, i);
        assert |OriginalPath(claim)| == i + 5 < |path|;
      }
    } else {
      var r := OriginalPath(claim);
      assert r[|r| - 5..] == JSON;
    }
  }

  lemma {:induction false} MarkerFree(path: string, base: string, claim: string)
    requires path == base + JSON && |claim| > |base| && claim[..|base|] == base && claim[|base|] == '.'
    requires forall j :: 0 <= j < |base| ==> !OccursAt(claim, INFLIGHT, j)
    ensures !Contains(path, INFLIGHT)
  {
    assert path[..|base| + 1] == claim[..|base| + 1];
    assert path[|base|..] == JSON;
    assert forall k :: 1 <= k < 5 ==> JSON[k] != '.';
    forall j | 0 <= j <= |path| ensures !OccursAt(path, INFLIGHT, j) {
      if j + 10 <= |base| + 1 {
        assert path[j..j + 10] == path[..|base| + 1][j..j + 10] == claim[j..j + 10];
        assert !OccursAt(claim, INFLIGHT, j);
      } else if j + 10 <= |path| {
        assert path[j + 9] == JSON[j + 9 - |base|];
        assert path[j..j + 10][9] != INFLIGHT[9];
      }
    }
  }

  // Claims of marker-free records are told apart by record, process and number.
  lemma {:induction false} ClaimUnique(p1: string, pid1: nat, s1: nat, p2: string, pid2: nat, s2: nat)
    requires IsRecordFile(p1) && IsRecordFile(p2)
    ensures ClaimPath(p1, pid1, s1) == ClaimPath(p2, pid2, s2) <==> p1 == p2 && pid1 == pid2 && s1 == s2
  {
    OriginalInvertsClaim(p1, pid1, s1);
    OriginalInvertsClaim(p2, pid2, s2);
    if ClaimPath(p1, pid1, s1) == ClaimPath(p2, pid2, s2) {
      var base := TrimSuffix(p1, JSON);
      SamePrefix(base, INFLIGHT + ClaimTag(pid1, s1), INFLIGHT + ClaimTag(pid2, s2));
      SamePrefix(INFLIGHT, ClaimTag(pid1, s1), ClaimTag(pid2, s2));
      TagUnique(pid1, s1, pid2, s2);
    }
  }

  // A claim shows the record's path without its ending, the process and the number.
  lemma {:induction false} ClaimReads(base: string, pid: nat, number: nat) returns (process: string, sequence: string)
    ensures ClaimPath(base + ".json", pid, number) == base + (".inflight." + (process + ("." + sequence)))
    ensures Decimal(process) && Decimal(sequence) && Value(process) == pid && Value(sequence) == number
  {
    process, sequence := Digits(pid), Digits(number);
    DigitsDecimal(pid);
    DigitsDecimal(number);
    ValueOfDigits(pid);
    ValueOfDigits(number);
    var path := base + ".json";
    assert path[|path| - 5..] == JSON && TrimSuffix(path, JSON) == base;
  }

  lemma {:induction false} TagUnique(pid1: nat, s1: nat, pid2: nat, s2: nat)
    requires ClaimTag(pid1, s1) == ClaimTag(pid2, s2)
    ensures pid1 == pid2 && s1 == s2
  {
    DigitsDecimal(pid1);
    DigitsDecimal(pid2);
    CutUnique(Digits(pid1), Digits(s1), Digits(pid2), Digits(s2), '.');
    PadInjective(pid1, pid2, 0);
    PadInjective(s1, s2, 0);
  }
}
