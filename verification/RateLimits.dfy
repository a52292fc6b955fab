/** The fixed-window rate limiter of one server instance:
    internal/contexts/gateway/adapters/http/openai/limits.go:90-134, 195-197. Times and windows are
    nanoseconds. */
module RateLimits {
  import opened Strings

  // time.Time{} counts as unset.
  const ZERO_TIME: int := -62_135_596_800_000_000_000

  datatype RateWindow = RateWindow(start: int, count: nat)

  const UNSET: RateWindow := RateWindow(ZERO_TIME, 0)

  // requests per window, and its length
  datatype Rate = Rate(requests: int, window: int)

  // One key: the window after a request at `now`, and whether it is admitted.
  function Step(w: RateWindow, now: int, rate: Rate): (RateWindow, bool) {
    if w.start == ZERO_TIME || now >= w.start + rate.window then (RateWindow(now, 1), true)
    else if w.count >= rate.requests then (w, false)
    else (w.(count := w.count + 1), true)
  }

  predicate Limiting(rate: Rate) { rate.requests > 0 && rate.window > 0 }

  const NUL: char := '\0'

  function LimitKey(clientId: string, routeKey: string): string { clientId + ([NUL] + routeKey) }

  lemma {:induction false} LimitKeyUnique(c1: string, r1: string, c2: string, r2: string)
    requires NUL !in c1 && NUL !in c2
    ensures LimitKey(c1, r1) == LimitKey(c2, r2) <==> c1 == c2 && r1 == r2
  {
    CutUnique(c1, r1, c2, r2, NUL);
  }

  class RateState {
    var rates: map<string, RateWindow>

    constructor ()
      ensures rates == map[]
    {
      rates := map[];
    }

    function WindowOf(key: string): RateWindow
      reads this
    {
      if key in rates then rates[key] else UNSET
    }

    method AllowRate(now: int, clientId: string, routeKey: string, rate: Rate) returns (ok: bool)
      modifies this
      ensures var key := LimitKey(clientId, routeKey);
              if rate.requests > 0 && rate.window > 0 then
                && (WindowOf(key), ok) == Step(old(WindowOf(key)), now, rate)
                && forall other :: other != key ==> WindowOf(other) == old(WindowOf(other))
              else !ok && rates == old(rates)
    {
      if rate.requests <= 0 || rate.window <= 0 {
        return false;
      }
      var key := LimitKey(clientId, routeKey);
      var window := if key in rates then rates[key] else UNSET;
      if window.start == ZERO_TIME || !(now < window.start + rate.window) {
        rates := rates[key := RateWindow(now, 1)];
        return true;
      }
      if window.count >= rate.requests {
        return false;
      }
      rates := rates[key := window.(count := window.count + 1)];
      return true;
    }
  }

  // ----- runs for one key -----

  function After(times: seq<int>, rate: Rate): RateWindow {
    if times == [] then UNSET else Step(After(times[..|times| - 1], rate), times[|times| - 1], rate).0
  }

  // Whether the last request of the run is admitted.
  predicate LastAdmitted(times: seq<int>, rate: Rate)
    requires times != []
  {
    Step(After(times[..|times| - 1], rate), times[|times| - 1], rate).1
  }

  // Admissions at times a <= t < b.
  function Admissions(times: seq<int>, rate: Rate, a: int, b: int): nat {
    if times == [] then 0
    else Admissions(times[..|times| - 1], rate, a, b)
         + (if a <= times[|times| - 1] < b && LastAdmitted(times, rate) then 1 else 0)
  }

  predicate Clocked(times: seq<int>) {
    && (forall i :: 0 <= i < |times| ==> times[i] != ZERO_TIME)
    && forall i, j :: 0 <= i <= j < |times| ==> times[i] <= times[j]
  }

  lemma {:induction false} ClockedFront(times: seq<int>)
    requires times != [] && Clocked(times)
    ensures Clocked(times[..|times| - 1])
  {
  }

  // How many windows' worth of admissions have fallen at or after a, given that all are before b.
  // `spare`: the first such window opened before a, so the request that opened it is not counted.
  ghost predicate Packed(w: RateWindow, n: nat, rate: Rate, a: int, windows: nat, spare: nat) {
    if windows == 0 then n == 0 && (w.start == ZERO_TIME || w.start + rate.window <= a)
    else
      && spare <= 1 && w.start != ZERO_TIME && 1 <= w.count <= rate.requests
      && n + spare <= rate.requests * (windows - 1) + w.count
      && (windows - 1) * rate.window <= w.start - (if spare == 1 then a - rate.window + 1 else a)
  }

  lemma {:induction false} PackedStep(w: RateWindow, n: nat, rate: Rate, a: int, windows: nat, spare: nat, now: int)
    returns (windows': nat, spare': nat)
    requires Limiting(rate) && now != ZERO_TIME && Packed(w, n, rate, a, windows, spare)
    requires w.start == ZERO_TIME || w.start <= now
    ensures var s := Step(w, now, rate);
            Packed(s.0, n + (if a <= now && s.1 then 1 else 0), rate, a, windows', spare')
  {
    windows', spare' := windows, spare;
    if w.start == ZERO_TIME || now >= w.start + rate.window {
      if windows == 0 {
        if now + rate.window > a {
          windows', spare' := 1, if now < a then 1 else 0;
        }
      } else {
        windows' := windows + 1;
        Spread(rate.requests, windows);
        Spread(rate.window, windows);
      }
    }
  }

  lemma {:induction false} Spread(x: int, k: nat)
    requires k > 0
    ensures x * k == x * (k - 1) + x && k * x == (k - 1) * x + x
  {
  }

  lemma {:induction false} PackedRun(times: seq<int>, rate: Rate, a: int, b: int) returns (windows: nat, spare: nat)
    requires Limiting(rate) && Clocked(times) && forall i :: 0 <= i < |times| ==> times[i] < b
    ensures Packed(After(times, rate), Admissions(times, rate, a, b), rate, a, windows, spare)
    ensures var s := After(times, rate).start; s != ZERO_TIME ==> times != [] && s <= times[|times| - 1]
  {
    if times == [] {
      windows, spare := 0, 0;
    } else {
      var front, now := times[..|times| - 1], times[|times| - 1];
      ClockedFront(times);
      windows, spare := PackedRun(front, rate, a, b);
      assert After(front, rate).start != ZERO_TIME ==> After(front, rate).start <= now;
      windows, spare := PackedStep(After(front, rate), Admissions(front, rate, a, b), rate, a, windows, spare, now);
    }
  }

  // The least k with k * window >= length.
  function CeilDiv(length: nat, window: nat): (k: nat)
    requires window > 0
    ensures (k - 1) * window < length <= k * window || (length == 0 && k == 0)
  {
    if length == 0 then 0
    else
      var q := (length - 1) / window;
      assert q * window <= length - 1 < q * window + window;
      assert (q + 1) * window == q * window + window;
      q + 1
  }

  lemma {:induction false} LaterRequestsIgnored(times: seq<int>, rate: Rate, a: int, b: int) returns (k: nat)
    requires Clocked(times)
    ensures k <= |times| && (forall i :: 0 <= i < k ==> times[i] < b)
    ensures Clocked(times[..k]) && Admissions(times, rate, a, b) == Admissions(times[..k], rate, a, b)
  {
    if times == [] || times[|times| - 1] < b {
      k := |times|;
      assert times[..k] == times;
    } else {
      ClockedFront(times);
      k := LaterRequestsIgnored(times[..|times| - 1], rate, a, b);
      assert times[..|times| - 1][..k] == times[..k];
    }
  }

  // Any half-open interval of length L sees fewer than N * (ceil(L / W) + 1) admissions of a key.
  lemma {:induction false} RateBound(times: seq<int>, rate: Rate, a: int, length: nat)
    requires Limiting(rate) && Clocked(times) && length > 0
    ensures Admissions(times, rate, a, a + length) + 1 <= rate.requests * (CeilDiv(length, rate.window) + 1)
  {
    var b := a + length;
    var k := LaterRequestsIgnored(times, rate, a, b);
    var windows, spare := PackedRun(times[..k], rate, a, b);
    var n, w := Admissions(times[..k], rate, a, b), After(times[..k], rate);
    var c := CeilDiv(length, rate.window);
    if windows == 0 {
      Grows(rate.requests, 1, c + 1);
    } else {
      assert w.start < b;
      WindowsFit(rate.window, windows, c, spare, w.start - a, length);
      FullWindows(rate.requests, windows, c, spare, n, w.count);
    }
  }

  // Windows open at least a window apart, the last one before the interval's end.
  lemma {:induction false} WindowsFit(window: nat, windows: nat, c: nat, spare: nat, last: int, length: nat)
    requires window > 0 && windows > 0 && spare <= 1 && last < length <= c * window
    requires (windows - 1) * window <= if spare == 1 then last + window - 1 else last
    ensures windows <= c + spare
  {
    if spare == 0 {
      FewWindows(window, windows - 1, c, length);
    } else {
      Spread(window, c + 1);
      FewWindows(window, windows - 1, c + 1, length + window - 1);
    }
  }

  // As many windows as fit, each full, and one request not counted.
  lemma {:induction false} FullWindows(requests: nat, windows: nat, c: nat, spare: nat, n: nat, count: nat)
    requires 0 < windows <= c + spare && spare <= 1 && 0 < requests && count <= requests
    requires n + spare <= requests * (windows - 1) + count
    ensures n + 1 <= requests * (c + 1)
  {
    Grows(requests, windows, c + spare);
    Spread(requests, windows);
    if spare == 0 {
      Spread(requests, c + 1);
    }
  }

  lemma {:induction false} Grows(x: nat, i: nat, j: nat)
    requires i <= j
    ensures x * i <= x * j
  {
  }

  // (k windows) below a length that needs c of them: k < c.
  lemma {:induction false} FewWindows(window: nat, k: nat, c: nat, length: nat)
    requires window > 0 && k * window <= length - 1 && length <= c * window
    ensures k < c
  {
    if k >= c {
      Grows(window, c, k);
    }
  }

  lemma {:induction false} OneWindow(window: nat)
    requires window > 0
    ensures CeilDiv(window, window) == 1
  {
    FewWindows(window, CeilDiv(window, window) - 1, 1, window);
  }

  // In particular fewer than 2N in any one window's length.
  lemma {:induction false} TwicePerWindow(times: seq<int>, rate: Rate, a: int)
    requires Limiting(rate) && Clocked(times)
    ensures Admissions(times, rate, a, a + rate.window) < 2 * rate.requests
  {
    RateBound(times, rate, a, rate.window);
    OneWindow(rate.window);
  }

  // ----- rejections -----

  lemma {:induction false} CurrentWindow(times: seq<int>, rate: Rate)
    requires Limiting(rate) && Clocked(times) && times != []
    ensures var w, last := After(times, rate), times[|times| - 1];
            && w.start != ZERO_TIME && w.start <= last
            && Admissions(times, rate, w.start, last + 1) >= w.count
  {
    var front, now := times[..|times| - 1], times[|times| - 1];
    ClockedFront(times);
    if front != [] {
      CurrentWindow(front, rate);
      var w := After(front, rate);
      WiderInterval(front, rate, w.start, front[|front| - 1] + 1, now + 1);
    }
  }

  lemma {:induction false} WiderInterval(times: seq<int>, rate: Rate, a: int, b1: int, b2: int)
    requires b1 <= b2
    ensures Admissions(times, rate, a, b1) <= Admissions(times, rate, a, b2)
  {
    if times != [] {
      WiderInterval(times[..|times| - 1], rate, a, b1, b2);
    }
  }

  lemma {:induction false} EarlierStart(times: seq<int>, rate: Rate, a1: int, a2: int, b: int)
    requires a1 <= a2
    ensures Admissions(times, rate, a2, b) <= Admissions(times, rate, a1, b)
  {
    if times != [] {
      EarlierStart(times[..|times| - 1], rate, a1, a2, b);
    }
  }

  // A request is turned away only if N were admitted in the window's length before it.
  lemma {:induction false} RejectedOnlyAtCapacity(times: seq<int>, rate: Rate)
    requires rate.requests > 0 && rate.window > 0 && Clocked(times) && times != [] && !LastAdmitted(times, rate)
    ensures var now := times[|times| - 1];
            Admissions(times[..|times| - 1], rate, now - rate.window + 1, now + 1) >= rate.requests
  {
    var front, now := times[..|times| - 1], times[|times| - 1];
    ClockedFront(times);
    if front != [] {
      CurrentWindow(front, rate);
      var w := After(front, rate);
      WiderInterval(front, rate, w.start, front[|front| - 1] + 1, now + 1);
      EarlierStart(front, rate, now - rate.window + 1, w.start, now + 1);
    }
  }

  // Requests at the zero time are never turned away, whatever the limit.
  lemma {:induction false} ZeroTimeUnlimited(times: seq<int>, rate: Rate)
    requires rate.requests > 0 && rate.window > 0
    requires times != [] && forall i :: 0 <= i < |times| ==> times[i] == -62_135_596_800_000_000_000
    ensures LastAdmitted(times, rate) && After(times, rate).start == ZERO_TIME
  {
    if |times| > 1 {
      ZeroTimeUnlimited(times[..|times| - 1], rate);
    }
  }

  // ----- many keys -----

  datatype Call = Call(key: string, time: int)

  function OfKey(calls: seq<Call>, key: string): seq<int> {
    if calls == [] then []
    else OfKey(calls[..|calls| - 1], key) + (if calls[|calls| - 1].key == key then [calls[|calls| - 1].time] else [])
  }

  // The table after a mixed run.
  function Table(calls: seq<Call>, rates: string -> Rate, key: string): RateWindow {
    if calls == [] then UNSET
    else
      var before, call := Table(calls[..|calls| - 1], rates, key), calls[|calls| - 1];
      if call.key == key && Limiting(rates(key)) then Step(before, call.time, rates(key)).0 else before
  }

  // A key's window depends on the requests for that key only.
  lemma {:induction false} KeysIndependent(calls: seq<Call>, rates: string -> Rate, key: string)
    requires Limiting(rates(key))
    ensures Table(calls, rates, key) == After(OfKey(calls, key), rates(key))
  {
    if calls != [] {
      var front, call := calls[..|calls| - 1], calls[|calls| - 1];
      KeysIndependent(front, rates, key);
      var times := OfKey(front, key);
      if call.key == key {
        assert (times + [call.time])[..|times|] == times;
      } else {
        assert times + [] == times;
      }
    }
  }

  datatype Request = Request(clientId: string, routeKey: string, time: int)

  function KeyOf(r: Request): string { LimitKey(r.clientId, r.routeKey) }

  function Keyed(requests: seq<Request>): seq<Call> {
    if requests == [] then []
    else
      var last := requests[|requests| - 1];
      Keyed(requests[..|requests| - 1]) + [Call(KeyOf(last), last.time)]
  }

  // The window of a key after a mixed run of requests.
  function WindowAfter(requests: seq<Request>, rates: string -> Rate, key: string): RateWindow {
    Table(Keyed(requests), rates, key)
  }

  lemma {:induction false} WindowSnoc(requests: seq<Request>, r: Request, rates: string -> Rate, key: string)
    ensures WindowAfter(requests + [r], rates, key)
            == var before := WindowAfter(requests, rates, key);
               if KeyOf(r) == key && Limiting(rates(key)) then Step(before, r.time, rates(key)).0 else before
  {
    var more, less := requests + [r], Keyed(requests);
    assert more[..|requests|] == requests;
    assert (less + [Call(KeyOf(r), r.time)])[..|less|] == less;
  }

  // Which of the requests are admitted.
  function Answers(requests: seq<Request>, rates: string -> Rate): (r: seq<bool>)
    ensures |r| == |requests|
  {
    if requests == [] then []
    else
      var front, last := requests[..|requests| - 1], requests[|requests| - 1];
      var rate := rates(KeyOf(last));
      Answers(front, rates) + [Limiting(rate) && Step(WindowAfter(front, rates, KeyOf(last)), last.time, rate).1]
  }

  // The admitted requests of a key at times a <= t < b.
  function Admitted(requests: seq<Request>, answers: seq<bool>, key: string, a: int, b: int): nat
    requires |answers| == |requests|
  {
    if requests == [] then 0
    else
      var last := requests[|requests| - 1];
      Admitted(requests[..|requests| - 1], answers[..|answers| - 1], key, a, b)
      + (if KeyOf(last) == key && a <= last.time < b && answers[|answers| - 1] then 1 else 0)
  }

  lemma {:induction false} AdmittedOfKey(requests: seq<Request>, rates: string -> Rate, key: string, a: int, b: int)
    requires Limiting(rates(key))
    ensures Admitted(requests, Answers(requests, rates), key, a, b)
            == Admissions(OfKey(Keyed(requests), key), rates(key), a, b)
  {
    if requests != [] {
      var front, last := requests[..|requests| - 1], requests[|requests| - 1];
      AdmittedOfKey(front, rates, key, a, b);
      KeysIndependent(Keyed(front), rates, key);
      var times := OfKey(Keyed(front), key);
      if KeyOf(last) == key {
        assert (times + [last.time])[..|times|] == times;
      } else {
        assert times + [] == times;
      }
    }
  }

  lemma {:induction false} NoneAdmitted(requests: seq<Request>, rates: string -> Rate, key: string, a: int, b: int)
    requires !Limiting(rates(key))
    ensures Admitted(requests, Answers(requests, rates), key, a, b) == 0
  {
    if requests != [] {
      NoneAdmitted(requests[..|requests| - 1], rates, key, a, b);
    }
  }

  // The clock is set and never goes back.
  predicate Ordered(requests: seq<Request>) {
    && (forall i :: 0 <= i < |requests| ==> requests[i].time != ZERO_TIME)
    && forall i, j :: 0 <= i <= j < |requests| ==> requests[i].time <= requests[j].time
  }

  lemma {:induction false} OrderedClocked(requests: seq<Request>, key: string)
    requires Ordered(requests)
    ensures Clocked(OfKey(Keyed(requests), key))
    ensures forall i :: 0 <= i < |OfKey(Keyed(requests), key)| ==>
              requests != [] && OfKey(Keyed(requests), key)[i] <= requests[|requests| - 1].time
  {
    if requests != [] {
      OrderedClocked(requests[..|requests| - 1], key);
    }
  }

  // In any mixed run, however the requests of other keys fall, an interval of length L admits fewer
  // than N * (ceil(L / W) + 1) requests of a key, and none under a policy without a limit or window.
  lemma {:induction false} MixedRunBound(requests: seq<Request>, rates: string -> Rate, key: string, a: int,
                                         length: nat)
    requires Ordered(requests) && length > 0
    ensures var n, rate := Admitted(requests, Answers(requests, rates), key, a, a + length), rates(key);
            if Limiting(rate) then n + 1 <= rate.requests * (CeilDiv(length, rate.window) + 1) else n == 0
  {
    if Limiting(rates(key)) {
      BoundOfKey(requests, rates, key, a, length);
    } else {
      NoneAdmitted(requests, rates, key, a, a + length);
    }
  }

  lemma {:induction false} BoundOfKey(requests: seq<Request>, rates: string -> Rate, key: string, a: int, length: nat)
    requires Ordered(requests) && length > 0 && Limiting(rates(key))
    ensures Admitted(requests, Answers(requests, rates), key, a, a + length) + 1
            <= rates(key).requests * (CeilDiv(length, rates(key).window) + 1)
  {
    var times := OfKey(Keyed(requests), key);
    AdmittedOfKey(requests, rates, key, a, a + length);
    OrderedClocked(requests, key);
    RateBound(times, rates(key), a, length);
  }

  lemma {:induction false} AnswersSnoc(requests: seq<Request>, i: nat, rates: string -> Rate)
    requires i < |requests|
    ensures var r := requests[i];
            var rate := rates(KeyOf(r));
            Answers(requests[..i + 1], rates)
            == Answers(requests[..i], rates)
                + [Limiting(rate) && Step(WindowAfter(requests[..i], rates, KeyOf(r)), r.time, rate).1]
  {
    assert requests[..i + 1][..i] == requests[..i];
  }

  // The limiter's table holds the window of every key.
  ghost predicate InState(s: RateState, requests: seq<Request>, rates: string -> Rate)
    reads s
  {
    forall key :: s.WindowOf(key) == WindowAfter(requests, rates, key)
  }

  // One request of a run.
  method AnswerNext(s: RateState, r: Request, rates: string -> Rate, ghost before: seq<Request>) returns (ok: bool)
    requires InState(s, before, rates)
    modifies s
    ensures InState(s, before + [r], rates)
    ensures var rate := rates(KeyOf(r));
            ok == (Limiting(rate) && Step(WindowAfter(before, rates, KeyOf(r)), r.time, rate).1)
  {
    ok := s.AllowRate(r.time, r.clientId, r.routeKey, rates(KeyOf(r)));
    forall key ensures s.WindowOf(key) == WindowAfter(before + [r], rates, key) {
      WindowSnoc(before, r, rates, key);
    }
  }

  // The limiter gives these answers, and its state is that table.
  method RunRequests(requests: seq<Request>, rates: string -> Rate) returns (s: RateState, answers: seq<bool>)
    ensures fresh(s) && InState(s, requests, rates)
    ensures answers == Answers(requests, rates)
  {
    s := new RateState();
    answers := [];
    for i := 0 to |requests|
      invariant fresh(s) && InState(s, requests[..i], rates)
      invariant answers == Answers(requests[..i], rates)
    {
      assert requests[..i + 1] == requests[..i] + [requests[i]];
      AnswersSnoc(requests, i, rates);
      var ok := AnswerNext(s, requests[i], rates, requests[..i]);
      answers := answers + [ok];
    }
    assert requests[..|requests|] == requests;
  }
}
