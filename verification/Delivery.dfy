/** From the pipeline to the primary sink or the spool, and back out of the spool:
    internal/contexts/traffic/adapters/events/pipeline.go and durable_sink.go. */
module Delivery {
  import opened Events
  import opened SpoolLog
  import opened SpoolDisk
  import opened SpoolSpec
  import opened FileSpool

  // An event without the fields that record how it travelled.
  function Core(e: Event): Event { e.(sinkStatus := "", spoolStatus := "", retryCount := 0) }

  function Cores(events: seq<Event>): set<Event> {
    if events == [] then {} else Cores(events[..|events| - 1]) + {Core(events[|events| - 1])}
  }

  lemma {:induction false} CoresMembers(events: seq<Event>, c: Event)
    ensures c in Cores(events) <==> exists i :: 0 <= i < |events| && Core(events[i]) == c
  {
    if events != [] {
      CoresMembers(events[..|events| - 1], c);
    }
  }

  // The primary sink: any call may be refused.
  class Primary {
    const accepts: nat -> bool
    var calls: nat
    ghost var delivered: seq<seq<Event>>
    ghost var refused: seq<seq<Event>>

    constructor (accepts: nat -> bool)
      ensures delivered == [] && refused == []
    {
      this.accepts := accepts;
      calls, delivered, refused := 0, [], [];
    }

    method WriteBatch(batch: seq<Event>) returns (ok: bool)
      modifies this
      ensures delivered == if ok then old(delivered) + [batch] else old(delivered)
      ensures refused == if ok then old(refused) else old(refused) + [batch]
    {
      ok := accepts(calls);
      calls := calls + 1;
      if ok {
        delivered := delivered + [batch];
      } else {
        refused := refused + [batch];
      }
    }
  }

  function DeliveredCores(batches: seq<seq<Event>>): set<Event> {
    if batches == [] then {} else DeliveredCores(batches[..|batches| - 1]) + Cores(batches[|batches| - 1])
  }

  lemma {:induction false} DeliveredSnoc(batches: seq<seq<Event>>, batch: seq<Event>)
    ensures DeliveredCores(batches + [batch]) == DeliveredCores(batches) + Cores(batch)
  {
    assert (batches + [batch])[..|batches|] == batches;
  }

  // The same gateway event, whatever delivery has noted on it.
  predicate SameEvent(a: Event, b: Event) { a.eventId == b.eventId && a.body == b.body }

  lemma {:induction false} CoreExactly(a: Event, b: Event)
    ensures Core(a) == Core(b) <==> SameEvent(a, b)
  {
  }

  // Some batch delivered holds the event.
  ghost predicate Delivers(batches: seq<seq<Event>>, e: Event) {
    exists i, j :: 0 <= i < |batches| && 0 <= j < |batches[i]| && SameEvent(batches[i][j], e)
  }

  lemma {:induction false} DeliveredExactly(batches: seq<seq<Event>>, e: Event)
    ensures Core(e) in DeliveredCores(batches) <==> Delivers(batches, e)
  {
    if batches != [] {
      var front, n := batches[..|batches| - 1], |batches| - 1;
      DeliveredExactly(front, e);
      CoresMembers(batches[n], Core(e));
      if Delivers(batches, e) {
        var i, j :| 0 <= i < |batches| && 0 <= j < |batches[i]| && SameEvent(batches[i][j], e);
        assert i < n ==> front[i] == batches[i];
      }
    }
  }

  // What the spool counts as accepted, the primary sink has received.
  ghost predicate Linked(disk: Disk, primary: Primary)
    reads disk, primary
  {
    AllReceived(After(disk.log).accepted, primary.delivered)
  }

  ghost predicate AllReceived(items: set<Item>, delivered: seq<seq<Event>>) {
    forall item :: item in items ==> Core(item.event) in DeliveredCores(delivered)
  }

  function Marked(events: seq<Event>, status: string): (r: seq<Event>)
    ensures |r| == |events| && forall i :: 0 <= i < |r| ==> r[i] == events[i].(sinkStatus := status)
  {
    if events == [] then []
    else Marked(events[..|events| - 1], status) + [events[|events| - 1].(sinkStatus := status)]
  }

  // An event as it goes into the spool.
  function SpooledForm(e: Event): Event { e.(sinkStatus := "spooled", spoolStatus := "spooled") }

  function Spooled(events: seq<Event>): (r: seq<Event>)
    ensures |r| == |events| && forall i :: 0 <= i < |r| ==> r[i] == SpooledForm(events[i])
  {
    if events == [] then []
    else Spooled(events[..|events| - 1]) + [SpooledForm(events[|events| - 1])]
  }

  lemma {:induction false} Remarked(events: seq<Event>, first: string, second: string)
    ensures Marked(Marked(events, first), second) == Marked(events, second)
    ensures Spooled(Marked(events, first)) == Spooled(events)
  {
    assert forall i :: 0 <= i < |events| ==> Spooled(Marked(events, first))[i] == Spooled(events)[i];
  }

  ghost function SpooledForms(events: seq<Event>): set<Event> { set e | e in events :: SpooledForm(e) }

  // The spool was handed these events at most.
  ghost predicate OffersOnly(events: seq<Event>, w1: World, w2: World) {
    w2.offered <= w1.offered + SpooledForms(events)
  }

  lemma {:induction false} SpooledMembers(events: seq<Event>)
    ensures (set e | e in Spooled(events)) == SpooledForms(events)
  {
    forall x ensures x in Spooled(events) <==> x in SpooledForms(events) {
      if x in Spooled(events) {
        var i :| 0 <= i < |events| && Spooled(events)[i] == x;
        assert events[i] in events;
      }
      if x in SpooledForms(events) {
        var e :| e in events && SpooledForm(e) == x;
        var i :| 0 <= i < |events| && events[i] == e;
        assert Spooled(events)[i] == x;
      }
    }
  }

  lemma {:induction false} SameForms(events: seq<Event>, status: string)
    ensures SpooledForms(Marked(events, status)) == SpooledForms(events)
  {
    Remarked(events, status, status);
    SpooledMembers(events);
    SpooledMembers(Marked(events, status));
  }

  // Every one of the events was committed in the spool.
  ghost predicate AllCommitted(events: seq<Event>, w: World) {
    forall e :: e in events ==> exists item :: item in w.published && item.event == e
  }

  method MarkSinkStatus(batch: array<Event>, status: string)
    modifies batch
    ensures batch[..] == Marked(old(batch[..]), status)
  {
    for i := 0 to batch.Length
      invariant forall k :: 0 <= k < i ==> batch[k] == old(batch[k]).(sinkStatus := status)
      invariant forall k :: i <= k < batch.Length ==> batch[k] == old(batch[k])
    {
      batch[i] := batch[i].(sinkStatus := status);
    }
  }

  datatype Fate = Written | InSpool | Refused

  // What the parts of a sink have on record.
  datatype SinkState = SinkState(primary: bool, spool: bool, delivered: seq<seq<Event>>, refused: seq<seq<Event>>,
                                 turnedAway: seq<seq<Event>>, log: seq<Entry>, failures: nat, calls: nat,
                                 ages: set<int>)

  // Records only grow, and what is acknowledged stays among what the primary sink received.
  ghost predicate Onward(a: SinkState, b: SinkState) {
    && a.primary == b.primary && a.spool == b.spool
    && a.delivered <= b.delivered && a.refused <= b.refused && a.turnedAway <= b.turnedAway && a.log <= b.log
    && a.failures <= b.failures && a.calls <= b.calls && a.ages == b.ages
    && After(a.log).accepted <= After(b.log).accepted
    && (AllReceived(After(a.log).accepted, a.delivered) ==> AllReceived(After(b.log).accepted, b.delivered))
  }

  lemma {:induction false} OnwardOn(a: SinkState, b: SinkState, c: SinkState)
    requires Onward(a, b) && Onward(b, c)
    ensures Onward(a, c)
  {
  }

  lemma {:induction false} OnwardSelf(a: SinkState)
    ensures Onward(a, a)
  {
  }

  lemma {:induction false} ReceivedLater(items: set<Item>, before: seq<seq<Event>>, after: seq<seq<Event>>)
    requires AllReceived(items, before) && before <= after
    ensures AllReceived(items, after)
  {
    DeliveredGrows(before, after);
  }

  lemma {:induction false} DeliveredGrows(before: seq<seq<Event>>, after: seq<seq<Event>>)
    requires before <= after
    ensures DeliveredCores(before) <= DeliveredCores(after)
  {
    if |before| < |after| {
      DeliveredGrows(before, after[..|after| - 1]);
    } else {
      assert before == after;
    }
  }

  class DurableSink {
    const primary: Primary?
    const spool: FileSpool?

    constructor (primary: Primary?, spool: FileSpool?)
      ensures this.primary == primary && this.spool == spool
    {
      this.primary, this.spool := primary, spool;
    }

    ghost function Parts(): set<object> {
      (if primary != null then {primary} else {}) + (if spool != null then {spool, spool.disk} else {})
    }

    ghost predicate Valid()
      reads Parts()
    {
      spool != null ==> spool.Valid()
    }

    ghost function State(): SinkState
      reads Parts()
    {
      SinkState(primary != null, spool != null,
                if primary != null then primary.delivered else [], if primary != null then primary.refused else [],
                if spool != null then spool.refused else [], if spool != null then spool.disk.log else [],
                if spool != null then spool.disk.failures else 0, if spool != null then spool.disk.calls else 0,
                if spool != null then spool.disk.ages else {})
    }

    // What every write keeps, whatever becomes of it.
    twostate predicate Forward()
      reads Parts()
    {
      Valid() && Onward(old(State()), State())
    }

    // The primary sink comes first and the spool second; a batch is refused only after both.
    method WriteBatch(batch: array<Event>) returns (ok: bool, ghost fate: Fate)
      requires Valid()
      modifies batch, Parts()
      ensures Forward() && (ok <==> !fate.Refused?)
      ensures batch[..] == if fate.InSpool? then Spooled(old(batch[..])) else old(batch[..])
      ensures batch.Length == 0 ==> fate.Written?
      ensures batch.Length == 0 && primary != null ==>
                primary.delivered == old(primary.delivered) && primary.refused == old(primary.refused)
      ensures batch.Length > 0 && primary == null ==> fate.Refused?
      ensures batch.Length > 0 && primary != null ==>
                && primary.delivered == old(primary.delivered) + (if fate.Written? then [old(batch[..])] else [])
                && primary.refused == old(primary.refused) + (if fate.Written? then [] else [old(batch[..])])
      ensures fate.InSpool? ==> spool != null && AllCommitted(Spooled(old(batch[..])), After(spool.disk.log))
      ensures spool != null ==>
                spool.refused == old(spool.refused)
                                 + (if fate.Refused? && primary != null then [Spooled(old(batch[..]))] else [])
      ensures spool != null && primary != null && fate.Refused? ==>
                spool.disk.failures > old(spool.disk.failures) || spool.overflowCount > old(spool.overflowCount)
      ensures spool != null ==> OffersOnly(old(batch[..]), After(old(spool.disk.log)), After(spool.disk.log))
    {
      if batch.Length == 0 {
        return true, Written;
      }
      if primary == null {
        return false, Refused;
      }
      ok, fate := SendOrSpool(batch);
    }

    method SendOrSpool(batch: array<Event>) returns (ok: bool, ghost fate: Fate)
      requires Valid() && primary != null && batch.Length > 0
      modifies batch, Parts()
      ensures Forward() && (ok <==> !fate.Refused?)
      ensures batch[..] == if fate.InSpool? then Spooled(old(batch[..])) else old(batch[..])
      ensures primary.delivered == if fate.Written? then old(primary.delivered) + [old(batch[..])]
                                   else old(primary.delivered)
      ensures primary.refused == if fate.Written? then old(primary.refused)
                                 else old(primary.refused) + [old(batch[..])]
      ensures fate.InSpool? ==> spool != null && AllCommitted(Spooled(old(batch[..])), After(spool.disk.log))
      ensures spool != null ==>
                && spool.refused == (if fate.Refused? then old(spool.refused) + [Spooled(old(batch[..]))]
                                     else old(spool.refused))
                && (fate.Refused? ==> spool.disk.failures > old(spool.disk.failures)
                                      || spool.overflowCount > old(spool.overflowCount))
                && OffersOnly(old(batch[..]), After(old(spool.disk.log)), After(spool.disk.log))
    {
      ghost var state, sent := State(), batch[..];
      ok := Send(batch[..]);
      assert batch[..] == sent;
      if ok {
        return true, Written;
      }
      ok := FallbackFrom(state, batch);
      fate := if ok then InSpool else Refused;
    }

    method FallbackFrom(ghost state: SinkState, batch: array<Event>) returns (ok: bool)
      requires Valid() && primary != null && batch.Length > 0 && Onward(state, State())
      modifies batch, if spool != null then {spool, spool.disk} else {}
      ensures Valid() && Onward(state, State())
      ensures batch[..] == if ok then Spooled(old(batch[..])) else old(batch[..])
      ensures ok ==> spool != null && AllCommitted(Spooled(old(batch[..])), After(spool.disk.log))
      ensures spool != null ==>
                spool.refused == if ok then old(spool.refused) else old(spool.refused) + [Spooled(old(batch[..]))]
      ensures spool != null && !ok ==>
                spool.disk.failures > old(spool.disk.failures) || spool.overflowCount > old(spool.overflowCount)
      ensures spool != null ==> OffersOnly(old(batch[..]), After(old(spool.disk.log)), After(spool.disk.log))
    {
      ghost var between := State();
      ok := Fallback(batch);
      OnwardOn(state, between, State());
    }

    method Send(events: seq<Event>) returns (ok: bool)
      requires Valid() && primary != null
      modifies primary
      ensures Forward()
      ensures primary.delivered == if ok then old(primary.delivered) + [events] else old(primary.delivered)
      ensures primary.refused == if ok then old(primary.refused) else old(primary.refused) + [events]
    {
      ghost var before := primary.delivered;
      ghost var items := if spool != null then After(spool.disk.log).accepted else {};
      ok := primary.WriteBatch(events);
      if AllReceived(items, before) {
        ReceivedLater(items, before, primary.delivered);
      }
    }

    // What follows when the primary sink has refused a batch.
    method Fallback(batch: array<Event>) returns (ok: bool)
      requires Valid() && batch.Length > 0
      modifies batch, if spool != null then {spool, spool.disk} else {}
      ensures Forward()
      ensures batch[..] == if ok then Spooled(old(batch[..])) else old(batch[..])
      ensures ok ==> spool != null && AllCommitted(Spooled(old(batch[..])), After(spool.disk.log))
      ensures spool != null ==>
                spool.refused == if ok then old(spool.refused) else old(spool.refused) + [Spooled(old(batch[..]))]
      ensures spool != null && !ok ==>
                spool.disk.failures > old(spool.disk.failures) || spool.overflowCount > old(spool.overflowCount)
      ensures spool != null ==> OffersOnly(old(batch[..]), After(old(spool.disk.log)), After(spool.disk.log))
    {
      if spool == null {
        return false;
      }
      ok := SpoolBatch(batch[..]);
      if ok {
        MarkSpooled(batch);
      }
    }

    method SpoolBatch(events: seq<Event>) returns (ok: bool)
      requires Valid() && spool != null && events != []
      modifies spool, spool.disk
      ensures Valid() && spool.disk.Grown()
      ensures ok ==> AllCommitted(Spooled(events), After(spool.disk.log))
      ensures spool.refused == if ok then old(spool.refused) else old(spool.refused) + [Spooled(events)]
      ensures !ok ==> spool.disk.failures > old(spool.disk.failures) || spool.overflowCount > old(spool.overflowCount)
      ensures OffersOnly(events, After(old(spool.disk.log)), After(spool.disk.log))
    {
      SpooledMembers(events);
      ghost var sequence := spool.sequence;
      var result, o, records := spool.Append(Spooled(events));
      ok := result.Appended?;
      if ok {
        EventsPublished(Spooled(events), o.now, sequence, After(spool.disk.log));
      }
    }
  }

  method MarkSpooled(batch: array<Event>)
    modifies batch
    ensures batch[..] == Spooled(old(batch[..]))
  {
    for i := 0 to batch.Length
      invariant forall k :: 0 <= k < i ==> batch[k] == SpooledForm(old(batch[k]))
      invariant forall k :: i <= k < batch.Length ==> batch[k] == old(batch[k])
    {
      batch[i] := SpooledForm(batch[i]);
    }
  }

  lemma {:induction false} EventsPublished(events: seq<Event>, now: int, sequence: nat, w: World)
    requires RecordsPublished(NewRecords(now, sequence, events), w)
    ensures AllCommitted(events, w)
  {
    var records := NewRecords(now, sequence, events);
    forall e | e in events ensures exists item :: item in w.published && item.event == e {
      var i :| 0 <= i < |events| && events[i] == e;
      NewRecordAt(now, sequence, events, i);
      assert ItemOf(records[i]) in w.published;
    }
  }
}
