/** The bounded queue in front of the durable sink: internal/contexts/traffic/adapters/events/pipeline.go. */
module Pipeline {
  import opened Options
  import opened Events
  import opened SpoolLog
  import opened Delivery

  // Where an attempt stands on record: with the primary sink, and with the spool if that refused it.
  datatype Mark = Mark(sent: nat, turned: nat)

  // A batch taken from the queue, what became of it, whether that took one attempt only, and where the
  // two attempts stand on record.
  datatype Batch = Batch(events: seq<Event>, fate: Fate, atOnce: bool, first: Mark, second: Mark)

  datatype EnqueueResult = Queued | Dropped | Cancelled

  function TakenEvents(batches: seq<Batch>): seq<Event> {
    if batches == [] then [] else TakenEvents(batches[..|batches| - 1]) + batches[|batches| - 1].events
  }

  // ----- what a batch leaves behind -----

  // The first attempt sends the events as delivered, the second one as failed.
  function First(events: seq<Event>): seq<Event> { Marked(events, "delivered") }
  function Second(events: seq<Event>): seq<Event> { Marked(events, "failed") }

  // No batch from number `from` on took a second attempt.
  function AllAtOnce(batches: seq<Batch>, from: nat): bool {
    |batches| <= from || (AllAtOnce(batches[..|batches| - 1], from) && batches[|batches| - 1].atOnce)
  }

  lemma {:induction false} AtOnceMeans(batches: seq<Batch>, from: nat)
    ensures AllAtOnce(batches, from) <==> forall i :: from <= i < |batches| ==> batches[i].atOnce
  {
    if |batches| > from {
      AtOnceMeans(batches[..|batches| - 1], from);
    }
  }

  // What the primary sink took and refused of a batch, and what the spool refused of it.
  datatype Trace = Trace(delivered: seq<seq<Event>>, refused: seq<seq<Event>>, turnedAway: seq<seq<Event>>)

  function TraceFor(first: seq<Event>, second: seq<Event>, spooled: seq<Event>, fate: Fate, atOnce: bool): Trace {
    match fate
    case Written => if atOnce then Trace([first], [], []) else Trace([second], [first], [spooled])
    case InSpool => if atOnce then Trace([], [first], []) else Trace([], [first] + [second], [spooled])
    case Refused => Trace([], [first] + [second], [spooled] + [spooled])
  }

  function TraceOf(b: Batch): Trace {
    TraceFor(First(b.events), Second(b.events), Spooled(b.events), b.fate, b.atOnce)
  }

  function TraceAll(batches: seq<Batch>): Trace {
    if batches == [] then Trace([], [], [])
    else
      var t, last := TraceAll(batches[..|batches| - 1]), TraceOf(batches[|batches| - 1]);
      Join(t, last)
  }

  predicate OnRecord(record: seq<seq<Event>>, i: nat, batch: seq<Event>) {
    i < |record| && record[i] == batch
  }

  // A batch is with the primary sink or committed in the spool, or both of these refused both
  // attempts; a second attempt follows a first one that both refused.
  ghost predicate Placed(b: Batch, limit: nat, k: SinkState) {
    && 0 < |b.events| <= limit
    && (!k.primary ==> b.fate.Refused? && !b.atOnce)
    && (k.primary && b.atOnce ==> Landed(First(b.events), b.first, b.fate, k) && !b.fate.Refused?)
    && (k.primary && !b.atOnce ==> Landed(First(b.events), b.first, Refused, k)
                                   && Landed(Second(b.events), b.second, b.fate, k)
                                   && (b.fate.Refused? && k.spool ==> b.first.turned < b.second.turned))
  }

  // What the records show of an attempt.
  ghost predicate Landed(sent: seq<Event>, m: Mark, fate: Fate, k: SinkState) {
    match fate
    case Written => OnRecord(k.delivered, m.sent, sent)
    case InSpool => OnRecord(k.refused, m.sent, sent) && k.spool && AllCommitted(Spooled(sent), After(k.log))
    case Refused => OnRecord(k.refused, m.sent, sent) && (k.spool ==> OnRecord(k.turnedAway, m.turned, Spooled(sent)))
  }

  // A batch in hand whose first attempt has failed.
  ghost predicate Pending(hand: seq<Event>, tried: Option<Mark>, k: SinkState) {
    tried.Some? ==> hand != [] && (k.primary ==> Landed(First(hand), tried.value, Refused, k))
  }

  // ----- the same, said of the events -----

  // The events as they are sent with a status.
  ghost predicate SentAs(sent: seq<Event>, events: seq<Event>, status: string) {
    |sent| == |events| && forall i :: 0 <= i < |events| ==> sent[i] == events[i].(sinkStatus := status)
  }

  ghost predicate SomeSentAs(record: seq<seq<Event>>, events: seq<Event>, status: string) {
    exists n :: 0 <= n < |record| && SentAs(record[n], events, status)
  }

  // The events as they go into the spool.
  ghost predicate SpooledAs(sent: seq<Event>, events: seq<Event>) {
    && |sent| == |events|
    && forall i :: 0 <= i < |events| ==>
         sent[i] == events[i].(sinkStatus := "spooled", spoolStatus := "spooled")
  }

  // Marked delivered at first and failed on the second attempt, a batch is with the primary sink, or was
  // refused there and each of its events is committed in the spool, or was refused twice by both.
  ghost predicate Accounted(b: Batch, k: SinkState) {
    && (!b.atOnce ==> SomeSentAs(k.refused, b.events, "delivered"))
    && match b.fate
       case Written => SomeSentAs(k.delivered, b.events, if b.atOnce then "delivered" else "failed")
       case InSpool =>
         && k.spool && SomeSentAs(k.refused, b.events, if b.atOnce then "delivered" else "failed")
         && forall e :: e in b.events ==> exists item ::
              item in After(k.log).published
              && item.event == e.(sinkStatus := "spooled", spoolStatus := "spooled")
       case Refused =>
         && !b.atOnce && SomeSentAs(k.refused, b.events, "failed")
         && (k.spool ==> exists n, m :: 0 <= n < m < |k.turnedAway|
                           && SpooledAs(k.turnedAway[n], b.events) && SpooledAs(k.turnedAway[m], b.events))
  }

  lemma {:induction false} LandedMeans(events: seq<Event>, status: string, m: Mark, fate: Fate, k: SinkState)
    requires Landed(Marked(events, status), m, fate, k)
    ensures fate.Written? ==> SomeSentAs(k.delivered, events, status)
    ensures !fate.Written? ==> SomeSentAs(k.refused, events, status)
    ensures fate.InSpool? ==> k.spool && forall e :: e in events ==> exists item ::
              item in After(k.log).published && item.event == e.(sinkStatus := "spooled", spoolStatus := "spooled")
    ensures fate.Refused? && k.spool ==> m.turned < |k.turnedAway| && SpooledAs(k.turnedAway[m.turned], events)
  {
    assert SentAs(Marked(events, status), events, status);
    Remarked(events, status, status);
    if fate.InSpool? {
      forall e | e in events ensures exists item ::
          item in After(k.log).published && item.event == e.(sinkStatus := "spooled", spoolStatus := "spooled")
      {
        var i :| 0 <= i < |events| && events[i] == e;
        assert Spooled(events)[i] in Spooled(events);
      }
    }
  }

  // What is on record about a batch of a sink that has a primary.
  lemma {:induction false} PlacedMeans(b: Batch, limit: nat, k: SinkState)
    requires Placed(b, limit, k) && k.primary
    ensures Accounted(b, k)
  {
    if b.atOnce {
      LandedMeans(b.events, "delivered", b.first, b.fate, k);
    } else {
      LandedMeans(b.events, "delivered", b.first, Refused, k);
      LandedMeans(b.events, "failed", b.second, b.fate, k);
    }
  }

  ghost predicate AllPlaced(batches: seq<Batch>, limit: nat, k: SinkState) {
    forall i {:trigger Placed(batches[i], limit, k)} :: 0 <= i < |batches| ==> Placed(batches[i], limit, k)
  }

  lemma {:induction false} CommittedLater(events: seq<Event>, w1: World, w2: World)
    requires AllCommitted(events, w1) && w1.published <= w2.published
    ensures AllCommitted(events, w2)
  {
    forall e | e in events ensures exists item :: item in w2.published && item.event == e {
      var item :| item in w1.published && item.event == e;
      assert item in w2.published;
    }
  }

  lemma {:induction false} LandedLater(sent: seq<Event>, m: Mark, fate: Fate, k1: SinkState, k2: SinkState)
    requires Landed(sent, m, fate, k1) && Onward(k1, k2)
    ensures Landed(sent, m, fate, k2)
  {
    if fate.InSpool? {
      HistoryGrows(k1.log, k2.log);
      CommittedLater(Spooled(sent), After(k1.log), After(k2.log));
    }
  }

  // What became of a batch stays true as sink and spool go on.
  lemma {:induction false} PlacedLater(b: Batch, limit: nat, k1: SinkState, k2: SinkState)
    requires Placed(b, limit, k1) && Onward(k1, k2)
    ensures Placed(b, limit, k2)
  {
    if k1.primary && b.atOnce {
      LandedLater(First(b.events), b.first, b.fate, k1, k2);
    } else if k1.primary {
      LandedLater(First(b.events), b.first, Refused, k1, k2);
      LandedLater(Second(b.events), b.second, b.fate, k1, k2);
    }
  }

  lemma {:induction false} PendingLater(hand: seq<Event>, tried: Option<Mark>, k1: SinkState, k2: SinkState)
    requires Pending(hand, tried, k1) && Onward(k1, k2)
    ensures Pending(hand, tried, k2)
  {
    if tried.Some? && k1.primary {
      LandedLater(First(hand), tried.value, Refused, k1, k2);
    }
  }

  lemma {:induction false} AllPlacedLater(batches: seq<Batch>, limit: nat, k1: SinkState, k2: SinkState)
    requires AllPlaced(batches, limit, k1) && Onward(k1, k2)
    ensures AllPlaced(batches, limit, k2)
  {
    forall i | 0 <= i < |batches| ensures Placed(batches[i], limit, k2) {
      assert Placed(batches[i], limit, k1);
      PlacedLater(batches[i], limit, k1, k2);
    }
  }

  // One attempt to write some events.
  ghost predicate Tried(sent: seq<Event>, fate: Fate, k1: SinkState, k2: SinkState) {
    && Onward(k1, k2) && (!k2.primary ==> fate.Refused?)
    && (fate.InSpool? ==> k2.spool && AllCommitted(Spooled(sent), After(k2.log)))
    && (k2.primary ==>
          && k2.delivered == k1.delivered + (if fate.Written? then [sent] else [])
          && k2.refused == k1.refused + (if fate.Written? then [] else [sent]))
    && (k2.primary && k2.spool ==> k2.turnedAway == k1.turnedAway + (if fate.Refused? then [Spooled(sent)] else []))
    && (k2.spool ==> OffersOnly(sent, After(k1.log), After(k2.log)))
  }

  // The books gained exactly this trace.
  ghost predicate Gained(t: Trace, k1: SinkState, k2: SinkState) {
    && Onward(k1, k2)
    && (k2.primary ==> k2.delivered == k1.delivered + t.delivered && k2.refused == k1.refused + t.refused)
    && (k2.primary && k2.spool ==> k2.turnedAway == k1.turnedAway + t.turnedAway)
  }

  // Where the next attempt will stand on record.
  function Next(fate: Fate, k: SinkState): Mark {
    Mark(if fate.Written? then |k.delivered| else |k.refused|, |k.turnedAway|)
  }

  lemma {:induction false} TriedLands(sent: seq<Event>, fate: Fate, k1: SinkState, k2: SinkState)
    requires Tried(sent, fate, k1, k2) && k2.primary
    ensures Landed(sent, Next(fate, k1), fate, k2)
  {
  }

  function OnceBatch(events: seq<Event>, fate: Fate, k: SinkState): Batch {
    Batch(events, fate, true, Next(fate, k), Mark(0, 0))
  }

  function TwiceBatch(events: seq<Event>, fate: Fate, tried: Mark, k: SinkState): Batch {
    Batch(events, fate, false, tried, Next(fate, k))
  }

  lemma {:induction false} PlacedOnce(events: seq<Event>, fate: Fate, limit: nat, k1: SinkState, k2: SinkState)
    requires Tried(First(events), fate, k1, k2) && !fate.Refused? && 0 < |events| <= limit
    ensures Placed(OnceBatch(events, fate, k1), limit, k2)
  {
    if k2.primary {
      TriedLands(First(events), fate, k1, k2);
    }
  }

  lemma {:induction false} PlacedTwice(events: seq<Event>, fate: Fate, tried: Mark, limit: nat, k1: SinkState,
                                       k2: SinkState)
    requires Pending(events, Some(tried), k1) && Tried(Second(events), fate, k1, k2) && 0 < |events| <= limit
    ensures Placed(TwiceBatch(events, fate, tried, k1), limit, k2)
  {
    if k2.primary {
      LandedLater(First(events), tried, Refused, k1, k2);
      TriedLands(Second(events), fate, k1, k2);
    }
  }

  lemma {:induction false} MarkedFirst(events: seq<Event>, k1: SinkState, k2: SinkState)
    requires Tried(First(events), Refused, k1, k2) && events != []
    ensures Pending(events, Some(Next(Refused, k1)), k2)
  {
    if k2.primary {
      TriedLands(First(events), Refused, k1, k2);
    }
  }

  lemma {:induction false} PlacedSnoc(batches: seq<Batch>, last: Batch, limit: nat, k1: SinkState, k2: SinkState)
    requires AllPlaced(batches, limit, k1) && Onward(k1, k2) && Placed(last, limit, k2)
    ensures AllPlaced(batches + [last], limit, k2)
  {
    AllPlacedLater(batches, limit, k1, k2);
    forall i | 0 <= i < |batches + [last]| ensures Placed((batches + [last])[i], limit, k2) {
      assert i < |batches| ==> Placed(batches[i], limit, k2);
    }
  }

  lemma {:induction false} GainedOnce(events: seq<Event>, fate: Fate, k1: SinkState, k2: SinkState)
    requires Tried(First(events), fate, k1, k2) && !fate.Refused?
    ensures Gained(TraceOf(OnceBatch(events, fate, k1)), k1, k2)
  {
    Plus(k1.delivered, [], []);
    Plus(k1.refused, [], []);
    Plus(k1.turnedAway, [], []);
  }

  lemma {:induction false} GainedBoth(events: seq<Event>, fate: Fate, tried: Mark, k1: SinkState, k2: SinkState,
                                      k3: SinkState)
    requires Tried(First(events), Refused, k1, k2) && Tried(Second(events), fate, k2, k3)
    ensures Gained(TraceOf(TwiceBatch(events, fate, tried, k2)), k1, k3)
  {
    Remarked(events, "delivered", "failed");
    Remarked(events, "failed", "failed");
    GainedTwice(First(events), Second(events), Spooled(events), fate, k1, k2, k3);
  }

  lemma {:induction false} GainedTwice(first: seq<Event>, second: seq<Event>, spooled: seq<Event>, fate: Fate,
                                       k1: SinkState, k2: SinkState, k3: SinkState)
    requires Tried(first, Refused, k1, k2) && Tried(second, fate, k2, k3)
    requires Spooled(first) == spooled && Spooled(second) == spooled
    ensures Gained(TraceFor(first, second, spooled, fate, false), k1, k3)
  {
    OnwardOn(k1, k2, k3);
    Plus(k1.delivered, [], if fate.Written? then [second] else []);
    Plus(k1.refused, [first], if fate.Written? then [] else [second]);
    Plus(k1.turnedAway, [spooled], if fate.Refused? then [spooled] else []);
  }

  lemma {:induction false} Plus(a: seq<seq<Event>>, b: seq<seq<Event>>, c: seq<seq<Event>>)
    ensures (a + b) + c == a + (b + c) && a + [] == a && b + [] == b && [] + c == c
  {
  }

  function Join(t: Trace, u: Trace): Trace {
    Trace(t.delivered + u.delivered, t.refused + u.refused, t.turnedAway + u.turnedAway)
  }

  lemma {:induction false} TraceSnoc(batches: seq<Batch>, b: Batch)
    ensures TraceAll(batches + [b]) == Join(TraceAll(batches), TraceOf(b))
  {
    assert (batches + [b])[..|batches|] == batches;
  }

  lemma {:induction false} GainedNext(t: Trace, u: Trace, k1: SinkState, k2: SinkState, k3: SinkState)
    requires Gained(t, k1, k2) && Gained(u, k2, k3)
    ensures Gained(Join(t, u), k1, k3)
  {
    OnwardOn(k1, k2, k3);
    Plus(k1.delivered, t.delivered, u.delivered);
    Plus(k1.refused, t.refused, u.refused);
    Plus(k1.turnedAway, t.turnedAway, u.turnedAway);
  }

  // The batches since number `from` account for exactly what the parts gained since `start`.
  ghost predicate Since(batches: seq<Batch>, from: nat, start: SinkState, books: SinkState) {
    from <= |batches| && Gained(TraceAll(batches[from..]), start, books)
  }

  lemma {:induction false} TakenSnoc(batches: seq<Batch>, b: Batch, rest: seq<Event>)
    ensures TakenEvents(batches + [b]) + ([] + rest) == TakenEvents(batches) + (b.events + rest)
  {
    assert (batches + [b])[..|batches|] == batches;
    assert [] + rest == rest;
  }

  lemma {:induction false} AcceptOne(taken: seq<Event>, hand: seq<Event>, queue: seq<Event>, event: Event)
    ensures (taken + (hand + queue)) + [event] == taken + (hand + (queue + [event]))
  {
  }

  lemma {:induction false} SplitQueue(taken: seq<Event>, waiting: seq<Event>, batch: seq<Event>, rest: seq<Event>)
    requires batch + rest == waiting
    ensures taken + ([] + waiting) == taken + (batch + rest) && |batch| + |rest| == |waiting|
  {
    assert [] + waiting == waiting;
  }

  class Pipeline {
    const capacity: nat
    const batchSize: nat
    const sink: DurableSink?
    var queue: seq<Event>
    // The batch that Flush has taken and not yet settled, whether its first attempt has failed, and
    // where that stands on record.
    var hand: seq<Event>
    var again: bool
    ghost var tried: Option<Mark>
    var closed: bool
    var dropped: nat
    ghost var accepted: seq<Event>
    ghost var refused: seq<Event>
    ghost var batches: seq<Batch>
    // What the parts of the sink had on record after the last attempt.
    ghost var books: SinkState
    ghost var discarded: seq<Event>

    ghost function Parts(): set<object> { if sink != null then sink.Parts() else {} }

    ghost predicate Valid()
      reads this, Parts()
    {
      Consistent() && (sink != null ==> sink.Valid() && Onward(books, sink.State()))
    }

    // What the pipeline's own fields say.
    ghost predicate Consistent()
      reads this
    {
      && capacity > 0 && batchSize > 0 && this !in Parts()
      && |queue| <= capacity && dropped == |refused| && |hand| <= batchSize && again == tried.Some?
      && (if sink == null then batches == [] && hand == [] && tried.None? && accepted == discarded + queue
          else accepted == TakenEvents(batches) + (hand + queue)
               && AllPlaced(batches, batchSize, books) && Pending(hand, tried, books))
    }

    constructor (capacity: int, batchSize: int, sink: DurableSink?)
      requires sink != null ==> sink.Valid()
      ensures Valid() && this.sink == sink && accepted == [] && dropped == 0 && !closed && hand == []
      ensures this.capacity == if capacity <= 0 then 1024 else capacity
      ensures this.batchSize == if batchSize <= 0 then 100 else batchSize
    {
      this.capacity := if capacity <= 0 then 1024 else capacity;
      this.batchSize := if batchSize <= 0 then 100 else batchSize;
      this.sink := sink;
      queue, closed, dropped := [], false, 0;
      hand, again, tried := [], false, None;
      accepted, refused, batches, discarded := [], [], [], [];
      books := if sink != null then sink.State() else SinkState(false, false, [], [], [], [], 0, 0, {});
    }

    // With a cancelled context and room in the queue, select takes either branch.
    method Enqueue(event: Event, cancelled: bool, pickSend: bool) returns (r: EnqueueResult)
      requires Valid()
      modifies this`queue, this`accepted, this`dropped, this`refused
      ensures Valid()
      ensures r.Queued? ==> !old(closed) && |old(queue)| < capacity
                            && queue == old(queue) + [event] && accepted == old(accepted) + [event]
      ensures !r.Queued? ==> queue == old(queue) && accepted == old(accepted)
      ensures dropped == old(dropped) + (if r.Dropped? then 1 else 0)
      ensures refused == if r.Dropped? then old(refused) + [event] else old(refused)
      ensures r.Cancelled? ==> cancelled && !old(closed)
      ensures !old(closed) && |old(queue)| < capacity && !cancelled ==> r.Queued?
      ensures old(closed) || (|old(queue)| == capacity && !cancelled) ==> r.Dropped?
    {
      if closed {
        Drop(event);
        return Dropped;
      }
      var room := |queue| < capacity;
      if cancelled && !(room && pickSend) {
        return Cancelled;
      }
      if room {
        Push(event);
        return Queued;
      }
      Drop(event);
      return Dropped;
    }

    method Push(event: Event)
      requires Valid() && |queue| < capacity
      modifies this`queue, this`accepted
      ensures Valid() && queue == old(queue) + [event] && accepted == old(accepted) + [event]
    {
      AcceptOne(TakenEvents(batches), hand, queue, event);
      queue, accepted := queue + [event], accepted + [event];
    }

    method Drop(event: Event)
      requires Valid()
      modifies this`dropped, this`refused
      ensures Valid() && dropped == old(dropped) + 1 && refused == old(refused) + [event]
    {
      dropped, refused := dropped + 1, refused + [event];
    }

    method Close()
      requires Valid()
      modifies this`closed
      ensures Valid() && closed
    {
      closed := true;
    }

    method NextBatch() returns (batch: seq<Event>)
      requires batchSize > 0
      modifies this`queue
      ensures batch + queue == old(queue)
      ensures |batch| == if |old(queue)| < batchSize then |old(queue)| else batchSize
    {
      batch := [];
      while |batch| < batchSize && |queue| > 0
        invariant batch + queue == old(queue) && |batch| <= batchSize
        decreases |queue|
      {
        batch, queue := batch + [queue[0]], queue[1..];
      }
    }

    method DiscardQueued()
      requires Valid() && sink == null
      modifies this`queue, this`discarded
      ensures Valid() && queue == []
    {
      while |queue| > 0
        invariant Valid()
        decreases |queue|
      {
        discarded, queue := discarded + [queue[0]], queue[1..];
      }
    }

    // Marks a batch in place and hands it to the sink.
    method Attempt(batch: seq<Event>, status: string) returns (ok: bool, ghost fate: Fate)
      requires sink != null && sink.Valid() && batch != []
      modifies Parts()
      ensures sink.Valid() && (ok <==> !fate.Refused?)
      ensures Tried(Marked(batch, status), fate, old(sink.State()), sink.State())
    {
      var events := new Event[|batch|](i requires 0 <= i < |batch| => batch[i]);
      assert events[..] == batch;
      MarkSinkStatus(events, status);
      ok, fate := sink.WriteBatch(events);
    }

    // ----- the steps of Flush -----

    method Take()
      requires Valid() && sink != null && hand == []
      modifies this`queue, this`hand
      ensures Valid() && hand + queue == old(queue) && tried.None?
      ensures |hand| == if |old(queue)| < batchSize then |old(queue)| else batchSize
      ensures if hand == [] then queue == [] else |queue| < |old(queue)|
    {
      ghost var waiting := queue;
      var batch := NextBatch();
      SplitQueue(TakenEvents(batches), waiting, batch, queue);
      hand := batch;
    }

    // The first attempt for the batch in hand.
    method SendFirst() returns (ok: bool, ghost fate: Fate)
      requires Valid() && sink != null && hand != [] && tried.None?
      modifies `hand, `again, `tried, `batches, `books, Parts()
      ensures Valid() && books == sink.State() && (ok <==> !fate.Refused?)
      ensures Tried(First(old(hand)), fate, old(sink.State()), books)
      ensures tried == if ok then None else Some(Next(Refused, old(sink.State())))
      ensures hand == if ok then [] else old(hand)
      ensures batches == if ok then old(batches) + [OnceBatch(old(hand), fate, old(sink.State()))] else old(batches)
    {
      ghost var before := sink.State();
      ok, fate := AttemptHand("delivered");
      ghost var now := sink.State();
      if ok {
        PlacedOnce(hand, fate, batchSize, before, now);
        Conclude(OnceBatch(hand, fate, before), now);
      } else {
        MarkedFirst(hand, before, now);
        Keep(Next(Refused, before), now);
      }
    }

    // The second attempt, after everything refused the first one.
    method SendSecond() returns (ok: bool, ghost fate: Fate)
      requires Valid() && sink != null && tried.Some?
      modifies `hand, `again, `tried, `batches, `books, Parts()
      ensures Valid() && books == sink.State() && (ok <==> !fate.Refused?)
      ensures Tried(Second(old(hand)), fate, old(sink.State()), books)
      ensures hand == [] && tried.None?
      ensures batches == old(batches) + [TwiceBatch(old(hand), fate, old(tried).value, old(sink.State()))]
    {
      ghost var before := sink.State();
      PendingLater(hand, tried, books, before);
      ok, fate := AttemptHand("failed");
      ghost var now := sink.State();
      PlacedTwice(hand, fate, tried.value, batchSize, before, now);
      Conclude(TwiceBatch(hand, fate, tried.value, before), now);
    }

    method AttemptHand(status: string) returns (ok: bool, ghost fate: Fate)
      requires Valid() && sink != null && hand != []
      modifies Parts()
      ensures Holding(sink.State()) && (ok <==> !fate.Refused?)
      ensures Tried(Marked(hand, status), fate, old(sink.State()), sink.State())
    {
      ghost var before := sink.State();
      ok, fate := Attempt(hand, status);
      OnwardOn(books, before, sink.State());
    }

    // With a batch in hand, the parts have moved on from the books.
    ghost predicate Holding(now: SinkState)
      reads this, Parts()
    {
      && capacity > 0 && 0 < |hand| <= batchSize && this !in Parts()
      && |queue| <= capacity && dropped == |refused|
      && sink != null && sink.Valid() && sink.State() == now && Onward(books, now)
      && accepted == TakenEvents(batches) + (hand + queue) && AllPlaced(batches, batchSize, books)
    }

    method Conclude(ghost last: Batch, ghost now: SinkState)
      requires Holding(now) && Placed(last, batchSize, now) && last.events == hand
      modifies `hand, `again, `tried, `batches, `books
      ensures Valid() && hand == [] && tried.None? && books == now && batches == old(batches) + [last]
    {
      ghost var all := batches + [last];
      PlacedSnoc(batches, last, batchSize, books, now);
      TakenSnoc(batches, last, queue);
      OnwardSelf(now);
      hand, again, tried, batches, books := [], false, None, all, now;
      assert accepted == TakenEvents(all) + (hand + queue) && sink.State() == now;
    }

    method Keep(ghost mark: Mark, ghost now: SinkState)
      requires Holding(now) && Pending(hand, Some(mark), now)
      modifies `again, `tried, `books
      ensures Valid() && tried == Some(mark) && books == now
    {
      AllPlacedLater(batches, batchSize, books, now);
      OnwardSelf(now);
      again, tried, books := true, Some(mark), now;
    }

    // Empties the queue, batch by batch, from the front.
    method Flush() returns (ok: bool)
      requires Valid() && hand == []
      modifies this, Parts()
      ensures Valid() && queue == [] && hand == [] && accepted == old(accepted) && dropped == old(dropped)
      ensures old(batches) <= batches
      ensures sink != null ==>
                sink.Forward() && Gained(TraceAll(batches[|old(batches)|..]), old(sink.State()), sink.State())
      ensures ok <==> forall i :: |old(batches)| <= i < |batches| ==> batches[i].atOnce
    {
      if sink == null {
        DiscardQueued();
        return true;
      }
      ok := FlushAll();
    }

    method FlushAll() returns (ok: bool)
      requires Valid() && sink != null && hand == []
      modifies this, Parts()
      ensures Valid() && queue == [] && hand == [] && accepted == old(accepted) && dropped == old(dropped)
      ensures old(batches) <= batches && sink.Valid()
      ensures Gained(TraceAll(batches[|old(batches)|..]), old(sink.State()), sink.State())
      ensures ok <==> forall i :: |old(batches)| <= i < |batches| ==> batches[i].atOnce
    {
      ghost var from, start := |batches|, sink.State();
      AllPlacedLater(batches, batchSize, books, start);
      books := start;
      ok := FlushLoop(start);
      AtOnceMeans(batches, from);
    }

    method FlushLoop(ghost start: SinkState) returns (ok: bool)
      requires Valid() && sink != null && hand == [] && Since(batches, |batches|, start, books) && books == sink.State()
      modifies this, Parts()
      ensures Valid() && queue == [] && hand == [] && accepted == old(accepted) && dropped == old(dropped)
      ensures old(batches) <= batches && Since(batches, |old(batches)|, start, books) && books == sink.State()
      ensures ok == AllAtOnce(batches, |old(batches)|)
    {
      ghost var from := |batches|;
      ok := true;
      while true
        invariant Valid() && hand == [] && accepted == old(accepted) && dropped == old(dropped)
        invariant old(batches) <= batches && Since(batches, from, start, books) && books == sink.State()
        invariant ok == AllAtOnce(batches, from)
        decreases |queue|
      {
        ghost var taken, known := batches, books;
        var empty, written := FlushBatch();
        if empty {
          return;
        }
        OneMore(taken, batches, from, start, known, books);
        ok := ok && written;
      }
    }

    // One turn of the loop in Flush.
    method FlushBatch() returns (empty: bool, ok: bool)
      requires Valid() && sink != null && hand == [] && books == sink.State()
      modifies `queue, `hand, `again, `tried, `batches, `books, Parts()
      ensures Valid() && hand == [] && books == sink.State()
      ensures empty ==> queue == [] && batches == old(batches) && books == old(books)
      ensures !empty ==>
                && |queue| < |old(queue)| && |batches| == |old(batches)| + 1 && old(batches) <= batches
                && batches[|old(batches)|].atOnce == ok && Gained(TraceOf(batches[|old(batches)|]), old(books), books)
    {
      Take();
      if |hand| == 0 {
        return true, true;
      }
      empty := false;
      ghost var last;
      ok, last := SendHand();
    }

    // At most two attempts for the batch in hand.
    method SendHand() returns (ok: bool, ghost last: Batch)
      requires Valid() && sink != null && hand != [] && tried.None? && books == sink.State()
      modifies `hand, `again, `tried, `batches, `books, Parts()
      ensures Valid() && hand == [] && batches == old(batches) + [last] && last.atOnce == ok
      ensures Gained(TraceOf(last), old(books), books) && books == sink.State()
    {
      ghost var events, before, fate := hand, books, Refused;
      ok, fate := SendFirst();
      last := OnceBatch(events, fate, before);
      if ok {
        GainedOnce(events, fate, before, books);
      } else {
        last := SendAgain(before);
      }
    }

    method SendAgain(ghost before: SinkState) returns (ghost last: Batch)
      requires Valid() && sink != null && tried.Some? && books == sink.State()
      requires Tried(First(hand), Refused, before, books)
      modifies `hand, `again, `tried, `batches, `books, Parts()
      ensures Valid() && hand == [] && batches == old(batches) + [last] && !last.atOnce
      ensures Gained(TraceOf(last), before, books) && books == sink.State()
    {
      ghost var events, between, mark := hand, books, tried.value;
      ghost var fate;
      var ok;
      ok, fate := SendSecond();
      last := TwiceBatch(events, fate, mark, between);
      GainedBoth(events, fate, mark, before, between, books);
    }
  }

  lemma {:induction false} OneMore(taken: seq<Batch>, batches: seq<Batch>, from: nat, start: SinkState,
                                   known: SinkState, books: SinkState)
    requires |batches| == |taken| + 1 && taken <= batches && Since(taken, from, start, known)
    requires Gained(TraceOf(batches[|taken|]), known, books)
    ensures Since(batches, from, start, books)
    ensures AllAtOnce(batches, from) == (AllAtOnce(taken, from) && batches[|taken|].atOnce)
  {
    var last := batches[|taken|];
    assert batches == taken + [last];
    GainedSnoc(taken, last, from, start, known, books);
    assert batches[..|batches| - 1] == taken;
  }

  lemma {:induction false} GainedSnoc(batches: seq<Batch>, last: Batch, from: nat, k1: SinkState, k2: SinkState,
                                      k3: SinkState)
    requires from <= |batches| && Gained(TraceAll(batches[from..]), k1, k2) && Gained(TraceOf(last), k2, k3)
    ensures Gained(TraceAll((batches + [last])[from..]), k1, k3)
  {
    assert (batches + [last])[from..] == batches[from..] + [last];
    TraceSnoc(batches[from..], last);
    GainedNext(TraceAll(batches[from..]), TraceOf(last), k1, k2, k3);
  }
}
