/** Where an accepted event is, at every step of any number of pipelines and replay workers on one
    directory: internal/contexts/traffic/adapters/events/pipeline.go and durable_sink.go. */
module DeliveryChain {
  import opened Events
  import opened SpoolLog
  import opened SpoolDisk
  import opened SpoolSpec
  import opened Delivery
  import opened Replay
  import FileSpool
  import Pipeline

  // ----- one accepted event -----

  // Both attempts were refused by the primary sink, and both again by the spool.
  ghost predicate RefusedTwice(b: Pipeline.Batch, k: SinkState) {
    && b.fate.Refused? && !b.atOnce
    && (k.primary ==>
          && Pipeline.OnRecord(k.refused, b.first.sent, Pipeline.First(b.events))
          && Pipeline.OnRecord(k.refused, b.second.sent, Pipeline.Second(b.events))
          && (k.spool ==>
                && b.first.turned < b.second.turned
                && Pipeline.OnRecord(k.turnedAway, b.first.turned, Spooled(b.events))
                && Pipeline.OnRecord(k.turnedAway, b.second.turned, Spooled(b.events))))
  }

  // The event was committed in the spool and is still accounted for there.
  ghost predicate InCustody(e: Event, disk: Disk, primary: Primary)
    reads disk, primary
  {
    exists item :: item in After(disk.log).published && Core(item.event) == Core(e) && AnsweredBy(disk, primary, item)
  }

  ghost predicate Handled(e: Event, b: Pipeline.Batch, sink: DurableSink)
    reads sink.Parts()
  {
    match b.fate
    case Written => sink.primary != null && Core(e) in DeliveredCores(sink.primary.delivered)
    case InSpool => sink.primary != null && sink.spool != null && InCustody(e, sink.spool.disk, sink.primary)
    case Refused => RefusedTwice(b, sink.State())
  }

  ghost predicate Found(e: Event, p: Pipeline.Pipeline)
    requires p.sink != null
    reads p, p.Parts()
  {
    || e in p.queue || e in p.hand
    || exists i :: 0 <= i < |p.batches| && e in p.batches[i].events && Handled(e, p.batches[i], p.sink)
  }

  lemma {:induction false} WhichBatch(batches: seq<Pipeline.Batch>, e: Event) returns (i: nat)
    requires e in Pipeline.TakenEvents(batches)
    ensures i < |batches| && e in batches[i].events
  {
    if e in batches[|batches| - 1].events {
      i := |batches| - 1;
    } else {
      i := WhichBatch(batches[..|batches| - 1], e);
    }
  }

  lemma {:induction false} MarkedCore(events: seq<Event>, status: string, e: Event)
    requires e in events
    ensures Core(e) in Cores(Marked(events, status))
    ensures exists x :: x in Spooled(Marked(events, status)) && Core(x) == Core(e)
  {
    var i :| 0 <= i < |events| && events[i] == e;
    var marked := Marked(events, status);
    assert Core(marked[i]) == Core(e);
    CoresMembers(marked, Core(e));
    assert Spooled(marked)[i] in Spooled(marked) && Core(Spooled(marked)[i]) == Core(e);
  }

  lemma {:induction false} DeliveredAt(delivered: seq<seq<Event>>, i: nat, c: Event)
    requires i < |delivered| && c in Cores(delivered[i])
    ensures c in DeliveredCores(delivered)
  {
    if i < |delivered| - 1 {
      DeliveredAt(delivered[..|delivered| - 1], i, c);
    }
  }

  // What an attempt that landed means for one of its events.
  lemma {:induction false} LandedFor(events: seq<Event>, status: string, m: Pipeline.Mark, fate: Fate, e: Event,
                                     k: SinkState)
    requires Pipeline.Landed(Marked(events, status), m, fate, k) && e in events
    ensures fate.Written? ==> Core(e) in DeliveredCores(k.delivered)
    ensures fate.InSpool? ==> exists item :: item in After(k.log).published && Core(item.event) == Core(e)
  {
    MarkedCore(events, status, e);
    if fate.Written? {
      DeliveredAt(k.delivered, m.sent, Core(e));
    } else if fate.InSpool? {
      var x :| x in Spooled(Marked(events, status)) && Core(x) == Core(e);
      var item :| item in After(k.log).published && item.event == x;
    }
  }

  lemma {:induction false} PlacedFor(b: Pipeline.Batch, limit: nat, e: Event, k: SinkState)
    requires Pipeline.Placed(b, limit, k) && e in b.events
    ensures b.fate.Written? ==> k.primary && Core(e) in DeliveredCores(k.delivered)
    ensures b.fate.InSpool? ==>
              k.primary && k.spool && exists item :: item in After(k.log).published && Core(item.event) == Core(e)
    ensures b.fate.Refused? ==> RefusedTwice(b, k)
  {
    if k.primary && b.atOnce {
      LandedFor(b.events, "delivered", b.first, b.fate, e, k);
    } else if k.primary {
      Remarked(b.events, "delivered", "failed");
      Remarked(b.events, "failed", "failed");
      LandedFor(b.events, "failed", b.second, b.fate, e, k);
    }
  }

  // Every accepted event is in the queue or in the batch in hand, or its batch was written, or it is
  // still answered for by the spool, or everything refused it twice.
  lemma {:induction false} Conserved(p: Pipeline.Pipeline, e: Event)
    requires p.Valid() && p.sink != null && e in p.accepted
    requires p.sink.primary != null && p.sink.spool != null ==>
               Linked(p.sink.spool.disk, p.sink.primary) && DistinctlyNamed(After(p.sink.spool.disk.log).offered)
    ensures Found(e, p)
  {
    if e !in p.queue && e !in p.hand {
      var i := WhichBatch(p.batches, e);
      var k := p.sink.State();
      var b := p.batches[i];
      assert Pipeline.Placed(b, p.batchSize, p.books);
      Pipeline.PlacedLater(b, p.batchSize, p.books, k);
      PlacedFor(b, p.batchSize, e, k);
      if b.fate.InSpool? {
        var item :| item in After(k.log).published && Core(item.event) == Core(e);
        AtLeastOnce(p.sink.spool.disk, p.sink.primary, item);
      }
      assert Handled(e, b, p.sink);
    }
  }

  // ----- where an event is, said of files, batches and readings of the clock -----

  // A file of the directory holds the event, or a record with it was purged when the clock showed that it
  // had reached a configured age.
  ghost predicate InDirectory(e: Event, disk: Disk)
    reads disk
  {
    || (exists name :: name in disk.files && !name.Temp? && SameEvent(disk.files[name].record.event, e))
    || (exists x :: x in After(disk.log).expired && SameEvent(x.record.event, e)
                    && 0 < x.age && x.age in disk.ages && x.call < disk.calls
                    && x.record.createdAt <= disk.clock(x.call) - x.age)
  }

  // It is in a batch that was sent twice, as delivered and as failed, and refused by everything each time.
  ghost predicate TwiceRefused(e: Event, p: Pipeline.Pipeline)
    requires p.sink != null
    reads p, p.Parts()
  {
    exists b :: b in p.batches && e in b.events && b.fate.Refused?
                && (p.sink.primary != null ==> Pipeline.Accounted(b, p.sink.State()))
  }

  ghost predicate Somewhere(e: Event, p: Pipeline.Pipeline)
    requires p.sink != null
    reads p, p.Parts()
  {
    || e in p.queue || e in p.hand
    || (p.sink.primary != null && Delivers(p.sink.primary.delivered, e))
    || (p.sink.spool != null && InDirectory(e, p.sink.spool.disk))
    || TwiceRefused(e, p)
  }

  lemma {:induction false} CustodyMeans(e: Event, disk: Disk, primary: Primary)
    requires InCustody(e, disk, primary)
    ensures InDirectory(e, disk) || Delivers(primary.delivered, e)
  {
    var item :| item in After(disk.log).published && Core(item.event) == Core(e) && AnsweredBy(disk, primary, item);
    CoreExactly(item.event, e);
    DeliveredExactly(primary.delivered, e);
  }

  lemma {:induction false} FoundMeans(e: Event, p: Pipeline.Pipeline)
    requires p.Valid() && p.sink != null && Found(e, p)
    ensures Somewhere(e, p)
  {
    if e !in p.queue && e !in p.hand {
      var i :| 0 <= i < |p.batches| && e in p.batches[i].events && Handled(e, p.batches[i], p.sink);
      var b, k := p.batches[i], p.sink.State();
      match b.fate {
        case Written => DeliveredExactly(p.sink.primary.delivered, e);
        case InSpool => CustodyMeans(e, p.sink.spool.disk, p.sink.primary);
        case Refused =>
          assert Pipeline.Placed(b, p.batchSize, p.books);
          Pipeline.PlacedLater(b, p.batchSize, p.books, k);
          if k.primary {
            Pipeline.PlacedMeans(b, p.batchSize, k);
          }
          assert b in p.batches;
      }
    }
  }

  // ----- many pipelines and workers -----

  // A step of some pipeline, a step of some replay worker, or an append by a worker's spool on its own.
  datatype Turn =
    | Enqueue(who: nat, event: Event, cancelled: bool,
              pickSend: bool) | Shut(who: nat) | Take(who: nat) | Attempt(who: nat)
    | Fetch(who: nat) | Send(who: nat) | Finish(who: nat) | Inspect(who: nat)

  predicate OfPipeline(turn: Turn) { turn.Enqueue? || turn.Shut? || turn.Take? || turn.Attempt? }

  // What a worker holds between its turns.
  datatype Stage = Unsent | Arrived | TurnedDown
  datatype Held = Held(batch: seq<SpooledEvent>, stage: Stage)

  ghost predicate ClaimOk(c: Held, w: World) {
    && OwnClaims(c.batch) && AllPublished(c.batch, w)
    && (c.stage.Arrived? ==> AllAccepted(c.batch, w))
  }

  ghost predicate AllAccepted(batch: seq<SpooledEvent>, w: World) {
    forall e :: e in batch && e.path.Some? ==>
      e.path.value.Claimed? && exists a :: a in w.accepted && a.id == e.path.value.id
  }

  lemma {:induction false} ClaimLater(c: Held, before: seq<Entry>, log: seq<Entry>)
    requires ClaimOk(c, After(before)) && before <= log
    ensures ClaimOk(c, After(log))
  {
    HistoryGrows(before, log);
  }

  ghost predicate AllClaims(held: seq<Held>, w: World) {
    forall i {:trigger ClaimOk(held[i], w)} :: 0 <= i < |held| ==> ClaimOk(held[i], w)
  }

  lemma {:induction false} AllClaimsLater(held: seq<Held>, before: seq<Entry>, log: seq<Entry>)
    requires AllClaims(held, After(before)) && before <= log
    ensures AllClaims(held, After(log))
  {
    forall i | 0 <= i < |held| ensures ClaimOk(held[i], After(log)) {
      assert ClaimOk(held[i], After(before));
      ClaimLater(held[i], before, log);
    }
  }

  lemma {:induction false} ClaimsLater(held: seq<Held>, who: nat, c: Held, before: seq<Entry>, log: seq<Entry>)
    requires AllClaims(held, After(before)) && before <= log && who < |held| && ClaimOk(c, After(log))
    ensures AllClaims(held[who := c], After(log))
  {
    AllClaimsLater(held, before, log);
    var next := held[who := c];
    forall i | 0 <= i < |next| ensures ClaimOk(next[i], After(log)) {
      assert i != who ==> ClaimOk(held[i], After(log));
    }
  }

  // One step of a worker. The claims may be long gone when it comes to settle them.
  method WorkerTurn(w: ReplayWorker, turn: Turn, held: Held) returns (now: Held)
    requires w.Valid() && ClaimOk(held, After(w.spool.disk.log))
    modifies w.primary, w.spool, w.spool.disk
    ensures w.Forward() && ClaimOk(now, After(w.spool.disk.log))
  {
    ghost var log := w.spool.disk.log;
    now := held;
    match turn {
      case Fetch(_) =>
        var batch, settled, ids := w.Claim();
        if batch.Some? {
          now := Held(batch.value, Unsent);
        } else {
          ClaimLater(held, log, w.spool.disk.log);
        }
      case Send(_) =>
        now := SendHeld(w, held);
      case Finish(_) =>
        SettleHeld(w, held);
        now := Held([], Unsent);
      case Inspect(_) =>
        var s := w.spool.Stats();
        ClaimLater(held, log, w.spool.disk.log);
      case _ =>
    }
  }

  method SendHeld(w: ReplayWorker, held: Held) returns (now: Held)
    requires w.Valid() && ClaimOk(held, After(w.spool.disk.log))
    modifies w.primary, w.spool.disk`log
    ensures w.Forward() && ClaimOk(now, After(w.spool.disk.log))
  {
    ghost var log := w.spool.disk.log;
    now := held;
    if |held.batch| > 0 && held.stage.Unsent? {
      var events := w.Decode(held.batch);
      var ok := w.Send(held.batch, events);
      now := Held(held.batch, if ok then Arrived else TurnedDown);
      HistoryGrows(log, w.spool.disk.log);
    }
  }

  method SettleHeld(w: ReplayWorker, held: Held)
    requires w.Valid() && ClaimOk(held, After(w.spool.disk.log))
    modifies w.spool.disk
    ensures w.Forward()
  {
    if held.stage.Arrived? {
      assert forall e :: e in held.batch && e.path.Some? ==> e.path.value.Claimed?;
      var ok := w.spool.Ack(held.batch);
    } else if held.stage.TurnedDown? {
      var ok, times := w.spool.RecordFailure(held.batch, WRITE_FAILED);
    }
  }

  // One step of a pipeline.
  method PipelineTurn(p: Pipeline.Pipeline, turn: Turn, ghost given: set<Event>)
    requires p.Valid() && p.sink != null && p.sink.spool != null
    requires Members(p.accepted) <= given && (turn.Enqueue? ==> turn.event in given)
    modifies p, p.Parts()
    ensures p.Valid() && Onward(old(p.sink.State()), p.sink.State()) && old(p.accepted) <= p.accepted
    ensures Members(p.accepted) <= given
    ensures After(p.sink.spool.disk.log).offered <= After(old(p.sink.spool.disk.log)).offered + Forms(given)
  {
    OnwardSelf(p.sink.State());
    match turn {
      case Enqueue(_, event, cancelled, pickSend) =>
        var r := p.Enqueue(event, cancelled, pickSend);
      case Shut(_) =>
        p.Close();
      case Take(_) =>
        if |p.hand| == 0 {
          p.Take();
        }
      case Attempt(_) =>
        AttemptTurn(p, given);
      case _ =>
    }
  }

  method AttemptTurn(p: Pipeline.Pipeline, ghost given: set<Event>)
    requires p.Valid() && p.sink != null && p.sink.spool != null && Members(p.accepted) <= given
    modifies p, p.Parts()
    ensures p.Valid() && Onward(old(p.sink.State()), p.sink.State()) && p.accepted == old(p.accepted)
    ensures After(p.sink.spool.disk.log).offered <= After(old(p.sink.spool.disk.log)).offered + Forms(given)
  {
    ghost var batch, taken := p.hand, Pipeline.TakenEvents(p.batches);
    HandGiven(taken, batch, p.queue, given);
    SameForms(batch, "delivered");
    SameForms(batch, "failed");
    if p.again {
      var ok, fate := p.SendSecond();
    } else if |p.hand| > 0 {
      var ok, fate := p.SendFirst();
    } else {
      OnwardSelf(p.sink.State());
    }
  }

  ghost function Members(events: seq<Event>): set<Event> { set e | e in events }

  ghost function Forms(events: set<Event>): set<Event> { set e | e in events :: SpooledForm(e) }

  lemma {:induction false} HandGiven(taken: seq<Event>, hand: seq<Event>, queue: seq<Event>, given: set<Event>)
    requires Members(taken + (hand + queue)) <= given
    ensures SpooledForms(hand) <= Forms(given)
  {
    forall x | x in SpooledForms(hand) ensures x in Forms(given) {
      var e :| e in hand && SpooledForm(e) == x;
      assert e in taken + (hand + queue);
    }
  }

  lemma {:induction false} FormsNamed(events: set<Event>)
    requires DistinctlyNamed(events)
    ensures DistinctlyNamed(Forms(events))
  {
  }

  // ----- all of them on one directory -----

  // What they share: the primary sink and the directory.
  ghost function Common(disk: Disk, primary: Primary): SinkState
    reads disk, primary
  {
    SinkState(true, true, primary.delivered, primary.refused, [], disk.log, disk.failures, disk.calls, disk.ages)
  }

  lemma {:induction false} OnwardWith(a: SinkState, b: SinkState, x: seq<seq<Event>>, y: seq<seq<Event>>)
    requires Onward(a, b) && x <= y
    ensures Onward(a.(turnedAway := x), b.(turnedAway := y))
  {
  }

  predicate Joined(p: Pipeline.Pipeline, disk: Disk, primary: Primary) {
    p.sink != null && p.sink.primary == primary && p.sink.spool != null && p.sink.spool.disk == disk
  }

  ghost predicate Working(w: ReplayWorker, disk: Disk, primary: Primary, ages: set<int>) {
    w.spool.disk == disk && w.primary == primary && w.spool.claimTimeout > 0 && w.spool.maxAge in ages
  }

  ghost predicate AllWorking(workers: seq<ReplayWorker>, disk: Disk, primary: Primary, ages: set<int>) {
    forall i :: 0 <= i < |workers| ==> Working(workers[i], disk, primary, ages)
  }

  // Each of the pipelines is on the shared parts, and none is listed twice.
  ghost predicate AllJoined(pipelines: seq<Pipeline.Pipeline>, disk: Disk, primary: Primary) {
    && (forall i :: 0 <= i < |pipelines| ==> Joined(pipelines[i], disk, primary))
    && forall i, j :: 0 <= i < j < |pipelines| ==> pipelines[i] != pipelines[j]
  }

  ghost function SpoolsOf(pipelines: seq<Pipeline.Pipeline>): set<object> {
    set i | 0 <= i < |pipelines| && pipelines[i].sink != null
        && pipelines[i].sink.spool != null :: pipelines[i].sink.spool
  }

  ghost function Objects(pipelines: seq<Pipeline.Pipeline>, workers: seq<ReplayWorker>): set<object> {
    (set i | 0 <= i < |pipelines| :: pipelines[i]) + SpoolsOf(pipelines)
        + (set i | 0 <= i < |workers| :: workers[i].spool)
  }

  ghost predicate Fleet(pipelines: seq<Pipeline.Pipeline>, workers: seq<ReplayWorker>, disk: Disk, primary: Primary)
    reads disk, primary, (set i | 0 <= i < |pipelines| :: pipelines[i]) + SpoolsOf(pipelines)
  {
    && disk.Valid() && Linked(disk, primary)
    && AllJoined(pipelines, disk, primary) && AllWorking(workers, disk, primary, disk.ages)
    && forall i :: 0 <= i < |pipelines| ==> pipelines[i].Valid()
  }

  ghost predicate AllGiven(pipelines: seq<Pipeline.Pipeline>, given: set<Event>)
    reads set i | 0 <= i < |pipelines| :: pipelines[i]
  {
    forall i :: 0 <= i < |pipelines| ==> Members(pipelines[i].accepted) <= given
  }

  // A pipeline that had no turn is as valid as it was.
  lemma {:induction false} StaysValid(q: Pipeline.Pipeline, disk: Disk, primary: Primary, a: SinkState,
                                      x: seq<seq<Event>>)
    requires Joined(q, disk, primary) && q.Consistent() && q.sink.Valid()
    requires Onward(q.books, a.(turnedAway := x)) && Onward(a, Common(disk, primary)) && x <= q.sink.spool.refused
    ensures q.Valid()
  {
    OnwardWith(a, Common(disk, primary), x, q.sink.spool.refused);
    OnwardOn(q.books, a.(turnedAway := x), q.sink.State());
  }

  method MovePipeline(p: Pipeline.Pipeline, disk: Disk, primary: Primary, turn: Turn, ghost given: set<Event>)
    requires Joined(p, disk, primary) && p.Valid() && Linked(disk, primary)
    requires Members(p.accepted) <= given && (turn.Enqueue? ==> turn.event in given)
    modifies p, p.Parts()
    ensures p.Valid() && Linked(disk, primary) && Members(p.accepted) <= given && old(p.accepted) <= p.accepted
    ensures Onward(old(Common(disk, primary)), Common(disk, primary))
    ensures old(p.sink.spool.refused) <= p.sink.spool.refused
    ensures After(disk.log).offered <= After(old(disk.log)).offered + Forms(given)
  {
    PipelineTurn(p, turn, given);
    OnwardWith(old(p.sink.State()), p.sink.State(), [], []);
  }

  method ActPipeline(pipelines: seq<Pipeline.Pipeline>, workers: seq<ReplayWorker>, disk: Disk, primary: Primary,
                     turn: Turn,
                     ghost given: set<Event>)
    requires Fleet(pipelines, workers, disk, primary) && turn.who < |pipelines|
    requires AllGiven(pipelines, given) && (turn.Enqueue? ==> turn.event in given)
    modifies pipelines[turn.who], pipelines[turn.who].Parts()
    ensures Fleet(pipelines, workers, disk, primary) && AllGiven(pipelines, given)
    ensures Onward(old(Common(disk, primary)), Common(disk, primary))
    ensures After(disk.log).offered <= After(old(disk.log)).offered + Forms(given)
    ensures forall i :: 0 <= i < |pipelines| ==> old(pipelines[i].accepted) <= pipelines[i].accepted
  {
    MovePipeline(pipelines[turn.who], disk, primary, turn, given);
    forall i | 0 <= i < |pipelines| ensures pipelines[i].Valid() {
      if i != turn.who {
        StaysValid(pipelines[i], disk, primary, old(Common(disk, primary)), old(pipelines[i].sink.spool.refused));
      }
    }
  }

  method ActWorker(pipelines: seq<Pipeline.Pipeline>, workers: seq<ReplayWorker>, disk: Disk, primary: Primary,
                   turn: Turn,
                   held: Held) returns (now: Held)
    requires Fleet(pipelines, workers, disk, primary) && turn.who < |workers| && ClaimOk(held, After(disk.log))
    modifies disk, primary, workers[turn.who].spool
    ensures Fleet(pipelines, workers, disk, primary) && ClaimOk(now, After(disk.log))
    ensures Onward(old(Common(disk, primary)), Common(disk, primary))
    ensures After(disk.log).offered == After(old(disk.log)).offered
  {
    now := WorkerTurn(workers[turn.who], turn, held);
    forall i | 0 <= i < |pipelines| ensures pipelines[i].Valid() {
      StaysValid(pipelines[i], disk, primary, old(Common(disk, primary)), old(pipelines[i].sink.spool.refused));
    }
  }

  ghost predicate AllFound(p: Pipeline.Pipeline)
    requires p.sink != null
    reads p, p.Parts()
  {
    forall e :: e in p.accepted ==> Found(e, p) && Somewhere(e, p)
  }

  // Pipelines enqueue, take, attempt and close, and workers claim, send, settle and inspect, in any
  // order and with any calls failing. After every run each accepted event is in a queue or in a batch
  // in hand, was written, is answered for by the spool, or was refused twice by everything, provided
  // that the events given are told apart by their ids.
  method Run(pipelines: seq<Pipeline.Pipeline>, workers: seq<ReplayWorker>, disk: Disk, primary: Primary,
             turns: seq<Turn>,
             ghost given: set<Event>)
    requires Fleet(pipelines, workers, disk, primary) && AllGiven(pipelines, given)
    requires forall t :: t in turns && t.Enqueue? ==> t.event in given
    modifies disk, primary, Objects(pipelines, workers)
    ensures Fleet(pipelines, workers, disk, primary) && AllGiven(pipelines, given)
    ensures Onward(old(Common(disk, primary)), Common(disk, primary))
    ensures forall i :: 0 <= i < |pipelines| ==> old(pipelines[i].accepted) <= pipelines[i].accepted
    ensures After(disk.log).offered <= After(old(disk.log)).offered + Forms(given)
    ensures DistinctlyNamed(After(old(disk.log)).offered + Forms(given)) ==>
              forall i :: 0 <= i < |pipelines| ==> AllFound(pipelines[i])
    // on a directory that nothing was stored in before, different ids of the given events are enough
    ensures After(old(disk.log)).offered == {} && DistinctlyNamed(given) ==>
              forall i :: 0 <= i < |pipelines| ==> AllFound(pipelines[i])
  {
    RunTurns(pipelines, workers, disk, primary, turns, given);
    ghost var all := After(old(disk.log)).offered + Forms(given);
    if After(old(disk.log)).offered == {} && DistinctlyNamed(given) {
      FormsNamed(given);
      assert all == Forms(given);
    }
    if DistinctlyNamed(all) {
      FewerNames(After(disk.log).offered, all);
      forall i, e | 0 <= i < |pipelines| && e in pipelines[i].accepted
        ensures Found(e, pipelines[i]) && Somewhere(e, pipelines[i])
      {
        Conserved(pipelines[i], e);
        FoundMeans(e, pipelines[i]);
      }
    }
  }

  method RunTurns(pipelines: seq<Pipeline.Pipeline>, workers: seq<ReplayWorker>, disk: Disk, primary: Primary,
                  turns: seq<Turn>, ghost given: set<Event>)
    requires Fleet(pipelines, workers, disk, primary) && AllGiven(pipelines, given)
    requires forall t :: t in turns && t.Enqueue? ==> t.event in given
    modifies disk, primary, Objects(pipelines, workers)
    ensures Fleet(pipelines, workers, disk, primary) && AllGiven(pipelines, given)
    ensures Onward(old(Common(disk, primary)), Common(disk, primary))
    ensures forall i :: 0 <= i < |pipelines| ==> old(pipelines[i].accepted) <= pipelines[i].accepted
    ensures After(disk.log).offered <= After(old(disk.log)).offered + Forms(given)
  {
    ghost var start, offered := Common(disk, primary), After(disk.log).offered;
    var held := seq(|workers|, i => Held([], Unsent));
    for n := 0 to |turns|
      invariant Fleet(pipelines, workers, disk, primary) && AllGiven(pipelines, given)
      invariant Onward(start, Common(disk, primary)) && After(disk.log).offered <= offered + Forms(given)
      invariant forall i :: 0 <= i < |pipelines| ==> old(pipelines[i].accepted) <= pipelines[i].accepted
      invariant |held| == |workers| && AllClaims(held, After(disk.log))
    {
      assert turns[n] in turns;
      ghost var common := Common(disk, primary);
      held := OneTurn(pipelines, workers, disk, primary, turns[n], held, given);
      OnwardOn(start, common, Common(disk, primary));
    }
  }

  method OneTurn(pipelines: seq<Pipeline.Pipeline>, workers: seq<ReplayWorker>, disk: Disk, primary: Primary,
                 turn: Turn,
                 held: seq<Held>, ghost given: set<Event>) returns (next: seq<Held>)
    requires Fleet(pipelines, workers, disk, primary) && AllGiven(pipelines, given)
    requires turn.Enqueue? ==> turn.event in given
    requires |held| == |workers| && AllClaims(held, After(disk.log))
    modifies disk, primary, Objects(pipelines, workers)
    ensures Fleet(pipelines, workers, disk, primary) && AllGiven(pipelines, given)
    ensures Onward(old(Common(disk, primary)), Common(disk, primary))
    ensures After(disk.log).offered <= After(old(disk.log)).offered + Forms(given)
    ensures forall i :: 0 <= i < |pipelines| ==> old(pipelines[i].accepted) <= pipelines[i].accepted
    ensures |next| == |workers| && AllClaims(next, After(disk.log))
  {
    next := held;
    if OfPipeline(turn) && turn.who < |pipelines| {
      ghost var log := disk.log;
      ActPipeline(pipelines, workers, disk, primary, turn, given);
      AllClaimsLater(held, log, disk.log);
    } else if !OfPipeline(turn) && turn.who < |workers| {
      next := WorkersTurn(pipelines, workers, disk, primary, turn, held, given);
    } else {
      OnwardSelf(Common(disk, primary));
    }
  }

  method WorkersTurn(pipelines: seq<Pipeline.Pipeline>, workers: seq<ReplayWorker>, disk: Disk, primary: Primary,
                     turn: Turn,
                     held: seq<Held>, ghost given: set<Event>) returns (next: seq<Held>)
    requires Fleet(pipelines, workers, disk, primary) && turn.who < |workers| && AllGiven(pipelines, given)
    requires |held| == |workers| && AllClaims(held, After(disk.log))
    modifies disk, primary, workers[turn.who].spool
    ensures Fleet(pipelines, workers, disk, primary) && AllGiven(pipelines, given)
    ensures forall i :: 0 <= i < |pipelines| ==> pipelines[i].accepted == old(pipelines[i].accepted)
    ensures Onward(old(Common(disk, primary)), Common(disk, primary))
    ensures After(disk.log).offered == After(old(disk.log)).offered
    ensures |next| == |workers| && AllClaims(next, After(disk.log))
  {
    ghost var log := disk.log;
    assert ClaimOk(held[turn.who], After(disk.log));
    var now := ActWorker(pipelines, workers, disk, primary, turn, held[turn.who]);
    ClaimsLater(held, turn.who, now, log, disk.log);
    next := held[turn.who := now];
  }

  // One process: a pipeline and a replay worker on one primary sink and one spool.
  method Launch(accepts: nat -> bool, fails: nat -> bool, clock: nat -> int, size: Record -> nat, maxBytes: int,
                maxAge: int)
    returns (pipeline: Pipeline.Pipeline, worker: ReplayWorker, disk: Disk, primary: Primary)
    requires maxBytes > 0
    ensures Fleet([pipeline], [worker], disk, primary)
    ensures pipeline.accepted == [] && After(disk.log).offered == {}
  {
    disk := new Disk(fails, clock, size);
    primary := new Primary(accepts);
    var spool := new FileSpool.FileSpool(disk, maxBytes, maxAge, 0, 1);
    pipeline, worker := Attach(spool, primary);
  }

  method Attach(spool: FileSpool.FileSpool, primary: Primary)
    returns (pipeline: Pipeline.Pipeline, worker: ReplayWorker)
    requires spool.Valid() && Linked(spool.disk, primary)
    ensures Fleet([pipeline], [worker], spool.disk, primary) && pipeline.accepted == []
  {
    var sink := new DurableSink(primary, spool);
    pipeline := new Pipeline.Pipeline(0, 0, sink);
    worker := new ReplayWorker(primary, spool, 0);
  }
}
