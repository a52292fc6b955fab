/** Replaying the spool, alone and among any number of other processes:
    internal/contexts/traffic/adapters/events/durable_sink.go:64-153. */
module Replay {
  import opened Lists
  import opened Options
  import opened Sorting
  import opened Events
  import opened SpoolLog
  import opened SpoolDisk
  import opened SpoolSpec
  import opened FileSpool
  import opened Delivery

  // What the primary sink is sent for a claimed record.
  function Replayed(e: SpooledEvent): Event {
    e.event.(spoolStatus := "replayed", retryCount := (e.retryCount + 1) % 65536)
  }

  function ReplayedAll(batch: seq<SpooledEvent>): (r: seq<Event>)
    ensures |r| == |batch| && forall i :: 0 <= i < |r| ==> r[i] == Replayed(batch[i])
  {
    if batch == [] then [] else ReplayedAll(batch[..|batch| - 1]) + [Replayed(batch[|batch| - 1])]
  }

  // The event as it was stored, marked replayed and with its number of attempts.
  predicate ReplayOf(sent: Event, r: Record) {
    && sent.eventId == r.event.eventId && sent.body == r.event.body && sent.sinkStatus == r.event.sinkStatus
    && sent.spoolStatus == "replayed"
    && (r.retryCount < 65535 ==> sent.retryCount == r.retryCount + 1)
    && (r.retryCount == 65535 ==> sent.retryCount == 0)
  }

  // What is sent for a batch, said of the records it claims.
  lemma {:induction false} SentExactly(settled: Dir, ids: seq<string>, pid: nat, sequence: nat,
                                       batch: seq<SpooledEvent>, i: nat)
    requires BatchOf(batch, settled, ids, pid, sequence) && i < |ids|
    ensures |ReplayedAll(batch)| == |ids| && Committed(ids[i]) in settled
    ensures ReplayOf(ReplayedAll(batch)[i], settled[Committed(ids[i])].record)
  {
    BatchExactly(settled, ids, pid, sequence, batch, i);
  }

  function Items(batch: seq<SpooledEvent>): set<Item> {
    set i | 0 <= i < |batch| :: Item(batch[i].id, batch[i].event)
  }

  lemma {:induction false} ItemsDelivered(batch: seq<SpooledEvent>, item: Item)
    requires item in Items(batch)
    ensures Core(item.event) in Cores(ReplayedAll(batch))
  {
    var i :| 0 <= i < |batch| && Item(batch[i].id, batch[i].event) == item;
    CoresMembers(ReplayedAll(batch), Core(item.event));
    assert Core(ReplayedAll(batch)[i]) == Core(item.event);
  }

  // The claims of a batch are named by its records.
  ghost predicate OwnClaims(batch: seq<SpooledEvent>) {
    forall i :: 0 <= i < |batch| ==>
        batch[i].path.Some? && batch[i].path.value.Claimed? && batch[i].path.value.id == batch[i].id
  }

  lemma {:induction false} BatchOwnsClaims(batch: seq<SpooledEvent>, files: Dir, ids: seq<string>, pid: nat,
                                           sequence: nat)
    requires NamedByRecord(files) && BatchOf(batch, files, ids, pid, sequence)
    ensures OwnClaims(batch)
  {
    forall i | 0 <= i < |batch|
      ensures batch[i].path.Some? && batch[i].path.value.Claimed? && batch[i].path.value.id == batch[i].id
    {
      assert Committed(ids[i]) in files;
    }
  }

  const WRITE_FAILED: string := "write failed"

  // What became of a claimed batch that was sent. Sent and acknowledged; sent, but a file call
  // failed; refused and back in the spool; refused, and the spool could not take it back.
  datatype Settlement = Acked | AckFailed | Returned(times: seq<int>) | ReturnFailed(times: seq<int>)

  predicate Received(how: Settlement) { how.Acked? || how.AckFailed? }

  // Some claim was no longer there when its turn came.
  ghost predicate ClaimGone(files: Dir, batch: seq<SpooledEvent>, times: seq<int>) {
    && |times| < |batch| && batch[|times|].path.Some?
    && batch[|times|].path.value !in FailAll(files, batch[..|times|], WRITE_FAILED, times)
  }

  // One replay attempt: no claim could be taken, none was waiting, or a batch was sent.
  datatype Round = NoClaim | NothingWaiting(settled: Dir)
                 | Sent(settled: Dir, ids: seq<string>, batch: seq<SpooledEvent>, how: Settlement)

  // The directory after recovery and, with a maximal age, the purge.
  ghost predicate SettledFrom(before: Dir, settled: Dir, purge: bool) {
    exists staleCutoff, ageCutoff :: Settled(before, settled, staleCutoff, purge, ageCutoff)
  }

  lemma {:induction false} NothingClaimed(files: Dir, ids: seq<string>, limit: int)
    requires IsFront(ids, files, limit) && ids == []
    ensures CommittedIds(files) == {}
  {
    var all :| Sorted(all, IdLess) && Distinct(all) && (forall id :: id in all <==> Committed(id) in files)
               && ids == if |all| > limit > 0 then all[..limit] else all;
    assert all == [];
    forall id ensures id !in CommittedIds(files) {
      assert id in CommittedIds(files) <==> Committed(id) in files;
    }
  }

  // Acknowledging the front takes exactly its records out of the directory.
  lemma {:induction false} AckedAway(settled: Dir, ids: seq<string>, pid: nat, sequence: nat,
                                     batch: seq<SpooledEvent>, after: Dir)
    requires Waiting(settled, ids) && OwnClaims(batch)
    requires after == ClaimAll(settled, ids, pid, sequence) - Paths(batch)
    ensures CommittedIds(after) == CommittedIds(settled) - set id | id in ids
    ensures forall i :: 0 <= i < |batch| ==> batch[i].path.value !in after
  {
    assert ids[..|ids|] == ids;
    ClaimAllExact(settled, ids, |ids|, pid, sequence);
    var mid := ClaimAll(settled, ids, pid, sequence);
    PathsExactly(batch);
    forall i | 0 <= i < |batch| ensures batch[i].path.value !in after {
      assert batch[i] in batch && Holds(batch, batch[i].path.value);
    }
    forall id ensures Committed(id) in after <==> Committed(id) in settled && id !in ids {
      FirstsMembers(ids, |ids|, id);
      assert Committed(id) !in Paths(batch);
    }
    forall id ensures id in CommittedIds(after) <==> id in CommittedIds(settled) && id !in ids {
      assert id in CommittedIds(after) <==> Committed(id) in after;
      assert id in CommittedIds(settled) <==> Committed(id) in settled;
    }
  }

  // None of the batch's claims is left.
  ghost predicate ClaimsGone(batch: seq<SpooledEvent>, files: Dir) {
    forall i :: 0 <= i < |batch| ==> batch[i].path.Some? && batch[i].path.value !in files
  }

  lemma {:induction false} FailedClaimsGone(settled: Dir, ids: seq<string>, pid: nat, sequence: nat,
                                            batch: seq<SpooledEvent>, times: seq<int>)
    requires NamedByRecord(settled) && Waiting(settled, ids) && BatchOf(batch, settled, ids, pid, sequence)
    requires |times| == |batch|
    ensures ClaimsGone(batch, FailAll(ClaimAll(settled, ids, pid, sequence), batch, WRITE_FAILED, times))
  {
    if |ids| > 0 {
      FailedExactly(settled, ids, pid, sequence, batch, WRITE_FAILED, times, ids[0]);
    }
  }

  class ReplayWorker {
    const primary: Primary
    const spool: FileSpool
    const batchSize: int

    constructor (primary: Primary, spool: FileSpool, batchSize: int)
      ensures this.primary == primary && this.spool == spool
      ensures this.batchSize == if batchSize <= 0 then 100 else batchSize
    {
      this.primary, this.spool := primary, spool;
      this.batchSize := if batchSize <= 0 then 100 else batchSize;
    }

    ghost predicate Valid()
      reads primary, spool, spool.disk
    {
      spool.Valid() && Linked(spool.disk, primary)
    }

    twostate predicate Forward()
      reads primary, spool, spool.disk
    {
      && Valid() && old(primary.delivered) <= primary.delivered && old(primary.refused) <= primary.refused
      && old(spool.disk.log) <= spool.disk.log && old(spool.disk.failures) <= spool.disk.failures
      && old(spool.disk.calls) <= spool.disk.calls && spool.disk.ages == old(spool.disk.ages)
      && spool.refused == old(spool.refused)
      && After(spool.disk.log).offered == After(old(spool.disk.log)).offered
      && After(old(spool.disk.log)).accepted <= After(spool.disk.log).accepted
    }

    method Claim() returns (batch: Option<seq<SpooledEvent>>, ghost settled: Dir, ghost ids: seq<string>)
      requires Valid()
      modifies spool, spool.disk
      ensures Forward() && spool.sequence >= old(spool.sequence)
      ensures batch.Some? ==>
                && OwnClaims(batch.value) && AllPublished(batch.value, After(spool.disk.log))
                && SettledFrom(old(spool.disk.files), settled, spool.maxAge > 0)
                && ClaimsFront(settled, spool.disk.files, ids, if batchSize <= 0 then 1 else batchSize,
                               batch.value, spool.pid, old(spool.sequence))
      ensures batch.None? ==> spool.disk.failures > old(spool.disk.failures)
    {
      ghost var o;
      batch, o, ids := spool.NextBatch(batchSize);
      settled := o.settled;
      if batch.Some? {
        BatchOwnsClaims(batch.value, o.settled, ids, spool.pid, old(spool.sequence));
        assert Settled(old(spool.disk.files), settled, o.staleCutoff, spool.maxAge > 0, o.ageCutoff);
      }
    }

    // Sends a claimed batch and settles it. The claims may be long gone: other processes have had
    // the directory since.
    method SettleBatch(batch: seq<SpooledEvent>) returns (ok: bool, ghost how: Settlement)
      requires Valid() && OwnClaims(batch) && AllPublished(batch, After(spool.disk.log))
      modifies primary, spool, spool.disk
      ensures Forward() && (ok <==> how.Acked?)
      ensures primary.delivered == old(primary.delivered) + (if Received(how) then [ReplayedAll(batch)] else [])
      ensures primary.refused == old(primary.refused) + (if Received(how) then [] else [ReplayedAll(batch)])
      ensures how.Acked? ==> spool.disk.files == old(spool.disk.files) - Paths(batch)
      ensures how.AckFailed? ==> spool.disk.failures > old(spool.disk.failures)
      ensures how.Returned? ==>
                |how.times| == |batch|
                && spool.disk.files == FailAll(old(spool.disk.files), batch, WRITE_FAILED, how.times)
      ensures how.ReturnFailed? ==>
                spool.disk.failures > old(spool.disk.failures) || ClaimGone(old(spool.disk.files), batch, how.times)
    {
      var events := Decode(batch);
      ok := Send(batch, events);
      if ok {
        ok := spool.Ack(batch);
        how := if ok then Acked else AckFailed;
      } else {
        ghost var times;
        var recorded;
        recorded, times := spool.RecordFailure(batch, WRITE_FAILED);
        how := if recorded then Returned(times) else ReturnFailed(times);
      }
    }

    method Decode(batch: seq<SpooledEvent>) returns (events: seq<Event>)
      ensures events == ReplayedAll(batch)
    {
      events := [];
      for i := 0 to |batch|
        invariant events == ReplayedAll(batch[..i])
      {
        assert batch[..i + 1][..i] == batch[..i];
        events := events + [Replayed(batch[i])];
      }
      assert batch[..|batch|] == batch;
    }

    // Writes to the primary sink and notes what it accepted.
    method Send(batch: seq<SpooledEvent>, events: seq<Event>) returns (ok: bool)
      requires Valid() && OwnClaims(batch) && AllPublished(batch, After(spool.disk.log)) && events == ReplayedAll(batch)
      modifies primary, spool.disk`log
      ensures Forward()
      ensures primary.delivered == old(primary.delivered) + (if ok then [events] else [])
      ensures primary.refused == old(primary.refused) + (if ok then [] else [events])
      ensures ok ==> forall e :: e in batch ==>
                exists a :: a in After(spool.disk.log).accepted && a.id == e.path.value.id
    {
      ghost var before := primary.delivered;
      ok := primary.WriteBatch(events);
      if ok {
        DeliveredSnoc(before, events);
        NoteAccepted(batch);
      }
    }

    ghost method NoteAccepted(batch: seq<SpooledEvent>)
      requires spool.Valid() && AllPublished(batch, After(spool.disk.log)) && OwnClaims(batch)
      requires primary.delivered != [] && primary.delivered[|primary.delivered| - 1] == ReplayedAll(batch)
      requires forall item :: item in After(spool.disk.log).accepted ==>
                 Core(item.event) in DeliveredCores(primary.delivered)
      modifies spool.disk`log
      ensures Valid() && old(spool.disk.log) <= spool.disk.log
      ensures After(spool.disk.log).offered == After(old(spool.disk.log)).offered
      ensures After(old(spool.disk.log)).accepted <= After(spool.disk.log).accepted
      ensures forall e :: e in batch ==> exists a :: a in After(spool.disk.log).accepted && a.id == e.path.value.id
    {
      spool.disk.Accepted(Items(batch));
      forall item | item in Items(batch) ensures Core(item.event) in DeliveredCores(primary.delivered) {
        ItemsDelivered(batch, item);
      }
      forall e | e in batch ensures exists a :: a in After(spool.disk.log).accepted && a.id == e.path.value.id {
        var i :| 0 <= i < |batch| && batch[i] == e;
        assert Item(batch[i].id, batch[i].event) in Items(batch);
      }
    }

    // Claims the records that have waited longest, sends them, and takes them out of the directory
    // or puts them back as they were.
    method ReplayOnce() returns (ok: bool, ghost r: Round)
      requires Valid()
      modifies primary, spool, spool.disk
      ensures Forward() && (ok <==> r.NothingWaiting? || (r.Sent? && r.how.Acked?))
      ensures r.NoClaim? ==> spool.disk.failures > old(spool.disk.failures)
      ensures !r.Sent? ==> primary.delivered == old(primary.delivered) && primary.refused == old(primary.refused)
      ensures r.NothingWaiting? ==> SettledFrom(old(spool.disk.files), r.settled, spool.maxAge > 0)
                                    && CommittedIds(r.settled) == {}
      ensures r.Sent? ==>
                && SettledFrom(old(spool.disk.files), r.settled, spool.maxAge > 0) && r.batch != []
                && IsFront(r.ids, r.settled, if batchSize <= 0 then 1 else batchSize)
                && (AllInRange(r.settled) ==> OldestFirst(r.ids, r.settled))
                && BatchOf(r.batch, r.settled, r.ids, spool.pid, old(spool.sequence))
                && primary.delivered == old(primary.delivered)
                     + (if Received(r.how) then [ReplayedAll(r.batch)] else [])
                && primary.refused == old(primary.refused) + (if Received(r.how) then [] else [ReplayedAll(r.batch)])
      ensures r.Sent? && r.how.Acked? ==>
                && CommittedIds(spool.disk.files) == CommittedIds(r.settled) - (set id | id in r.ids)
                && ClaimsGone(r.batch, spool.disk.files)
      ensures r.Sent? && r.how.Returned? ==>
                && CommittedIds(spool.disk.files) == CommittedIds(r.settled)
                && ClaimsGone(r.batch, spool.disk.files)
      ensures r.Sent? && r.how.AckFailed? ==> spool.disk.failures > old(spool.disk.failures)
    {
      ghost var sequence := spool.sequence;
      var batch, settled, ids := Claim();
      if batch.None? {
        return false, NoClaim;
      }
      if |batch.value| == 0 {
        NothingClaimed(settled, ids, if batchSize <= 0 then 1 else batchSize);
        return true, NothingWaiting(settled);
      }
      ghost var how;
      ok, how := SettleBatch(batch.value);
      r := Sent(settled, ids, batch.value, how);
      RoundExact(settled, ids, spool.pid, sequence, batch.value, how, spool.disk.files);
    }
  }

  lemma {:induction false} RoundExact(settled: Dir, ids: seq<string>, pid: nat, sequence: nat,
                                      batch: seq<SpooledEvent>, how: Settlement, after: Dir)
    requires NamedByRecord(settled) && Waiting(settled, ids) && BatchOf(batch, settled, ids, pid, sequence)
    requires OwnClaims(batch)
    requires how.Acked? ==> after == ClaimAll(settled, ids, pid, sequence) - Paths(batch)
    requires how.Returned? ==>
               |how.times| == |batch|
               && after == FailAll(ClaimAll(settled, ids, pid, sequence), batch, WRITE_FAILED, how.times)
    ensures how.Acked? ==> CommittedIds(after) == CommittedIds(settled) - set id | id in ids
    ensures how.Returned? ==> CommittedIds(after) == CommittedIds(settled)
    ensures how.Acked? || how.Returned? ==> ClaimsGone(batch, after)
  {
    if how.Acked? {
      AckedAway(settled, ids, pid, sequence, batch, after);
    } else if how.Returned? {
      FailedKeepTheirPlace(settled, ids, pid, sequence, batch, WRITE_FAILED, how.times);
      FailedClaimsGone(settled, ids, pid, sequence, batch, how.times);
    }
  }

  // An event is in a file, or the primary sink has received it, or its record was purged when a
  // reading of the clock showed that it had reached a positive maximal age of one of the spools.
  ghost predicate AnsweredBy(disk: Disk, primary: Primary, item: Item)
    reads disk, primary
  {
    || (exists name :: name in disk.files && !name.Temp? && ItemOf(disk.files[name].record) == item)
    || Core(item.event) in DeliveredCores(primary.delivered)
    || (exists p :: p in After(disk.log).expired && ItemOf(p.record) == item
                    && p.age > 0 && p.age in disk.ages && p.call < disk.calls
                    && p.record.createdAt <= disk.clock(p.call) - p.age)
  }

  // Whatever has happened to the directory, no event once committed is lost, provided that the
  // events handed over are told apart by their ids.
  lemma {:induction false} AtLeastOnce(disk: Disk, primary: Primary, item: Item)
    requires disk.Valid() && Linked(disk, primary) && DistinctlyNamed(After(disk.log).offered)
    requires item in After(disk.log).published
    ensures AnsweredBy(disk, primary, item)
  {
    NoLoss(disk.log);
    assert Answered(After(disk.log), item);
    if p :| p in After(disk.log).expired && ItemOf(p.record) == item && Aged(p) {
      assert p.now == disk.clock(p.call);
    }
  }

  // ----- many processes -----

  // One turn of some process. A claimed batch is settled in a later turn, or never.
  datatype Turn = Store(who: nat, events: seq<Event>) | Fetch(who: nat) | Finish(who: nat) | Inspect(who: nat)

  ghost predicate Together(workers: seq<ReplayWorker>, disk: Disk, primary: Primary)
    reads disk
    reads set i | 0 <= i < |workers| :: workers[i].spool
  {
    && disk.Valid()
    && (forall i :: 0 <= i < |workers| ==>
          && workers[i].spool.disk == disk && workers[i].primary == primary
          && workers[i].spool.claimTimeout > 0 && workers[i].spool.maxAge in disk.ages)
  }

  function Given(turn: Turn): set<Event> {
    if turn.Store? then set e | e in turn.events else {}
  }

  // The events that these turns are asked to store.
  function AllGiven(turns: seq<Turn>): set<Event> {
    if turns == [] then {} else AllGiven(turns[..|turns| - 1]) + Given(turns[|turns| - 1])
  }

  // Processes take turns at the directory in any order, each holding the batch it last claimed; any
  // call may fail and any process may stop. No event once committed is lost if the events given to
  // the spools have different ids.
  method Interleave(workers: seq<ReplayWorker>, disk: Disk, primary: Primary, turns: seq<Turn>)
    requires Together(workers, disk, primary) && Linked(disk, primary)
    modifies disk, primary, set i | 0 <= i < |workers| :: workers[i].spool
    ensures disk.Valid() && Linked(disk, primary)
    ensures old(disk.log) <= disk.log && old(primary.delivered) <= primary.delivered
    ensures After(disk.log).offered <= After(old(disk.log)).offered + AllGiven(turns)
    ensures DistinctlyNamed(After(old(disk.log)).offered + AllGiven(turns)) ==>
              forall item :: item in After(disk.log).published ==> AnsweredBy(disk, primary, item)
  {
    TurnByTurn(workers, disk, primary, turns);
    ghost var given := After(old(disk.log)).offered + AllGiven(turns);
    if DistinctlyNamed(given) {
      FewerNames(After(disk.log).offered, given);
      forall item | item in After(disk.log).published ensures AnsweredBy(disk, primary, item) {
        AtLeastOnce(disk, primary, item);
      }
    }
  }

  lemma {:induction false} FewerNames(some: set<Event>, all: set<Event>)
    requires some <= all && DistinctlyNamed(all)
    ensures DistinctlyNamed(some)
  {
  }

  method TurnByTurn(workers: seq<ReplayWorker>, disk: Disk, primary: Primary, turns: seq<Turn>)
    requires Together(workers, disk, primary) && Linked(disk, primary)
    modifies disk, primary, set i | 0 <= i < |workers| :: workers[i].spool
    ensures disk.Valid() && Linked(disk, primary)
    ensures old(disk.log) <= disk.log && old(primary.delivered) <= primary.delivered
    ensures After(disk.log).offered <= After(old(disk.log)).offered + AllGiven(turns)
  {
    ghost var offered := After(disk.log).offered;
    var held := seq(|workers|, i => []);
    for i := 0 to |turns|
      invariant Together(workers, disk, primary) && Linked(disk, primary)
      invariant old(disk.log) <= disk.log && old(primary.delivered) <= primary.delivered
      invariant After(disk.log).offered <= offered + AllGiven(turns[..i])
      invariant |held| == |workers|
      invariant forall k :: 0 <= k < |held| ==> OwnClaims(held[k]) && AllPublished(held[k], After(disk.log))
    {
      GivenSnoc(turns, i);
      var who := turns[i].who;
      if who >= |workers| {
        continue;
      }
      var hand := TakeTurn(workers, disk, primary, turns[i], held);
      held := held[who := hand];
    }
    assert turns[..|turns|] == turns;
  }

  lemma {:induction false} GivenSnoc(turns: seq<Turn>, i: nat)
    requires i < |turns|
    ensures AllGiven(turns[..i + 1]) == AllGiven(turns[..i]) + Given(turns[i])
  {
    assert turns[..i + 1][..i] == turns[..i];
  }

  method TakeTurn(workers: seq<ReplayWorker>, disk: Disk, primary: Primary, turn: Turn, held: seq<seq<SpooledEvent>>)
    returns (hand: seq<SpooledEvent>)
    requires Together(workers, disk, primary) && Linked(disk, primary)
    requires |held| == |workers| && turn.who < |workers|
    requires forall k :: 0 <= k < |held| ==> OwnClaims(held[k]) && AllPublished(held[k], After(disk.log))
    modifies disk, primary, workers[turn.who].spool
    ensures Together(workers, disk, primary) && Linked(disk, primary)
    ensures old(disk.log) <= disk.log && old(primary.delivered) <= primary.delivered
    ensures After(disk.log).offered == After(old(disk.log)).offered + Given(turn)
    ensures OwnClaims(hand) && AllPublished(hand, After(disk.log))
    ensures forall k :: 0 <= k < |held| ==> OwnClaims(held[k]) && AllPublished(held[k], After(disk.log))
  {
    ghost var log := disk.log;
    hand := Act(workers[turn.who], turn, held[turn.who]);
    HistoryGrows(log, disk.log);
  }

  method Act(worker: ReplayWorker, turn: Turn, held: seq<SpooledEvent>) returns (hand: seq<SpooledEvent>)
    requires worker.Valid() && OwnClaims(held) && AllPublished(held, After(worker.spool.disk.log))
    modifies worker.spool.disk, worker.primary, worker.spool
    ensures worker.Valid() && worker.spool.disk.ages == old(worker.spool.disk.ages)
    ensures old(worker.spool.disk.log) <= worker.spool.disk.log
            && old(worker.primary.delivered) <= worker.primary.delivered
    ensures After(worker.spool.disk.log).offered == After(old(worker.spool.disk.log)).offered + Given(turn)
    ensures OwnClaims(hand) && AllPublished(hand, After(worker.spool.disk.log))
  {
    ghost var log := worker.spool.disk.log;
    hand := held;
    match turn {
      case Store(_, events) =>
        var r, o, records := worker.spool.Append(events);
      case Fetch(_) =>
        var batch, settled, ids := worker.Claim();
        if batch.Some? {
          hand := batch.value;
        }
      case Finish(_) =>
        if |held| > 0 {
          var ok, how := worker.SettleBatch(held);
        }
        hand := [];
      case Inspect(_) =>
        var s := worker.spool.Stats();
    }
    HistoryGrows(log, worker.spool.disk.log);
  }
}
