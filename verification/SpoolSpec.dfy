/** What the operations of the file spool do to the directory when no call fails:
    internal/contexts/traffic/adapters/events/spool*.go. */
module SpoolSpec {
  import opened Lists
  import opened Sorting
  import opened Options
  import opened Events
  import opened SpoolNames
  import opened SpoolLog
  import opened SpoolDisk

  datatype SpooledEvent = SpooledEvent(id: string, path: Option<Name>, event: Event, createdAt: int,
                                       retryCount: nat, lastError: string)

  function CommittedIds(files: Dir): set<string> {
    set n | n in files && n.Committed? :: n.id
  }

  ghost predicate NamedByRecord(files: Dir) {
    forall n :: n in files && !n.Temp? ==> files[n].record.id == n.id
  }

  // ----- recovering stale claims -----

  // Staleness is the age of the last write, whenever the claim was taken.
  predicate Stale(files: Dir, name: Name, cutoff: int) {
    name in files && name.Claimed? && files[name].written <= cutoff
  }

  function RecoverOne(files: Dir, name: Name, cutoff: int): Dir {
    if !Stale(files, name, cutoff) then files
    else if Committed(name.id) in files then files - {name}
    else Moved(files, name, Committed(name.id))
  }

  function RecoverAll(files: Dir, names: seq<Name>, cutoff: int): Dir {
    if names == [] then files
    else RecoverOne(RecoverAll(files, names[..|names| - 1], cutoff), names[|names| - 1], cutoff)
  }

  // The result whatever the order of the directory: stale claims go, their records are committed,
  // and nothing else changes.
  ghost predicate Recovered(before: Dir, after: Dir, cutoff: int) {
    && (forall n :: n in after && n.Claimed? ==> n in before && after[n] == before[n] && !Stale(before, n, cutoff))
    && (forall n :: n in before && !Stale(before, n, cutoff) ==> n in after && after[n] == before[n])
    && (forall n :: n in after && n.Temp? ==> n in before)
    && (forall n :: n in before && Stale(before, n, cutoff) ==> Committed(n.id) in after)
    && forall id :: Committed(id) in after && Committed(id) !in before ==>
         exists n :: Stale(before, n, cutoff) && n.id == id && after[Committed(id)] == before[n]
  }

  // Recovery has dealt with the first names and not touched the rest.
  ghost predicate PartlyRecovered(before: Dir, after: Dir, names: seq<Name>, cutoff: int) {
    && (forall n :: n in after && !n.Committed? ==>
         n in before && after[n] == before[n] && (n in names ==> !Stale(before, n, cutoff)))
    && (forall n :: n in before && (n !in names || !Stale(before, n, cutoff)) ==> n in after && after[n] == before[n])
    && (forall n :: n in names && Stale(before, n, cutoff) ==> Committed(n.id) in after)
    && forall id :: Committed(id) in after && Committed(id) !in before ==>
         exists n :: Stale(before, n, cutoff) && n.id == id && after[Committed(id)] == before[n]
  }

  lemma {:induction false} RecoverStep(before: Dir, mid: Dir, names: seq<Name>, name: Name, cutoff: int)
    requires PartlyRecovered(before, mid, names, cutoff) && name !in names
    ensures PartlyRecovered(before, RecoverOne(mid, name, cutoff), names + [name], cutoff)
  {
  }

  lemma {:induction false} RecoverPartly(files: Dir, names: seq<Name>, cutoff: int)
    requires Distinct(names)
    ensures PartlyRecovered(files, RecoverAll(files, names, cutoff), names, cutoff)
  {
    if names != [] {
      var front, last := names[..|names| - 1], names[|names| - 1];
      RecoverPartly(files, front, cutoff);
      RecoverStep(files, RecoverAll(files, front, cutoff), front, last, cutoff);
      assert names == front + [last];
    }
  }

  lemma {:induction false} RecoverAllExact(files: Dir, names: seq<Name>, cutoff: int)
    requires ListsAll(names, files)
    ensures Recovered(files, RecoverAll(files, names, cutoff), cutoff)
  {
    RecoverPartly(files, names, cutoff);
  }

  // ----- purging -----

  predicate TooOld(n: Name, f: File, cutoff: int) { n.Committed? && f.record.createdAt <= cutoff }

  function Purged(files: Dir, cutoff: int): Dir {
    map n | n in files && !TooOld(n, files[n], cutoff) :: files[n]
  }

  function PurgeOne(files: Dir, id: string, cutoff: int): Dir {
    if Committed(id) in files && TooOld(Committed(id), files[Committed(id)], cutoff)
    then files - {Committed(id)} else files
  }

  function PurgeAll(files: Dir, ids: seq<string>, cutoff: int): Dir {
    if ids == [] then files else PurgeOne(PurgeAll(files, ids[..|ids| - 1], cutoff), ids[|ids| - 1], cutoff)
  }

  lemma {:induction false} PurgePartly(files: Dir, ids: seq<string>, cutoff: int)
    ensures var after := PurgeAll(files, ids, cutoff);
            forall n :: (n in after <==> n in files && !(TooOld(n, files[n], cutoff) && n.id in ids))
                        && (n in after ==> after[n] == files[n])
  {
    if ids != [] {
      PurgePartly(files, ids[..|ids| - 1], cutoff);
      assert ids == ids[..|ids| - 1] + [ids[|ids| - 1]];
    }
  }

  lemma {:induction false} PurgeNext(files: Dir, ids: seq<string>, i: nat, cutoff: int)
    requires i < |ids| && Distinct(ids) && Committed(ids[i]) in files
    ensures Committed(ids[i]) in PurgeAll(files, ids[..i], cutoff)
    ensures PurgeAll(files, ids[..i + 1], cutoff) == PurgeOne(PurgeAll(files, ids[..i], cutoff), ids[i], cutoff)
    ensures Thinned(files, PurgeAll(files, ids[..i], cutoff), cutoff)
  {
    assert ids[..i + 1][..i] == ids[..i];
    PurgePartly(files, ids[..i], cutoff);
    assert ids[i] !in ids[..i];
  }

  lemma {:induction false} PurgeAllExact(files: Dir, ids: seq<string>, cutoff: int)
    requires forall id :: id in ids <==> Committed(id) in files
    ensures PurgeAll(files, ids, cutoff) == Purged(files, cutoff)
  {
    PurgePartly(files, ids, cutoff);
  }

  // Some of the files that are too old have gone, and no other.
  ghost predicate Thinned(before: Dir, after: Dir, cutoff: int) {
    && (forall n :: n in after ==> n in before && after[n] == before[n])
    && (forall n :: n in before && n !in after ==> TooOld(n, before[n], cutoff))
  }

  // Recovery and then, with a maximal age, the purge.
  ghost predicate Settled(before: Dir, after: Dir, staleCutoff: int, purge: bool, ageCutoff: int) {
    exists mid :: Recovered(before, mid, staleCutoff) && after == (if purge then Purged(mid, ageCutoff) else mid)
  }

  // What recovery and purge leave, record by record: a committed record was committed or stood in a claim
  // last written at or before the one cutoff, and is younger than the other; claims written later stay.
  ghost predicate SettledShows(before: Dir, settled: Dir, staleCutoff: int, purge: bool, ageCutoff: int) {
    && (forall id :: Committed(id) in settled ==>
          && (purge ==> settled[Committed(id)].record.createdAt > ageCutoff)
          && exists n :: n in before && !n.Temp? && n.id == id && settled[Committed(id)] == before[n]
                         && (n.Claimed? ==> before[n].written <= staleCutoff))
    && (forall id :: Committed(id) in before && (purge ==> before[Committed(id)].record.createdAt > ageCutoff) ==>
          Committed(id) in settled && settled[Committed(id)] == before[Committed(id)])
    && (forall n :: n in before && n.Claimed? ==>
          if before[n].written > staleCutoff then n in settled && settled[n] == before[n]
          else n !in settled && (!purge ==> Committed(n.id) in settled))
    && (forall n :: n in settled && !n.Committed? ==> n in before && settled[n] == before[n])
  }

  lemma {:induction false} SettledExactly(before: Dir, settled: Dir, staleCutoff: int, purge: bool, ageCutoff: int)
    requires Settled(before, settled, staleCutoff, purge, ageCutoff)
    ensures SettledShows(before, settled, staleCutoff, purge, ageCutoff)
  {
    var mid :| Recovered(before, mid, staleCutoff) && settled == (if purge then Purged(mid, ageCutoff) else mid);
    forall id | Committed(id) in settled
      ensures exists n :: n in before && !n.Temp? && n.id == id && settled[Committed(id)] == before[n]
                          && (n.Claimed? ==> before[n].written <= staleCutoff)
    {
      if Committed(id) in before {
        assert !Stale(before, Committed(id), staleCutoff);
      } else {
        var n :| Stale(before, n, staleCutoff) && n.id == id && mid[Committed(id)] == before[n];
      }
    }
    forall n | n in before && !Stale(before, n, staleCutoff) ensures n in mid && mid[n] == before[n] {}
  }

  // ----- sizes -----

  function Firsts(ids: seq<string>, k: nat): set<string>
    requires k <= |ids|
  {
    if k == 0 then {} else Firsts(ids, k - 1) + {ids[k - 1]}
  }

  lemma {:induction false} FirstsMembers(ids: seq<string>, k: nat, id: string)
    requires k <= |ids|
    ensures id in Firsts(ids, k) <==> id in ids[..k]
  {
    if k > 0 {
      FirstsMembers(ids, k - 1, id);
      assert ids[..k] == ids[..k - 1] + [ids[k - 1]];
    }
  }

  lemma {:induction false} FirstsSize(ids: seq<string>, k: nat)
    requires k <= |ids| && Distinct(ids)
    ensures |Firsts(ids, k)| == k
  {
    if k > 0 {
      FirstsSize(ids, k - 1);
      FirstsMembers(ids, k - 1, ids[k - 1]);
    }
  }

  lemma {:induction false} FirstsAreCommitted(ids: seq<string>, files: Dir)
    requires Distinct(ids) && forall id :: id in ids <==> Committed(id) in files
    ensures Firsts(ids, |ids|) == CommittedIds(files) && |CommittedIds(files)| == |ids|
  {
    assert ids[..|ids|] == ids;
    forall id ensures id in Firsts(ids, |ids|) <==> id in CommittedIds(files) {
      FirstsMembers(ids, |ids|, id);
      assert id in CommittedIds(files) <==> Committed(id) in files;
    }
    FirstsSize(ids, |ids|);
  }

  ghost function SumOf(ids: set<string>, files: Dir, size: Record -> nat): nat
    requires forall id :: id in ids ==> Committed(id) in files
  {
    if ids == {} then 0
    else
      var id :| id in ids;
      size(files[Committed(id)].record) + SumOf(ids - {id}, files, size)
  }

  lemma {:induction false} SumWithout(ids: set<string>, files: Dir, size: Record -> nat, id: string)
    requires (forall x :: x in ids ==> Committed(x) in files) && id in ids
    ensures SumOf(ids, files, size) == size(files[Committed(id)].record) + SumOf(ids - {id}, files, size)
  {
    var first :| first in ids
                 && SumOf(ids, files, size) == size(files[Committed(first)].record) + SumOf(ids - {first}, files, size);
    if first != id {
      SumWithout(ids - {first}, files, size, id);
      SumWithout(ids - {id}, files, size, first);
      assert ids - {first} - {id} == ids - {id} - {first};
    }
  }

  lemma {:induction false} SumAgrees(ids: set<string>, a: Dir, b: Dir, size: Record -> nat)
    requires forall id :: id in ids ==>
               Committed(id) in a && Committed(id) in b && a[Committed(id)].record == b[Committed(id)].record
    ensures SumOf(ids, a, size) == SumOf(ids, b, size)
  {
    if ids != {} {
      var id :| id in ids;
      SumAgrees(ids - {id}, a, b, size);
      SumWithout(ids, a, size, id);
      SumWithout(ids, b, size, id);
    }
  }

  ghost function Bytes(files: Dir, size: Record -> nat): nat { SumOf(CommittedIds(files), files, size) }

  ghost function RecordBytes(records: seq<Record>, size: Record -> nat): nat {
    if records == [] then 0 else RecordBytes(records[..|records| - 1], size) + size(records[|records| - 1])
  }

  // ----- storing -----

  // Temporary files aside, only this name may have changed.
  ghost predicate SameBut(before: Dir, after: Dir, name: Name) {
    forall n: Name :: !n.Temp? && n != name ==> (n in after <==> n in before) && (n in after ==> after[n] == before[n])
  }

  lemma {:induction false} SameButOn(before: Dir, mid: Dir, after: Dir, temp: Name, r: Record, time: int)
    requires temp.Temp? && temp !in before && mid == before[temp := File(r, time)]
    requires SameBut(mid, after, Committed(r.id))
    ensures SameBut(before, after, Committed(r.id))
    ensures after == Moved(mid, temp, Committed(r.id)) ==> after == before[Committed(r.id) := File(r, time)]
  {
  }

  ghost predicate SameExcept(a: Dir, b: Dir, ids: set<string>) {
    forall n: Name :: !(n.Committed? && n.id in ids) ==> (n in a <==> n in b) && (n in a ==> a[n] == b[n])
  }

  ghost predicate Stored(before: Dir, after: Dir, records: seq<Record>) {
    && (forall i :: 0 <= i < |records| ==>
          Committed(records[i].id) in after && after[Committed(records[i].id)].record == records[i])
    && SameExcept(before, after, set i | 0 <= i < |records| :: records[i].id)
  }

  function StoreAll(files: Dir, records: seq<Record>, times: seq<int>): Dir
    requires |times| == |records|
  {
    if records == [] then files
    else
      var r := records[|records| - 1];
      StoreAll(files, records[..|records| - 1], times[..|times| - 1])[Committed(r.id) := File(r, times[|times| - 1])]
  }

  ghost predicate DistinctIds(records: seq<Record>) {
    forall i, j :: 0 <= i < j < |records| ==> records[i].id != records[j].id
  }

  lemma {:induction false} StoreAllExact(files: Dir, records: seq<Record>, times: seq<int>, size: Record -> nat)
    requires |times| == |records| && DistinctIds(records)
    ensures Stored(files, StoreAll(files, records, times), records)
    ensures Bytes(StoreAll(files, records, times), size) <= Bytes(files, size) + RecordBytes(records, size)
  {
    if records != [] {
      var front, last := records[..|records| - 1], records[|records| - 1];
      StoreAllExact(files, front, times[..|times| - 1], size);
      var mid := StoreAll(files, front, times[..|times| - 1]);
      StoreOne(files, mid, front, last, times[|times| - 1]);
      StoreBytes(mid, last, times[|times| - 1], size);
      assert front + [last] == records;
    }
  }

  lemma {:induction false} StoreSnoc(files: Dir, records: seq<Record>, times: seq<int>, i: nat, time: int)
    requires i < |records| && |times| == i
    ensures StoreAll(files, records[..i + 1], times + [time])
            == StoreAll(files, records[..i], times)[Committed(records[i].id) := File(records[i], time)]
  {
    assert records[..i + 1][..i] == records[..i] && (times + [time])[..i] == times;
  }

  lemma {:induction false} StoreOne(before: Dir, mid: Dir, records: seq<Record>, r: Record, time: int)
    requires Stored(before, mid, records)
    requires forall i :: 0 <= i < |records| ==> records[i].id != r.id
    ensures Stored(before, mid[Committed(r.id) := File(r, time)], records + [r])
  {
    var more := records + [r];
    var ids := set i | 0 <= i < |more| :: more[i].id;
    assert forall i :: 0 <= i < |records| ==> more[i] == records[i];
    assert more[|records|] == r;
    assert r.id in ids;
    forall id | id in (set i | 0 <= i < |records| :: records[i].id) ensures id in ids {
      var i :| 0 <= i < |records| && records[i].id == id;
      assert more[i].id == id;
    }
  }

  lemma {:induction false} StoreBytes(files: Dir, r: Record, time: int, size: Record -> nat)
    ensures Bytes(files[Committed(r.id) := File(r, time)], size) <= Bytes(files, size) + size(r)
  {
    var after := files[Committed(r.id) := File(r, time)];
    var ids := CommittedIds(files);
    assert Committed(r.id) in after;
    assert CommittedIds(after) == ids + {r.id} by {
      forall id ensures id in CommittedIds(after) <==> id in ids + {r.id} {
        assert id in CommittedIds(after) <==> Committed(id) in after;
        assert id in ids <==> Committed(id) in files;
      }
    }
    SumWithout(CommittedIds(after), after, size, r.id);
    assert CommittedIds(after) - {r.id} == ids - {r.id};
    SumAgrees(ids - {r.id}, files, after, size);
    if r.id in ids {
      SumWithout(ids, files, size, r.id);
    } else {
      assert ids - {r.id} == ids;
    }
  }

  // The records of one append, numbered from the one after `sequence`.
  function NewRecords(now: int, sequence: nat, events: seq<Event>): (r: seq<Record>)
    ensures |r| == |events|
  {
    if events == [] then []
    else NewRecords(now, sequence, events[..|events| - 1]) + [NewRecord(now, sequence + |events|, events[|events| - 1])]
  }

  lemma {:induction false} NewRecordsSnoc(now: int, sequence: nat, events: seq<Event>, i: nat)
    requires i < |events|
    ensures NewRecords(now, sequence, events[..i + 1])
            == NewRecords(now, sequence, events[..i]) + [NewRecord(now, sequence + 1 + i, events[i])]
  {
    assert events[..i + 1][..i] == events[..i];
  }

  lemma {:induction false} NewRecordAt(now: int, sequence: nat, events: seq<Event>, i: nat)
    requires i < |events|
    ensures NewRecords(now, sequence, events)[i] == NewRecord(now, sequence + 1 + i, events[i])
  {
    if i < |events| - 1 {
      NewRecordAt(now, sequence, events[..|events| - 1], i);
    }
  }

  // What a stored append leaves for one of its events: a file with the event under a name that shows the
  // time, the number and the event id, not yet retried.
  ghost predicate StoredAs(files: Dir, id: string, event: Event, now: int, number: nat) {
    && Committed(id) in files
    && files[Committed(id)].record == Record(id, now, 0, "", event)
    && Reads(id, now, number, event.eventId)
  }

  lemma {:induction false} AppendedExactly(before: Dir, after: Dir, now: int, sequence: nat, events: seq<Event>,
                                           i: nat)
    requires Stored(before, after, NewRecords(now, sequence, events)) && i < |events|
    ensures StoredAs(after, NewRecords(now, sequence, events)[i].id, events[i], now, sequence + 1 + i)
  {
    var records := NewRecords(now, sequence, events);
    NewRecordAt(now, sequence, events, i);
    RecordIdShown(now, sequence + 1 + i, events[i].eventId);
    assert Committed(records[i].id) in after && after[Committed(records[i].id)].record == records[i];
  }

  // Records an append may write.
  ghost predicate RecordsOffered(records: seq<Record>, w: World) {
    forall r :: r in records ==> Stamped(r) && r.event in w.offered
  }

  lemma {:induction false} NewRecordsOffered(now: int, sequence: nat, events: seq<Event>, w: World)
    requires forall e :: e in events ==> e in w.offered
    ensures RecordsOffered(NewRecords(now, sequence, events), w)
  {
    var records := NewRecords(now, sequence, events);
    forall r | r in records ensures Stamped(r) && r.event in w.offered {
      var i :| 0 <= i < |records| && records[i] == r;
      NewRecordAt(now, sequence, events, i);
      NumberOfNew(now, sequence + 1 + i, events[i]);
    }
  }

  lemma {:induction false} NumbersTellApart(now: int, n1: nat, e1: Event, n2: nat, e2: Event)
    requires n1 != n2
    ensures NewRecord(now, n1, e1).id != NewRecord(now, n2, e2).id
  {
    RecordIdUnique(now, n1, e1.eventId, now, n2, e2.eventId);
  }

  lemma {:induction false} NewRecordsDistinct(now: int, sequence: nat, events: seq<Event>)
    ensures DistinctIds(NewRecords(now, sequence, events))
  {
    var r := NewRecords(now, sequence, events);
    forall i, j | 0 <= i < j < |r| ensures r[i].id != r[j].id {
      NewRecordAt(now, sequence, events, i);
      NewRecordAt(now, sequence, events, j);
      NumbersTellApart(now, sequence + 1 + i, events[i], sequence + 1 + j, events[j]);
    }
  }

  // ----- claiming and failing -----

  function Taken(r: Record, path: Name): SpooledEvent {
    SpooledEvent(r.id, Some(path), r.event, r.createdAt, r.retryCount, r.lastError)
  }

  function ClaimAll(files: Dir, ids: seq<string>, pid: nat, sequence: nat): Dir {
    if ids == [] then files
    else
      var before, id := ClaimAll(files, ids[..|ids| - 1], pid, sequence), ids[|ids| - 1];
      if Committed(id) in before then Moved(before, Committed(id), Claimed(id, pid, sequence + |ids|)) else before
  }

  // What the loop over the listed records collects.
  function BatchFrom(files: Dir, ids: seq<string>, pid: nat, sequence: nat): seq<SpooledEvent> {
    if ids == [] then []
    else
      var last := ids[|ids| - 1];
      BatchFrom(files, ids[..|ids| - 1], pid, sequence)
      + (if Committed(last) in files
         then [Taken(files[Committed(last)].record, Claimed(last, pid, sequence + |ids|))] else [])
  }

  // The batch that claims the listed records.
  ghost predicate BatchOf(batch: seq<SpooledEvent>, files: Dir, ids: seq<string>, pid: nat, sequence: nat) {
    && |batch| == |ids|
    && forall i :: 0 <= i < |ids| ==>
         Committed(ids[i]) in files
         && batch[i] == Taken(files[Committed(ids[i])].record, Claimed(ids[i], pid, sequence + 1 + i))
  }

  lemma {:induction false} BatchFromExact(files: Dir, ids: seq<string>, pid: nat, sequence: nat)
    requires forall i :: 0 <= i < |ids| ==> Committed(ids[i]) in files
    ensures BatchOf(BatchFrom(files, ids, pid, sequence), files, ids, pid, sequence)
  {
    if ids != [] {
      var front := ids[..|ids| - 1];
      assert forall i :: 0 <= i < |front| ==> front[i] == ids[i];
      BatchFromExact(files, front, pid, sequence);
      assert Committed(ids[|ids| - 1]) in files;
    }
  }

  ghost predicate AllPublished(events: seq<SpooledEvent>, w: World) {
    forall i :: 0 <= i < |events| ==> Item(events[i].id, events[i].event) in w.published
  }

  ghost predicate RecordsPublished(records: seq<Record>, w: World) {
    forall i :: 0 <= i < |records| ==> ItemOf(records[i]) in w.published
  }

  lemma {:induction false} BatchPublished(batch: seq<SpooledEvent>, before: World, ids: seq<string>, pid: nat,
                                          sequence: nat, w: World)
    requires WellNamed(before) && BatchOf(batch, before.files, ids, pid, sequence) && before.published <= w.published
    ensures AllPublished(batch, w)
  {
    forall i | 0 <= i < |batch| ensures Item(batch[i].id, batch[i].event) in w.published {
      assert Committed(ids[i]) in before.files;
    }
  }

  lemma {:induction false} StoredPublished(before: Dir, records: seq<Record>, w: World)
    requires WellNamed(w) && Stored(before, w.files, records)
    ensures RecordsPublished(records, w)
  {
  }

  ghost predicate Waiting(files: Dir, ids: seq<string>) {
    Distinct(ids) && forall i :: 0 <= i < |ids| ==> Committed(ids[i]) in files
  }

  // The first k listed records have moved to their claims; other names are untouched.
  ghost predicate ClaimsTaken(files: Dir, after: Dir, ids: seq<string>, k: nat, pid: nat, sequence: nat)
    requires k <= |ids| && Waiting(files, ids)
  {
    && (forall i :: 0 <= i < k ==>
          && Committed(ids[i]) !in after
          && Claimed(ids[i], pid, sequence + 1 + i) in after
          && after[Claimed(ids[i], pid, sequence + 1 + i)] == files[Committed(ids[i])])
    && (forall n: Name :: n.Temp? || n.id !in Firsts(ids, k) ==>
          (n in after <==> n in files) && (n in after ==> after[n] == files[n]))
  }

  lemma {:induction false} ClaimStep(files: Dir, mid: Dir, ids: seq<string>, k: nat, pid: nat, sequence: nat)
    requires k < |ids| && Waiting(files, ids) && ClaimsTaken(files, mid, ids, k, pid, sequence)
    ensures Committed(ids[k]) in mid
    ensures ClaimsTaken(files, Moved(mid, Committed(ids[k]), Claimed(ids[k], pid, sequence + k + 1)), ids,
                        k + 1, pid, sequence)
  {
    FirstsMembers(ids, k, ids[k]);
    assert Committed(ids[k]) in mid;
  }

  lemma {:induction false} StillWaiting(files: Dir, mid: Dir, ids: seq<string>, k: nat, pid: nat, sequence: nat)
    requires k < |ids| && Waiting(files, ids) && ClaimsTaken(files, mid, ids, k, pid, sequence)
    ensures Committed(ids[k]) in mid && mid[Committed(ids[k])] == files[Committed(ids[k])]
  {
    FirstsMembers(ids, k, ids[k]);
  }

  lemma {:induction false} ClaimAllExact(files: Dir, ids: seq<string>, k: nat, pid: nat, sequence: nat)
    requires k <= |ids| && Waiting(files, ids)
    ensures ClaimsTaken(files, ClaimAll(files, ids[..k], pid, sequence), ids, k, pid, sequence)
  {
    if k > 0 {
      assert ids[..k][..k - 1] == ids[..k - 1];
      ClaimAllExact(files, ids, k - 1, pid, sequence);
      ClaimStep(files, ClaimAll(files, ids[..k - 1], pid, sequence), ids, k - 1, pid, sequence);
    } else {
      assert ids[..0] == [];
    }
  }

  // The retry count has sixteen bits.
  function Retried(r: Record, cause: string): Record {
    r.(retryCount := (r.retryCount + 1) % 65536, lastError := cause)
  }

  lemma {:induction false} RetriedStamped(r: Record, cause: string)
    requires Stamped(r)
    ensures Stamped(Retried(r, cause)) && ItemOf(Retried(r, cause)) == ItemOf(r)
  {
    var n := Number(r);
    assert Retried(r, cause).id == RecordId(r.createdAt, n, r.event.eventId);
  }

  function FailOne(files: Dir, e: SpooledEvent, cause: string, time: int): Dir {
    if e.path.None? || e.path.value !in files then files
    else
      var r := files[e.path.value].record;
      files[Committed(r.id) := File(Retried(r, cause), time)] - {e.path.value}
  }

  function FailAll(files: Dir, events: seq<SpooledEvent>, cause: string, times: seq<int>): Dir
    requires |times| == |events|
  {
    if events == [] then files
    else FailOne(FailAll(files, events[..|events| - 1], cause, times[..|events| - 1]),
                 events[|events| - 1], cause, times[|events| - 1])
  }

  function Paths(events: seq<SpooledEvent>): set<Name> {
    set i | 0 <= i < |events| && events[i].path.Some? :: events[i].path.value
  }

  // The first k claims of a batch are back, one retry later, and these claims are gone.
  ghost predicate Restored(settled: Dir, after: Dir, ids: seq<string>, pid: nat, sequence: nat, k: nat, cause: string)
    requires k <= |ids| && forall i :: 0 <= i < |ids| ==> Committed(ids[i]) in settled
  {
    && (forall i :: 0 <= i < k ==>
          Committed(ids[i]) in after && Claimed(ids[i], pid, sequence + 1 + i) !in after
          && after[Committed(ids[i])].record == Retried(settled[Committed(ids[i])].record, cause))
    && (forall i :: k <= i < |ids| ==>
          Committed(ids[i]) !in after && Claimed(ids[i], pid, sequence + 1 + i) in after
          && after[Claimed(ids[i], pid, sequence + 1 + i)] == settled[Committed(ids[i])])
    && (forall id :: id !in Firsts(ids, |ids|) ==>
          (Committed(id) in after <==> Committed(id) in settled)
          && (Committed(id) in after ==> after[Committed(id)] == settled[Committed(id)]))
  }

  lemma {:induction false} RestoreStep(settled: Dir, mid: Dir, ids: seq<string>, pid: nat, sequence: nat, k: nat,
                                       cause: string, time: int)
    requires k < |ids| && Distinct(ids) && forall i :: 0 <= i < |ids| ==> Committed(ids[i]) in settled
    requires NamedByRecord(settled) && Restored(settled, mid, ids, pid, sequence, k, cause)
    ensures var e := Taken(settled[Committed(ids[k])].record, Claimed(ids[k], pid, sequence + 1 + k));
            Restored(settled, FailOne(mid, e, cause, time), ids, pid, sequence, k + 1, cause)
  {
    assert ids[..|ids|] == ids;
    FirstsMembers(ids, |ids|, ids[k]);
    var claim, r := Claimed(ids[k], pid, sequence + 1 + k), settled[Committed(ids[k])].record;
    var after := FailOne(mid, Taken(r, claim), cause, time);
    assert after == mid[Committed(ids[k]) := File(Retried(r, cause), time)] - {claim};
  }

  // A claimed batch that fails goes back under the names it came from.
  lemma {:induction false} FailRestores(settled: Dir, ids: seq<string>, pid: nat, sequence: nat,
                                        batch: seq<SpooledEvent>, k: nat, cause: string, times: seq<int>)
    requires NamedByRecord(settled) && Distinct(ids) && BatchOf(batch, settled, ids, pid, sequence)
    requires k <= |ids| && |times| == k
    ensures Restored(settled, FailAll(ClaimAll(settled, ids, pid, sequence), batch[..k], cause, times), ids, pid,
                     sequence, k, cause)
  {
    if k > 0 {
      var claimed := ClaimAll(settled, ids, pid, sequence);
      FailRestores(settled, ids, pid, sequence, batch, k - 1, cause, times[..k - 1]);
      FailSnoc(claimed, batch, k - 1, cause, times);
      RestoreStep(settled, FailAll(claimed, batch[..k - 1], cause, times[..k - 1]), ids, pid, sequence, k - 1, cause,
                  times[k - 1]);
    } else {
      NoneRestored(settled, ids, pid, sequence, cause);
      assert batch[..0] == [];
    }
  }

  lemma {:induction false} FailNext(files: Dir, batch: seq<SpooledEvent>, k: nat, cause: string, times: seq<int>,
                                    time: int)
    requires k < |batch| && |times| == k
    ensures FailAll(files, batch[..k + 1], cause, times + [time])
            == FailOne(FailAll(files, batch[..k], cause, times), batch[k], cause, time)
  {
    assert (times + [time])[..k] == times;
    FailSnoc(files, batch, k, cause, times + [time]);
  }

  lemma {:induction false} FailSnoc(files: Dir, batch: seq<SpooledEvent>, k: nat, cause: string, times: seq<int>)
    requires k < |batch| && |times| == k + 1
    ensures FailAll(files, batch[..k + 1], cause, times)
            == FailOne(FailAll(files, batch[..k], cause, times[..k]), batch[k], cause, times[k])
  {
    assert batch[..k + 1][..k] == batch[..k];
  }

  lemma {:induction false} NoneRestored(settled: Dir, ids: seq<string>, pid: nat, sequence: nat, cause: string)
    requires Waiting(settled, ids)
    ensures Restored(settled, ClaimAll(settled, ids, pid, sequence), ids, pid, sequence, 0, cause)
  {
    assert ids[..|ids|] == ids;
    ClaimAllExact(settled, ids, |ids|, pid, sequence);
  }

  // One more attempt has failed; after 65535 the count starts again.
  predicate RetriedOnce(was: Record, now: Record, cause: string) {
    && now.id == was.id && now.createdAt == was.createdAt && now.event == was.event && now.lastError == cause
    && (was.retryCount < 65535 ==> now.retryCount == was.retryCount + 1)
    && (was.retryCount == 65535 ==> now.retryCount == 0)
  }

  // The claimed events as the caller sees them.
  predicate ShowsRecord(e: SpooledEvent, r: Record, path: Name) {
    && e.id == r.id && e.event == r.event && e.createdAt == r.createdAt && e.retryCount == r.retryCount
    && e.lastError == r.lastError && e.path == Some(path)
  }

  // A batch shows the records it claims, under numbers in turn.
  lemma {:induction false} BatchExactly(settled: Dir, ids: seq<string>, pid: nat, sequence: nat,
                                        batch: seq<SpooledEvent>, i: nat)
    requires BatchOf(batch, settled, ids, pid, sequence) && i < |ids|
    ensures Committed(ids[i]) in settled && |batch| == |ids|
    ensures ShowsRecord(batch[i], settled[Committed(ids[i])].record, Claimed(ids[i], pid, sequence + 1 + i))
  {
  }

  // After a batch has failed, each of its records is back under its name with one more attempt, and the
  // other committed records are untouched.
  lemma {:induction false} FailedExactly(settled: Dir, ids: seq<string>, pid: nat, sequence: nat,
                                         batch: seq<SpooledEvent>, cause: string, times: seq<int>, id: string)
    requires NamedByRecord(settled) && Distinct(ids) && BatchOf(batch, settled, ids, pid, sequence)
    requires |times| == |batch| && Committed(id) in settled
    ensures var after := FailAll(ClaimAll(settled, ids, pid, sequence), batch, cause, times);
            && Committed(id) in after
            && (if id in ids then RetriedOnce(settled[Committed(id)].record, after[Committed(id)].record, cause)
                else after[Committed(id)] == settled[Committed(id)])
            && forall i :: 0 <= i < |ids| ==> Claimed(ids[i], pid, sequence + 1 + i) !in after
  {
    FailRestores(settled, ids, pid, sequence, batch, |ids|, cause, times);
    assert batch[..|ids|] == batch && ids[..|ids|] == ids;
    FirstsMembers(ids, |ids|, id);
  }

  // So the records waiting are the same ones, in the same order, as before the attempt.
  lemma {:induction false} FailedKeepTheirPlace(settled: Dir, ids: seq<string>, pid: nat, sequence: nat,
                             batch: seq<SpooledEvent>, cause: string, times: seq<int>)
    requires NamedByRecord(settled) && Distinct(ids) && BatchOf(batch, settled, ids, pid, sequence)
    requires |times| == |batch|
    ensures CommittedIds(FailAll(ClaimAll(settled, ids, pid, sequence), batch, cause, times)) == CommittedIds(settled)
  {
    FailRestores(settled, ids, pid, sequence, batch, |ids|, cause, times);
    assert batch[..|ids|] == batch;
    var after := FailAll(ClaimAll(settled, ids, pid, sequence), batch, cause, times);
    forall id ensures id in CommittedIds(after) <==> id in CommittedIds(settled) {
      FirstsMembers(ids, |ids|, id);
      assert id in CommittedIds(after) <==> Committed(id) in after;
      assert id in CommittedIds(settled) <==> Committed(id) in settled;
    }
  }

  // ----- age and order -----

  // A rename keeps the time of the last write, so a claim is already stale when it is taken exactly
  // if its record was last written before the cutoff.
  lemma {:induction false} ClaimsKeepTheirAge(files: Dir, ids: seq<string>, i: nat, pid: nat, sequence: nat,
                                              cutoff: int)
    requires Waiting(files, ids) && i < |ids|
    ensures Stale(ClaimAll(files, ids, pid, sequence), Claimed(ids[i], pid, sequence + 1 + i), cutoff)
            <==> files[Committed(ids[i])].written <= cutoff
  {
    assert ids[..|ids|] == ids;
    ClaimAllExact(files, ids, |ids|, pid, sequence);
  }

  // Sorting full paths is sorting identifiers.
  lemma {:induction false} PathsSortLikeIds(dir: string, a: string, b: string)
    ensures StringLess(dir + (a + JSON), dir + (b + JSON)) <==> IdLess(a, b)
  {
    PrefixOrder(dir, a + JSON, b + JSON);
  }

  // Replay order is the order of creation, and of numbering within one instant.
  ghost predicate Precedes(a: Record, b: Record) {
    && Stamped(a) && Stamped(b)
    && (a.createdAt < b.createdAt || (a.createdAt == b.createdAt && Number(a) <= Number(b)))
  }

  // A time from the epoch on and a sequence number of at most sixteen digits.
  ghost predicate InRange(r: Record) {
    Stamped(r) && 0 <= r.createdAt < Pow10(TIME_WIDTH) && Number(r) < Pow10(SEQ_WIDTH)
  }

  lemma {:induction false} ReplayOrder(a: Record, b: Record)
    requires InRange(a) && InRange(b) && !IdLess(b.id, a.id)
    ensures Precedes(a, b)
  {
    RecordIdOrder(b.createdAt, Number(b), b.event.eventId, a.createdAt, Number(a), a.event.eventId, JSON);
  }

  // The first records in the order of their names, up to a limit.
  ghost predicate IsFront(ids: seq<string>, files: Dir, limit: int) {
    exists all :: Sorted(all, IdLess) && Distinct(all) && (forall id :: id in all <==> Committed(id) in files)
                  && ids == if |all| > limit > 0 then all[..limit] else all
  }

  // The listed records come in the order they were made, and before every other one that waits.
  ghost predicate OldestFirst(ids: seq<string>, files: Dir) {
    && (forall i :: 0 <= i < |ids| ==> Committed(ids[i]) in files)
    && (forall i, j :: 0 <= i < j < |ids| ==>
         Precedes(files[Committed(ids[i])].record, files[Committed(ids[j])].record))
    && (forall i, id :: 0 <= i < |ids| && Committed(id) in files && id !in ids ==>
          Precedes(files[Committed(ids[i])].record, files[Committed(id)].record))
  }

  lemma {:induction false} OldestClaimed(ids: seq<string>, files: Dir, limit: int)
    requires IsFront(ids, files, limit) && NamedByRecord(files)
    ensures AllInRange(files) ==> OldestFirst(ids, files)
  {
    if AllInRange(files) {
      FrontIsOldest(ids, files, limit);
    }
  }

  ghost predicate AllInRange(files: Dir) {
    forall n :: n in files && n.Committed? ==> InRange(files[n].record)
  }

  lemma {:induction false} FrontIsOldest(ids: seq<string>, files: Dir, limit: int)
    requires IsFront(ids, files, limit) && NamedByRecord(files) && AllInRange(files)
    ensures OldestFirst(ids, files)
  {
    var all :| Sorted(all, IdLess) && Distinct(all) && (forall id :: id in all <==> Committed(id) in files)
               && ids == if |all| > limit > 0 then all[..limit] else all;
    forall i, j | 0 <= i < j < |all|
      ensures Committed(all[i]) in files && Committed(all[j]) in files
      ensures Precedes(files[Committed(all[i])].record, files[Committed(all[j])].record)
    {
      assert all[i] in all && all[j] in all;
      ReplayOrder(files[Committed(all[i])].record, files[Committed(all[j])].record);
    }
    forall i | 0 <= i < |ids| ensures Committed(ids[i]) in files && ids[i] == all[i] && all[i] in ids {
      assert all[i] in all;
    }
    forall i, id | 0 <= i < |ids| && Committed(id) in files && id !in ids
      ensures Precedes(files[Committed(ids[i])].record, files[Committed(id)].record)
    {
      var j :| 0 <= j < |all| && all[j] == id;
      assert all[j] !in ids;
    }
  }
}
