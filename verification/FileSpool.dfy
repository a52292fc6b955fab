/** The operations of the file spool as steps on the directory:
    internal/contexts/traffic/adapters/events/spool*.go. Whatever calls fail and wherever a process
    dies, the log of the directory stays safe; with no failing call the outcome is exact. */
module FileSpool {
  import opened Lists
  import opened Options
  import opened Sorting
  import opened Events
  import opened SpoolNames
  import opened SpoolLog
  import opened SpoolDisk
  import opened SpoolSpec

  const DEFAULT_CLAIM_TIMEOUT: int := 300_000_000_000

  datatype AppendResult = Appended | SpoolFull | AppendFailed

  datatype SpoolStats = SpoolStats(depth: nat, bytes: nat, maxBytes: int, oldestAge: int, overflowCount: nat)

  // How an operation found the directory after recovery and purge; `misreads`: how many calls failed
  // while an append measured it.
  datatype Opening = Opening(settled: Dir, staleCutoff: int, ageCutoff: int, now: int, misreads: nat)

  class FileSpool {
    const disk: Disk
    const maxBytes: int
    const maxAge: int
    const claimTimeout: int
    const pid: nat
    var sequence: nat
    var overflowCount: nat
    // The batches that Append did not store.
    ghost var refused: seq<seq<Event>>

    ghost predicate Valid()
      reads this, disk
    {
      disk.Valid() && claimTimeout > 0 && maxAge in disk.ages
    }

    constructor (disk: Disk, maxBytes: int, maxAge: int, claimTimeout: int, pid: nat)
      requires disk.Valid() && maxBytes > 0
      modifies disk`ages
      ensures Valid() && disk.ages == old(disk.ages) + {maxAge} && refused == []
      ensures this.disk == disk && this.maxBytes == maxBytes && this.maxAge == maxAge && this.pid == pid
      // five minutes, in nanoseconds
      ensures this.claimTimeout == if claimTimeout <= 0 then 300_000_000_000 else claimTimeout
      ensures sequence == 0
    {
      this.disk, this.maxBytes, this.maxAge, this.pid := disk, maxBytes, maxAge, pid;
      this.claimTimeout := if claimTimeout <= 0 then DEFAULT_CLAIM_TIMEOUT else claimTimeout;
      sequence, overflowCount, refused := 0, 0, [];
      new;
      disk.Enroll(maxAge);
    }

    // ----- recovery and purge -----

    method RestoreStaleClaim(path: Name) returns (ok: bool)
      requires Valid() && path in disk.files && path.Claimed?
      modifies disk
      ensures Valid() && disk.Advanced()
      ensures ok ==> disk.files == (if Committed(path.id) in old(disk.files) then old(disk.files) - {path}
                                    else Moved(old(disk.files), path, Committed(path.id)))
      ensures if ok then disk.failures == old(disk.failures) else disk.failures > old(disk.failures)
    {
      LogIsSound(disk.log);
      var original := disk.Look(Committed(path.id));
      if original.Unreadable? {
        return false;
      }
      if original.Found? {
        assert HasCopy(disk.files, path);
        var removed := disk.Remove(path, Copy);
        return !removed.Failed?;
      }
      var renamed := disk.Rename(path, Committed(path.id));
      return !renamed.Failed?;
    }

    // One turn of the loop in recoverStaleClaimsLocked.
    method RecoverEntry(entry: Name, limit: int) returns (restored: bool, ok: bool)
      requires Valid()
      modifies disk
      ensures Valid() && disk.Advanced()
      ensures ok ==> disk.files == RecoverOne(old(disk.files), entry, limit)
      ensures if ok then disk.failures == old(disk.failures) else disk.failures > old(disk.failures)
    {
      if !entry.Claimed? {
        return false, true;
      }
      var info := disk.Look(entry);
      if info.NoFile? {
        return false, true;
      }
      if info.Unreadable? {
        return false, false;
      }
      if info.file.written > limit {
        return false, true;
      }
      ok := RestoreStaleClaim(entry);
      restored := true;
    }

    method RecoverStaleClaims() returns (ok: bool, ghost cutoff: int)
      requires Valid()
      modifies disk
      ensures Valid() && disk.Advanced()
      ensures ok ==> Recovered(old(disk.files), disk.files, cutoff)
                     && disk.Clocked(old(disk.calls), cutoff + claimTimeout)
      ensures if ok then disk.failures == old(disk.failures) else disk.failures > old(disk.failures)
    {
      cutoff := 0;
      var names := disk.List();
      if names.None? {
        return false, 0;
      }
      var entries := names.value;
      var now := disk.Now();
      var limit := now - claimTimeout;
      ghost var before := disk.files;
      var recovered;
      ok, recovered := RecoverEntries(entries, limit);
      RecoverAllExact(before, entries, limit);
      if ok && recovered {
        ok := disk.Sync();
      }
      return ok, limit;
    }

    method RecoverEntries(entries: seq<Name>, limit: int) returns (ok: bool, recovered: bool)
      requires Valid()
      modifies disk
      ensures Valid() && disk.Advanced()
      ensures ok ==> disk.files == RecoverAll(old(disk.files), entries, limit)
      ensures if ok then disk.failures == old(disk.failures) else disk.failures > old(disk.failures)
    {
      ghost var before := disk.files;
      recovered := false;
      for i := 0 to |entries|
        invariant Valid() && disk.Advanced() && disk.failures == old(disk.failures)
        invariant disk.files == RecoverAll(before, entries[..i], limit)
      {
        assert entries[..i + 1][..i] == entries[..i];
        var cancelled := disk.Call();
        if cancelled {
          return false, recovered;
        }
        var restored, done := RecoverEntry(entries[i], limit);
        if !done {
          return false, recovered;
        }
        recovered := recovered || restored;
      }
      assert entries[..|entries|] == entries;
      return true, recovered;
    }

    method RecordFiles() returns (ids: Option<seq<string>>)
      requires Valid()
      modifies disk
      ensures Valid() && disk.Advanced() && disk.files == old(disk.files) && disk.log == old(disk.log)
      ensures ids.Some? ==> Sorted(ids.value, IdLess) && Distinct(ids.value)
      ensures ids.Some? ==> forall id :: id in ids.value <==> Committed(id) in disk.files
      ensures if ids.Some? then disk.failures == old(disk.failures) else disk.failures > old(disk.failures)
      ensures disk.fails(old(disk.calls)) ==> ids.None?
    {
      var names := disk.List();
      if names.None? {
        return None;
      }
      var entries, listed := names.value, [];
      for i := 0 to |entries|
        invariant forall id :: id in listed <==> Committed(id) in entries[..i]
        invariant Distinct(listed)
      {
        assert entries[..i + 1] == entries[..i] + [entries[i]];
        assert entries[i] !in entries[..i];
        if entries[i].Committed? {
          listed := listed + [entries[i].id];
        }
      }
      assert entries[..|entries|] == entries;
      IdLessIsOrder();
      var sorted := SortSlice(listed, IdLess);
      DistinctPermuted(listed, sorted);
      MembersPermuted(listed, sorted);
      return Some(sorted);
    }

    // One turn of the loop in purgeExpiredLocked.
    method PurgeEntry(id: string, limit: int, ghost call: nat) returns (ok: bool)
      requires Valid() && Committed(id) in disk.files
      requires maxAge > 0 && call < disk.calls && limit == disk.clock(call) - maxAge
      modifies disk
      ensures Valid() && disk.Advanced()
      ensures ok ==> disk.files == PurgeOne(old(disk.files), id, limit)
      ensures !ok ==> disk.files == old(disk.files) && disk.failures > old(disk.failures)
      ensures ok ==> disk.failures == old(disk.failures)
    {
      var record := disk.Look(Committed(id));
      if !record.Found? {
        return false;
      }
      if record.file.record.createdAt > limit {
        return true;
      }
      var removed := disk.Remove(Committed(id), Expired(maxAge, disk.clock(call), call));
      return !removed.Failed?;
    }

    method PurgeExpired() returns (ok: bool, ghost cutoff: int)
      requires Valid()
      modifies disk
      ensures Valid() && disk.Advanced()
      ensures ok ==> disk.files == if maxAge <= 0 then old(disk.files) else Purged(old(disk.files), cutoff)
      ensures ok && maxAge > 0 ==> forall n ::
                n in disk.files <==> n in old(disk.files)
                                     && (n.Committed? ==> old(disk.files)[n].record.createdAt > cutoff)
      ensures ok && maxAge > 0 ==> disk.Clocked(old(disk.calls), cutoff + maxAge)
      ensures if ok then disk.failures == old(disk.failures) else disk.failures > old(disk.failures)
      ensures disk.files != old(disk.files) ==>
                && Thinned(old(disk.files), disk.files, cutoff)
                && maxAge > 0 && disk.Clocked(old(disk.calls), cutoff + maxAge)
    {
      cutoff := 0;
      if maxAge <= 0 {
        return true, 0;
      }
      var ids := RecordFiles();
      if ids.None? {
        return false, 0;
      }
      var entries := ids.value;
      ghost var call := disk.calls;
      var now := disk.Now();
      var limit := now - maxAge;
      ghost var before := disk.files;
      ok := PurgeRecords(entries, limit, call);
      PurgeAllExact(before, entries, limit);
      return ok, limit;
    }

    method PurgeRecords(ids: seq<string>, limit: int, ghost call: nat) returns (ok: bool)
      requires Valid() && Distinct(ids) && forall id :: id in ids ==> Committed(id) in disk.files
      requires maxAge > 0 && call < disk.calls && limit == disk.clock(call) - maxAge
      modifies disk
      ensures Valid() && disk.Advanced() && Thinned(old(disk.files), disk.files, limit)
      ensures ok ==> disk.files == PurgeAll(old(disk.files), ids, limit)
      ensures if ok then disk.failures == old(disk.failures) else disk.failures > old(disk.failures)
    {
      ghost var before := disk.files;
      for i := 0 to |ids|
        invariant Valid() && disk.Advanced() && disk.failures == old(disk.failures)
                  && disk.files == PurgeAll(before, ids[..i], limit)
      {
        assert ids[i] in ids;
        PurgeNext(before, ids, i, limit);
        var cancelled := disk.Call();
        if cancelled {
          return false;
        }
        var done := PurgeEntry(ids[i], limit, call);
        if !done {
          return false;
        }
      }
      assert ids[..|ids|] == ids;
      PurgePartly(before, ids, limit);
      return true;
    }

    // The two steps that open Append, NextBatch and Stats.
    method RecoverAndPurge() returns (ok: bool, ghost staleCutoff: int, ghost ageCutoff: int)
      requires Valid()
      modifies disk
      ensures Valid() && disk.Advanced()
      ensures ok ==> Settled(old(disk.files), disk.files, staleCutoff, maxAge > 0, ageCutoff)
      ensures ok ==> disk.Clocked(old(disk.calls), staleCutoff + claimTimeout)
      ensures ok && maxAge > 0 ==> disk.Clocked(old(disk.calls), ageCutoff + maxAge)
      ensures if ok then disk.failures == old(disk.failures) else disk.failures > old(disk.failures)
    {
      ageCutoff := 0;
      ok, staleCutoff := RecoverStaleClaims();
      if ok {
        ok, ageCutoff := PurgeExpired();
      }
    }

    method Open() returns (ok: bool, ghost o: Opening)
      requires Valid()
      modifies disk
      ensures Valid() && disk.Advanced()
      ensures ok ==> Opened(old(disk.files), old(disk.calls), o) && disk.files == o.settled
      ensures if ok then disk.failures == old(disk.failures) else disk.failures > old(disk.failures)
    {
      o := Opening(disk.files, 0, 0, 0, 0);
      var failed := disk.Call();
      if failed {
        return false, o;
      }
      ghost var staleCutoff, ageCutoff;
      ok, staleCutoff, ageCutoff := RecoverAndPurge();
      o := Opening(disk.files, staleCutoff, ageCutoff, staleCutoff + claimTimeout, 0);
    }

    // ----- writing and measuring -----

    method WriteRecord(r: Record) returns (ok: bool, ghost time: int)
      requires Valid() && Stamped(r) && r.event in After(disk.log).offered
      modifies disk
      ensures Valid() && disk.Advanced()
      ensures ok ==> disk.files == old(disk.files)[Committed(r.id) := File(r, time)]
      ensures ok ==> ItemOf(r) in After(disk.log).published
      ensures if ok then disk.failures == old(disk.failures) else disk.failures > old(disk.failures)
      ensures SameBut(old(disk.files), disk.files, Committed(r.id))
    {
      ghost var before := disk.files;
      var temp;
      temp, time := disk.CreateTemp(r);
      if temp.None? {
        return false, time;
      }
      ghost var mid := disk.files;
      ok := CommitTemp(temp.value, r);
      SameButOn(before, mid, disk.files, temp.value, r, time);
    }

    method CommitTemp(temp: Name, r: Record) returns (ok: bool)
      requires Valid() && temp.Temp? && temp in disk.files && disk.files[temp].record == r
      modifies disk
      ensures Valid() && disk.Advanced()
      ensures ok ==> disk.files == Moved(old(disk.files), temp, Committed(r.id))
      ensures ok ==> ItemOf(r) in After(disk.log).published
      ensures if ok then disk.failures == old(disk.failures) else disk.failures > old(disk.failures)
      ensures SameBut(old(disk.files), disk.files, Committed(r.id))
    {
      var renamed := disk.Rename(temp, Committed(r.id));
      var synced := false;
      if renamed.Done? {
        synced := disk.Sync();
      }
      if !synced {
        assert disk.failures > old(disk.failures);
        var cleaned := disk.Remove(temp, Copy);
      }
      return synced;
    }

    method Measure(ids: seq<string>) returns (bytes: nat, oldest: Option<int>)
      requires Valid() && Distinct(ids) && forall id :: id in ids ==> Committed(id) in disk.files
      modifies disk
      ensures Valid() && disk.Advanced() && disk.files == old(disk.files) && disk.log == old(disk.log)
      ensures forall id :: id in Firsts(ids, |ids|) ==> Committed(id) in disk.files
      ensures disk.failures == old(disk.failures) ==>
                bytes == SumOf(Firsts(ids, |ids|), disk.files, disk.size)
                    && oldest == OldestTime(ids, |ids|, disk.files)
    {
      bytes, oldest := 0, None;
      for i := 0 to |ids|
        invariant Valid() && disk.Advanced() && disk.files == old(disk.files) && disk.log == old(disk.log)
        invariant forall id :: id in Firsts(ids, i) ==> Committed(id) in disk.files
        invariant disk.failures == old(disk.failures) ==>
                    bytes == SumOf(Firsts(ids, i), disk.files, disk.size) && oldest == OldestTime(ids, i, disk.files)
      {
        CountNext(ids, i, disk.files, disk.size);
        var info := disk.Look(Committed(ids[i]));
        if !info.Found? {
          continue;
        }
        bytes := bytes + disk.size(info.file.record);
        var record := disk.Look(Committed(ids[i]));
        if !record.Found? {
          continue;
        }
        if oldest.None? || record.file.record.createdAt < oldest.value {
          oldest := Some(record.file.record.createdAt);
        }
      }
    }

    method StatsLocked() returns (s: SpoolStats, ghost oldest: Option<int>, ghost now: int)
      requires Valid()
      modifies disk
      ensures Valid() && disk.Advanced() && disk.files == old(disk.files) && disk.log == old(disk.log)
      ensures s.maxBytes == maxBytes && s.overflowCount == overflowCount
      ensures disk.fails(old(disk.calls)) ==> s.bytes == 0 && disk.failures > old(disk.failures)
      ensures disk.failures == old(disk.failures) ==>
                && s.depth == |CommittedIds(disk.files)| && s.bytes == Bytes(disk.files, disk.size)
                && IsOldest(oldest, disk.files)
                && s.oldestAge == (if oldest.None? then 0 else now - oldest.value)
                && (oldest.Some? ==> disk.Clocked(old(disk.calls), now))
    {
      now, oldest := 0, None;
      var ids := RecordFiles();
      if ids.None? {
        return SpoolStats(0, 0, maxBytes, 0, overflowCount), None, 0;
      }
      FirstsAreCommitted(ids.value, disk.files);
      OldestExact(ids.value, disk.files);
      var bytes, first := Measure(ids.value);
      if first.None? {
        return SpoolStats(|ids.value|, bytes, maxBytes, 0, overflowCount), first, 0;
      }
      var time := disk.Now();
      return SpoolStats(|ids.value|, bytes, maxBytes, time - first.value, overflowCount), first, time;
    }

    // Stats ignores what goes wrong while settling.
    method Stats() returns (s: SpoolStats)
      requires Valid()
      modifies disk
      ensures Valid() && disk.Advanced()
      ensures disk.failures == old(disk.failures) ==>
                s.depth == |CommittedIds(disk.files)| && s.bytes == Bytes(disk.files, disk.size)
    {
      var failed := disk.Call();
      if failed {
        return SpoolStats(0, 0, maxBytes, 0, overflowCount);
      }
      var recovered, limit := RecoverStaleClaims();
      var purged, cutoff := PurgeExpired();
      ghost var oldest, now;
      s, oldest, now := StatsLocked();
    }

    // ----- appending -----

    // One turn of the loop that numbers the events.
    method BuildNext(now: int, event: Event) returns (record: Record, ok: bool)
      requires Valid()
      modifies this`sequence, disk
      ensures Valid() && disk.Advanced() && disk.files == old(disk.files) && disk.log == old(disk.log)
      ensures sequence == old(sequence) + 1 && record == NewRecord(now, sequence, event)
      ensures if ok then disk.failures == old(disk.failures) else disk.failures > old(disk.failures)
    {
      sequence := sequence + 1;
      record := NewRecord(now, sequence, event);
      var failed := disk.Call();
      ok := !failed;
    }

    method BuildRecords(now: int, events: seq<Event>) returns (records: seq<Record>, ok: bool)
      requires Valid()
      modifies this`sequence, disk
      ensures Valid() && disk.Advanced() && disk.files == old(disk.files) && disk.log == old(disk.log)
      ensures sequence >= old(sequence)
      ensures ok ==> records == NewRecords(now, old(sequence), events) && sequence == old(sequence) + |events|
      ensures if ok then disk.failures == old(disk.failures) else disk.failures > old(disk.failures)
    {
      records := [];
      for i := 0 to |events|
        invariant Valid() && disk.Advanced() && disk.failures == old(disk.failures) && disk.files == old(disk.files)
                  && disk.log == old(disk.log)
        invariant sequence == old(sequence) + i && records == NewRecords(now, old(sequence), events[..i])
      {
        NewRecordsSnoc(now, old(sequence), events, i);
        var record;
        record, ok := BuildNext(now, events[i]);
        records := records + [record];
        if !ok {
          return records, false;
        }
      }
      assert events[..|events|] == events;
      return records, true;
    }

    // One turn of the loop that writes.
    method WriteOne(r: Record) returns (ok: bool, ghost time: int)
      requires Valid() && Stamped(r) && r.event in After(disk.log).offered
      modifies disk
      ensures Valid() && disk.Advanced()
      ensures ok ==> disk.files == old(disk.files)[Committed(r.id) := File(r, time)]
      ensures if ok then disk.failures == old(disk.failures) else disk.failures > old(disk.failures)
    {
      var cancelled := disk.Call();
      if cancelled {
        return false, 0;
      }
      ok, time := WriteRecord(r);
    }

    method WriteAll(records: seq<Record>) returns (ok: bool, ghost times: seq<int>)
      requires Valid() && RecordsOffered(records, After(disk.log))
      modifies disk
      ensures Valid() && disk.Advanced()
      ensures ok ==> |times| == |records| && disk.files == StoreAll(old(disk.files), records, times)
      ensures if ok then disk.failures == old(disk.failures) else disk.failures > old(disk.failures)
    {
      ghost var before := disk.files;
      times := [];
      for i := 0 to |records|
        invariant Valid() && disk.Advanced() && disk.failures == old(disk.failures) && |times| == i
        invariant disk.files == StoreAll(before, records[..i], times)
      {
        assert records[i] in records;
        var written, time := WriteOne(records[i]);
        if !written {
          return false, times;
        }
        StoreSnoc(before, records, times, i, time);
        times := times + [time];
      }
      assert records[..|records|] == records;
      return true, times;
    }

    method Store(records: seq<Record>) returns (ok: bool)
      requires Valid() && DistinctIds(records) && RecordsOffered(records, After(disk.log))
      modifies disk
      ensures Valid() && disk.Advanced()
      ensures ok ==> Stored(old(disk.files), disk.files, records) && RecordsPublished(records, After(disk.log))
      ensures ok ==> Bytes(disk.files, disk.size) <= Bytes(old(disk.files), disk.size) + RecordBytes(records, disk.size)
      ensures if ok then disk.failures == old(disk.failures) else disk.failures > old(disk.failures)
    {
      ghost var before := disk.files;
      ghost var times;
      ok, times := WriteAll(records);
      if ok {
        StoreAllExact(before, records, times, disk.size);
        LogIsSound(disk.log);
        StoredPublished(before, records, After(disk.log));
      }
    }

    // The capacity check counts committed records only.
    method StoreIfRoom(records: seq<Record>) returns (r: AppendResult, ghost misreads: nat)
      requires Valid() && DistinctIds(records) && RecordsOffered(records, After(disk.log))
      modifies this`overflowCount, disk
      ensures Valid() && disk.Advanced() && overflowCount >= old(overflowCount)
      ensures r.AppendFailed? ==> disk.failures > old(disk.failures)
      ensures r.Appended? ==> Stored(old(disk.files), disk.files, records)
      ensures r.Appended? ==> RecordsPublished(records, After(disk.log))
      ensures r.SpoolFull? ==> disk.files == old(disk.files) && overflowCount == old(overflowCount) + 1
      ensures disk.failures == old(disk.failures) ==>
                && !r.AppendFailed?
                && (r.Appended? <==> Bytes(old(disk.files), disk.size) + RecordBytes(records, disk.size) <= maxBytes)
      ensures r.Appended? ==> disk.failures == old(disk.failures) + misreads
      ensures r.Appended? && misreads == 0 ==> Bytes(disk.files, disk.size) <= maxBytes
      ensures disk.fails(old(disk.calls)) && RecordBytes(records, disk.size) <= maxBytes ==>
                misreads > 0 && (r.Appended? || disk.failures > old(disk.failures) + misreads)
    {
      var addBytes := TotalBytes(records);
      ghost var before := disk.failures;
      var stats, oldest, at := StatsLocked();
      misreads := disk.failures - before;
      r := StoreMeasured(stats.bytes, addBytes, records);
    }

    // The counter of refused appends is kept in a file, whose writing may fail.
    method Overflow() returns (r: AppendResult)
      requires Valid()
      modifies this`overflowCount, disk
      ensures Valid() && disk.Advanced() && disk.files == old(disk.files)
      ensures overflowCount == old(overflowCount) + 1 && !r.Appended?
      ensures if r.AppendFailed? then disk.failures > old(disk.failures) else disk.failures == old(disk.failures)
    {
      overflowCount := overflowCount + 1;
      var failed := disk.Call();
      r := if failed then AppendFailed else SpoolFull;
    }

    method StoreMeasured(bytes: nat, addBytes: nat, records: seq<Record>) returns (r: AppendResult)
      requires Valid() && DistinctIds(records) && RecordsOffered(records, After(disk.log))
      requires addBytes == RecordBytes(records, disk.size)
      modifies this`overflowCount, disk
      ensures Valid() && disk.Advanced() && overflowCount >= old(overflowCount)
      ensures r.AppendFailed? <==> disk.failures > old(disk.failures)
      ensures r.Appended? ==>
                && bytes + addBytes <= maxBytes && RecordsPublished(records, After(disk.log))
                && Stored(old(disk.files), disk.files, records)
                && Bytes(disk.files, disk.size) <= Bytes(old(disk.files), disk.size) + addBytes
      ensures r.SpoolFull? ==>
                bytes + addBytes > maxBytes && disk.files == old(disk.files) && overflowCount == old(overflowCount) + 1
    {
      if bytes + addBytes > maxBytes {
        r := Overflow();
        return;
      }
      var ok := Store(records);
      r := if ok then Appended else AppendFailed;
    }

    method Append(events: seq<Event>) returns (r: AppendResult, ghost o: Opening, ghost records: seq<Record>)
      requires Valid()
      modifies this, disk
      ensures Valid() && disk.Grown() && sequence >= old(sequence) && overflowCount >= old(overflowCount)
      ensures After(disk.log).offered == After(old(disk.log)).offered + set e | e in events
      ensures refused == if r.Appended? then old(refused) else old(refused) + [events]
      ensures r.AppendFailed? ==> disk.failures > old(disk.failures)
      ensures events == [] ==> r.Appended? && disk.files == old(disk.files)
      ensures !r.AppendFailed? && events != [] ==> Opened(old(disk.files), old(disk.calls), o)
                                                   && records == NewRecords(o.now, old(sequence), events)
      ensures r.Appended? && events != [] ==>
                Stored(o.settled, disk.files, records) && RecordsPublished(records, After(disk.log))
      ensures r.SpoolFull? ==> disk.files == o.settled && overflowCount == old(overflowCount) + 1
      ensures disk.failures == old(disk.failures) && events != [] ==>
                && !r.AppendFailed?
                && (r.Appended? <==> Bytes(o.settled, disk.size) + RecordBytes(records, disk.size) <= maxBytes)
      // when an append succeeds, only calls that measured the directory can have failed
      ensures r.Appended? && events != [] ==>
                && disk.failures == old(disk.failures) + o.misreads
                && (o.misreads == 0 ==> Bytes(disk.files, disk.size) <= maxBytes)
    {
      o, records := Opening(disk.files, 0, 0, 0, 0), [];
      if |events| == 0 {
        return Appended, o, records;
      }
      disk.Offered(set e | e in events);
      r, o, records := TryAppend(events);
      if !r.Appended? {
        refused := refused + [events];
      }
    }

    method TryAppend(events: seq<Event>) returns (r: AppendResult, ghost o: Opening, ghost records: seq<Record>)
      requires Valid() && events != [] && forall e :: e in events ==> e in After(disk.log).offered
      modifies this`sequence, this`overflowCount, disk
      ensures Valid() && disk.Advanced() && sequence >= old(sequence) && overflowCount >= old(overflowCount)
      ensures r.AppendFailed? ==> disk.failures > old(disk.failures)
      ensures !r.AppendFailed? ==> Opened(old(disk.files), old(disk.calls), o)
                                   && records == NewRecords(o.now, old(sequence), events)
      ensures r.Appended? ==> Stored(o.settled, disk.files, records) && RecordsPublished(records, After(disk.log))
      ensures r.SpoolFull? ==> disk.files == o.settled && overflowCount == old(overflowCount) + 1
      ensures disk.failures == old(disk.failures) ==>
                (r.Appended? <==> Bytes(o.settled, disk.size) + RecordBytes(records, disk.size) <= maxBytes)
      ensures r.Appended? ==>
                && disk.failures == old(disk.failures) + o.misreads
                && (o.misreads == 0 ==> Bytes(disk.files, disk.size) <= maxBytes)
    {
      records := [];
      var ok, now;
      ok, now, o := OpenNow();
      if !ok {
        return AppendFailed, o, records;
      }
      ghost var misreads;
      r, records, misreads := BuildAndStore(now, events, old(disk.files), old(disk.calls), o);
      o := o.(misreads := misreads);
    }

    method OpenNow() returns (ok: bool, now: int, ghost o: Opening)
      requires Valid()
      modifies disk
      ensures Valid() && disk.Advanced()
      ensures ok ==> Opened(old(disk.files), old(disk.calls), o) && disk.files == o.settled && o.now == now
      ensures if ok then disk.failures == old(disk.failures) else disk.failures > old(disk.failures)
    {
      ok, o := Open();
      now := 0;
      if ok {
        ghost var reached := disk.calls;
        now := disk.Now();
        ReadLater(disk.clock, old(disk.calls), reached, disk.calls, o.staleCutoff + claimTimeout);
        ReadLater(disk.clock, old(disk.calls), reached, disk.calls, o.ageCutoff + maxAge);
        o := o.(now := now);
      }
    }

    method BuildAndStore(now: int, events: seq<Event>, ghost before: Dir, ghost calls: nat, ghost o: Opening)
      returns (r: AppendResult, ghost records: seq<Record>, ghost misreads: nat)
      requires Valid() && (forall e :: e in events ==> e in After(disk.log).offered) && Opened(before, calls, o)
      modifies this`sequence, this`overflowCount, disk
      ensures Valid() && disk.Advanced() && sequence >= old(sequence) && overflowCount >= old(overflowCount)
      ensures Opened(before, calls, o)
      ensures r.AppendFailed? ==> disk.failures > old(disk.failures)
      ensures !r.AppendFailed? ==> records == NewRecords(now, old(sequence), events)
      ensures r.Appended? ==> Stored(old(disk.files), disk.files, records) && RecordsPublished(records, After(disk.log))
      ensures r.SpoolFull? ==> disk.files == old(disk.files) && overflowCount == old(overflowCount) + 1
      ensures disk.failures == old(disk.failures) ==>
                (r.Appended? <==> Bytes(old(disk.files), disk.size) + RecordBytes(records, disk.size) <= maxBytes)
      ensures r.Appended? ==>
                && disk.failures == old(disk.failures) + misreads
                && (misreads == 0 ==> Bytes(disk.files, disk.size) <= maxBytes)
    {
      records, misreads := [], 0;
      ghost var reached := disk.calls;
      var built, ok := BuildRecords(now, events);
      r := AppendFailed;
      if ok {
        records := built;
        NewRecordsDistinct(now, old(sequence), events);
        NewRecordsOffered(now, old(sequence), events, After(disk.log));
        r, misreads := StoreIfRoom(built);
      }
      ReadLater(disk.clock, calls, reached, disk.calls, o.staleCutoff + claimTimeout);
      ReadLater(disk.clock, calls, reached, disk.calls, o.ageCutoff + maxAge);
      ReadLater(disk.clock, calls, reached, disk.calls, o.now);
    }

    ghost predicate Opened(before: Dir, calls: nat, o: Opening)
      reads this, disk
    {
      && Settled(before, o.settled, o.staleCutoff, maxAge > 0, o.ageCutoff)
      && disk.Clocked(calls, o.staleCutoff + claimTimeout) && disk.Clocked(calls, o.now)
      && (maxAge > 0 ==> disk.Clocked(calls, o.ageCutoff + maxAge))
    }

    method TotalBytes(records: seq<Record>) returns (bytes: nat)
      ensures bytes == RecordBytes(records, disk.size)
    {
      bytes := 0;
      for i := 0 to |records|
        invariant bytes == RecordBytes(records[..i], disk.size)
      {
        assert records[..i + 1][..i] == records[..i];
        bytes := bytes + disk.size(records[i]);
      }
      assert records[..|records|] == records;
    }

    // ----- claiming -----

    method RestoreClaimedRecord(path: Name)
      requires Valid() && path.Claimed?
      modifies disk
      ensures Valid() && disk.Advanced()
    {
      LogIsSound(disk.log);
      var renamed := disk.Rename(path, Committed(path.id));
      if renamed.Done? {
        var synced := disk.Sync();
      }
    }

    method ClaimRecord(id: string) returns (r: Outcome)
      requires Valid()
      modifies this`sequence, disk
      ensures Valid() && disk.Advanced() && sequence == old(sequence) + 1
      ensures r.Done? ==> Committed(id) in old(disk.files)
                          && disk.files == Moved(old(disk.files), Committed(id), Claimed(id, pid, sequence))
      ensures r.Missing? ==> disk.files == old(disk.files) && Committed(id) !in disk.files
      ensures r.Failed? ==> disk.failures > old(disk.failures)
    {
      LogIsSound(disk.log);
      sequence := sequence + 1;
      r := disk.Rename(Committed(id), Claimed(id, pid, sequence));
      if r.Done? {
        var synced := disk.Sync();
        if !synced {
          RestoreClaimedRecord(Claimed(id, pid, sequence));
          return Failed;
        }
      }
    }

    method FirstRecords(count: int) returns (ids: Option<seq<string>>)
      requires Valid() && count > 0
      modifies disk
      ensures Valid() && disk.Advanced() && disk.files == old(disk.files) && disk.log == old(disk.log)
      ensures ids.Some? ==> IsFront(ids.value, disk.files, count) && Waiting(disk.files, ids.value)
      ensures ids.None? ==> disk.failures > old(disk.failures)
    {
      var entries := RecordFiles();
      if entries.None? {
        return None;
      }
      var all := entries.value;
      var front := if |all| > count then all[..count] else all;
      assert IsFront(front, disk.files, count);
      assert forall i :: 0 <= i < |front| ==> front[i] == all[i] && all[i] in all;
      return Some(front);
    }

    method ClaimFront(count: int) returns (batch: Option<seq<SpooledEvent>>, ghost ids: seq<string>)
      requires Valid() && count > 0
      modifies this`sequence, disk
      ensures Valid() && disk.Advanced() && sequence >= old(sequence)
      ensures batch.Some? ==> ClaimsFront(old(disk.files), disk.files, ids, count, batch.value, pid, old(sequence))
                              && AllPublished(batch.value, After(disk.log))
      ensures batch.None? ==> disk.failures > old(disk.failures)
    {
      ghost var log := disk.log;
      ids := [];
      LogIsSound(log);
      var front := FirstRecords(count);
      if front.None? {
        return None, ids;
      }
      ids := front.value;
      batch := ClaimBatch(front.value);
      if batch.Some? {
        HistoryGrows(log, disk.log);
        BatchFromExact(After(log).files, ids, pid, old(sequence));
        BatchPublished(batch.value, After(log), ids, pid, old(sequence), After(disk.log));
        OldestClaimed(ids, After(log).files, count);
      }
    }

    method NextBatch(limit: int) returns (batch: Option<seq<SpooledEvent>>, ghost o: Opening, ghost ids: seq<string>)
      requires Valid()
      modifies this`sequence, disk
      ensures Valid() && disk.Advanced() && sequence >= old(sequence)
      ensures batch.Some? ==>
                && Opened(old(disk.files), old(disk.calls), o)
                && ClaimsFront(o.settled, disk.files, ids, if limit <= 0 then 1 else limit,
                               batch.value, pid, old(sequence))
                && AllPublished(batch.value, After(disk.log))
      ensures batch.None? ==> disk.failures > old(disk.failures)
    {
      ids := [];
      var ok;
      ok, o := Open();
      if !ok {
        return None, o, ids;
      }
      batch, ids := ClaimOpened(if limit <= 0 then 1 else limit, old(disk.files), old(disk.calls), o);
    }

    method ClaimOpened(count: int, ghost before: Dir, ghost calls: nat, ghost o: Opening)
      returns (batch: Option<seq<SpooledEvent>>, ghost ids: seq<string>)
      requires Valid() && count > 0 && Opened(before, calls, o) && disk.files == o.settled
      modifies this`sequence, disk
      ensures Valid() && disk.Advanced() && sequence >= old(sequence) && Opened(before, calls, o)
      ensures batch.Some? ==> ClaimsFront(o.settled, disk.files, ids, count, batch.value, pid, old(sequence))
                              && AllPublished(batch.value, After(disk.log))
      ensures batch.None? ==> disk.failures > old(disk.failures)
    {
      ghost var reached := disk.calls;
      batch, ids := ClaimFront(count);
      ReadLater(disk.clock, calls, reached, disk.calls, o.staleCutoff + claimTimeout);
      ReadLater(disk.clock, calls, reached, disk.calls, o.ageCutoff + maxAge);
      ReadLater(disk.clock, calls, reached, disk.calls, o.now);
    }

    // One turn of the loop in NextBatch: nothing when the record has vanished.
    method Take(id: string) returns (e: Option<SpooledEvent>, ok: bool)
      requires Valid()
      modifies this`sequence, disk
      ensures Valid() && disk.Advanced() && sequence >= old(sequence)
      ensures ok ==> (e.Some? <==> Committed(id) in old(disk.files)) && sequence == old(sequence) + 1
      ensures ok && e.Some? ==>
                && e.value == Taken(old(disk.files)[Committed(id)].record, Claimed(id, pid, sequence))
                && disk.files == Moved(old(disk.files), Committed(id), Claimed(id, pid, sequence))
                && Item(e.value.id, e.value.event) in After(disk.log).published
      ensures ok && e.None? ==> disk.files == old(disk.files)
      ensures !ok ==> disk.failures > old(disk.failures)
    {
      var cancelled := disk.Call();
      if cancelled {
        return None, false;
      }
      var claimed := ClaimRecord(id);
      if claimed.Failed? {
        return None, false;
      }
      if claimed.Missing? {
        return None, true;
      }
      var path := Claimed(id, pid, sequence);
      var record := disk.Look(path);
      if !record.Found? {
        RestoreClaimedRecord(path);
        return None, false;
      }
      LogIsSound(disk.log);
      return Some(Taken(record.file.record, path)), true;
    }

    method ClaimBatch(ids: seq<string>) returns (batch: Option<seq<SpooledEvent>>)
      requires Valid() && Waiting(disk.files, ids)
      modifies this`sequence, disk
      ensures Valid() && disk.Advanced() && sequence >= old(sequence)
      ensures batch.Some? ==> batch.value == BatchFrom(old(disk.files), ids, pid, old(sequence))
      ensures batch.Some? ==> disk.files == ClaimAll(old(disk.files), ids, pid, old(sequence))
      ensures batch.None? ==> disk.failures > old(disk.failures)
    {
      ghost var before := disk.files;
      var events := [];
      for i := 0 to |ids|
        invariant Valid() && disk.Advanced() && sequence == old(sequence) + i
        invariant disk.files == ClaimAll(before, ids[..i], pid, old(sequence))
        invariant events == BatchFrom(before, ids[..i], pid, old(sequence))
      {
        TurnIsExact(before, ids, i, pid, old(sequence));
        var e, ok := Take(ids[i]);
        if !ok {
          return None;
        }
        if e.Some? {
          events := events + [e.value];
        }
      }
      assert ids[..|ids|] == ids;
      return Some(events);
    }

    // ----- settling a batch -----

    method Ack(events: seq<SpooledEvent>) returns (ok: bool)
      requires Valid()
      requires forall e :: e in events && e.path.Some? ==>
                 e.path.value.Claimed? && exists a :: a in After(disk.log).accepted && a.id == e.path.value.id
      modifies disk
      ensures Valid() && disk.Advanced()
      ensures ok ==> disk.files == old(disk.files) - Paths(events)
      ensures ok ==> forall n :: n in disk.files <==> n in old(disk.files) && !Holds(events, n)
      ensures !ok ==> disk.failures > old(disk.failures)
    {
      PathsExactly(events);
      ghost var before, log := disk.files, disk.log;
      ok := disk.Call();
      if ok {
        return false;
      }
      var removed := false;
      for i := 0 to |events|
        invariant Valid() && disk.Advanced()
        invariant disk.files == before - Paths(events[..i])
      {
        PathsSnoc(events, i);
        assert events[i] in events;
        HistoryGrows(log, disk.log);
        var gone := AckOne(events[i]);
        if !gone {
          return false;
        }
        removed := removed || events[i].path.Some?;
      }
      assert events[..|events|] == events;
      ok := true;
      if removed {
        ok := disk.Sync();
      }
    }

    // One turn of the loop in Ack.
    method AckOne(e: SpooledEvent) returns (ok: bool)
      requires Valid()
      requires e.path.Some? ==>
                 e.path.value.Claimed? && exists a :: a in After(disk.log).accepted && a.id == e.path.value.id
      modifies disk
      ensures Valid() && disk.Advanced()
      ensures ok ==> disk.files == old(disk.files) - (if e.path.Some? then {e.path.value} else {})
      ensures !ok ==> disk.failures > old(disk.failures)
    {
      var cancelled := disk.Call();
      if cancelled {
        return false;
      }
      if e.path.None? {
        return true;
      }
      var outcome := disk.Remove(e.path.value, Delivered);
      return !outcome.Failed?;
    }

    method FailRecord(e: SpooledEvent, cause: string) returns (ok: bool, ghost time: int)
      requires Valid() && (e.path.Some? ==> e.path.value.Claimed?)
      modifies disk
      ensures Valid() && disk.Advanced()
      ensures ok ==> disk.files == FailOne(old(disk.files), e, cause, time)
      ensures !ok ==> disk.failures > old(disk.failures) || (e.path.Some? && e.path.value !in old(disk.files))
    {
      time := 0;
      if e.path.None? {
        return true, 0;
      }
      var path := e.path.value;
      var found := disk.Look(path);
      if !found.Found? {
        return false, 0;
      }
      LogIsSound(disk.log);
      var record := Retried(found.file.record, cause);
      RetriedStamped(found.file.record, cause);
      ok, time := WriteRecord(record);
      if !ok {
        return false, time;
      }
      assert HasCopy(disk.files, path) by {
        assert Committed(record.id) in disk.files;
      }
      var removed := disk.Remove(path, Copy);
      ok := !removed.Failed?;
    }

    // One turn of the loop in RecordFailure.
    method FailTurn(e: SpooledEvent, cause: string) returns (ok: bool, ghost time: int)
      requires Valid() && (e.path.Some? ==> e.path.value.Claimed?)
      modifies disk
      ensures Valid() && disk.Advanced()
      ensures ok ==> disk.files == FailOne(old(disk.files), e, cause, time)
      ensures !ok ==> disk.failures > old(disk.failures) || (e.path.Some? && e.path.value !in old(disk.files))
    {
      var cancelled := disk.Call();
      if cancelled {
        return false, 0;
      }
      ok, time := FailRecord(e, cause);
    }

    method RecordFailure(events: seq<SpooledEvent>, cause: string) returns (ok: bool, ghost times: seq<int>)
      requires Valid() && forall e :: e in events && e.path.Some? ==> e.path.value.Claimed?
      modifies disk
      ensures Valid() && disk.Advanced() && |times| <= |events|
      ensures ok ==> |times| == |events| && disk.files == FailAll(old(disk.files), events, cause, times)
      ensures !ok ==>
                || disk.failures > old(disk.failures)
                || (|times| < |events| && events[|times|].path.Some?
                    && events[|times|].path.value !in FailAll(old(disk.files), events[..|times|], cause, times))
    {
      times := [];
      ghost var before := disk.files;
      ok := disk.Call();
      if ok {
        return false, times;
      }
      for i := 0 to |events|
        invariant Valid() && disk.Advanced() && |times| == i
        invariant disk.files == FailAll(before, events[..i], cause, times)
      {
        assert events[i] in events;
        ghost var time;
        ok, time := FailTurn(events[i], cause);
        if !ok {
          return false, times;
        }
        FailNext(before, events, i, cause, times, time);
        times := times + [time];
      }
      assert events[..|events|] == events;
      return true, times;
    }
  }

  // ----- a collision -----

  // Some event of the batch is claimed under this name.
  ghost predicate Holds(events: seq<SpooledEvent>, n: Name) { exists e :: e in events && e.path == Some(n) }

  lemma {:induction false} PathsExactly(events: seq<SpooledEvent>)
    ensures forall n :: n in Paths(events) <==> Holds(events, n)
  {
    forall n ensures n in Paths(events) <==> Holds(events, n) {
      if n in Paths(events) {
        var i :| 0 <= i < |events| && events[i].path == Some(n);
        assert events[i] in events;
      }
      if e :| e in events && e.path == Some(n) {
        var i :| 0 <= i < |events| && events[i] == e;
        assert events[i].path.value in Paths(events);
      }
    }
  }

  // A directory with nothing but one committed record.
  ghost predicate OnlyRecord(files: Dir, r: Record) {
    && Committed(r.id) in files && files[Committed(r.id)].record == r
    && forall n :: n in files ==> n == Committed(r.id)
  }

  lemma {:induction false} StoredAlone(before: Dir, o: Opening, after: Dir, r: Record)
    requires forall n :: n in before ==> n == Committed(r.id)
    requires Settled(before, o.settled, o.staleCutoff, false, o.ageCutoff) && Stored(o.settled, after, [r])
    ensures OnlyRecord(after, r)
  {
    assert forall n: Name :: n in o.settled ==> n == Committed(r.id);
    assert [r][0] == r;
  }

  // A directory on which no call fails, all at one instant.
  ghost predicate Still(disk: Disk)
    reads disk
  {
    disk.Valid() && disk.ages <= {0} && NeverFails(disk.fails) && forall k :: disk.clock(k) == 0
  }

  method StoreAlone(spool: FileSpool, e: Event) returns (r: AppendResult)
    requires spool.Valid() && spool.sequence == 0 && Still(spool.disk) && spool.maxAge == 0
    requires forall n :: n in spool.disk.files ==> n == Committed(RecordId(0, 1, e.eventId))
    requires spool.maxBytes > 0 && forall r :: spool.disk.size(r) == 0
    modifies spool, spool.disk
    ensures r.Appended? && Still(spool.disk) && spool.disk.Grown() && spool.disk.failures == 0
    ensures OnlyRecord(spool.disk.files, NewRecord(0, 1, e))
    ensures ItemOf(NewRecord(0, 1, e)) in After(spool.disk.log).published
  {
    ghost var before := spool.disk.files;
    ghost var o, records;
    NoFailures(spool.disk.fails, spool.disk.calls);
    r, o, records := spool.Append([e]);
    NoFailures(spool.disk.fails, spool.disk.calls);
    StoredOne(o, e, records);
    Weightless(CommittedIds(o.settled), o.settled, spool.disk.size);
    assert records[..0] == [];
    StoredAlone(before, o, spool.disk.files, records[0]);
  }

  // Two processes that share a directory and read the same time: with nothing failing, both are
  // told that their event is stored, and one of the two is lost.
  method Collide(e1: Event, e2: Event) returns (disk: Disk, r1: AppendResult, r2: AppendResult)
    requires e1 != e2 && Clean(e1.eventId) == Clean(e2.eventId)
    ensures fresh(disk) && disk.Valid() && disk.failures == 0 && r1.Appended? && r2.Appended?
    ensures exists id :: Item(id, e1) in After(disk.log).published && !Answered(After(disk.log), Item(id, e1))
  {
    disk := new Disk(_ => false, _ => 0, _ => 0);
    var first := new FileSpool(disk, 1, 0, 0, 1);
    var second := new FileSpool(disk, 1, 0, 0, 2);
    r1 := StoreAlone(first, e1);
    ghost var log := disk.log;
    RecordIdUnique(0, 1, e1.eventId, 0, 1, e2.eventId);
    r2 := StoreAlone(second, e2);
    HistoryGrows(log, disk.log);
    LogIsSound(disk.log);
    assert ItemOf(NewRecord(0, 1, e1)) in After(disk.log).published;
  }

  // ----- the byte limit -----

  lemma {:induction false} TwoRecords(files: Dir, a: Record, b: Record, size: Record -> nat)
    requires a.id != b.id && (forall r :: size(r) == 1)
    requires Committed(a.id) in files && Committed(b.id) in files
    requires forall n :: n in files ==> n.Committed? && (n.id == a.id || n.id == b.id)
    ensures Bytes(files, size) == 2
  {
    var ids := CommittedIds(files);
    assert Committed(a.id).id in ids && Committed(b.id).id in ids;
    assert ids == {a.id, b.id};
    SumWithout(ids, files, size, a.id);
    assert ids - {a.id} == {b.id};
    SumWithout({b.id}, files, size, b.id);
    assert {b.id} - {b.id} == {};
  }

  // A directory with one record, at its limit: when the listing that measures it fails, it counts as
  // empty, and one more record is stored.
  method OverLimit(kept: Record, added: Record) returns (spool: FileSpool, r: AppendResult)
    requires Stamped(kept) && Stamped(added) && kept.id != added.id
    ensures fresh(spool) && fresh(spool.disk) && spool.Valid()
    ensures r.Appended? && Bytes(spool.disk.files, spool.disk.size) > spool.maxBytes
  {
    ghost var log := OneCommitted(kept, {kept.event, added.event});
    var disk := new Disk.Left(map[Committed(kept.id) := File(kept, 0)], log, k => k == 0, _ => 0, _ => 1);
    spool := new FileSpool(disk, 1, 0, 0, 1);
    r := StoreUnmeasured(spool, kept, added);
  }

  // The first call is the listing, and it is the only one to fail.
  method StoreUnmeasured(spool: FileSpool, kept: Record, added: Record) returns (r: AppendResult)
    requires spool.Valid() && spool.maxBytes == 1 && spool.disk.calls == 0 && spool.disk.failures == 0
    requires spool.disk.files == map[Committed(kept.id) := File(kept, 0)] && kept.id != added.id
    requires (forall k :: spool.disk.fails(k) <==> k == 0) && forall x :: spool.disk.size(x) == 1
    requires Stamped(added) && added.event in After(spool.disk.log).offered
    modifies spool, spool.disk
    ensures spool.Valid() && r.Appended? && Bytes(spool.disk.files, spool.disk.size) > spool.maxBytes
  {
    ghost var before := spool.disk.files;
    assert [added][..0] == [];
    assert RecordBytes([added], spool.disk.size) == 1;
    ghost var misreads;
    r, misreads := spool.StoreIfRoom([added]);
    OneFailure(spool.disk.fails, 0, spool.disk.calls);
    StoredBeside(before, spool.disk.files, kept, added);
    TwoRecords(spool.disk.files, kept, added, spool.disk.size);
  }

  lemma {:induction false} OneCommitted(r: Record, events: set<Event>) returns (log: seq<Entry>)
    requires Stamped(r) && r.event in events
    ensures SafeLog(log) && After(log) == World(map[Committed(r.id) := File(r, 0)], events, {ItemOf(r)}, {}, {})
  {
    var offer := [Offer(events)];
    assert [] + offer == offer;
    AppendEntry([], Offer(events));
    CommitsOne(offer, r);
    log := offer + CommitSteps(r);
  }

  lemma {:induction false} StoredBeside(before: Dir, after: Dir, kept: Record, added: Record)
    requires before == map[Committed(kept.id) := File(kept, 0)] && kept.id != added.id && Stored(before, after, [added])
    ensures Committed(kept.id) in after && Committed(added.id) in after
    ensures forall n :: n in after ==> n.Committed? && (n.id == kept.id || n.id == added.id)
  {
    assert [added][0] == added;
  }

  lemma {:induction false} Weightless(ids: set<string>, files: Dir, size: Record -> nat)
    requires (forall r :: size(r) == 0) && forall id :: id in ids ==> Committed(id) in files
    ensures SumOf(ids, files, size) == 0
  {
    if ids != {} {
      var id :| id in ids;
      SumWithout(ids, files, size, id);
      Weightless(ids - {id}, files, size);
    }
  }

  lemma {:induction false} StoredOne(o: Opening, e: Event, records: seq<Record>)
    requires records == NewRecords(o.now, 0, [e])
    ensures records == [NewRecord(o.now, 1, e)]
  {
    NewRecordAt(o.now, 0, [e], 0);
  }

  lemma {:induction false} TurnIsExact(files: Dir, ids: seq<string>, i: nat, pid: nat, sequence: nat)
    requires i < |ids| && Waiting(files, ids)
    ensures var mid, id := ClaimAll(files, ids[..i], pid, sequence), ids[i];
            && Committed(id) in files && Committed(id) in mid && mid[Committed(id)] == files[Committed(id)]
            && ClaimAll(files, ids[..i + 1], pid, sequence)
                 == Moved(mid, Committed(id), Claimed(id, pid, sequence + i + 1))
            && BatchFrom(files, ids[..i + 1], pid, sequence)
               == BatchFrom(files, ids[..i], pid, sequence)
                  + [Taken(files[Committed(id)].record, Claimed(id, pid, sequence + i + 1))]
  {
    assert ids[..i + 1][..i] == ids[..i];
    ClaimAllExact(files, ids, i, pid, sequence);
    StillWaiting(files, ClaimAll(files, ids[..i], pid, sequence), ids, i, pid, sequence);
  }

  lemma {:induction false} PathsSnoc(events: seq<SpooledEvent>, i: nat)
    requires i < |events|
    ensures Paths(events[..i + 1]) == Paths(events[..i]) + (if events[i].path.Some? then {events[i].path.value} else {})
  {
    var more, less := events[..i + 1], events[..i];
    assert more[i] == events[i] && forall k :: 0 <= k < i ==> more[k] == less[k];
    forall n | n in Paths(less) ensures n in Paths(more) {
      var k :| 0 <= k < |less| && less[k].path == Some(n);
      assert more[k].path == Some(n);
    }
    if events[i].path.Some? {
      assert more[i].path.value in Paths(more);
    }
  }

  // The batch claims the oldest records, and the rest of the directory stays as it was.
  ghost predicate ClaimsFront(before: Dir, after: Dir, ids: seq<string>, limit: int, batch: seq<SpooledEvent>,
                              pid: nat, sequence: nat)
  {
    && IsFront(ids, before, limit) && Waiting(before, ids) && NamedByRecord(before)
    && (AllInRange(before) ==> OldestFirst(ids, before))
    && BatchOf(batch, before, ids, pid, sequence) && after == ClaimAll(before, ids, pid, sequence)
  }

  ghost predicate IsOldest(oldest: Option<int>, files: Dir) {
    && (oldest.None? <==> CommittedIds(files) == {})
    && (oldest.Some? ==>
          && (exists id :: Committed(id) in files && files[Committed(id)].record.createdAt == oldest.value)
          && forall id :: Committed(id) in files ==> oldest.value <= files[Committed(id)].record.createdAt)
  }

  function OldestTime(ids: seq<string>, k: nat, files: Dir): Option<int>
    requires k <= |ids|
  {
    if k == 0 then None
    else
      var before := OldestTime(ids, k - 1, files);
      if Committed(ids[k - 1]) !in files then before
      else
        var time := files[Committed(ids[k - 1])].record.createdAt;
        if before.None? || time < before.value then Some(time) else before
  }

  lemma {:induction false} OldestPartly(ids: seq<string>, k: nat, files: Dir)
    requires k <= |ids| && forall id :: id in ids ==> Committed(id) in files
    ensures var o := OldestTime(ids, k, files);
            && (o.None? <==> k == 0)
            && (o.Some? ==>
                  && (exists id :: Committed(id) in files && files[Committed(id)].record.createdAt == o.value)
                  && forall i :: 0 <= i < k ==> o.value <= files[Committed(ids[i])].record.createdAt)
  {
    if k > 0 {
      OldestPartly(ids, k - 1, files);
      assert ids[k - 1] in ids;
    }
  }

  lemma {:induction false} OldestExact(ids: seq<string>, files: Dir)
    requires Distinct(ids) && forall id :: id in ids <==> Committed(id) in files
    ensures IsOldest(OldestTime(ids, |ids|, files), files)
  {
    OldestPartly(ids, |ids|, files);
    FirstsAreCommitted(ids, files);
    forall id | Committed(id) in files ensures exists i :: 0 <= i < |ids| && ids[i] == id {
      assert id in ids;
    }
  }

  lemma {:induction false} CountNext(ids: seq<string>, i: nat, files: Dir, size: Record -> nat)
    requires i < |ids| && Distinct(ids) && forall id :: id in ids ==> Committed(id) in files
    ensures forall id :: id in Firsts(ids, i + 1) ==> Committed(id) in files
    ensures forall id :: id in Firsts(ids, i) ==> Committed(id) in files
    ensures SumOf(Firsts(ids, i + 1), files, size)
            == SumOf(Firsts(ids, i), files, size) + size(files[Committed(ids[i])].record)
  {
    forall id | id in Firsts(ids, i + 1) ensures id in ids {
      FirstsMembers(ids, i + 1, id);
    }
    FirstsMembers(ids, i, ids[i]);
    assert Firsts(ids, i + 1) - {ids[i]} == Firsts(ids, i);
    SumWithout(Firsts(ids, i + 1), files, size, ids[i]);
  }
}
