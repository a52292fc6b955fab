/** The directory the spool works on. Every call may fail; a process that dies is one whose
    remaining calls all fail, so both I/O errors and crashes between steps are covered. */
module SpoolDisk {
  import opened Lists
  import opened Options
  import opened Sorting
  import opened Events
  import opened SpoolNames
  import opened SpoolLog

  datatype Outcome = Done | Missing | Failed
  datatype Lookup = Found(file: File) | NoFile | Unreadable

  // Directory order: the names of committed records compare as strings.
  predicate IdLess(a: string, b: string) { StringLess(a + JSON, b + JSON) }

  lemma {:induction false} IdLessIsOrder()
    ensures StrictWeakOrder(IdLess)
  {
    forall a: string, b: string, c: string
      ensures !IdLess(a, a)
      ensures IdLess(a, b) && IdLess(b, c) ==> IdLess(a, c)
      ensures IdLess(a, c) ==> IdLess(a, b) || IdLess(b, c)
    {
      StringLessOrder(a + JSON, b + JSON, c + JSON);
    }
  }

  // Every name of the directory, once each.
  ghost predicate ListsAll(names: seq<Name>, files: Dir) {
    (forall n :: n in names <==> n in files) && Distinct(names)
  }

  ghost predicate TempsBelow(files: Dir, calls: nat) {
    forall n :: n in files && n.Temp? ==> n.nonce < calls
  }

  // The ages were configured ones and the times came from the clock.
  ghost predicate ReadFromClock(expired: set<Expiry>, ages: set<int>, calls: nat, clock: nat -> int) {
    forall p :: p in expired ==> p.age in ages && p.call < calls && p.now == clock(p.call)
  }

  // How many of the first calls fail.
  ghost function FailuresIn(fails: nat -> bool, calls: nat): nat {
    if calls == 0 then 0 else FailuresIn(fails, calls - 1) + (if fails(calls - 1) then 1 else 0)
  }

  ghost predicate NeverFails(fails: nat -> bool) {
    forall k :: !fails(k)
  }

  lemma {:induction false} FailuresGrow(fails: nat -> bool, before: nat, calls: nat)
    requires before <= calls
    ensures FailuresIn(fails, before) <= FailuresIn(fails, calls)
  {
    if before < calls {
      FailuresGrow(fails, before, calls - 1);
    }
  }

  lemma {:induction false} NoFailures(fails: nat -> bool, calls: nat)
    requires NeverFails(fails)
    ensures FailuresIn(fails, calls) == 0
  {
    if calls > 0 {
      NoFailures(fails, calls - 1);
    }
  }

  lemma {:induction false} OneFailure(fails: nat -> bool, first: nat, calls: nat)
    requires forall k :: fails(k) <==> k == first
    ensures FailuresIn(fails, calls) == if calls > first then 1 else 0
  {
    if calls > 0 {
      OneFailure(fails, first, calls - 1);
    }
  }

  ghost predicate ReadBetween(clock: nat -> int, from: nat, to: nat, t: int) {
    exists k :: from <= k < to && clock(k) == t
  }

  lemma {:induction false} ReadLater(clock: nat -> int, from: nat, to: nat, later: nat, t: int)
    requires to <= later
    ensures ReadBetween(clock, from, to, t) ==> ReadBetween(clock, from, later, t)
  {
  }

  class Disk {
    var files: Dir
    var calls: nat
    const fails: nat -> bool
    const clock: nat -> int
    const size: Record -> nat
    ghost var failures: nat
    ghost var log: seq<Entry>
    // The maximal ages of the spools that use the directory.
    ghost var ages: set<int>

    ghost predicate Valid()
      reads this
    {
      && SafeLog(log) && files == After(log).files && TempsBelow(files, calls)
      && ReadFromClock(After(log).expired, ages, calls, clock)
      && failures <= FailuresIn(fails, calls)
    }

    // What every operation keeps, whatever becomes of it.
    twostate predicate Grown()
      reads this
    {
      && Valid() && old(log) <= log && old(failures) <= failures && old(calls) <= calls && ages == old(ages)
      && After(log).accepted == After(old(log)).accepted
    }

    twostate predicate Advanced()
      reads this
    {
      Grown() && After(log).offered == After(old(log)).offered
    }

    // The clock showed t at some call since call number `from`.
    ghost predicate Clocked(from: nat, t: int)
      reads this
    {
      ReadBetween(clock, from, calls, t)
    }

    constructor (fails: nat -> bool, clock: nat -> int, size: Record -> nat)
      ensures Valid() && files == map[] && log == [] && failures == 0 && ages == {}
      ensures this.fails == fails && this.clock == clock && this.size == size
    {
      this.fails, this.clock, this.size := fails, clock, size;
      files, calls, failures, log, ages := map[], 0, 0, [], {};
    }

    // A directory found with these files, left by an earlier run.
    constructor Left(files: Dir, ghost log: seq<Entry>, fails: nat -> bool, clock: nat -> int, size: Record -> nat)
      requires SafeLog(log) && files == After(log).files && After(log).expired == {} && forall n :: n in files ==>
                 !n.Temp?
      ensures Valid() && this.files == files && this.log == log && calls == 0 && failures == 0 && ages == {}
      ensures this.fails == fails && this.clock == clock && this.size == size
    {
      this.fails, this.clock, this.size := fails, clock, size;
      this.files, calls, failures, this.log, ages := files, 0, 0, log, {};
    }

    // A spool with this maximal age starts to use the directory.
    ghost method Enroll(age: int)
      requires Valid()
      modifies this`ages
      ensures Valid() && ages == old(ages) + {age}
    {
      ages := ages + {age};
    }

    // What a spool is asked to store, for the log.
    ghost method Offered(events: set<Event>)
      requires Valid()
      modifies this`log
      ensures Grown() && After(log) == After(old(log)).(offered := After(old(log)).offered + events)
    {
      ghost var before := log;
      AppendEntry(before, Offer(events));
      log := before + [Offer(events)];
      assert After(log) == After(before).(offered := After(before).offered + events);
    }

    method Call() returns (failed: bool)
      modifies this
      ensures files == old(files) && log == old(log) && ages == old(ages) && calls == old(calls) + 1
      ensures failures == old(failures) + (if failed then 1 else 0)
      ensures failed == fails(old(calls))
    {
      failed := fails(calls);
      calls := calls + 1;
      failures := if failed then failures + 1 else failures;
    }

    method Now() returns (t: int)
      modifies this
      ensures files == old(files) && log == old(log) && ages == old(ages)
      ensures failures == old(failures) && calls == old(calls) + 1
      ensures t == clock(old(calls))
    {
      t := clock(calls);
      calls := calls + 1;
    }

    // os.CreateTemp, Write, Sync and Close: a temporary file is whole or absent.
    method CreateTemp(record: Record) returns (temp: Option<Name>, ghost time: int)
      requires Valid() && Stamped(record) && record.event in After(log).offered
      modifies this
      ensures Advanced()
      ensures temp.Some? ==> temp.value.Temp? && temp.value !in old(files)
      ensures temp.Some? ==> files == old(files)[temp.value := File(record, time)]
      ensures temp.None? ==> files == old(files) && failures > old(failures)
      ensures temp.Some? ==> failures == old(failures)
    {
      var failed := Call();
      if failed {
        return None, 0;
      }
      var t := Now();
      var name := Temp(calls);
      calls := calls + 1;
      FailuresGrow(fails, old(calls), calls);
      Put(name, File(record, t));
      return Some(name), t;
    }

    method Put(name: Name, file: File)
      requires Valid() && Safe(After(log), Create(name, file)) && name.nonce < calls
      modifies this`files, this`log
      ensures Advanced() && files == old(files)[name := file]
    {
      AppendEntry(log, Create(name, file));
      files := files[name := file];
      log := log + [Create(name, file)];
    }

    method Rename(from: Name, to: Name) returns (r: Outcome)
      requires Valid() && !to.Temp? && (from in files ==> files[from].record.id == to.id)
      modifies this
      ensures Advanced()
      ensures r.Done? ==> from in old(files) && files == Moved(old(files), from, to)
      ensures !r.Done? ==> files == old(files)
      ensures r.Missing? ==> from !in files
      ensures if r.Failed? then failures > old(failures) else failures == old(failures)
      ensures from.Temp? && r.Done? ==> ItemOf(old(files)[from].record) in After(log).published
    {
      var failed := Call();
      if failed {
        return Failed;
      }
      if from !in files {
        return Missing;
      }
      AppendEntry(log, Entry.Rename(from, to));
      files := Moved(files, from, to);
      log := log + [Entry.Rename(from, to)];
      return Done;
    }

    // os.Remove; `why` says what makes it safe. An age must be a configured one and the time must
    // have been read from the clock.
    method Remove(name: Name, ghost why: Why) returns (r: Outcome)
      requires Valid() && (name in files ==> Safe(After(log), Entry.Remove(name, why)))
      requires why.Expired? ==> why.age in ages && why.call < calls && why.now == clock(why.call)
      modifies this
      ensures Advanced()
      ensures !r.Failed? ==> files == old(files) - {name}
      ensures r.Failed? ==> files == old(files) && failures > old(failures)
      ensures !r.Failed? ==> failures == old(failures)
    {
      var failed := Call();
      if failed {
        return Failed;
      }
      if name !in files {
        return Missing;
      }
      AppendEntry(log, Entry.Remove(name, why));
      files := files - {name};
      log := log + [Entry.Remove(name, why)];
      return Done;
    }

    // os.Stat, os.ReadFile with decoding.
    method Look(name: Name) returns (r: Lookup)
      requires Valid()
      modifies this
      ensures Advanced() && files == old(files) && log == old(log)
      ensures r.Found? ==> name in files && files[name] == r.file
      ensures r.NoFile? ==> name !in files
      ensures if r.Unreadable? then failures > old(failures) else failures == old(failures)
    {
      var failed := Call();
      if failed {
        return Unreadable;
      }
      if name in files {
        return Found(files[name]);
      }
      return NoFile;
    }

    method Sync() returns (ok: bool)
      requires Valid()
      modifies this
      ensures Advanced() && files == old(files) && log == old(log)
      ensures if ok then failures == old(failures) else failures > old(failures)
    {
      var failed := Call();
      ok := !failed;
    }

    // os.ReadDir.
    method List() returns (names: Option<seq<Name>>)
      requires Valid()
      modifies this
      ensures Advanced() && files == old(files) && log == old(log)
      ensures names.Some? ==> ListsAll(names.value, files)
      ensures if names.Some? then failures == old(failures) else failures > old(failures)
      ensures fails(old(calls)) ==> names.None?
    {
      var failed := Call();
      if failed {
        return None;
      }
      var rest, listed := files.Keys, [];
      while rest != {}
        invariant Advanced() && files == old(files) && log == old(log) && failures == old(failures)
        invariant forall n :: n in listed <==> n in files && n !in rest
        invariant rest <= files.Keys
        invariant Distinct(listed)
        decreases |rest|
      {
        var n :| n in rest;
        rest, listed := rest - {n}, listed + [n];
      }
      return Some(listed);
    }

    // What the primary sink reported, for the log.
    ghost method Accepted(items: set<Item>)
      requires Valid() && items <= After(log).published
      modifies this`log
      ensures Valid() && old(log) <= log
      ensures After(log) == After(old(log)).(accepted := After(old(log)).accepted + items)
    {
      AppendEntry(log, Accept(items));
      log := log + [Accept(items)];
    }
  }
}
