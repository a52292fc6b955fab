/** The spool directory as a log of file steps. Every prefix of a log is a log, so what holds at the
    end of every log holds wherever a process dies and however processes take turns. */
module SpoolLog {
  import opened Events
  import opened SpoolNames

  datatype Record = Record(id: string, createdAt: int, retryCount: nat, lastError: string, event: Event)

  function NewRecord(now: int, number: nat, event: Event): Record {
    Record(RecordId(now, number, event.eventId), now, 0, "", event)
  }

  // The identifier was made from the record's own time and event.
  ghost predicate Stamped(r: Record) {
    exists n: nat :: r.id == RecordId(r.createdAt, n, r.event.eventId)
  }

  ghost function Number(r: Record): nat
    requires Stamped(r)
  {
    var n: nat :| r.id == RecordId(r.createdAt, n, r.event.eventId);
    n
  }

  // id.json, id.inflight.pid.seq and id-*.tmp; see SpoolNames for the strings.
  datatype Name = Committed(id: string) | Claimed(id: string, pid: nat, number: nat) | Temp(nonce: nat)

  datatype File = File(record: Record, written: int)

  type Dir = map<Name, File>

  // What the spool answers for: a record identifier together with its event.
  datatype Item = Item(id: string, event: Event)

  function ItemOf(r: Record): Item { Item(r.id, r.event) }

  // A record purged under a maximal age when the given call of the clock showed `now`.
  datatype Expiry = Expiry(record: Record, age: int, now: int, call: nat)

  // offered: handed to the spool; published: once committed; accepted: the primary sink took it.
  datatype World = World(files: Dir, offered: set<Event>, published: set<Item>, accepted: set<Item>,
                         expired: set<Expiry>)

  const EMPTY: World := World(map[], {}, {}, {}, {})

  datatype Why = Copy | Expired(age: int, now: int, call: nat) | Delivered

  datatype Entry = Offer(events: set<Event>) | Create(name: Name, file: File) | Rename(from: Name, to: Name)
                 | Remove(name: Name, why: Why) | Accept(items: set<Item>)

  ghost predicate HasCopy(files: Dir, name: Name) {
    !name.Temp? && exists other :: other in files && other != name && !other.Temp? && other.id == name.id
  }

  // A positive age that the record had reached at the time read from the clock.
  predicate Aged(p: Expiry) { p.age > 0 && p.record.createdAt <= p.now - p.age }

  function ExpiryOf(r: Record, why: Why): Expiry
    requires why.Expired?
  {
    Expiry(r, why.age, why.now, why.call)
  }

  // The steps the spool may take.
  ghost predicate Safe(w: World, e: Entry) {
    match e
    case Offer(events) => true
    case Create(name, file) =>
      name.Temp? && name !in w.files && Stamped(file.record) && file.record.event in w.offered
    case Rename(from, to) => from in w.files && !to.Temp? && w.files[from].record.id == to.id
    case Accept(items) => items <= w.published
    case Remove(name, why) =>
      && name in w.files
      && (name.Temp? ||
          match why
          case Copy => HasCopy(w.files, name)
          case Expired(_, _, _) => name.Committed? && Aged(ExpiryOf(w.files[name].record, why))
          case Delivered => name.Claimed? && exists a :: a in w.accepted && a.id == name.id)
  }

  function Moved(files: Dir, from: Name, to: Name): Dir
    requires from in files
  {
    (files - {from})[to := files[from]]
  }

  ghost function Apply(w: World, e: Entry): World {
    match e
    case Offer(events) => w.(offered := w.offered + events)
    case Create(name, file) => w.(files := w.files[name := file])
    case Rename(from, to) =>
      if from !in w.files then w
      else w.(files := Moved(w.files, from, to),
              published := if from.Temp? then w.published + {ItemOf(w.files[from].record)} else w.published)
    case Accept(items) => w.(accepted := w.accepted + items)
    case Remove(name, why) =>
      w.(files := w.files - {name},
         expired := if why.Expired? && !name.Temp? && name in w.files
                    then w.expired + {ExpiryOf(w.files[name].record, why)} else w.expired)
  }

  ghost function After(log: seq<Entry>): World {
    if log == [] then EMPTY else Apply(After(log[..|log| - 1]), log[|log| - 1])
  }

  ghost predicate SafeLog(log: seq<Entry>) {
    log == [] || (SafeLog(log[..|log| - 1]) && Safe(After(log[..|log| - 1]), log[|log| - 1]))
  }

  // ----- nothing is lost -----

  ghost predicate Live(files: Dir, id: string) {
    exists name :: name in files && !name.Temp? && name.id == id
  }

  ghost predicate ExpiredId(w: World, id: string) {
    exists p :: p in w.expired && p.record.id == id
  }

  ghost predicate Kept(w: World, id: string) {
    Live(w.files, id) || (exists a :: a in w.accepted && a.id == id) || ExpiredId(w, id)
  }

  ghost predicate WellNamed(w: World) {
    forall name :: name in w.files && !name.Temp? ==>
      w.files[name].record.id == name.id && ItemOf(w.files[name].record) in w.published
  }

  // Every file holds an event that was handed over, under an identifier made for it.
  ghost predicate WellStamped(w: World) {
    forall name :: name in w.files ==> Stamped(w.files[name].record) && w.files[name].record.event in w.offered
  }

  ghost predicate Issued(item: Item) {
    exists r :: Stamped(r) && ItemOf(r) == item
  }

  ghost predicate WellIssued(w: World) {
    forall item :: item in w.published ==> Issued(item) && item.event in w.offered
  }

  ghost predicate Traced(w: World) {
    && w.accepted <= w.published
    && forall p :: p in w.expired ==> Aged(p) && ItemOf(p.record) in w.published
  }

  ghost predicate Sound(w: World) {
    && WellNamed(w) && WellStamped(w) && WellIssued(w) && Traced(w)
    && forall item :: item in w.published ==> Kept(w, item.id)
  }

  lemma {:induction false} StepKeepsNames(w: World, e: Entry)
    requires Sound(w) && Safe(w, e)
    ensures WellNamed(Apply(w, e)) && WellStamped(Apply(w, e))
  {
  }

  lemma {:induction false} StepKeepsTraces(w: World, e: Entry)
    requires Sound(w) && Safe(w, e)
    ensures WellIssued(Apply(w, e)) && Traced(Apply(w, e))
  {
    if e.Rename? {
      assert Issued(ItemOf(w.files[e.from].record));
    }
  }

  // Only a delivered acknowledgement or an expiry ends the last file of a record.
  lemma {:induction false} StepKeepsRecord(w: World, e: Entry, id: string)
    requires WellNamed(w) && Safe(w, e) && Kept(w, id)
    ensures Kept(Apply(w, e), id)
  {
    var after := Apply(w, e);
    if name :| name in w.files && !name.Temp? && name.id == id {
      match e {
        case Rename(from, to) =>
          assert (if name == from then to else name) in after.files;
        case Remove(gone, why) =>
          RemoveKeepsRecord(w, gone, why, name);
        case _ =>
          assert name in after.files;
      }
    } else if p :| p in w.expired && p.record.id == id {
      assert p in after.expired;
    } else {
      var a :| a in w.accepted && a.id == id;
      assert a in after.accepted;
    }
  }

  lemma {:induction false} RemoveKeepsRecord(w: World, gone: Name, why: Why, name: Name)
    requires WellNamed(w) && Safe(w, Remove(gone, why)) && name in w.files && !name.Temp?
    ensures Kept(Apply(w, Remove(gone, why)), name.id)
  {
    var after := Apply(w, Remove(gone, why));
    if gone != name {
      assert name in after.files;
    } else if why.Copy? {
      var other :| other in w.files && other != name && !other.Temp? && other.id == name.id;
      assert other in after.files;
    } else if why.Expired? {
      assert ExpiryOf(w.files[name].record, why) in after.expired;
    }
  }

  lemma {:induction false} StepKeepsSound(w: World, e: Entry)
    requires Sound(w) && Safe(w, e)
    ensures Sound(Apply(w, e))
  {
    StepKeepsNames(w, e);
    StepKeepsTraces(w, e);
    var after := Apply(w, e);
    forall item | item in after.published ensures Kept(after, item.id) {
      if item in w.published {
        StepKeepsRecord(w, e, item.id);
      } else {
        assert e.to in after.files;
      }
    }
  }

  lemma {:induction false} LogIsSound(log: seq<Entry>)
    requires SafeLog(log)
    ensures Sound(After(log))
  {
    if log != [] {
      LogIsSound(log[..|log| - 1]);
      StepKeepsSound(After(log[..|log| - 1]), log[|log| - 1]);
    }
  }

  // ----- identifiers and events -----

  // Two records share an identifier exactly when they share time, number and cleaned event id.
  lemma {:induction false} SameId(r1: Record, r2: Record)
    requires Stamped(r1) && Stamped(r2)
    ensures r1.id == r2.id <==>
            r1.createdAt == r2.createdAt && Number(r1) == Number(r2)
                && Clean(r1.event.eventId) == Clean(r2.event.eventId)
  {
    RecordIdUnique(r1.createdAt, Number(r1), r1.event.eventId, r2.createdAt, Number(r2), r2.event.eventId);
  }

  lemma {:induction false} NumberOfNew(now: int, number: nat, event: Event)
    ensures Stamped(NewRecord(now, number, event)) && Number(NewRecord(now, number, event)) == number
  {
    var r := NewRecord(now, number, event);
    assert r.id == RecordId(r.createdAt, number, r.event.eventId);
    RecordIdUnique(now, Number(r), event.eventId, now, number, event.eventId);
  }

  // Different events keep different event ids once these are made fit for a file name.
  ghost predicate DistinctlyNamed(events: set<Event>) {
    forall x, y :: x in events && y in events && Clean(x.eventId) == Clean(y.eventId) ==> x == y
  }

  ghost predicate OneEventPerId(items: set<Item>) {
    forall x, y :: x in items && y in items && x.id == y.id ==> x == y
  }

  lemma {:induction false} DistinctNamesSuffice(w: World)
    requires WellIssued(w) && DistinctlyNamed(w.offered)
    ensures OneEventPerId(w.published)
  {
    forall x, y | x in w.published && y in w.published && x.id == y.id ensures x == y {
      var r1 :| Stamped(r1) && ItemOf(r1) == x;
      var r2 :| Stamped(r2) && ItemOf(r2) == y;
      SameId(r1, r2);
    }
  }

  // ----- the main result -----

  // An event once committed is in a file, or the primary sink took it, or its record was purged when
  // the clock showed that it had reached the maximal age.
  ghost predicate Answered(w: World, item: Item) {
    || (exists name :: name in w.files && !name.Temp? && ItemOf(w.files[name].record) == item)
    || item in w.accepted
    || (exists p :: p in w.expired && ItemOf(p.record) == item && Aged(p))
  }

  ghost predicate NothingLost(w: World) {
    forall item :: item in w.published ==> Answered(w, item)
  }

  // At the end of every log over distinctly named events, nothing is lost.
  lemma {:induction false} NoLoss(log: seq<Entry>)
    requires SafeLog(log) && DistinctlyNamed(After(log).offered)
    ensures NothingLost(After(log))
  {
    var w := After(log);
    LogIsSound(log);
    DistinctNamesSuffice(w);
    forall item | item in w.published ensures Answered(w, item) {
      assert Kept(w, item.id);
      if name :| name in w.files && !name.Temp? && name.id == item.id {
        assert ItemOf(w.files[name].record) in w.published;
      } else if p :| p in w.expired && p.record.id == item.id {
        assert ItemOf(p.record) in w.published;
      }
    }
  }

  function CommitSteps(r: Record): seq<Entry> {
    [Create(Temp(0), File(r, 0)), Rename(Temp(0), Committed(r.id))]
  }

  // Two processes commit records under one identifier.
  function CollidingSteps(r1: Record, r2: Record, events: set<Event>): seq<Entry> {
    ([Offer(events)] + CommitSteps(r1)) + CommitSteps(r2)
  }

  lemma {:induction false} CommitsOne(log: seq<Entry>, r: Record)
    requires SafeLog(log) && Stamped(r) && r.event in After(log).offered && Temp(0) !in After(log).files
    ensures var w := After(log);
            && SafeLog(log + CommitSteps(r))
            && After(log + CommitSteps(r)) == w.(files := w.files[Committed(r.id) := File(r, 0)],
                                                 published := w.published + {ItemOf(r)})
  {
    var w, steps := After(log), CommitSteps(r);
    AppendEntry(log, steps[0]);
    AppendEntry(log + [steps[0]], steps[1]);
    assert (log + [steps[0]]) + [steps[1]] == log + steps;
    var mid := w.files[Temp(0) := File(r, 0)];
    assert Moved(mid, Temp(0), Committed(r.id)) == w.files[Committed(r.id) := File(r, 0)];
  }

  lemma {:induction false} SecondOverwrites(r1: Record, r2: Record, events: set<Event>)
    requires Stamped(r1) && Stamped(r2) && r1.id == r2.id && r1.event != r2.event
    requires r1.event in events && r2.event in events
    ensures var log := CollidingSteps(r1, r2, events);
            SafeLog(log) && After(log).offered == events && !NothingLost(After(log))
  {
    var one := [Offer(events)];
    assert [] + one == one;
    AppendEntry([], Offer(events));
    CommitsOne(one, r1);
    CommitsOne(one + CommitSteps(r1), r2);
    var w := After(CollidingSteps(r1, r2, events));
    assert w.files == map[Committed(r1.id) := File(r2, 0)];
    Overwritten(w, r1, r2);
  }

  lemma {:induction false} Overwritten(w: World, r1: Record, r2: Record)
    requires w.files == map[Committed(r1.id) := File(r2, 0)] && w.accepted == {} && w.expired == {}
    requires ItemOf(r1) in w.published && r1.event != r2.event
    ensures !NothingLost(w)
  {
    assert !Answered(w, ItemOf(r1));
  }

  // Events that share a cleaned event id and are stored at one instant under one number, as two
  // processes may: one of them is lost.
  lemma {:induction false} CollisionLoses(e1: Event, e2: Event, events: set<Event>)
    requires e1 in events && e2 in events && e1 != e2 && Clean(e1.eventId) == Clean(e2.eventId)
    ensures var log := CollidingSteps(NewRecord(0, 1, e1), NewRecord(0, 1, e2), events);
            SafeLog(log) && After(log).offered == events && !NothingLost(After(log))
  {
    RecordIdUnique(0, 1, e1.eventId, 0, 1, e2.eventId);
    NumberOfNew(0, 1, e1);
    NumberOfNew(0, 1, e2);
    SecondOverwrites(NewRecord(0, 1, e1), NewRecord(0, 1, e2), events);
  }

  ghost predicate AlwaysSafe(events: set<Event>) {
    forall log :: SafeLog(log) && After(log).offered == events ==> NothingLost(After(log))
  }

  // Whatever is handed over survives every run if and only if different events have different
  // cleaned event ids.
  lemma {:induction false} NoLossExactly(events: set<Event>)
    ensures AlwaysSafe(events) <==> DistinctlyNamed(events)
  {
    if DistinctlyNamed(events) {
      forall log | SafeLog(log) && After(log).offered == events ensures NothingLost(After(log)) {
        NoLoss(log);
      }
    } else {
      var e1, e2 :| e1 in events && e2 in events && Clean(e1.eventId) == Clean(e2.eventId) && e1 != e2;
      CollisionLoses(e1, e2, events);
    }
  }

  // Events whose ids are not empty, free of separators and pairwise different are never lost.
  lemma {:induction false} PlainIdsNeverLost(events: set<Event>)
    requires forall e :: e in events ==>
               e.eventId != "" && '/' !in e.eventId && '\\' !in e.eventId && ':' !in e.eventId
    requires forall x, y :: x in events && y in events && x.eventId == y.eventId ==> x == y
    ensures AlwaysSafe(events)
  {
    forall e | e in events ensures Clean(e.eventId) == e.eventId {
      PlainIdKept(e.eventId);
    }
    NoLossExactly(events);
  }

  // ----- growing a log -----

  lemma {:induction false} AppendEntry(log: seq<Entry>, e: Entry)
    requires SafeLog(log) && Safe(After(log), e)
    ensures SafeLog(log + [e]) && After(log + [e]) == Apply(After(log), e)
  {
    assert (log + [e])[..|log|] == log;
  }

  // A crash cuts the log anywhere and leaves a log.
  lemma {:induction false} PrefixSafe(log: seq<Entry>, n: nat)
    requires SafeLog(log) && n <= |log|
    ensures SafeLog(log[..n])
  {
    if n < |log| {
      assert log[..|log| - 1][..n] == log[..n];
      PrefixSafe(log[..|log| - 1], n);
    } else {
      assert log[..n] == log;
    }
  }

  lemma {:induction false} HistoryGrows(before: seq<Entry>, log: seq<Entry>)
    requires before <= log
    ensures After(before).published <= After(log).published && After(before).accepted <= After(log).accepted
    ensures After(before).expired <= After(log).expired && After(before).offered <= After(log).offered
  {
    if |before| < |log| {
      HistoryGrows(before, log[..|log| - 1]);
    } else {
      assert before == log;
    }
  }
}
