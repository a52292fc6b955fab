/** Cloning the active revision's records into a draft, table by table:
    internal/adapters/postgres/configstore/revision_clone_orchestration.go and the clone.go files of the
    policy, routing, clients and traffic contexts. A row keeps its plain columns in `columns`; what
    refers to another row of the revision is in `refs`. Clients are shared, so an override's client
    is a plain column. */
module Clone {
  import opened Options
  import opened Lists

  // The tables, in the order in which they are cloned.
  datatype Kind = Provider | ModelMapping | Route | RouteLimit | ClientOverride | VerdictProvider
                | Bundle | Detector | Rule | RuleDetector | RuleScope | PolicyBinding | VerdictBinding
                | Sink | Retention | RawCapture

  const TABLES: seq<Kind> := [Provider, ModelMapping, Route, RouteLimit, ClientOverride, VerdictProvider,
                              Bundle, Detector, Rule, RuleDetector, RuleScope, PolicyBinding, VerdictBinding,
                              Sink, Retention, RawCapture]

  function Rank(k: Kind): nat {
    match k
    case Provider => 0
    case ModelMapping => 1
    case Route => 2
    case RouteLimit => 3
    case ClientOverride => 4
    case VerdictProvider => 5
    case Bundle => 6
    case Detector => 7
    case Rule => 8
    case RuleDetector => 9
    case RuleScope => 10
    case PolicyBinding => 11
    case VerdictBinding => 12
    case Sink => 13
    case Retention => 14
    case RawCapture => 15
  }

  datatype Ref = Required(target: Kind) | Optional(target: Kind)

  // The remapped references of each table.
  function Schema(k: Kind): (r: seq<Ref>)
    ensures forall i :: 0 <= i < |r| ==> Rank(r[i].target) < Rank(k)
    ensures !HasRevision(k) ==> r != [] && r[0].Required?
  {
    match k
    case ModelMapping => [Optional(Provider)]
    case Route => [Optional(ModelMapping)]
    case RouteLimit => [Required(Route)]
    case ClientOverride => [Required(Route)]
    case Detector => [Required(Bundle)]
    case Rule => [Required(Bundle)]
    case RuleDetector => [Required(Rule), Required(Detector)]
    case RuleScope => [Required(Rule), Optional(Route), Optional(Provider)]
    case PolicyBinding => [Required(Route), Required(Bundle)]
    case VerdictBinding => [Required(Route), Required(VerdictProvider)]
    case Retention => [Optional(Sink)]
    case RawCapture => [Optional(Route)]
    case _ => []
  }

  // The other tables belong to the revision of their first reference.
  predicate HasRevision(k: Kind) {
    !(k.Detector? || k.Rule? || k.RuleDetector? || k.RuleScope? || k.PolicyBinding? || k.VerdictBinding?)
  }

  datatype Row = Row(kind: Kind, revision: Option<nat>, refs: seq<Option<nat>>, columns: string)

  type Rows = map<nat, Row>

  // Foreign keys and not-null constraints of the schema.
  predicate WellFormed(rows: Rows, row: Row) {
    && |row.refs| == |Schema(row.kind)|
    && (HasRevision(row.kind) <==> row.revision.Some?)
    && forall i :: 0 <= i < |row.refs| ==>
         if row.refs[i].None? then Schema(row.kind)[i].Optional?
         else row.refs[i].value in rows && rows[row.refs[i].value].kind == Schema(row.kind)[i].target
  }

  predicate ForeignKeys(rows: Rows) { forall id :: id in rows ==> WellFormed(rows, rows[id]) }

  predicate Owned(rows: Rows, id: nat, revision: nat)
    requires ForeignKeys(rows) && id in rows
    decreases Rank(rows[id].kind)
  {
    var row := rows[id];
    assert WellFormed(rows, row);
    if HasRevision(row.kind) then row.revision == Some(revision) else Owned(rows, row.refs[0].value, revision)
  }

  // No row of the revision refers to a row of another one.
  ghost predicate SelfContained(rows: Rows, revision: nat)
    requires ForeignKeys(rows)
  {
    forall id, i :: id in rows && Owned(rows, id, revision) && 0 <= i < |rows[id].refs| && rows[id].refs[i].Some? ==>
      WellFormed(rows, rows[id]) && Owned(rows, rows[id].refs[i].value, revision)
  }

  // The row that names the revision a row belongs to: itself, its bundle or route, or its rule's bundle.
  predicate OwnerOf(rows: Rows, id: nat, owner: nat) {
    && id in rows && owner in rows
    && match rows[id].kind
       case Detector => rows[id].refs == [Some(owner)]
       case Rule => rows[id].refs == [Some(owner)]
       case PolicyBinding => |rows[id].refs| == 2 && rows[id].refs[0] == Some(owner)
       case VerdictBinding => |rows[id].refs| == 2 && rows[id].refs[0] == Some(owner)
       case RuleDetector => |rows[id].refs| == 2 && OwnedByRule(rows, rows[id].refs[0], owner)
       case RuleScope => |rows[id].refs| == 3 && OwnedByRule(rows, rows[id].refs[0], owner)
       case _ => owner == id
  }

  predicate OwnedByRule(rows: Rows, rule: Option<nat>, bundle: nat) {
    rule.Some? && rule.value in rows && rows[rule.value].kind == Rule && rows[rule.value].refs == [Some(bundle)]
  }

  lemma {:induction false} OwnedExactly(rows: Rows, id: nat, owner: nat, revision: nat)
    requires ForeignKeys(rows) && OwnerOf(rows, id, owner)
    ensures Owned(rows, id, revision) <==> rows[owner].revision == Some(revision)
    decreases Rank(rows[id].kind)
  {
    assert WellFormed(rows, rows[id]);
    if !HasRevision(rows[id].kind) {
      OwnedExactly(rows, rows[id].refs[0].value, owner, revision);
    }
  }

  // Every row has such an owner.
  lemma {:induction false} OwnerExists(rows: Rows, id: nat) returns (owner: nat)
    requires ForeignKeys(rows) && id in rows
    ensures OwnerOf(rows, id, owner)
  {
    assert WellFormed(rows, rows[id]);
    if HasRevision(rows[id].kind) {
      owner := id;
    } else {
      owner := rows[id].refs[0].value;
      if rows[owner].kind == Rule {
        assert WellFormed(rows, rows[owner]);
        owner := rows[owner].refs[0].value;
      }
    }
  }

  // ----- copies -----

  function MapRefs(refs: seq<Option<nat>>, ids: map<nat, nat>): (r: seq<Option<nat>>)
    ensures |r| == |refs|
    ensures forall i :: 0 <= i < |r| ==>
              r[i] == if refs[i].Some? && refs[i].value in ids then Some(ids[refs[i].value]) else None
  {
    seq(|refs|, i requires 0 <= i < |refs| =>
      if refs[i].Some? && refs[i].value in ids then Some(ids[refs[i].value]) else None)
  }

  function Copy(row: Row, ids: map<nat, nat>, draft: nat): Row {
    Row(row.kind, if HasRevision(row.kind) then Some(draft) else None, MapRefs(row.refs, ids), row.columns)
  }

  predicate RefsKnown(row: Row, ids: map<nat, nat>) {
    forall i :: 0 <= i < |row.refs| && row.refs[i].Some? ==> row.refs[i].value in ids
  }

  // Part of a clone: old rows are untouched, each new row is the copy of one old row, and what an
  // original refers to has been copied too.
  ghost predicate Cloning(before: Rows, after: Rows, ids: map<nat, nat>, draft: nat) {
    && (forall id :: id in before ==> id in after && after[id] == before[id])
    && (forall id :: id in ids ==>
          && id in before && ids[id] !in before && ids[id] in after && RefsKnown(before[id], ids)
          && after[ids[id]] == Copy(before[id], ids, draft))
    && (forall id :: id in after && id !in before ==> exists o :: o in ids && ids[o] == id)
    && forall a, b :: a in ids && b in ids && ids[a] == ids[b] ==> a == b
  }

  lemma {:induction false} CopyStable(row: Row, ids: map<nat, nat>, draft: nat, id: nat, newId: nat)
    requires RefsKnown(row, ids) && id !in ids
    ensures Copy(row, ids[id := newId], draft) == Copy(row, ids, draft) && RefsKnown(row, ids[id := newId])
  {
    assert MapRefs(row.refs, ids) == MapRefs(row.refs, ids[id := newId]);
  }

  lemma {:induction false} CloneStep(before: Rows, after: Rows, ids: map<nat, nat>, draft: nat, id: nat, newId: nat)
    requires Cloning(before, after, ids, draft) && id in before && id !in ids && newId !in after
    requires RefsKnown(before[id], ids)
    ensures Cloning(before, after[newId := Copy(before[id], ids, draft)], ids[id := newId], draft)
  {
    var more, rows := ids[id := newId], after[newId := Copy(before[id], ids, draft)];
    forall o | o in more
      ensures o in before && more[o] !in before && more[o] in rows && RefsKnown(before[o], more)
              && rows[more[o]] == Copy(before[o], more, draft)
    {
      CopyStable(before[o], ids, draft, id, newId);
    }
    forall r | r in rows && r !in before ensures exists o :: o in more && more[o] == r {
      if r == newId {
        assert more[id] == r;
      } else {
        var o :| o in ids && ids[o] == r;
        assert more[o] == r;
      }
    }
  }

  // ----- the meaning of a revision: rows with references resolved -----

  datatype Tree = Node(kind: Kind, columns: string, refs: seq<Tree>) | Nothing

  ghost function Unfold(rows: Rows, id: nat): Tree
    requires ForeignKeys(rows) && id in rows
    decreases Rank(rows[id].kind), 1
  {
    Node(rows[id].kind, rows[id].columns,
         seq(|rows[id].refs|, i requires 0 <= i < |rows[id].refs| => UnfoldRef(rows, id, i)))
  }

  ghost function UnfoldRef(rows: Rows, id: nat, i: nat): Tree
    requires ForeignKeys(rows) && id in rows && i < |rows[id].refs|
    decreases Rank(rows[id].kind), 0
  {
    assert WellFormed(rows, rows[id]);
    if rows[id].refs[i].None? then Nothing else Unfold(rows, rows[id].refs[i].value)
  }

  // ----- a clone in progress is a consistent database -----

  lemma {:induction false} CopyWellFormed(before: Rows, after: Rows, ids: map<nat, nat>, draft: nat)
    requires ForeignKeys(before) && Cloning(before, after, ids, draft)
    ensures ForeignKeys(after)
  {
    forall id | id in after ensures WellFormed(after, after[id]) {
      if id in before {
        assert WellFormed(before, before[id]);
      } else {
        var o :| o in ids && ids[o] == id;
        assert WellFormed(before, before[o]);
      }
    }
  }

  lemma {:induction false} OldOwners(before: Rows, after: Rows, ids: map<nat, nat>, draft: nat, id: nat, revision: nat)
    requires ForeignKeys(before) && ForeignKeys(after) && Cloning(before, after, ids, draft) && id in before
    ensures Owned(after, id, revision) <==> Owned(before, id, revision)
    decreases Rank(before[id].kind)
  {
    if !HasRevision(before[id].kind) {
      assert WellFormed(before, before[id]);
      OldOwners(before, after, ids, draft, before[id].refs[0].value, revision);
    }
  }

  // The copies belong to the draft and to no other revision.
  lemma {:induction false} CopyOwners(before: Rows, after: Rows, ids: map<nat, nat>, draft: nat, id: nat, revision: nat)
    requires ForeignKeys(before) && ForeignKeys(after) && Cloning(before, after, ids, draft) && id in ids
    ensures Owned(after, ids[id], revision) <==> revision == draft
    decreases Rank(before[id].kind)
  {
    if !HasRevision(before[id].kind) {
      assert WellFormed(before, before[id]);
      CopyOwners(before, after, ids, draft, before[id].refs[0].value, revision);
    }
  }

  // Rows that correspond under m agree in everything but identifiers and revision.
  ghost predicate Mirrors(before: Rows, after: Rows, m: map<nat, nat>) {
    forall id :: id in m ==>
      && id in before && m[id] in after && RefsKnown(before[id], m)
      && after[m[id]].kind == before[id].kind && after[m[id]].columns == before[id].columns
      && after[m[id]].refs == MapRefs(before[id].refs, m)
  }

  lemma {:induction false} SameTree(before: Rows, after: Rows, m: map<nat, nat>, id: nat)
    requires ForeignKeys(before) && ForeignKeys(after) && Mirrors(before, after, m) && id in m
    ensures Unfold(after, m[id]) == Unfold(before, id)
    decreases Rank(before[id].kind), 1
  {
    forall i | 0 <= i < |before[id].refs| ensures UnfoldRef(after, m[id], i) == UnfoldRef(before, id, i) {
      SameRef(before, after, m, id, i);
    }
    assert Unfold(after, m[id]).refs == Unfold(before, id).refs;
  }

  lemma {:induction false} SameRef(before: Rows, after: Rows, m: map<nat, nat>, id: nat, i: nat)
    requires ForeignKeys(before) && ForeignKeys(after) && Mirrors(before, after, m)
    requires id in m && i < |before[id].refs|
    ensures UnfoldRef(after, m[id], i) == UnfoldRef(before, id, i)
    decreases Rank(before[id].kind), 0
  {
    assert WellFormed(before, before[id]);
    if before[id].refs[i].Some? {
      SameTree(before, after, m, before[id].refs[i].value);
    }
  }

  // Nothing moved: every row mirrors itself.
  lemma {:induction false} OldMirrors(before: Rows, after: Rows) returns (m: map<nat, nat>)
    requires ForeignKeys(before) && forall r :: r in before ==> r in after && after[r] == before[r]
    ensures Mirrors(before, after, m) && forall id :: id in before ==> id in m && m[id] == id
  {
    m := map id | id in before :: id;
    forall id | id in m ensures RefsKnown(before[id], m) && before[id].refs == MapRefs(before[id].refs, m) {
      assert WellFormed(before, before[id]);
    }
  }

  // ----- the finished clone -----

  ghost predicate OwnedBy(l: seq<nat>, rows: Rows, revision: nat)
    requires ForeignKeys(rows)
  {
    Distinct(l) && forall id :: id in l <==> id in rows && Owned(rows, id, revision)
  }

  // A draft without rows of its own.
  ghost predicate Fresh(rows: Rows, draft: nat)
    requires ForeignKeys(rows)
  {
    forall id :: id in rows ==> !Owned(rows, id, draft)
  }

  ghost predicate Complete(before: Rows, ids: map<nat, nat>, source: nat)
    requires ForeignKeys(before)
  {
    forall id :: id in ids <==> id in before && Owned(before, id, source)
  }

  ghost function TreeIn(rows: Rows): nat -> Tree {
    id => if ForeignKeys(rows) && id in rows then Unfold(rows, id) else Nothing
  }

  // What a list of rows says, references resolved.
  ghost function Trees(l: seq<nat>, rows: Rows): multiset<Tree> { Image(l, TreeIn(rows)) }

  function CopiesOf(l: seq<nat>, ids: map<nat, nat>): seq<nat>
    requires forall id :: id in l ==> id in ids
  {
    seq(|l|, i requires 0 <= i < |l| => assert l[i] in l; ids[l[i]])
  }

  lemma {:induction false} CopiesSameTrees(before: Rows, after: Rows, ids: map<nat, nat>, draft: nat, l: seq<nat>)
    requires ForeignKeys(before) && ForeignKeys(after) && Cloning(before, after, ids, draft)
    requires forall id :: id in l ==> id in ids
    ensures Trees(CopiesOf(l, ids), after) == Trees(l, before)
  {
    var copies := CopiesOf(l, ids);
    forall i | 0 <= i < |l| ensures TreeIn(after)(copies[i]) == TreeIn(before)(l[i]) {
      assert l[i] in l;
      SameTree(before, after, ids, l[i]);
    }
    ImageRelated(copies, l, TreeIn(after), TreeIn(before));
  }

  // The source's rows say after the clone what they said before it.
  lemma {:induction false} OldSameTrees(before: Rows, after: Rows, l: seq<nat>)
    requires ForeignKeys(before) && ForeignKeys(after) && forall id :: id in l ==> id in before
    requires forall r :: r in before ==> r in after && after[r] == before[r]
    ensures Trees(l, after) == Trees(l, before)
  {
    var m := OldMirrors(before, after);
    forall i | 0 <= i < |l| ensures TreeIn(after)(l[i]) == TreeIn(before)(l[i]) {
      assert l[i] in l;
      SameTree(before, after, m, l[i]);
    }
    ImageRelated(l, l, TreeIn(after), TreeIn(before));
  }

  // Rows listed in any order, and their copies listed in any order, unfold to the same trees.
  lemma {:induction false} ListedCopies(before: Rows, after: Rows, ids: map<nat, nat>, draft: nat, l: seq<nat>,
                                        copies: seq<nat>)
    requires ForeignKeys(before) && ForeignKeys(after) && Cloning(before, after, ids, draft)
    requires Distinct(l) && Distinct(copies) && (forall id :: id in l ==> id in ids)
    requires forall c :: c in copies <==> exists o :: o in l && ids[o] == c
    ensures Trees(copies, after) == Trees(l, before)
  {
    var list := CopiesOf(l, ids);
    forall i, j | 0 <= i < j < |list| ensures list[i] != list[j] {
      assert l[i] in l && l[j] in l && l[i] != l[j];
    }
    forall c ensures c in list <==> c in copies {
      if c in copies {
        var o :| o in l && ids[o] == c;
        var i :| 0 <= i < |l| && l[i] == o;
        assert list[i] == c;
      }
      if c in list {
        var i :| 0 <= i < |list| && list[i] == c;
        assert l[i] in l && ids[l[i]] == c;
      }
    }
    DistinctSameMembers(list, copies);
    ImagePermuted(list, copies, TreeIn(after));
    CopiesSameTrees(before, after, ids, draft, l);
  }

  // The draft means what the source means, up to row identifiers and order; the source keeps its
  // rows and its meaning.
  lemma {:induction false} ClonePreservesMeaning(before: Rows, after: Rows, ids: map<nat, nat>, source: nat, draft: nat,
                              l: seq<nat>, copies: seq<nat>)
    requires ForeignKeys(before) && Fresh(before, draft) && source != draft
    requires Cloning(before, after, ids, draft) && Complete(before, ids, source)
    requires ForeignKeys(after) && OwnedBy(l, before, source) && OwnedBy(copies, after, draft)
    ensures Trees(copies, after) == Trees(l, before)
    ensures OwnedBy(l, after, source) && Trees(l, after) == Trees(l, before)
    ensures SelfContained(after, draft)
  {
    forall c ensures c in copies <==> exists o :: o in l && ids[o] == c {
      if c in copies {
        if c in before {
          OldOwners(before, after, ids, draft, c, draft);
        }
        var o :| o in ids && ids[o] == c;
        assert o in l;
      }
      if o :| o in l && ids[o] == c {
        CopyOwners(before, after, ids, draft, o, draft);
      }
    }
    ListedCopies(before, after, ids, draft, l, copies);
    forall id ensures id in l <==> id in after && Owned(after, id, source) {
      if id in before {
        OldOwners(before, after, ids, draft, id, source);
      } else if id in after {
        var o :| o in ids && ids[o] == id;
        CopyOwners(before, after, ids, draft, o, source);
      }
    }
    OldSameTrees(before, after, l);
    DraftSelfContained(before, after, ids, draft);
  }

  lemma {:induction false} DraftSelfContained(before: Rows, after: Rows, ids: map<nat, nat>, draft: nat)
    requires ForeignKeys(before) && Fresh(before, draft) && Cloning(before, after, ids, draft) && ForeignKeys(after)
    ensures SelfContained(after, draft)
  {
    forall id, i | id in after && Owned(after, id, draft) && 0 <= i < |after[id].refs| && after[id].refs[i].Some?
      ensures WellFormed(after, after[id]) && Owned(after, after[id].refs[i].value, draft)
    {
      if id in before {
        OldOwners(before, after, ids, draft, id, draft);
      }
      var o :| o in ids && ids[o] == id;
      CopyOwners(before, after, ids, draft, before[o].refs[i].value, draft);
    }
  }

  // ----- where the references of a copy lead, table by table -----

  // Each reference of the original is to a row of the given table and that of the copy to its copy; the
  // optional ones may be empty, and then so are those of the copy.
  ghost predicate LeadsTo(before: Rows, after: Rows, ids: map<nat, nat>, id: nat, targets: seq<Kind>,
                          optional: set<nat>)
    requires id in ids && id in before && ids[id] in after
  {
    && |before[id].refs| == |after[ids[id]].refs| == |targets|
    && forall i :: 0 <= i < |targets| ==>
         match before[id].refs[i]
         case None => i in optional && after[ids[id]].refs[i] == None
         case Some(o) =>
           && o in ids && o in before && ids[o] in after && after[ids[id]].refs[i] == Some(ids[o])
           && before[o].kind == after[ids[o]].kind == targets[i]
  }

  function Targets(k: Kind): seq<Kind> {
    match k
    case Provider => []
    case ModelMapping => [Provider]
    case Route => [ModelMapping]
    case RouteLimit => [Route]
    case ClientOverride => [Route]
    case VerdictProvider => []
    case Bundle => []
    case Detector => [Bundle]
    case Rule => [Bundle]
    case RuleDetector => [Rule, Detector]
    case RuleScope => [Rule, Route, Provider]
    case PolicyBinding => [Route, Bundle]
    case VerdictBinding => [Route, VerdictProvider]
    case Sink => []
    case Retention => [Sink]
    case RawCapture => [Route]
  }

  // Positions that may be empty.
  function OptionalAt(k: Kind): set<nat> {
    if k in {ModelMapping, Route, Retention, RawCapture} then {0} else if k == RuleScope then {1, 2} else {}
  }

  // A copy keeps kind and columns, carries the draft where the table names a revision, and its references
  // lead to the copies of what the original's lead to.
  lemma {:induction false} CopyLeadsTo(before: Rows, after: Rows, ids: map<nat, nat>, draft: nat, id: nat)
    requires ForeignKeys(before) && Cloning(before, after, ids, draft) && id in ids
    ensures LeadsTo(before, after, ids, id, Targets(before[id].kind), OptionalAt(before[id].kind))
    ensures after[ids[id]].kind == before[id].kind && after[ids[id]].columns == before[id].columns
    ensures if before[id].kind in {Detector, Rule, RuleDetector, RuleScope, PolicyBinding, VerdictBinding}
            then after[ids[id]].revision == None else after[ids[id]].revision == Some(draft)
  {
    var row, targets := before[id], Targets(before[id].kind);
    SchemaTargets(row.kind);
    assert WellFormed(before, row);
    forall i | 0 <= i < |targets|
      ensures match row.refs[i]
              case None => i in OptionalAt(row.kind) && after[ids[id]].refs[i] == None
              case Some(o) => o in ids && o in before && ids[o] in after && after[ids[id]].refs[i] == Some(ids[o])
                              && before[o].kind == after[ids[o]].kind == targets[i]
    {
    }
  }

  lemma {:induction false} SchemaTargets(k: Kind)
    ensures |Schema(k)| == |Targets(k)|
    ensures forall i :: 0 <= i < |Targets(k)| ==>
              Schema(k)[i].target == Targets(k)[i] && (Schema(k)[i].Optional? <==> i in OptionalAt(k))
  {
  }

  // ----- the clone itself -----

  ghost predicate ClonedMeaning(before: Rows, after: Rows, source: nat, draft: nat)
    requires ForeignKeys(before) && ForeignKeys(after)
  {
    SelfContained(after, draft) && SameMeaning(before, after, source, draft)
  }

  // The rows of the source in the tables before number n have been cloned, and no others.
  ghost predicate ClonedUpTo(before: Rows, ids: map<nat, nat>, source: nat, n: nat)
    requires ForeignKeys(before)
  {
    forall id :: id in ids <==> id in before && Owned(before, id, source) && Rank(before[id].kind) < n
  }

  function Added(keys: set<nat>, l: seq<nat>, n: nat): set<nat>
    requires n <= |l|
  {
    if n == 0 then keys else Added(keys, l, n - 1) + {l[n - 1]}
  }

  lemma {:induction false} AddedExact(keys: set<nat>, l: seq<nat>, n: nat, id: nat)
    requires n <= |l|
    ensures id in Added(keys, l, n) <==> id in keys || id in l[..n]
  {
    if n > 0 {
      AddedExact(keys, l, n - 1, id);
      assert l[..n] == l[..n - 1] + [l[n - 1]];
    }
  }

  lemma {:induction false} AddedGrows(keys: set<nat>, l: seq<nat>, n: nat)
    requires n <= |l|
    ensures keys <= Added(keys, l, n)
  {
    if n > 0 {
      AddedGrows(keys, l, n - 1);
    }
  }

  lemma {:induction false} AddedAll(keys: set<nat>, l: seq<nat>)
    ensures keys <= Added(keys, l, |l|) && forall id :: id in Added(keys, l, |l|) <==> id in keys || id in l
  {
    AddedGrows(keys, l, |l|);
    forall id ensures id in Added(keys, l, |l|) <==> id in keys || id in l {
      AddedExact(keys, l, |l|, id);
      assert l[..|l|] == l;
    }
  }

  class Database {
    var rows: Rows
    var next: nat

    // Row numbers are never used twice.
    predicate Numbered()
      reads this
    {
      forall id :: id in rows ==> id < next
    }

    predicate Valid()
      reads this
    {
      ForeignKeys(rows) && Numbered()
    }

    method Insert(row: Row) returns (id: nat)
      requires Numbered()
      modifies this
      ensures Numbered() && id !in old(rows) && rows == old(rows)[id := row]
    {
      id := next;
      rows := rows[id := row];
      next := next + 1;
    }

    constructor (rows: Rows, next: nat)
      requires ForeignKeys(rows) && forall id :: id in rows ==> id < next
      ensures Valid() && this.rows == rows
    {
      this.rows, this.next := rows, next;
    }

    // select ... from one table, for one revision
    method Select(kind: Kind, revision: nat) returns (l: seq<nat>)
      requires Valid()
      ensures Distinct(l)
      ensures forall id :: id in l <==> id in rows && rows[id].kind == kind && Owned(rows, id, revision)
    {
      l := [];
      var rest := rows.Keys;
      while rest != {}
        invariant rest <= rows.Keys && Distinct(l)
        invariant forall id :: id in l <==> id in rows && id !in rest && rows[id].kind == kind
                                            && Owned(rows, id, revision)
        decreases |rest|
      {
        var id :| id in rest;
        rest := rest - {id};
        if rows[id].kind == kind && Owned(rows, id, revision) {
          l := l + [id];
        }
      }
    }

    // remapRequiredID and remapOptionalID on each reference of a row
    method RemapRefs(row: Row, ids: map<nat, nat>) returns (refs: Option<seq<Option<nat>>>)
      ensures refs.Some? <==> RefsKnown(row, ids)
      ensures refs.Some? ==> refs.value == MapRefs(row.refs, ids)
    {
      var mapped := [];
      for i := 0 to |row.refs|
        invariant |mapped| == i
        invariant forall k :: 0 <= k < i && row.refs[k].Some? ==> row.refs[k].value in ids
        invariant forall k :: 0 <= k < i ==> mapped[k] == MapRefs(row.refs, ids)[k]
      {
        var mappedRef: Option<nat> := None;
        if row.refs[i].Some? {
          if row.refs[i].value !in ids {
            return None;
          }
          mappedRef := Some(ids[row.refs[i].value]);
        }
        mapped := mapped + [mappedRef];
      }
      assert mapped == MapRefs(row.refs, ids);
      return Some(mapped);
    }

    method CloneTable(kind: Kind, source: nat, draft: nat, ids: map<nat, nat>, ghost before: Rows)
      returns (ok: bool, more: map<nat, nat>)
      requires Valid() && ForeignKeys(before) && source != draft
      requires Cloning(before, rows, ids, draft) && ClonedUpTo(before, ids, source, Rank(kind))
      modifies this
      ensures Valid() && Cloning(before, rows, more, draft)
      ensures ok ==> ClonedUpTo(before, more, source, Rank(kind) + 1)
      ensures !ok ==> !SelfContained(before, source)
    {
      var l := Select(kind, source);
      SelectedRows(before, rows, ids, source, draft, kind, l);
      ghost var bad;
      ok, more, bad := CloneRows(l, draft, ids, before);
      if ok {
        TableDone(before, ids, more, source, kind, l);
      } else {
        LowerCloned(before, ids, more, source, kind);
        NotSelfContained(before, more, source, bad);
      }
    }

    // The loop over the selected rows; `bad` is the row whose references could not be remapped.
    method CloneRows(l: seq<nat>, draft: nat, ids: map<nat, nat>, ghost before: Rows)
      returns (ok: bool, more: map<nat, nat>, ghost bad: nat)
      requires Valid() && ForeignKeys(before) && Cloning(before, rows, ids, draft)
      requires Distinct(l) && forall id :: id in l ==> id in before && id !in ids
      modifies this
      ensures Valid() && Cloning(before, rows, more, draft) && ids.Keys <= more.Keys
      ensures ok ==> forall id :: id in more <==> id in ids || id in l
      ensures !ok ==> bad in l && !RefsKnown(before[bad], more)
    {
      more, bad := ids, 0;
      ghost var keys := ids.Keys;
      for i := 0 to |l|
        invariant Valid() && Cloning(before, rows, more, draft)
        invariant more.Keys == keys && keys == Added(ids.Keys, l, i)
      {
        AddedExact(ids.Keys, l, i, l[i]);
        assert l[i] in l && l[i] !in l[..i];
        ok, more := CloneRow(l[i], draft, more, before);
        if !ok {
          bad := l[i];
          AddedGrows(ids.Keys, l, i);
          return;
        }
        keys := keys + {l[i]};
      }
      AddedAll(ids.Keys, l);
      ok := true;
    }

    method CloneRow(id: nat, draft: nat, ids: map<nat, nat>, ghost before: Rows) returns (ok: bool, more: map<nat, nat>)
      requires Valid() && ForeignKeys(before) && Cloning(before, rows, ids, draft) && id in before && id !in ids
      modifies this
      ensures Valid() && Cloning(before, rows, more, draft)
      ensures ok <==> RefsKnown(before[id], ids)
      ensures if ok then more.Keys == ids.Keys + {id} else more == ids
    {
      more := ids;
      var row := rows[id];
      var refs := RemapRefs(row, ids);
      if refs.None? {
        return false, ids;
      }
      ghost var current := rows;
      var newId := Insert(Row(row.kind, if HasRevision(row.kind) then Some(draft) else None, refs.value, row.columns));
      CloneStep(before, current, ids, draft, id, newId);
      more := ids[id := newId];
      CopyWellFormed(before, rows, more, draft);
      return true, more;
    }

    // cloneActiveRevisionAsDraft: it fails exactly when the source reaches outside itself.
    method CloneRevision(source: nat, draft: nat) returns (ok: bool, ghost ids: map<nat, nat>)
      requires Valid() && source != draft && Fresh(rows, draft)
      modifies this
      ensures Valid() && ForeignKeys(old(rows)) && Cloning(old(rows), rows, ids, draft)
      ensures ok <==> SelfContained(old(rows), source)
      ensures ok ==> Complete(old(rows), ids, source) && ClonedMeaning(old(rows), rows, source, draft)
    {
      ghost var before := rows;
      var known: map<nat, nat> := map[];
      for i := 0 to |TABLES|
        invariant Valid() && Cloning(before, rows, known, draft) && ClonedUpTo(before, known, source, i)
      {
        TableRank(i);
        ok, known := CloneTable(TABLES[i], source, draft, known, before);
        if !ok {
          return false, known;
        }
      }
      CloneDone(before, rows, known, source, draft);
      return true, known;
    }
  }

  lemma {:induction false} TableRank(i: nat)
    requires i < |TABLES|
    ensures Rank(TABLES[i]) == i
  {
  }

  // The rows selected for one table are the originals of the source, not copies.
  lemma {:induction false} SelectedRows(before: Rows, after: Rows, ids: map<nat, nat>, source: nat, draft: nat,
                                        kind: Kind, l: seq<nat>)
    requires ForeignKeys(before) && ForeignKeys(after) && Cloning(before, after, ids, draft) && source != draft
    requires ClonedUpTo(before, ids, source, Rank(kind))
    requires forall id :: id in l <==> id in after && after[id].kind == kind && Owned(after, id, source)
    ensures forall id :: id in l <==> id in before && before[id].kind == kind && Owned(before, id, source)
    ensures forall id :: id in l ==> id !in ids
  {
    forall id ensures id in l <==> id in before && before[id].kind == kind && Owned(before, id, source) {
      if id in before {
        OldOwners(before, after, ids, draft, id, source);
      } else if id in after {
        var o :| o in ids && ids[o] == id;
        CopyOwners(before, after, ids, draft, o, source);
      }
    }
  }

  lemma {:induction false} LowerCloned(before: Rows, ids: map<nat, nat>, more: map<nat, nat>, source: nat, kind: Kind)
    requires ForeignKeys(before) && ClonedUpTo(before, ids, source, Rank(kind)) && ids.Keys <= more.Keys
    ensures forall o :: o in before && Owned(before, o, source) && Rank(before[o].kind) < Rank(kind) ==> o in more
  {
    assert forall o :: o in ids ==> o in more.Keys;
  }

  lemma {:induction false} NotSelfContained(before: Rows, ids: map<nat, nat>, source: nat, id: nat)
    requires ForeignKeys(before) && id in before && Owned(before, id, source) && !RefsKnown(before[id], ids)
    requires forall o :: o in before && Owned(before, o, source) && Rank(before[o].kind) < Rank(before[id].kind) ==>
               o in ids
    ensures !SelfContained(before, source)
  {
    assert WellFormed(before, before[id]);
    var i :| 0 <= i < |before[id].refs| && before[id].refs[i].Some? && before[id].refs[i].value !in ids;
    assert !Owned(before, before[id].refs[i].value, source);
  }

  lemma {:induction false} SameRank(a: Kind, b: Kind)
    ensures Rank(a) == Rank(b) <==> a == b
  {
  }

  lemma {:induction false} TableDone(before: Rows, ids: map<nat, nat>, more: map<nat, nat>, source: nat, kind: Kind,
                                     l: seq<nat>)
    requires ForeignKeys(before) && ClonedUpTo(before, ids, source, Rank(kind))
    requires forall id :: id in l <==> id in before && before[id].kind == kind && Owned(before, id, source)
    requires forall id :: id in more <==> id in ids || id in l
    ensures ClonedUpTo(before, more, source, Rank(kind) + 1)
  {
    forall id | id in before ensures Rank(before[id].kind) < Rank(kind) + 1 <==>
                                     Rank(before[id].kind) < Rank(kind) || before[id].kind == kind {
      SameRank(before[id].kind, kind);
    }
  }

  lemma {:induction false} SourceSelfContained(before: Rows, after: Rows, ids: map<nat, nat>, source: nat, draft: nat)
    requires ForeignKeys(before) && Cloning(before, after, ids, draft) && Complete(before, ids, source)
    ensures SelfContained(before, source)
  {
    forall id, i | id in before && Owned(before, id, source) && 0 <= i < |before[id].refs| && before[id].refs[i].Some?
      ensures WellFormed(before, before[id]) && Owned(before, before[id].refs[i].value, source)
    {
      assert id in ids && RefsKnown(before[id], ids);
    }
  }

  lemma {:induction false} AllRanks(k: Kind)
    ensures Rank(k) < |TABLES|
  {
  }

  lemma {:induction false} CloneDone(before: Rows, after: Rows, ids: map<nat, nat>, source: nat, draft: nat)
    requires ForeignKeys(before) && ForeignKeys(after) && Fresh(before, draft) && source != draft
    requires Cloning(before, after, ids, draft) && ClonedUpTo(before, ids, source, |TABLES|)
    ensures SelfContained(before, source) && Complete(before, ids, source)
            && ClonedMeaning(before, after, source, draft)
  {
    AllTablesDone(before, ids, source);
    SourceSelfContained(before, after, ids, source, draft);
    DraftSelfContained(before, after, ids, draft);
    CloneMeans(before, after, ids, source, draft);
  }

  lemma {:induction false} AllTablesDone(before: Rows, ids: map<nat, nat>, source: nat)
    requires ForeignKeys(before) && ClonedUpTo(before, ids, source, |TABLES|)
    ensures Complete(before, ids, source)
  {
    forall id ensures id in ids <==> id in before && Owned(before, id, source) {
      if id in before {
        AllRanks(before[id].kind);
      }
    }
  }

  // Every list of the source's rows and every list of the draft's unfold alike.
  ghost predicate SameMeaning(before: Rows, after: Rows, source: nat, draft: nat)
    requires ForeignKeys(before) && ForeignKeys(after)
  {
    forall l, copies {:trigger MeansSame(before, after, source, l, copies)} ::
      OwnedBy(l, before, source) && OwnedBy(copies, after, draft) ==> MeansSame(before, after, source, l, copies)
  }

  // The copies unfold to the trees of the listed rows, and these still do so themselves.
  ghost predicate MeansSame(before: Rows, after: Rows, source: nat, l: seq<nat>, copies: seq<nat>)
    requires ForeignKeys(before) && ForeignKeys(after)
  {
    Trees(copies, after) == Trees(l, before) && OwnedBy(l, after, source) && Trees(l, after) == Trees(l, before)
  }

  lemma {:induction false} CloneMeans(before: Rows, after: Rows, ids: map<nat, nat>, source: nat, draft: nat)
    requires ForeignKeys(before) && ForeignKeys(after) && Fresh(before, draft) && source != draft
    requires Cloning(before, after, ids, draft) && Complete(before, ids, source)
    ensures SameMeaning(before, after, source, draft)
  {
    forall l, copies | OwnedBy(l, before, source) && OwnedBy(copies, after, draft)
      ensures MeansSame(before, after, source, l, copies)
    {
      ClonePreservesMeaning(before, after, ids, source, draft, l, copies);
    }
  }
}
