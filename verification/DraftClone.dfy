/** A draft cloned from the active revision, activated without an edit: the transactions of
    internal/adapters/postgres/revisionstore/draft.go:12-54 and activation.go:39-116 around the clone of
    internal/adapters/postgres/configstore/revision_clone_orchestration.go:6-45. */
module DraftClone {
  import opened Options
  import opened Lists
  import opened Revisions
  import opened Clone

  // The tables and the revision whose rows are meant.
  datatype Graph = Graph(rows: Rows, revision: nat)

  ghost function Listed(ids: set<nat>): (l: seq<nat>)
    ensures Distinct(l) && forall id :: id in l <==> id in ids
  {
    if ids == {} then []
    else
      var id :| id in ids;
      Listed(ids - {id}) + [id]
  }

  // What the rows of a graph say, references resolved, whatever their identifiers and order.
  ghost function Meaning(g: Graph): multiset<Tree>
    requires ForeignKeys(g.rows)
  {
    Trees(Listed(set id | id in g.rows && Owned(g.rows, id, g.revision)), g.rows)
  }

  lemma {:induction false} AnyListing(g: Graph, l: seq<nat>)
    requires ForeignKeys(g.rows) && OwnedBy(l, g.rows, g.revision)
    ensures Trees(l, g.rows) == Meaning(g)
  {
    var listed := Listed(set id | id in g.rows && Owned(g.rows, id, g.revision));
    DistinctSameMembers(l, listed);
    ImagePermuted(l, listed, TreeIn(g.rows));
  }

  lemma {:induction false} HasListing(g: Graph) returns (l: seq<nat>)
    requires ForeignKeys(g.rows)
    ensures OwnedBy(l, g.rows, g.revision)
  {
    l := Listed(set id | id in g.rows && Owned(g.rows, id, g.revision));
  }

  // The draft of a graph: it fails exactly when the source refers to rows of another revision, and
  // otherwise draft and source both mean what the source meant.
  method CloneGraph(g: Graph, draft: nat, next: nat) returns (r: Option<Graph>)
    requires ForeignKeys(g.rows) && (forall id :: id in g.rows ==> id < next)
    requires g.revision != draft && Fresh(g.rows, draft)
    ensures r.Some? <==> SelfContained(g.rows, g.revision)
    ensures r.Some? ==>
              && r.value.revision == draft && ForeignKeys(r.value.rows) && SelfContained(r.value.rows, draft)
              && Meaning(r.value) == Meaning(g) && Meaning(Graph(r.value.rows, g.revision)) == Meaning(g)
  {
    var db := new Database(g.rows, next);
    ghost var ids;
    var ok;
    ok, ids := db.CloneRevision(g.revision, draft);
    if !ok {
      return None;
    }
    ClonedMeans(g, db.rows, draft);
    return Some(Graph(db.rows, draft));
  }

  lemma {:induction false} ClonedMeans(g: Graph, after: Rows, draft: nat)
    requires ForeignKeys(g.rows) && ForeignKeys(after) && ClonedMeaning(g.rows, after, g.revision, draft)
    ensures Meaning(Graph(after, draft)) == Meaning(g) && Meaning(Graph(after, g.revision)) == Meaning(g)
  {
    var l := HasListing(g);
    var copies := HasListing(Graph(after, draft));
    ListsAlike(g.rows, after, g.revision, draft, l, copies);
    MeansAlike(g, after, draft, l, copies);
  }

  lemma {:induction false} ListsAlike(before: Rows, after: Rows, source: nat, draft: nat, l: seq<nat>, copies: seq<nat>)
    requires ForeignKeys(before) && ForeignKeys(after) && SameMeaning(before, after, source, draft)
    requires OwnedBy(l, before, source) && OwnedBy(copies, after, draft)
    ensures MeansSame(before, after, source, l, copies)
  {
  }

  lemma {:induction false} MeansAlike(g: Graph, after: Rows, draft: nat, l: seq<nat>, copies: seq<nat>)
    requires ForeignKeys(g.rows) && ForeignKeys(after)
    requires OwnedBy(l, g.rows, g.revision) && OwnedBy(copies, after, draft) && OwnedBy(l, after, g.revision)
    requires Trees(copies, after) == Trees(l, g.rows) == Trees(l, after)
    ensures Meaning(Graph(after, draft)) == Meaning(g) && Meaning(Graph(after, g.revision)) == Meaning(g)
  {
    AnyListing(g, l);
    AnyListing(Graph(after, draft), copies);
    AnyListing(Graph(after, g.revision), l);
  }

  // A drafting that clones as CloneGraph does.
  ghost predicate ClonesRows(d: Drafting<Graph>) {
    forall g: Graph :: ForeignKeys(g.rows) ==>
      && (d.clone(g).Some? <==> SelfContained(g.rows, g.revision))
      && (d.clone(g).Some? ==> ForeignKeys(d.clone(g).value.rows) && Meaning(d.clone(g).value) == Meaning(g))
  }

  function Unedited(): Graph -> Option<Graph> { g => Some(g) }

  // Activating a fresh draft as it is serves the same meaning to the same clients under a larger
  // token if the active revision is self-contained; otherwise no draft comes about and what is served
  // and its token stay.
  lemma {:induction false} FreshDraftServesSame(t: Table<Graph>, d: Drafting<Graph>, burnt: nat,
                                                validate: Graph -> bool,
                                                hash: string)
    requires ValidTable(t) && LatestWith(t.revisions, Draft).None? && Served(t).Some? && ClonesRows(d)
    requires ForeignKeys(Served(t).value.graph.rows) && hash != "" && forall g :: validate(g)
    ensures var g := Served(t).value.graph;
            var u := Apply(t, EditDraft(Unedited(), burnt), d);
            var v := Apply(u, Activate(validate, hash), d);
            if SelfContained(g.rows, g.revision) then
              && Token(t).Some? && Token(v).Some? && Token(t).value < Token(v).value
              && Served(v).Some? && Served(v).value.clients == t.clients
              && ForeignKeys(Served(v).value.graph.rows) && Meaning(Served(v).value.graph) == Meaning(g)
            else Token(v) == Token(t) && Served(v) == Served(t)
  {
    var g := Served(t).value.graph;
    var edit := EditDraft(Unedited(), burnt);
    var u := Apply(t, edit, d);
    TokenAdvances(t, edit, d);
    EditUnseen(t, Unedited(), burnt, d);
    ActivationAdvances(u, validate, hash, d);
    if SelfContained(g.rows, g.revision) {
      DraftedGraph(t, d, burnt);
    } else {
      assert EnsureDraft(t, d, burnt).None?;
      assert LatestWith(u.revisions, Draft).None?;
    }
  }

  lemma {:induction false} DraftedGraph(t: Table<Graph>, d: Drafting<Graph>, burnt: nat)
    requires ValidTable(t) && LatestWith(t.revisions, Draft).None? && Served(t).Some?
    requires d.clone(Served(t).value.graph).Some?
    ensures var u := Apply(t, EditDraft(Unedited(), burnt), d);
            var draft := LatestWith(u.revisions, Draft);
            && draft.Some? && u.revisions[draft.value].graph == d.clone(Served(t).value.graph).value
                 && u.clients == t.clients
  {
    var h := d.clone(Served(t).value.graph).value;
    var ready := AddDraft(t, h, burnt);
    var n := |t.revisions|;
    assert EnsureDraft(t, d, burnt) == Some(ready);
    assert ready.revisions[n] == Revision(t.serial + burnt + 1, Draft, h);
    assert LatestWith(ready.revisions, Draft) == Some(n);
  }
}
