/** Draft, active and rejected revisions, the client table and the token that names what is served:
    internal/adapters/postgres/revisionstore/{activation,draft,lookup}.go and
    internal/contexts/clients/adapters/postgres/mutations.go. A transaction is one step; one that fails
    leaves the tables as they were, though it may use up revision numbers. */
module Revisions {
  import opened Options

  datatype Status = Draft | Active | Rejected

  datatype Revision<G> = Revision(number: nat, status: Status, graph: G)

  datatype ClientStatus = Enabled | Disabled | Revoked

  datatype Client = Client(rowId: string, name: string, status: ClientStatus, keyPrefix: string, keyHash: string,
                           notes: string)

  // What the gateway serves: the active graph and the clients.
  datatype Config<G> = Config(graph: G, clients: map<string, Client>)

  datatype Table<G> = Table(revisions: seq<Revision<G>>, serial: nat, clients: map<string, Client>, generation: nat)

  // The writes of the control plane. `burnt`: revision numbers that failed transactions used up.
  datatype Change<!G> =
    | EditDraft(edit: G -> Option<G>, burnt: nat)
    | Activate(validate: G -> bool, hash: string)
    | CreateClient(key: string, client: Client)
    | UpsertClient(key: string, client: Client)
    | RevokeClient(key: string)

  // How a draft starts: from a clone of the active graph, or empty.
  datatype Drafting<!G> = Drafting(clone: G -> Option<G>, empty: G)

  // ----- the tables -----

  ghost predicate ValidTable<G>(t: Table<G>) {
    && (forall i, j :: 0 <= i < j < |t.revisions| ==> t.revisions[i].number < t.revisions[j].number)
    && (forall i :: 0 <= i < |t.revisions| ==> 0 < t.revisions[i].number <= t.serial)
    // at most one active revision, at most one draft, and a draft is the newest revision
    && (forall i, j :: 0 <= i < j < |t.revisions| ==> !(t.revisions[i].status.Active? && t.revisions[j].status.Active?))
    && (forall i :: 0 <= i < |t.revisions| && t.revisions[i].status.Draft? ==> i == |t.revisions| - 1)
  }

  // order by revision_number desc limit 1
  function LatestWith<G>(revisions: seq<Revision<G>>, status: Status): (i: Option<nat>)
    ensures i.Some? ==> i.value < |revisions| && revisions[i.value].status == status
    ensures i.Some? ==> forall j :: i.value < j < |revisions| ==> revisions[j].status != status
    ensures i.None? ==> forall j :: 0 <= j < |revisions| ==> revisions[j].status != status
  {
    if revisions == [] then None
    else if revisions[|revisions| - 1].status == status then Some(|revisions| - 1)
    else LatestWith(revisions[..|revisions| - 1], status)
  }

  function Token<G>(t: Table<G>): Option<nat> {
    var i := LatestWith(t.revisions, Active);
    if i.None? then None else Some(t.revisions[i.value].number + t.generation)
  }

  function Served<G>(t: Table<G>): Option<Config<G>> {
    var i := LatestWith(t.revisions, Active);
    if i.None? then None else Some(Config(t.revisions[i.value].graph, t.clients))
  }

  // ----- the transactions -----

  function AddDraft<G>(t: Table<G>, graph: G, burnt: nat): Table<G> {
    var number := t.serial + burnt + 1;
    t.(revisions := t.revisions + [Revision(number, Draft, graph)], serial := number)
  }

  // ensureDraftRevision: the latest draft, a clone of the active revision, or an empty draft.
  function EnsureDraft<G>(t: Table<G>, d: Drafting<G>, burnt: nat): Option<Table<G>> {
    if LatestWith(t.revisions, Draft).Some? then Some(t)
    else
      var active := LatestWith(t.revisions, Active);
      if active.None? then Some(AddDraft(t, d.empty, burnt))
      else
        var graph := d.clone(t.revisions[active.value].graph);
        if graph.None? then None else Some(AddDraft(t, graph.value, burnt))
  }

  function Deactivated<G>(revisions: seq<Revision<G>>): (r: seq<Revision<G>>)
    ensures |r| == |revisions|
    ensures forall i :: 0 <= i < |r| ==>
              r[i] == if revisions[i].status.Active? then revisions[i].(status := Rejected) else revisions[i]
  {
    if revisions == [] then []
    else
      var last := revisions[|revisions| - 1];
      Deactivated(revisions[..|revisions| - 1]) + [if last.status.Active? then last.(status := Rejected) else last]
  }

  function Activated<G>(t: Table<G>, draft: nat): Table<G>
    requires draft < |t.revisions|
  {
    var inactive := Deactivated(t.revisions);
    t.(revisions := inactive[draft := inactive[draft].(status := Active)])
  }

  // A revoked client stays revoked.
  function Upserted(clients: map<string, Client>, key: string, client: Client): map<string, Client> {
    if key in clients then
      var status := if clients[key].status.Revoked? then Revoked else client.status;
      clients[key := client.(rowId := clients[key].rowId, status := status)]
    else clients[key := client]
  }

  predicate Matches(key: string, client: Client, id: string) {
    (client.rowId == id || key == id) && !client.status.Revoked?
  }

  function RevokedClients(clients: map<string, Client>, id: string): map<string, Client> {
    map k | k in clients :: if Matches(k, clients[k], id) then clients[k].(status := Revoked) else clients[k]
  }

  // The table after a transaction; a failed one shows in the serial at most.
  function Apply<G>(t: Table<G>, c: Change<G>, d: Drafting<G>): Table<G> {
    match c
    case EditDraft(edit, burnt) =>
      var ready := EnsureDraft(t, d, burnt);
      if ready.None? then t.(serial := t.serial + burnt + 1)
      else
        var draft := LatestWith(ready.value.revisions, Draft);
        if draft.None? then t
        else
          var edited := edit(ready.value.revisions[draft.value].graph);
          if edited.None? then t.(serial := ready.value.serial)
          else
            var revision := ready.value.revisions[draft.value].(graph := edited.value);
            ready.value.(revisions := ready.value.revisions[draft.value := revision])
    case Activate(validate, hash) =>
      var draft := LatestWith(t.revisions, Draft);
      if draft.None? || !validate(t.revisions[draft.value].graph) || hash == "" then t
      else Activated(t, draft.value)
    case CreateClient(key, client) =>
      if key in t.clients then t
      else t.(clients := t.clients[key := client], generation := t.generation + 1)
    case UpsertClient(key, client) =>
      t.(clients := Upserted(t.clients, key, client), generation := t.generation + 1)
    case RevokeClient(key) =>
      if !exists k :: k in t.clients && Matches(k, t.clients[k], key) then t
      else t.(clients := RevokedClients(t.clients, key), generation := t.generation + 1)
  }

  // ----- what each transaction does, column by column -----

  // Every client with that row id or key is revoked; nothing else changes, and the generation moves if
  // one of them was not revoked before.
  ghost predicate RevokeEffect<G>(t: Table<G>, u: Table<G>, id: string) {
    && u.revisions == t.revisions && u.serial == t.serial && u.clients.Keys == t.clients.Keys
    && (forall k :: k in t.clients ==>
          u.clients[k] == if k == id || t.clients[k].rowId == id then t.clients[k].(status := Revoked)
                          else t.clients[k])
    && u.generation == t.generation + (if RevokesAny(t.clients, id) then 1 else 0)
  }

  ghost predicate RevokesAny(clients: map<string, Client>, id: string) {
    exists k :: k in clients && (k == id || clients[k].rowId == id) && clients[k].status != Revoked
  }

  // The client has the given columns; a known one keeps its row id, and a revoked one stays revoked.
  ghost predicate UpsertEffect<G>(t: Table<G>, u: Table<G>, key: string, client: Client) {
    && u.revisions == t.revisions && u.serial == t.serial && u.generation == t.generation + 1
    && u.clients.Keys == t.clients.Keys + {key}
    && (forall k :: k in t.clients && k != key ==> u.clients[k] == t.clients[k])
    && u.clients[key].name == client.name && u.clients[key].keyPrefix == client.keyPrefix
    && u.clients[key].keyHash == client.keyHash && u.clients[key].notes == client.notes
    && (if key in t.clients then
          && u.clients[key].rowId == t.clients[key].rowId
          && u.clients[key].status == (if t.clients[key].status == Revoked then Revoked else client.status)
        else u.clients[key].rowId == client.rowId && u.clients[key].status == client.status)
  }

  ghost predicate CreateEffect<G>(t: Table<G>, u: Table<G>, key: string, client: Client) {
    && u.revisions == t.revisions && u.serial == t.serial
    && if key in t.clients then u.clients == t.clients && u.generation == t.generation
       else u.clients == t.clients[key := client] && u.generation == t.generation + 1
  }

  ghost predicate EndsInDraft<G>(revisions: seq<Revision<G>>) {
    revisions != [] && revisions[|revisions| - 1].status == Draft
  }

  // The draft is active and its predecessor rejected; graphs, numbers and clients stay.
  ghost predicate ActivateEffect<G>(t: Table<G>, u: Table<G>) {
    && EndsInDraft(t.revisions) && |u.revisions| == |t.revisions|
    && u.serial == t.serial && u.clients == t.clients && u.generation == t.generation
    && forall i :: 0 <= i < |t.revisions| ==>
         u.revisions[i] == if i == |t.revisions| - 1 then t.revisions[i].(status := Active)
                           else if t.revisions[i].status == Active then t.revisions[i].(status := Rejected)
                           else t.revisions[i]
  }

  ghost predicate IsActive<G>(revisions: seq<Revision<G>>, i: int) {
    0 <= i < |revisions| && revisions[i].status == Active
  }

  // What an edit starts from: the draft, a clone of the active graph, or the empty graph.
  ghost function DraftBase<G>(t: Table<G>, d: Drafting<G>): Option<G> {
    if EndsInDraft(t.revisions) then Some(t.revisions[|t.revisions| - 1].graph)
    else if i :| IsActive(t.revisions, i) then d.clone(t.revisions[i].graph)
    else Some(d.empty)
  }

  // The last revision is a draft that holds the edit of the base. It is the draft there was, or a new
  // one under an unused number; the other revisions and the clients stay.
  ghost predicate EditEffect<G>(t: Table<G>, u: Table<G>, graph: G) {
    var n := |u.revisions| - 1;
    && n == (if EndsInDraft(t.revisions) then |t.revisions| - 1 else |t.revisions|)
    && EndsInDraft(u.revisions) && u.revisions[..n] == t.revisions[..n] && u.revisions[n].graph == graph
    && (if EndsInDraft(t.revisions) then u.revisions[n].number == t.revisions[n].number
        else t.serial < u.revisions[n].number == u.serial)
    && u.clients == t.clients && u.generation == t.generation
  }

  lemma {:induction false} LatestDraft<G>(t: Table<G>)
    requires ValidTable(t)
    ensures LatestWith(t.revisions, Draft)
            == if EndsInDraft(t.revisions) then Some(|t.revisions| - 1) else None
  {
  }

  lemma {:induction false} LatestActive<G>(t: Table<G>, i: int)
    requires ValidTable(t) && IsActive(t.revisions, i)
    ensures LatestWith(t.revisions, Active) == Some(i)
  {
  }

  // The token is the active revision's number plus the generation; served are its graph and all clients.
  lemma {:induction false} ServedExactly<G>(t: Table<G>, i: int)
    requires ValidTable(t)
    ensures IsActive(t.revisions, i) ==>
              Token(t) == Some(t.revisions[i].number + t.generation)
              && Served(t) == Some(Config(t.revisions[i].graph, t.clients))
    ensures (forall k :: !IsActive(t.revisions, k)) ==> Token(t).None? && Served(t).None?
  {
    var latest := LatestWith(t.revisions, Active);
    assert latest.Some? ==> IsActive(t.revisions, latest.value);
    if IsActive(t.revisions, i) {
      LatestActive(t, i);
    }
  }

  lemma {:induction false} ActivateExactly<G>(t: Table<G>, validate: G -> bool, hash: string, d: Drafting<G>)
    requires ValidTable(t)
    ensures var u := Apply(t, Activate(validate, hash), d);
            if EndsInDraft(t.revisions) && validate(t.revisions[|t.revisions| - 1].graph) && hash != ""
            then ActivateEffect(t, u) else u == t
  {
    LatestDraft(t);
  }

  lemma {:induction false} ClientsExactly<G>(t: Table<G>, key: string, client: Client, d: Drafting<G>)
    ensures UpsertEffect(t, Apply(t, UpsertClient(key, client), d), key, client)
    ensures CreateEffect(t, Apply(t, CreateClient(key, client), d), key, client)
  {
  }

  lemma {:induction false} RevokedExactly<G>(t: Table<G>, key: string, d: Drafting<G>)
    ensures RevokeEffect(t, Apply(t, RevokeClient(key), d), key)
  {
    assert (exists k :: k in t.clients && Matches(k, t.clients[k], key)) <==> RevokesAny(t.clients, key) by {
      if k :| k in t.clients && Matches(k, t.clients[k], key) {
        assert (k == key || t.clients[k].rowId == key) && t.clients[k].status != Revoked;
      }
      if k :| k in t.clients && (k == key || t.clients[k].rowId == key) && t.clients[k].status != Revoked {
        assert Matches(k, t.clients[k], key);
      }
    }
  }

  lemma {:induction false} FreshDraft<G>(t: Table<G>, graph: G, burnt: nat)
    requires ValidTable(t) && !EndsInDraft(t.revisions)
    ensures EditEffect(t, AddDraft(t, graph, burnt), graph) && ValidTable(AddDraft(t, graph, burnt))
  {
    var u := AddDraft(t, graph, burnt);
    LatestDraft(t);
    AddDraftValid(t, graph, burnt);
    assert u.revisions[..|t.revisions|] == t.revisions;
  }

  lemma {:induction false} ActiveBase<G>(t: Table<G>, d: Drafting<G>)
    requires ValidTable(t)
    ensures var active := LatestWith(t.revisions, Active);
            !EndsInDraft(t.revisions) ==>
              DraftBase(t, d) == if active.Some? then d.clone(t.revisions[active.value].graph) else Some(d.empty)
  {
    var latest := LatestWith(t.revisions, Active);
    assert latest.Some? ==> IsActive(t.revisions, latest.value);
    if i :| IsActive(t.revisions, i) {
      LatestActive(t, i);
    }
  }

  lemma {:induction false} ReadyExactly<G>(t: Table<G>, d: Drafting<G>, burnt: nat)
    requires ValidTable(t)
    ensures var base, ready := DraftBase(t, d), EnsureDraft(t, d, burnt);
            && (ready.Some? <==> base.Some?)
            && (ready.Some? ==> ValidTable(ready.value) && EditEffect(t, ready.value, base.value))
            && (EndsInDraft(t.revisions) ==> ready == Some(t))
  {
    LatestDraft(t);
    ActiveBase(t, d);
    var base := DraftBase(t, d);
    if base.Some? && !EndsInDraft(t.revisions) {
      FreshDraft(t, base.value, burnt);
    }
  }

  lemma {:induction false} Redrafted<G>(t: Table<G>, u: Table<G>, base: G, graph: G)
    requires EditEffect(t, u, base)
    ensures var n := |u.revisions| - 1;
            EditEffect(t, u.(revisions := u.revisions[n := u.revisions[n].(graph := graph)]), graph)
  {
    var n := |u.revisions| - 1;
    assert u.revisions[n := u.revisions[n].(graph := graph)][..n] == u.revisions[..n];
  }

  lemma {:induction false} EditExactly<G>(t: Table<G>, edit: G -> Option<G>, burnt: nat, d: Drafting<G>)
    requires ValidTable(t)
    ensures var base, u := DraftBase(t, d), Apply(t, EditDraft(edit, burnt), d);
            if base.Some? && edit(base.value).Some? then EditEffect(t, u, edit(base.value).value)
            else t.serial <= u.serial && u == t.(serial := u.serial)
  {
    ReadyExactly(t, d, burnt);
    var base, ready := DraftBase(t, d), EnsureDraft(t, d, burnt);
    if ready.Some? {
      LatestDraft(ready.value);
      if edit(base.value).Some? {
        Redrafted(t, ready.value, base.value, edit(base.value).value);
      }
    }
  }

  // ----- one transaction keeps the order of revisions -----

  lemma {:induction false} LatestUnaffected<G>(a: seq<Revision<G>>, b: seq<Revision<G>>)
    requires |a| == |b|
    requires forall i :: 0 <= i < |a| ==> (a[i].status.Active? <==> b[i].status.Active?)
    ensures LatestWith(a, Active) == LatestWith(b, Active)
  {
    if a != [] && !a[|a| - 1].status.Active? {
      LatestUnaffected(a[..|a| - 1], b[..|b| - 1]);
    }
  }

  ghost predicate Unseen<G>(t: Table<G>, u: Table<G>) {
    ValidTable(u) && Token(u) == Token(t) && Served(u) == Served(t)
  }

  lemma {:induction false} AddDraftUnseen<G>(t: Table<G>, graph: G, burnt: nat)
    requires ValidTable(t) && LatestWith(t.revisions, Draft).None?
    ensures Unseen(t, AddDraft(t, graph, burnt))
  {
    var u := AddDraft(t, graph, burnt);
    AddDraftValid(t, graph, burnt);
    assert u.revisions[..|t.revisions|] == t.revisions;
    assert LatestWith(u.revisions, Active) == LatestWith(t.revisions, Active);
  }

  lemma {:induction false} AddDraftValid<G>(t: Table<G>, graph: G, burnt: nat)
    requires ValidTable(t) && LatestWith(t.revisions, Draft).None?
    ensures ValidTable(AddDraft(t, graph, burnt))
  {
    var u := AddDraft(t, graph, burnt);
    var n := |t.revisions|;
    assert forall i :: 0 <= i < n ==> u.revisions[i] == t.revisions[i];
    assert u.revisions[n] == Revision(t.serial + burnt + 1, Draft, graph);
  }

  lemma {:induction false} SetGraphUnseen<G>(t: Table<G>, i: nat, graph: G)
    requires ValidTable(t) && i < |t.revisions| && t.revisions[i].status.Draft?
    ensures Unseen(t, t.(revisions := t.revisions[i := t.revisions[i].(graph := graph)]))
  {
    LatestUnaffected(t.revisions, t.revisions[i := t.revisions[i].(graph := graph)]);
  }

  lemma {:induction false} SerialUnseen<G>(t: Table<G>, serial: nat)
    requires ValidTable(t) && t.serial <= serial
    ensures Unseen(t, t.(serial := serial))
  {
  }

  lemma {:induction false} EnsureDraftUnseen<G>(t: Table<G>, d: Drafting<G>, burnt: nat)
    requires ValidTable(t)
    ensures var ready := EnsureDraft(t, d, burnt);
            ready.Some? ==> Unseen(t, ready.value) && t.serial <= ready.value.serial
  {
    var ready := EnsureDraft(t, d, burnt);
    if ready.Some? && LatestWith(t.revisions, Draft).None? {
      AddDraftUnseen(t, ready.value.revisions[|t.revisions|].graph, burnt);
    }
  }

  // Editing a draft is invisible to what is served.
  lemma {:induction false} EditUnseen<G>(t: Table<G>, edit: G -> Option<G>, burnt: nat, d: Drafting<G>)
    requires ValidTable(t)
    ensures Unseen(t, Apply(t, EditDraft(edit, burnt), d))
  {
    var ready := EnsureDraft(t, d, burnt);
    EnsureDraftUnseen(t, d, burnt);
    SerialUnseen(t, t.serial + burnt + 1);
    if ready.Some? {
      var draft := LatestWith(ready.value.revisions, Draft);
      if draft.Some? {
        var edited := edit(ready.value.revisions[draft.value].graph);
        if edited.Some? {
          SetGraphUnseen(ready.value, draft.value, edited.value);
        } else {
          SerialUnseen(t, ready.value.serial);
        }
      }
    }
  }

  // Valid, never back, and forward whenever what is served changes.
  ghost predicate Advances<G>(t: Table<G>, u: Table<G>) {
    && ValidTable(u)
    && (Token(t).Some? ==> Token(u).Some? && Token(t).value <= Token(u).value)
    && (Token(t) == Token(u) ==> Served(t) == Served(u))
  }

  lemma {:induction false} ActivatedServes<G>(t: Table<G>, draft: nat)
    requires ValidTable(t) && draft < |t.revisions| && t.revisions[draft].status.Draft?
    ensures var u := Activated(t, draft);
            && ValidTable(u) && LatestWith(u.revisions, Active) == Some(draft)
            && (forall i :: 0 <= i < |t.revisions| && t.revisions[i].status.Active? ==> i < draft)
  {
    var u := Activated(t, draft);
    assert u.revisions[draft].status.Active?;
  }

  // The token after an activation names the new active revision.
  lemma {:induction false} ActivatedToken<G>(t: Table<G>, draft: nat)
    requires ValidTable(t) && LatestWith(t.revisions, Draft) == Some(draft)
    ensures var u := Activated(t, draft);
            && ActivateEffect(t, u) && Token(u) == Some(u.revisions[|u.revisions| - 1].number + u.generation)
            && Advances(t, u) && (Token(t).Some? ==> Token(t).value < Token(u).value)
  {
    LatestDraft(t);
    ActivatedServes(t, draft);
  }

  lemma {:induction false} ActivationAdvances<G>(t: Table<G>, validate: G -> bool, hash: string, d: Drafting<G>)
    requires ValidTable(t)
    ensures Advances(t, Apply(t, Activate(validate, hash), d))
    ensures var draft := LatestWith(t.revisions, Draft);
            draft.Some? && validate(t.revisions[draft.value].graph) && hash != "" ==>
              var u := Apply(t, Activate(validate, hash), d);
              && Served(u) == Some(Config(t.revisions[draft.value].graph, t.clients))
              && (Token(t).Some? ==> Token(t).value < Token(u).value)
  {
    var draft := LatestWith(t.revisions, Draft);
    if draft.Some? && validate(t.revisions[draft.value].graph) && hash != "" {
      ActivatedServes(t, draft.value);
    }
  }

  // A transaction keeps the tables valid; the token never goes back, and it moves whenever what is
  // served does.
  lemma {:induction false} TokenAdvances<G>(t: Table<G>, c: Change<G>, d: Drafting<G>)
    requires ValidTable(t)
    ensures Advances(t, Apply(t, c, d))
  {
    match c {
      case EditDraft(edit, burnt) => EditUnseen(t, edit, burnt, d);
      case Activate(validate, hash) => ActivationAdvances(t, validate, hash, d);
      case _ =>
    }
  }

  // ----- runs -----

  function Run<G>(t: Table<G>, changes: seq<Change<G>>, d: Drafting<G>): Table<G> {
    if changes == [] then t else Apply(Run(t, changes[..|changes| - 1], d), changes[|changes| - 1], d)
  }

  lemma {:induction false} AdvancesOn<G>(t: Table<G>, u: Table<G>, v: Table<G>)
    requires Advances(t, u) && Advances(u, v)
    ensures Advances(t, v)
  {
  }

  lemma {:induction false} RunAdvances<G>(t: Table<G>, changes: seq<Change<G>>, d: Drafting<G>)
    requires ValidTable(t)
    ensures Advances(t, Run(t, changes, d))
  {
    if changes != [] {
      var front, last := changes[..|changes| - 1], changes[|changes| - 1];
      var u := Run(t, front, d);
      RunAdvances(t, front, d);
      StepOn(t, u, last, d);
    }
  }

  lemma {:induction false} StepOn<G>(t: Table<G>, u: Table<G>, c: Change<G>, d: Drafting<G>)
    requires Advances(t, u)
    ensures Advances(t, Apply(u, c, d))
  {
    TokenAdvances(u, c, d);
    AdvancesOn(t, u, Apply(u, c, d));
  }

  // Whatever was read under a token is what is served while that token is current.
  lemma {:induction false} TokenNamesContent<G>(t: Table<G>, changes: seq<Change<G>>, d: Drafting<G>)
    requires ValidTable(t) && Token(t).Some? && Token(Run(t, changes, d)) == Token(t)
    ensures Served(Run(t, changes, d)) == Served(t)
  {
    RunAdvances(t, changes, d);
  }

  // Clients stay, and a revoked one stays revoked whatever is written later.
  lemma {:induction false} RevokedForever<G>(t: Table<G>, changes: seq<Change<G>>, d: Drafting<G>, key: string)
    requires ValidTable(t) && key in t.clients
    ensures key in Run(t, changes, d).clients
    ensures t.clients[key].status == Revoked ==> Run(t, changes, d).clients[key].status == Revoked
  {
    if changes != [] {
      var front, last := changes[..|changes| - 1], changes[|changes| - 1];
      var u := Run(t, front, d);
      RevokedForever(t, front, d, key);
      RunAdvances(t, front, d);
      match last {
        case EditDraft(edit, burnt) => EditExactly(u, edit, burnt, d);
        case Activate(validate, hash) => ActivateExactly(u, validate, hash, d);
        case CreateClient(k, client) => ClientsExactly(u, k, client, d);
        case UpsertClient(k, client) => ClientsExactly(u, k, client, d);
        case RevokeClient(k) => RevokedExactly(u, k, d);
      }
    }
  }

  // ----- the store -----

  class Store<!G> {
    var revisions: seq<Revision<G>>
    var serial: nat
    var clients: map<string, Client>
    var generation: nat
    const drafting: Drafting<G>
    // every configuration that was ever current, by token
    ghost var history: map<nat, Config<G>>

    function View(): Table<G>
      reads this
    {
      Table(revisions, serial, clients, generation)
    }

    ghost predicate Valid()
      reads this
    {
      ValidTable(View()) && Remembered(View(), history)
    }

    // Past tokens keep naming what they named.
    twostate predicate Forward()
      reads this
    {
      Valid() && forall n :: n in old(history) ==> n in history && history[n] == old(history)[n]
    }

    constructor (drafting: Drafting<G>)
      ensures Valid() && Token(View()).None? && this.drafting == drafting
    {
      this.drafting := drafting;
      revisions, serial, clients, generation := [], 0, map[], 0;
      history := map[];
    }

    // Puts the current configuration on record after a transaction.
    ghost method Remember(before: Table<G>)
      requires Remembered(before, history) && Advances(before, View())
      modifies this`history
      ensures Forward()
    {
      var token := Token(View());
      if token.Some? {
        history := history[token.value := Served(View()).value];
      }
    }

    method EnsureDraftRevision(burnt: nat) returns (draft: Option<nat>)
      requires ValidTable(View())
      modifies this`revisions, this`serial
      ensures var ready := EnsureDraft(old(View()), drafting, burnt);
              if ready.None? then draft.None? && View() == old(View()).(serial := old(serial) + burnt + 1)
              else View() == ready.value && draft == LatestWith(revisions, Draft) && draft.Some?
    {
      draft := LatestWith(revisions, Draft);
      if draft.Some? {
        return;
      }
      var active := LatestWith(revisions, Active);
      serial := serial + burnt + 1;
      var graph := drafting.empty;
      if active.Some? {
        var cloned := drafting.clone(revisions[active.value].graph);
        if cloned.None? {
          return None;
        }
        graph := cloned.value;
      }
      revisions := revisions + [Revision(serial, Draft, graph)];
      return Some(|revisions| - 1);
    }

    method EditDraftRevision(edit: G -> Option<G>, burnt: nat)
      requires ValidTable(View())
      modifies this`revisions, this`serial
      ensures View() == Apply(old(View()), EditDraft(edit, burnt), drafting)
    {
      var saved := revisions;
      var draft := EnsureDraftRevision(burnt);
      if draft.Some? {
        var edited := edit(revisions[draft.value].graph);
        if edited.Some? {
          revisions := revisions[draft.value := revisions[draft.value].(graph := edited.value)];
        } else {
          revisions := saved;
        }
      }
    }

    method WithDraftRevision(edit: G -> Option<G>, burnt: nat)
      requires Valid()
      modifies this
      ensures Forward() && View() == Apply(old(View()), EditDraft(edit, burnt), drafting)
      ensures var base := DraftBase(old(View()), drafting);
              if base.Some? && edit(base.value).Some? then EditEffect(old(View()), View(), edit(base.value).value)
              else View() == old(View()).(serial := serial)
      ensures Token(View()) == Token(old(View())) && Served(View()) == Served(old(View()))
    {
      ghost var before := View();
      EditUnseen(before, edit, burnt, drafting);
      EditExactly(before, edit, burnt, drafting);
      EditDraftRevision(edit, burnt);
      Remember(before);
    }

    // The token that was just activated, or nothing.
    method ActivateDraftRevision(validate: G -> bool, hash: string) returns (token: Option<nat>)
      requires Valid()
      modifies this
      ensures Forward() && View() == Apply(old(View()), Activate(validate, hash), drafting)
      ensures token.Some? ==> token == Token(View())
                              && (Token(old(View())).Some? ==> Token(old(View())).value < token.value)
      ensures token.Some? <==> LatestWith(old(revisions), Draft).Some? && hash != ""
                               && validate(old(revisions)[LatestWith(old(revisions), Draft).value].graph)
      ensures if token.None? then View() == old(View())
              else ActivateEffect(old(View()), View())
                   && token == Some(revisions[|revisions| - 1].number + generation)
    {
      var draft := LatestWith(revisions, Draft);
      if draft.None? || !validate(revisions[draft.value].graph) || hash == "" {
        return None;
      }
      token := Serve(draft.value);
    }

    // Makes the draft what is served.
    method Serve(draft: nat) returns (token: Option<nat>)
      requires Valid() && LatestWith(revisions, Draft) == Some(draft)
      modifies this
      ensures Forward() && View() == Activated(old(View()), draft)
      ensures Token(old(View())).Some? && token.Some? ==> Token(old(View())).value < token.value
      ensures ActivateEffect(old(View()), View())
      ensures token == Token(View()) == Some(revisions[|revisions| - 1].number + generation)
    {
      ghost var before := View();
      ActivatedToken(before, draft);
      Promote(draft);
      Remember(before);
      token := Token(View());
    }

    method Promote(draft: nat)
      requires draft < |revisions|
      modifies this`revisions
      ensures View() == Activated(old(View()), draft)
    {
      DeactivateAll();
      revisions := revisions[draft := revisions[draft].(status := Active)];
    }

    // update ... set status = 'rejected' where status = 'active'
    method DeactivateAll()
      modifies this`revisions
      ensures revisions == Deactivated(old(revisions))
    {
      var updated := [];
      for i := 0 to |revisions|
        invariant revisions == old(revisions) && updated == Deactivated(revisions[..i])
      {
        assert revisions[..i + 1][..i] == revisions[..i];
        var r := revisions[i];
        updated := updated + [if r.status.Active? then r.(status := Rejected) else r];
      }
      assert revisions[..|revisions|] == revisions;
      revisions := updated;
    }

    method CreateGatewayClient(key: string, client: Client) returns (ok: bool)
      requires Valid()
      modifies this
      ensures Forward() && View() == Apply(old(View()), CreateClient(key, client), drafting)
      ensures (ok <==> key !in old(clients)) && CreateEffect(old(View()), View(), key, client)
    {
      ghost var before := View();
      ClientsExactly(before, key, client, drafting);
      TokenAdvances(before, CreateClient(key, client), drafting);
      if key in clients {
        return false;
      }
      clients := clients[key := client];
      generation := generation + 1;
      assert View() == Apply(before, CreateClient(key, client), drafting);
      Remember(before);
      return true;
    }

    method UpsertGatewayClient(key: string, client: Client)
      requires Valid()
      modifies this
      ensures Forward() && View() == Apply(old(View()), UpsertClient(key, client), drafting)
      ensures UpsertEffect(old(View()), View(), key, client)
    {
      ghost var before := View();
      ClientsExactly(before, key, client, drafting);
      TokenAdvances(before, UpsertClient(key, client), drafting);
      if key in clients {
        var kept := clients[key];
        clients := clients[key := client.(rowId := kept.rowId,
                                          status := if kept.status.Revoked? then kept.status else client.status)];
      } else {
        clients := clients[key := client];
      }
      generation := generation + 1;
      assert View() == Apply(before, UpsertClient(key, client), drafting);
      Remember(before);
    }

    method RevokeGatewayClient(id: string)
      requires Valid()
      modifies this
      ensures Forward() && View() == Apply(old(View()), RevokeClient(id), drafting)
      ensures RevokeEffect(old(View()), View(), id)
    {
      ghost var before := View();
      RevokedExactly(before, id, drafting);
      TokenAdvances(before, RevokeClient(id), drafting);
      var changed := exists k :: k in clients && Matches(k, clients[k], id);
      if !changed {
        return;
      }
      clients := RevokedClients(clients, id);
      generation := generation + 1;
      assert View() == Apply(before, RevokeClient(id), drafting);
      Remember(before);
    }

    // Any writer of the control plane.
    method Commit(c: Change<G>)
      requires Valid()
      modifies this
      ensures Forward() && View() == Apply(old(View()), c, drafting)
    {
      match c {
        case EditDraft(edit, burnt) => WithDraftRevision(edit, burnt);
        case Activate(validate, hash) => var token := ActivateDraftRevision(validate, hash);
        case CreateClient(key, client) => var ok := CreateGatewayClient(key, client);
        case UpsertClient(key, client) => UpsertGatewayClient(key, client);
        case RevokeClient(key) => RevokeGatewayClient(key);
      }
    }

    method CommitAll(changes: seq<Change<G>>)
      requires Valid()
      modifies this
      ensures Forward() && View() == Run(old(View()), changes, drafting)
    {
      for i := 0 to |changes|
        invariant Forward() && View() == Run(old(View()), changes[..i], drafting)
      {
        assert changes[..i + 1][..i] == changes[..i];
        Commit(changes[i]);
      }
      assert changes[..|changes|] == changes;
    }
  }

  // The record agrees with the tables and knows nothing newer.
  ghost predicate Remembered<G>(t: Table<G>, history: map<nat, Config<G>>) {
    && (Token(t).Some? ==> Token(t).value in history && history[Token(t).value] == Served(t).value)
    && (Token(t).None? ==> history == map[])
    && forall n :: n in history ==> 0 < n && (Token(t).Some? ==> n <= Token(t).value)
  }
}
