/** Serving what the token names: internal/contexts/runtime/application/usecases.go:44-82,
    internal/contexts/runtime/state.go:33-49 and
    internal/contexts/gateway/adapters/http/openai/server_builder.go:36-57. */
module Runtime {
  import opened Options
  import opened Revisions

  // A compiled configuration and the token it was loaded under.
  datatype Compiled<G> = Compiled(number: nat, config: Config<G>)

  // Compilation may fail, and a compiled gateway may have no routes.
  datatype Compiler<!G> = Compiler(compiles: Config<G> -> bool, routes: Config<G> -> nat)

  datatype Reason = RevisionUnavailable | LoadFailed | CompileFailed | SwapFailed

  datatype Reload = Unchanged | Swapped | Degraded(reason: Reason)

  class Reloader<!G> {
    const store: Store<G>
    const compiler: Compiler<G>
    // Which reads of the store fail.
    const fails: nat -> bool
    var calls: nat
    ghost var failures: nat
    var snapshot: Option<Compiled<G>>

    constructor (store: Store<G>, compiler: Compiler<G>, fails: nat -> bool)
      ensures this.store == store && this.compiler == compiler && this.fails == fails
      ensures snapshot == None && calls == 0 && failures == 0
    {
      this.store, this.compiler, this.fails, snapshot := store, compiler, fails, None;
      calls, failures := 0, 0;
    }

    method Read() returns (failed: bool)
      modifies this`calls, this`failures
      ensures failed == fails(old(calls)) && calls == old(calls) + 1
      ensures failures == old(failures) + (if failed then 1 else 0)
    {
      failed := fails(calls);
      calls, failures := calls + 1, if failed then failures + 1 else failures;
    }

    // What is served was once current under the token it carries.
    ghost predicate Valid()
      reads this, store
    {
      && store.Valid()
      && (snapshot.Some? ==> snapshot.value.number in store.history
                             && store.history[snapshot.value.number] == snapshot.value.config)
    }

    // A served token that is current means served content that is current.
    lemma {:induction false} ServedIsCurrent()
      requires Valid() && snapshot.Some? && Token(store.View()) == Some(snapshot.value.number)
      ensures Served(store.View()) == Some(snapshot.value.config)
    {
    }

    // LoadRuntimeConfig reads the active revision, its token and the clients in one transaction.
    method LoadRuntimeConfig() returns (loaded: Option<Compiled<G>>)
      requires store.Valid()
      ensures loaded.None? <==> Token(store.View()).None?
      ensures loaded.Some? ==> Token(store.View()) == Some(loaded.value.number)
                               && Served(store.View()) == Some(loaded.value.config)
    {
      var token, served := Token(store.View()), Served(store.View());
      return if token.None? then None else Some(Compiled(token.value, served.value));
    }

    method Swap(next: Compiled<G>) returns (ok: bool)
      modifies this`snapshot
      ensures ok <==> next.number > 0 && compiler.routes(next.config) > 0
      ensures snapshot == if ok then Some(next) else old(snapshot)
    {
      if next.number <= 0 || compiler.routes(next.config) == 0 {
        return false;
      }
      snapshot := Some(next);
      return true;
    }

    // `between`: what other processes commit after the token was read and before the load.
    method ReloadIfChanged(between: seq<Change<G>>) returns (r: Reload)
      requires Valid()
      modifies this, store
      ensures Valid() && store.Forward()
      // no change is skipped: when nothing is loaded, what is served was current when the token was read
      ensures r.Unchanged? ==> snapshot == old(snapshot) && snapshot.Some?
                               && Served(old(store.View())) == Some(snapshot.value.config)
      // what is swapped in is current at the load
      ensures r.Swapped? ==> snapshot.Some? && store.View() == Run(old(store.View()), between, store.drafting)
                             && Token(store.View()) == Some(snapshot.value.number)
                             && Served(store.View()) == Some(snapshot.value.config)
      // otherwise what is served stays, for one of these reasons
      ensures r.Degraded? ==> snapshot == old(snapshot) && match r.reason
        case RevisionUnavailable => Token(old(store.View())).None? || failures > old(failures)
        case LoadFailed => Token(store.View()).None? || failures > old(failures)
        case CompileFailed => Served(store.View()).Some? && !compiler.compiles(Served(store.View()).value)
        case SwapFailed => Served(store.View()).Some?
                           && (Token(store.View()) == Some(0) || compiler.routes(Served(store.View()).value) == 0)
    {
      var failed := Read();
      var revision := Token(store.View());
      if failed || revision.None? {
        return Degraded(RevisionUnavailable);
      }
      if snapshot.Some? && revision.value == snapshot.value.number {
        ServedIsCurrent();
        return Unchanged;
      }
      store.CommitAll(between);
      failed := Read();
      var loaded := LoadRuntimeConfig();
      if failed || loaded.None? {
        return Degraded(LoadFailed);
      }
      if !compiler.compiles(loaded.value.config) {
        return Degraded(CompileFailed);
      }
      var swapped := Swap(loaded.value);
      return if swapped then Swapped else Degraded(SwapFailed);
    }
  }

  // ----- the server cache -----

  // A server built from a configuration.
  datatype Server<G> = Server(number: nat, config: Config<G>)

  class ProviderServer<!G> {
    var revision: nat
    var server: Option<Server<G>>

    constructor ()
      ensures server == None
    {
      revision, server := 0, None;
    }

    // The cached server was built from the configuration that its revision names.
    ghost predicate Valid(history: map<nat, Config<G>>)
      reads this
    {
      server.Some? ==> revision > 0 && revision in history && server.value == Server(revision, history[revision])
    }

    // Whatever has been cached, the server returned is the one newServer would build.
    method CurrentServer(cfg: Compiled<G>, ghost history: map<nat, Config<G>>) returns (s: Server<G>)
      requires Valid(history)
      requires cfg.number > 0 ==> cfg.number in history && history[cfg.number] == cfg.config
      modifies this
      ensures Valid(history) && s == Server(cfg.number, cfg.config)
    {
      if cfg.number == 0 {
        return Server(cfg.number, cfg.config);
      }
      if server.Some? && revision == cfg.number {
        return server.value;
      }
      s := Server(cfg.number, cfg.config);
      revision, server := cfg.number, Some(s);
    }
  }

  // ----- requests among reloads and transactions -----

  datatype Turn<!G> = Commit(change: Change<G>) | Reload(between: seq<Change<G>>) | Request

  // The servers for the first n turns, when states[k] is the runtime state before turn k: each request
  // that finds a configuration gets a server built from it.
  function Serving<G>(turns: seq<Turn<G>>, states: seq<Option<Compiled<G>>>, n: nat): seq<Server<G>>
    requires n <= |turns| && n <= |states|
  {
    if n == 0 then []
    else
      var state := states[n - 1];
      Serving(turns, states, n - 1)
      + (if turns[n - 1].Request? && state.Some? then [Server(state.value.number, state.value.config)] else [])
  }

  lemma {:induction false} ServingSame<G>(turns: seq<Turn<G>>, states: seq<Option<Compiled<G>>>,
                                          more: seq<Option<Compiled<G>>>, n: nat)
    requires n <= |turns| && n <= |states| && states <= more
    ensures Serving(turns, states, n) == Serving(turns, more, n)
  {
    if n > 0 {
      ServingSame(turns, states, more, n - 1);
    }
  }

  // Turn number n is a request that finds a configuration.
  predicate Asks<G>(turns: seq<Turn<G>>, states: seq<Option<Compiled<G>>>, n: int) {
    0 <= n < |turns| && n < |states| && turns[n].Request? && states[n].Some?
  }

  // These turns, in order, are the ones that ask among the first n.
  ghost predicate Askers<G>(who: seq<nat>, turns: seq<Turn<G>>, states: seq<Option<Compiled<G>>>, n: nat) {
    && (forall k :: 0 <= k < |who| ==> who[k] < n && Asks(turns, states, who[k]))
    && (forall k, l :: 0 <= k < l < |who| ==> who[k] < who[l])
    && forall m: nat {:trigger m in who} :: m < n && Asks(turns, states, m) ==> m in who
  }

  lemma {:induction false} AskersNext<G>(who: seq<nat>, turns: seq<Turn<G>>, states: seq<Option<Compiled<G>>>, n: nat)
    requires Askers(who, turns, states, n)
    ensures Askers(if Asks(turns, states, n) then who + [n] else who, turns, states, n + 1)
  {
    if Asks(turns, states, n) {
      var more := who + [n];
      assert more[|who|] == n && forall k :: 0 <= k < |who| ==> more[k] == who[k];
      forall m: nat | m < n + 1 && Asks(turns, states, m) ensures m in more {
        assert m < n ==> m in who;
      }
    }
  }

  // Each of these turns got a server with the number and content of the state it found.
  ghost predicate ServedFor<G>(served: seq<Server<G>>, who: seq<nat>, states: seq<Option<Compiled<G>>>) {
    && |served| == |who|
    && forall k :: 0 <= k < |who| ==>
         && who[k] < |states| && states[who[k]].Some?
         && served[k].number == states[who[k]].value.number && served[k].config == states[who[k]].value.config
  }

  lemma {:induction false} ServedNext<G>(served: seq<Server<G>>, who: seq<nat>, states: seq<Option<Compiled<G>>>,
                                         n: nat)
    requires ServedFor(served, who, states) && n < |states| && states[n].Some?
    ensures ServedFor(served + [Server(states[n].value.number, states[n].value.config)], who + [n], states)
  {
  }

  function AskersIn<G>(turns: seq<Turn<G>>, states: seq<Option<Compiled<G>>>, n: nat): seq<nat> {
    if n == 0 then []
    else if Asks(turns, states, n - 1) then AskersIn(turns, states, n - 1) + [n - 1]
    else AskersIn(turns, states, n - 1)
  }

  lemma {:induction false} AskersExactly<G>(turns: seq<Turn<G>>, states: seq<Option<Compiled<G>>>, n: nat)
    ensures Askers(AskersIn(turns, states, n), turns, states, n)
  {
    if n > 0 {
      AskersExactly(turns, states, n - 1);
      AskersNext(AskersIn(turns, states, n - 1), turns, states, n - 1);
    }
  }

  // Each request that finds a configuration gets a server for it, in order, and nothing else is served.
  lemma {:induction false} ServingExactly<G>(turns: seq<Turn<G>>, states: seq<Option<Compiled<G>>>, n: nat)
    requires n <= |turns| && n <= |states|
    ensures Askers(AskersIn(turns, states, n), turns, states, n)
    ensures ServedFor(Serving(turns, states, n), AskersIn(turns, states, n), states)
  {
    AskersExactly(turns, states, n);
    AllServed(turns, states, n);
  }

  lemma {:induction false} AllServed<G>(turns: seq<Turn<G>>, states: seq<Option<Compiled<G>>>, n: nat)
    requires n <= |turns| && n <= |states|
    ensures ServedFor(Serving(turns, states, n), AskersIn(turns, states, n), states)
  {
    if n > 0 {
      AllServed(turns, states, n - 1);
      var before, who := Serving(turns, states, n - 1), AskersIn(turns, states, n - 1);
      if Asks(turns, states, n - 1) {
        ServedNext(before, who, states, n - 1);
      } else {
        assert before + [] == before;
      }
    }
  }

  // In every run, each request is served by a server for the configuration then in the runtime
  // state, that state changes at reloads only, and what is served was current under its token.
  method Operate<G>(r: Reloader<G>, p: ProviderServer<G>, turns: seq<Turn<G>>)
    returns (served: seq<Server<G>>, ghost states: seq<Option<Compiled<G>>>)
    requires r.Valid() && p.Valid(r.store.history)
    modifies r, r.store, p
    ensures r.Valid() && p.Valid(r.store.history)
    ensures |states| == |turns| + 1 && states[0] == old(r.snapshot) && states[|turns|] == r.snapshot
    ensures forall n :: 0 <= n < |turns| && !turns[n].Reload? ==> states[n + 1] == states[n]
    ensures served == Serving(turns, states, |turns|)
    ensures forall i :: 0 <= i < |served| ==>
              served[i].number in r.store.history && served[i].config == r.store.history[served[i].number]
  {
    served, states := [], [r.snapshot];
    for i := 0 to |turns|
      invariant r.Valid() && p.Valid(r.store.history)
      invariant |states| == i + 1 && states[0] == old(r.snapshot) && states[i] == r.snapshot
      invariant forall n :: 0 <= n < i && !turns[n].Reload? ==> states[n + 1] == states[n]
      invariant served == Serving(turns, states, i)
      invariant forall k :: 0 <= k < |served| ==>
                  served[k].number in r.store.history && served[k].config == r.store.history[served[k].number]
    {
      var s := OperateOne(r, p, turns[i]);
      if s.Some? {
        served := served + [s.value];
      }
      ServingSame(turns, states, states + [r.snapshot], i);
      states := states + [r.snapshot];
    }
  }

  method OperateOne<G>(r: Reloader<G>, p: ProviderServer<G>, turn: Turn<G>) returns (s: Option<Server<G>>)
    requires r.Valid() && p.Valid(r.store.history)
    modifies r, r.store, p
    ensures r.Valid() && p.Valid(r.store.history) && r.store.Forward()
    ensures !turn.Reload? ==> r.snapshot == old(r.snapshot)
    ensures s == if turn.Request? && old(r.snapshot).Some?
                 then Some(Server(old(r.snapshot).value.number, old(r.snapshot).value.config)) else None
    ensures s.Some? ==> s.value.number in r.store.history && s.value.config == r.store.history[s.value.number]
  {
    s := None;
    match turn {
      case Commit(change) => r.store.Commit(change);
      case Reload(between) => var outcome := r.ReloadIfChanged(between);
      case Request =>
        if r.snapshot.Some? {
          var server := p.CurrentServer(r.snapshot.value, r.store.history);
          s := Some(server);
        }
    }
  }
}
