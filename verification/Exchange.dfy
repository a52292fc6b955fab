/** One gateway exchange from preparation to forwarding, and the release of its reservation:
    internal/contexts/gateway/adapters/http/openai/openai_exchange.go:11-99 and
    internal/contexts/gateway/application/exchange_workflow.go:17-38. */
module Exchange {
  import opened Options
  import opened RateLimits
  import opened Admission

  // Why an exchange ended before it was forwarded.
  datatype Exit = UnknownRoute | NotAdmitted(reason: Reason) | BodyRefused | NoProvider | AuditDown
                | NotDecoded | NotMapped | InputBlocked | NotProjected | Forwarded

  // What the transport, the codec, the policy and the audit gate answer in turn.
  datatype Facts = Facts(route: Option<string>, who: Identity, now: int, auditAtAdmission: bool, bodyOk: bool,
                         providerFound: bool, auditLater: bool, decodes: bool, mapped: bool,
                         inputAllowed: bool, projected: bool)

  // Admission is asked only on protected routes.
  function PrepareExit(f: Facts, admission: Option<Admitted>): Option<Exit> {
    if f.route.None? then Some(UnknownRoute)
    else if admission.Some? && admission.value.Rejected? then Some(NotAdmitted(admission.value.reason))
    else if admission.Some? && !f.bodyOk then Some(BodyRefused)
    else if !f.providerFound then Some(NoProvider)
    else if !f.auditLater then Some(AuditDown)
    else if !f.bodyOk then Some(BodyRefused)
    else if !f.decodes then Some(NotDecoded)
    else if !f.mapped then Some(NotMapped)
    else None
  }

  function ExchangeExit(f: Facts, admission: Option<Admitted>): Exit {
    var failed := PrepareExit(f, admission);
    if failed.Some? then failed.value
    else if !f.inputAllowed then InputBlocked
    else if !f.projected then NotProjected
    else Forwarded
  }

  // What each exit means: its own check failed and those before it did not. The body is read early on a
  // protected route, and after provider and audit otherwise.
  ghost predicate Because(exit: Exit, f: Facts, admission: Option<Admitted>) {
    var known, admitted := f.route.Some?, admission.None? || admission.value.Allowed?;
    var early := known && admitted && (admission.Some? ==> f.bodyOk);
    var late := early && f.providerFound && f.auditLater && f.bodyOk;
    match exit
    case UnknownRoute => !known
    case NotAdmitted(reason) => known && !admitted && admission.value.reason == reason
    case BodyRefused => known && admitted && !f.bodyOk && (admission.Some? || (f.providerFound && f.auditLater))
    case NoProvider => early && !f.providerFound
    case AuditDown => early && f.providerFound && !f.auditLater
    case NotDecoded => late && !f.decodes
    case NotMapped => late && f.decodes && !f.mapped
    case InputBlocked => Prepared(f, admission) && !f.inputAllowed
    case NotProjected => Prepared(f, admission) && f.inputAllowed && !f.projected
    case Forwarded => Prepared(f, admission) && f.inputAllowed && f.projected
  }

  ghost predicate Prepared(f: Facts, admission: Option<Admitted>) {
    && f.route.Some? && (admission.Some? ==> admission.value.Allowed?)
    && f.bodyOk && f.providerFound && f.auditLater && f.decodes && f.mapped
  }

  // The reservation that an admission made.
  function Reserved(admission: Option<Admitted>): Option<Reservation> {
    if admission.Some? && admission.value.Allowed? then Some(admission.value.release) else None
  }

  class Server {
    const limits: LimitResolver
    const rates: RateState
    const slots: Concurrency
    const maxBodyBytes: int

    ghost predicate Valid()
      reads slots, slots.held
    {
      slots.Valid()
    }

    constructor (limits: LimitResolver, rates: RateState, slots: Concurrency, maxBodyBytes: int)
      requires slots.Valid()
      ensures Valid() && this.slots == slots && this.limits == limits && this.rates == rates
    {
      this.limits, this.rates, this.slots, this.maxBodyBytes := limits, rates, slots, maxBodyBytes;
    }

    predicate Protected(f: Facts)
      reads limits
    {
      f.route.Some? && f.route.value in limits.protectedRoutes
    }

    // The steps of preparation; `release` is what the deferred cleanup would call.
    method PrepareSteps(f: Facts) returns (release: Option<Reservation>, exit: Option<Exit>,
                                           ghost admission: Option<Admitted>)
      requires Valid()
      modifies rates, slots
      ensures Valid() && release == Reserved(admission) && (admission.Some? <==> Protected(f))
      ensures exit == PrepareExit(f, admission)
      ensures release.Some? ==> fresh(release.value) && release.value.releases == 0
      ensures slots.held == old(slots.held) + (if release.Some? then {release.value} else {})
    {
      release, admission := None, None;
      if f.route.None? {
        return release, Some(UnknownRoute), admission;
      }
      var routeKey := f.route.value;
      var bodyRead := false;
      if routeKey in limits.protectedRoutes {
        var admitted := AdmitProtectedRoute(f.who, routeKey, f.now, maxBodyBytes, f.auditAtAdmission, limits, rates,
                                            slots);
        admission := Some(admitted);
        if admitted.Rejected? {
          return None, Some(NotAdmitted(admitted.reason)), admission;
        }
        release := Some(admitted.release);
        if !f.bodyOk {
          return release, Some(BodyRefused), admission;
        }
        bodyRead := true;
      }
      if !f.providerFound {
        return release, Some(NoProvider), admission;
      }
      if !f.auditLater {
        return release, Some(AuditDown), admission;
      }
      if !bodyRead {
        if !f.bodyOk {
          return release, Some(BodyRefused), admission;
        }
      }
      if !f.decodes {
        return release, Some(NotDecoded), admission;
      }
      if !f.mapped {
        return release, Some(NotMapped), admission;
      }
      return release, None, admission;
    }

    // The deferred cleanup runs on every failing path and on no other.
    method Prepare(f: Facts) returns (release: Option<Reservation>, exit: Option<Exit>,
                                      ghost admission: Option<Admitted>)
      requires Valid()
      modifies rates, slots
      ensures Valid() && exit == PrepareExit(f, admission)
      ensures admission.Some? <==> f.route.Some? && f.route.value in limits.protectedRoutes
      ensures if exit.None? then Prepared(f, admission) else Because(exit.value, f, admission)
      ensures Reserved(admission).Some? ==>
                fresh(Reserved(admission).value) && Reserved(admission).value.releases == if exit.Some? then 1 else 0
      ensures release == if exit.Some? then None else Reserved(admission)
      ensures slots.held == old(slots.held) + (if release.Some? then {release.value} else {})
    {
      release, exit, admission := PrepareSteps(f);
      if exit.Some? {
        if release.Some? {
          slots.Release(release.value);
        }
        release := None;
      }
    }

    // A whole exchange: whatever the exit, its reservation is released exactly once and the slots are
    // as they were; it is still held while the exchange is forwarded.
    method Run(f: Facts) returns (completed: bool, ghost exit: Exit, ghost admission: Option<Admitted>)
      requires Valid()
      modifies rates, slots
      ensures Valid() && slots.held == old(slots.held)
      ensures forall key :: slots.Count(key) == old(slots.Count(key))
      ensures admission.Some? <==> f.route.Some? && f.route.value in limits.protectedRoutes
      ensures exit == ExchangeExit(f, admission)
      ensures Because(exit, f, admission)
      // forwarded is what is known, admitted, readable, routable, audited, allowed and projected
      ensures completed <==>
              && Prepared(f, admission) && f.inputAllowed && f.projected && exit.Forwarded?
      ensures Reserved(admission).Some? ==>
                fresh(Reserved(admission).value) && Reserved(admission).value.releases == 1
    {
      var release, failed;
      release, failed, admission := Prepare(f);
      exit := ExchangeExit(f, admission);
      completed := false;
      if failed.None? {
        if f.inputAllowed && f.projected {
          assert Reserved(admission).Some? ==> Reserved(admission).value in slots.held;
          completed := true;
        }
        if release.Some? {
          slots.Release(release.value);
        }
      }
      assert forall key :: slots.Held(key) == old(slots.Held(key));
    }
  }
}
