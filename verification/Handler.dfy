/** One attempt of the per-interface job: preflight, naming, the need check,
    apply, validate and the status update, with the effects in the order they happen. */
module Handler {
  import opened Text
  import opened Entities

  datatype ErrorType =
    | Validation | NotFound | Conflict | System | Network
    | Timeout | Configuration | Permission | Resource

  /** A domain error carries a type; any other Go error is Plain. */
  datatype AgentError = Domain(kind: ErrorType) | Plain

  datatype Outcome = Succeeded | Errored(error: AgentError) | Panicked

  datatype Event =
    | PreflightPassed
    | UpToDate(name: string)
    | Configured(name: string, ok: bool)
    | Validated(name: string, present: bool, up: bool)
    | RolledBack(name: string, ok: bool)

  datatype HandlerRun = HandlerRun(events: seq<Event>, outcome: Outcome)

  /** What the system answers about the device with the requested MAC. */
  datatype LinkView =
    | Missing
    | Present(name: string, up: bool, ipv4: bool, enslaved: bool, routes: bool, defaultRoute: bool)

  /** Everything one attempt reads from its environment. */
  datatype Probe = Probe(
    before: LinkView, allowUp: bool, name: Option<string>, needed: bool,
    configureOk: bool, rollbackOk: bool, after: LinkView, statusError: Option<AgentError>)

  predicate IsPresent(v: LinkView) { v.Present? && TrimSpace(v.name) != "" }

  predicate Preflight(v: LinkView, allowUp: bool) {
    IsPresent(v) &&
    (HasPrefix(v.name, PREFIX) || !v.up || allowUp || !(v.ipv4 || v.enslaved || v.routes || v.defaultRoute))
  }

  const NETWORK_FAILURE := Errored(Domain(Network))

  /** applyConfiguration: Configure, and Rollback when it fails. */
  function Apply(p: Probe, name: string): HandlerRun {
    if p.configureOk then HandlerRun([Configured(name, true)], Succeeded)
    else HandlerRun([Configured(name, false), RolledBack(name, p.rollbackOk)], NETWORK_FAILURE)
  }

  /** validateConfiguration: the MAC must be present and its link UP; Rollback otherwise. */
  function Validate(p: Probe, name: string): HandlerRun {
    var present := IsPresent(p.after);
    var up := present && p.after.up;
    if up then HandlerRun([Validated(name, true, true)], Succeeded)
    else HandlerRun([Validated(name, present, false), RolledBack(name, p.rollbackOk)], NETWORK_FAILURE)
  }

  /** ProcessingUseCase.Process: apply, validate, then record the status. */
  function Process(p: Probe, name: string): HandlerRun {
    var applied := Apply(p, name);
    if !applied.outcome.Succeeded? then applied
    else
      var validated := Validate(p, name);
      var events := applied.events + validated.events;
      if !validated.outcome.Succeeded? then HandlerRun(events, validated.outcome)
      else if p.statusError.Some? then HandlerRun(events, Errored(p.statusError.value))
      else HandlerRun(events, Succeeded)
  }

  /** The handler Execute gives to the worker pool. */
  function Handle(p: Probe): HandlerRun {
    if !Preflight(p.before, p.allowUp) then HandlerRun([], Errored(Domain(Validation)))
    else if p.name.None? then HandlerRun([PreflightPassed], Errored(Plain))
    else if !p.needed then HandlerRun([PreflightPassed, UpToDate(p.name.value)], Succeeded)
    else
      var processed := Process(p, p.name.value);
      HandlerRun([PreflightPassed] + processed.events, processed.outcome)
  }

  predicate Failing(e: Event) {
    (e.Configured? && !e.ok) || (e.Validated? && !(e.present && e.up))
  }

  /** Configure never happens before the preflight has passed. */
  predicate PreflightFirst(events: seq<Event>) {
    forall k | 0 <= k < |events| && events[k].Configured? :: k > 0 && events[0].PreflightPassed?
  }

  /** A failed step is followed at once by a rollback of the same name, nothing else is rolled
      back, and no attempt fails twice: each failure has exactly one rollback. */
  predicate RollbackPaired(events: seq<Event>) {
    && (forall k | 0 <= k < |events| && Failing(events[k]) ::
          k + 2 == |events| && events[k + 1].RolledBack? && events[k + 1].name == events[k].name)
    && RollbackJustified(events)
  }

  /** A rollback only ever follows a failed step of the same name. */
  predicate RollbackJustified(events: seq<Event>) {
    forall k | 0 <= k < |events| && events[k].RolledBack? ::
      k > 0 && Failing(events[k - 1]) && events[k - 1].name == events[k].name
  }

  /** What holds of an attempt at any moment, also when it is cut short by a panic. */
  predicate Orderly(events: seq<Event>) { PreflightFirst(events) && RollbackJustified(events) }

  /** A reported success was up to date, or was configured and then seen present and UP. */
  predicate SuccessJustified(run: HandlerRun) {
    run.outcome.Succeeded? ==>
      var n := |run.events|;
      && n > 0
      && (run.events[n - 1].UpToDate? ||
          (n > 1 && run.events[n - 1].Validated? &&
           run.events[n - 2] == Configured(run.events[n - 1].name, true)))
      && forall k | 0 <= k < n :: !Failing(run.events[k]) && !run.events[k].RolledBack?
  }

  predicate TraceSafe(run: HandlerRun) {
    PreflightFirst(run.events) && RollbackPaired(run.events) && SuccessJustified(run)
  }

  predicate RetryableKind(k: ErrorType) { k in {Timeout, Network, System, Resource} }

  /** The error half of the retry policy. */
  predicate Retryable(o: Outcome) { o.Errored? && o.error.Domain? && RetryableKind(o.error.kind) }

  lemma HandleIsTraceSafe(p: Probe)
    ensures TraceSafe(Handle(p))
    ensures Retryable(Handle(p).outcome) ==> exists k :: 0 <= k < |Handle(p).events| && Handle(p).events[k].Configured?
  {
    var run := Handle(p);
    if Preflight(p.before, p.allowUp) && p.name.Some? && p.needed {
      assert run.events[1].Configured?;
    }
  }

  // ------------------------------------------------ what an attempt says is so

  /** The device is in use: it has an address, a master, a route or the default route. */
  predicate InUse(v: LinkView)
    requires v.Present?
  {
    v.ipv4 || v.enslaved || v.routes || v.defaultRoute
  }

  /** A missing device is refused; of the present ones exactly those are that are UP, in use, not
      named multinic* and not let through by the override. */
  lemma PreflightRefusesIff(v: LinkView, allowUp: bool)
    ensures v.Missing? ==> !Preflight(v, allowUp)
    ensures v.Present? && TrimSpace(v.name) == "" ==> !Preflight(v, allowUp)
    ensures v.Present? && TrimSpace(v.name) != "" ==>
              (!Preflight(v, allowUp) <==> v.up && InUse(v) && !allowUp && !HasPrefix(v.name, "multinic"))
  {
  }

  /** Afterwards the device is there and its link is UP. */
  predicate SeenUp(v: LinkView) { v.Present? && TrimSpace(v.name) != "" && v.up }

  /** An attempt succeeds exactly when the preflight passes, there is a name, and either nothing is
      needed or Configure worked, the device is there and UP afterwards and the status was recorded. */
  lemma SucceedsIff(p: Probe)
    ensures Handle(p).outcome.Succeeded? <==>
            && Preflight(p.before, p.allowUp) && p.name.Some?
            && (!p.needed || (p.configureOk && SeenUp(p.after) && p.statusError.None?))
  {
  }

  /** What an attempt that does not succeed reports. */
  lemma ErrorTellsTheCause(p: Probe)
    ensures !Preflight(p.before, p.allowUp) ==> Handle(p).outcome == Errored(Domain(Validation))
    ensures Preflight(p.before, p.allowUp) && p.name.None? ==> Handle(p).outcome == Errored(Plain)
    ensures Preflight(p.before, p.allowUp) && p.name.Some? && p.needed ==>
              && (!(p.configureOk && SeenUp(p.after)) ==> Handle(p).outcome == Errored(Domain(Network)))
              && (p.configureOk && SeenUp(p.after) && p.statusError.Some? ==>
                    Handle(p).outcome == Errored(p.statusError.value))
  {
  }

  /** The event reports what the probe shows. */
  predicate Truthful(p: Probe, e: Event) {
    match e
    case PreflightPassed => Preflight(p.before, p.allowUp)
    case UpToDate(name) => p.name == Some(name) && !p.needed
    case Configured(name, ok) => p.name == Some(name) && p.needed && ok == p.configureOk
    case Validated(name, present, up) =>
      && p.name == Some(name) && p.needed && p.configureOk
      && present == (p.after.Present? && TrimSpace(p.after.name) != "") && up == SeenUp(p.after)
    case RolledBack(name, ok) => p.name == Some(name) && ok == p.rollbackOk && !(p.configureOk && SeenUp(p.after))
  }

  /** Every logged event is true of the system, Configure is logged whenever it is due, and the
      validation whenever Configure worked. */
  lemma EventsTellTheTruth(p: Probe)
    ensures forall k | 0 <= k < |Handle(p).events| :: Truthful(p, Handle(p).events[k])
    ensures Preflight(p.before, p.allowUp) && p.name.Some? && p.needed ==>
              && Configured(p.name.value, p.configureOk) in Handle(p).events
              && (p.configureOk ==> exists k :: 0 <= k < |Handle(p).events| && Handle(p).events[k].Validated?)
  {
    var events := Handle(p).events;
    if Preflight(p.before, p.allowUp) && p.name.Some? && p.needed {
      assert events[1] == Configured(p.name.value, p.configureOk);
      if p.configureOk {
        assert events[2].Validated?;
      }
    }
  }

  // ------------------------------------------------- the code, effect by effect

  /** One attempt as the code performs it: each effect is appended to the log as it happens. */
  class Processor {
    var log: seq<Event>

    constructor ()
      ensures log == []
    {
      log := [];
    }

    method PerformRollback(p: Probe, name: string)
      modifies this
      ensures log == old(log) + [RolledBack(name, p.rollbackOk)]
    {
      log := log + [RolledBack(name, p.rollbackOk)];
    }

    method ApplyConfiguration(p: Probe, name: string) returns (outcome: Outcome)
      modifies this
      ensures log == old(log) + Apply(p, name).events && outcome == Apply(p, name).outcome
    {
      log := log + [Configured(name, p.configureOk)];
      if !p.configureOk {
        PerformRollback(p, name);
        return NETWORK_FAILURE;
      }
      return Succeeded;
    }

    method ValidateConfiguration(p: Probe, name: string) returns (outcome: Outcome)
      modifies this
      ensures log == old(log) + Validate(p, name).events && outcome == Validate(p, name).outcome
    {
      if !IsPresent(p.after) {
        log := log + [Validated(name, false, false)];
        PerformRollback(p, name);
        return NETWORK_FAILURE;
      }
      log := log + [Validated(name, true, p.after.up)];
      if !p.after.up {
        PerformRollback(p, name);
        return NETWORK_FAILURE;
      }
      return Succeeded;
    }

    method ProcessInterface(p: Probe, name: string) returns (outcome: Outcome)
      modifies this
      ensures log == old(log) + Process(p, name).events && outcome == Process(p, name).outcome
    {
      outcome := ApplyConfiguration(p, name);
      if !outcome.Succeeded? {
        return;
      }
      outcome := ValidateConfiguration(p, name);
      if outcome.Succeeded? && p.statusError.Some? {
        outcome := Errored(p.statusError.value);
      }
    }

    /** The handler closure: what it appends to the log is the specified attempt and keeps the
        discipline. */
    method HandleJob(p: Probe) returns (outcome: Outcome)
      modifies this
      ensures log == old(log) + Handle(p).events && outcome == Handle(p).outcome
      ensures TraceSafe(HandlerRun(log[|old(log)|..], outcome))
    {
      outcome := HandleEffects(p);
      HandleIsTraceSafe(p);
      assert log[|old(log)|..] == Handle(p).events;
      assert HandlerRun(log[|old(log)|..], outcome) == Handle(p);
    }

    method HandleEffects(p: Probe) returns (outcome: Outcome)
      modifies this
      ensures log == old(log) + Handle(p).events && outcome == Handle(p).outcome
    {
      if !Preflight(p.before, p.allowUp) {
        return Errored(Domain(Validation));
      }
      log := log + [PreflightPassed];
      if p.name.None? {
        return Errored(Plain);
      }
      if !p.needed {
        log := log + [UpToDate(p.name.value)];
        return Succeeded;
      }
      outcome := ProcessInterface(p, p.name.value);
    }
  }
}
