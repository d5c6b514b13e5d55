/** The consumer's pass. Every durable write and every call to AG, a resolver
    or NQ may be the last thing a pass does; what the outside answers is
    arbitrary. The ghost trace records the steps that were taken. */
module Consumer {
  import opened Common
  import opened ConsumerTrace

  /** `Stopped` stands for an error return and for a crash alike. */
  datatype Result<+T> = Ok(value: T) | Stopped {
    predicate IsFailure() { Stopped? }

    function PropagateFailure<U>(): Result<U>
      requires IsFailure()
    {
      Stopped
    }

    function Extract(): T
      requires !IsFailure()
    {
      value
    }
  }

  // ----- selecting a candidate --------------------------------------------------------

  const FUTURE_SKEW_SECONDS := 5
  const DRIVE_STEPS_MAX := 32

  /** The enrolled condition as the evaluator's report shows it. */
  datatype ReportedCondition = ReportedCondition(
    enrolled: bool, autoRemediate: bool, present: bool, firstSeen: Option<string>, windowUntil: Option<int>, pageDeferred: bool)

  datatype Report = Report(schemaOk: bool, evaluatedAt: Option<int>, inputsOk: bool, condition: Option<ReportedCondition>)

  datatype Candidate = Candidate(id: EpisodeId, windowUntil: int)

  /** A recent report from working inputs that has the enrolled condition. */
  predicate Current(config: Config, report: Report, now: int) {
    && report.schemaOk && report.inputsOk && report.condition.Some? && report.evaluatedAt.Some?
    && -FUTURE_SKEW_SECONDS <= now - report.evaluatedAt.value <= config.reportMaxAge
  }

  /** Present, enrolled for remediation, its page held, with the margin left of its window. */
  predicate Actionable(config: Config, c: ReportedCondition, now: int) {
    && c.enrolled && c.autoRemediate && c.present && c.pageDeferred
    && c.firstSeen.Some? && c.windowUntil.Some? && c.windowUntil.value - now >= config.margin
  }

  /** Act only on a current report, while the page is held and enough of the window is left. */
  function Select(config: Config, report: Report, now: int): (r: Option<Candidate>)
    ensures r.Some? <==> Current(config, report, now) && Actionable(config, report.condition.value, now)
    ensures r.Some? ==>
      && r.value.id == EpisodeId(config.conditionId, report.condition.value.firstSeen.value)
      && r.value.windowUntil == report.condition.value.windowUntil.value
  {
    if !report.schemaOk || report.evaluatedAt == None then None
    else if now - report.evaluatedAt.value > config.reportMaxAge || now - report.evaluatedAt.value < -FUTURE_SKEW_SECONDS then None
    else if !report.inputsOk || report.condition == None then None
    else
      var c := report.condition.value;
      if !c.enrolled || !c.autoRemediate || !c.present || c.firstSeen == None || c.windowUntil == None then None
      else if !c.pageDeferred || c.windowUntil.value - now < config.margin then None
      else Some(Candidate(EpisodeId(config.conditionId, c.firstSeen.value), c.windowUntil.value))
  }

  /** The decision of a pass, on its two clock readings, to open an episode for the candidate. */
  predicate Decides(config: Config, report: Report, s: State, selectedAt: nat, guardedAt: nat, c: Candidate) {
    && Select(config, report, selectedAt / 1000) == Some(c) && !Seen(s, c.id)
    && !(s.lastWindowUntil.Some? && guardedAt / 1000 < s.lastWindowUntil.value)
  }

  // ----- growth of the trace ------------------------------------------------------------

  /** Nothing reported is taken back. */
  ghost predicate Keeps(before: seq<Event>, after: seq<Event>) {
    Reported(before) <= Reported(after) && SeenCompleted(before) <= SeenCompleted(after) && Invoked(before) <= Invoked(after)
  }

  /** Steps were added and none of them saved the state. */
  ghost predicate Quiet(before: seq<Event>, after: seq<Event>) {
    before <= after && forall k :: |before| <= k < |after| ==> !after[k].Saved?
  }

  /** AG was not asked in between, so its last report stands. */
  ghost predicate Unasked(before: seq<Event>, after: seq<Event>) {
    LastStatus(after) == LastStatus(before)
  }

  /** AG carried the step out, or it failed and AG's status decides whether AG left the program counter. */
  ghost predicate Judged(before: seq<Event>, after: seq<Event>, campaign: nat, pc: ProgramCounter, moved: bool) {
    || (moved && after == before + [Stepped(campaign, pc, true)])
    || (!moved && after == before + [Stepped(campaign, pc, false), Unreadable])
    || (exists s :: after == before + [Stepped(campaign, pc, false), Status(s)] && (moved <==> s.pc != pc))
  }

  /** What a pass reports. */
  datatype Summary = Pending | Awaiting | Abstained | Deliberating | Ended(outcome: Outcome)

  datatype Flow = Again | Done(result: Summary)

  /** How an episode may end on what AG reports of its campaign. */
  predicate EndsFrom(s: Snapshot, outcome: Outcome) {
    match s.pc
    case ObservationRequired =>
      if s.prior then outcome in {EndedCompleted, PostconditionNotProven} else outcome == RefusedAtRecordProposal
    case ProposalRecorded => outcome == RefusedAtRequireStanding
    case StandingRequired => outcome == RefusedAtDecide
    case AdmissiblePendingAuthorization => outcome in {WindowExpiredBeforeAuthorization, RefusedAtAuthorize}
    case AuthorizationConsumed => outcome in {DispatchNotAccepted, WindowExpiredBeforeDispatch, DispatchRefused}
    case Dispatched => false
    case ReconciliationRequired => outcome == Indeterminate
    case SettledObservationRequired =>
      if s.settlement.outcome == "success" then outcome in {EndedCompleted, PostconditionNotProven} else outcome == SettledFailure
    case Halted => outcome == EndedHalted
    case Completed => outcome == EndedCompleted
    case OtherCounter => outcome == UnknownProgramCounter
  }

  ghost predicate ReportsOther(e: Event, campaign: nat) {
    e.Status? && e.snapshot.campaign != Some(campaign)
  }

  /** Reports on which the episode ends at once. */
  predicate Terminal(s: Snapshot) {
    || s.pc in {ReconciliationRequired, Halted, Completed, OtherCounter}
    || (s.pc == SettledObservationRequired && s.settlement.outcome != "success")
  }

  class Pass {
    const config: Config
    var state: State
    /** What the state file holds. */
    var disk: State
    /** Random identities are taken to be fresh. */
    var nonce: nat
    ghost var trace: seq<Event>

    ghost predicate Valid()
      reads this
    {
      disk == Disk(trace) && Sound(config, trace) && forall c :: c in Campaigns(trace) ==> c < nonce
    }

    ghost predicate Synced()
      reads this
    {
      Valid() && state == disk
    }

    ghost predicate Open()
      reads this
    {
      Synced() && state.active.Some?
    }

    constructor (config: Config)
      ensures Synced() && trace == [] && this.config == config
    {
      this.config, state, disk, nonce, trace := config, EmptyState, EmptyState, 0, [];
    }

    // ----- the outside --------------------------------------------------------------

    ghost method Record(e: Event)
      requires Valid() && !e.Saved? && Allowed(config, trace, e)
      modifies `trace
      ensures Valid() && trace == old(trace) + [e]
      ensures LastStatus(trace) == if e.Status? then Some(e.snapshot) else LastStatus(old(trace))
      ensures e.Init? || e.Archive? || Keeps(old(trace), trace)
    {
      Extended(config, trace, e);
      ExtendedReports(trace, e);
      trace := trace + [e];
    }

    method Now() returns (ms: nat)
      requires Valid()
      modifies `trace
      ensures Valid() && trace == old(trace) + [Clock(ms)] && Keeps(old(trace), trace) && Unasked(old(trace), trace)
    {
      ms := *;
      Record(Clock(ms));
    }

    /** An append to the journal, a file write or a call whose answer is not used. */
    method Journal() returns (r: Result<bool>) {
      var survived: bool := *;
      var answer: bool := *;
      r := if survived then Ok(answer) else Stopped;
    }

    /** Atomic replacement of the state file: a crash falls before or after it. */
    method Save(ghost cause: Cause) returns (r: Result<bool>)
      requires Valid() && Allowed(config, trace, Saved(state, cause))
      requires cause.Opened? && state.active.Some? ==> state.active.value.campaign < nonce
      modifies `disk, `trace
      ensures old(trace) <= trace
      ensures Valid()
      ensures r.Ok? ==> Synced() && trace == old(trace) + [Saved(state, cause)] && Keeps(old(trace), trace) && Unasked(old(trace), trace)
    {
      var written: bool := *;
      if !written {
        return Stopped;
      }
      Extended(config, trace, Saved(state, cause));
      ExtendedReports(trace, Saved(state, cause));
      disk := state;
      trace := trace + [Saved(state, cause)];
      r := Journal();
    }

    method Status() returns (r: Result<Option<Snapshot>>)
      requires Valid()
      modifies `trace
      ensures Valid() && Keeps(old(trace), trace) && Quiet(old(trace), trace)
      ensures r.Ok? ==> trace == old(trace) + [if r.value.Some? then ConsumerTrace.Status(r.value.value) else Unreadable]
      ensures r.Ok? ==> LastStatus(trace) == if r.value.Some? then r.value else LastStatus(old(trace))
    {
      r := *;
      if r.Ok? {
        Record(if r.value.Some? then ConsumerTrace.Status(r.value.value) else Unreadable);
      }
    }

    /** Whether AG's database is there. */
    method Exists() returns (present: bool)
      requires Valid()
      modifies `trace
      ensures Valid() && trace == old(trace) + [Database(present)] && Keeps(old(trace), trace) && Unasked(old(trace), trace)
    {
      present := *;
      Record(Database(present));
    }

    // ----- the open episode -----------------------------------------------------------

    method Change(next: Episode) returns (r: Result<bool>)
      requires Open() && SameEpisode(state.active.value, next)
      requires next.settlement == state.active.value.settlement && next.settledAt == state.active.value.settledAt
      modifies this
      ensures old(trace) <= trace
      ensures Valid()
      ensures r.Ok? ==> Open() && state.active.value == next && trace == old(trace) + [Saved(state, Changed)]
      ensures r.Ok? ==> Keeps(old(trace), trace) && Unasked(old(trace), trace)
    {
      state := state.(active := Some(next));
      r := Save(Changed);
    }

    /** The open episode joins the closed ones, of which only the newest are kept. */
    method TakeActive(outcome: Outcome, ms: nat)
      requires state.active.Some?
      modifies `state
      ensures state == CloseEpisode(old(state), outcome, ms)
    {
      var closed := state.closed + [state.active.value.(outcome := Some(outcome), closedAt := Some(ms))];
      if |closed| > CLOSED_KEPT {
        var excess := |closed| - CLOSED_KEPT;
        closed := closed[excess..];
      }
      state := state.(active := None, closed := closed);
    }

    method Close(outcome: Outcome) returns (r: Result<Summary>)
      requires Open()
      requires Warranted(trace, state.active.value, outcome)
      modifies this
      ensures old(trace) <= trace
      ensures Valid()
      ensures r.Ok? ==> Synced() && state.active == None && r.value == Ended(outcome)
      ensures r.Ok? ==>
        |trace| > |old(trace)| && trace[|old(trace)|].Clock? &&
        state == CloseEpisode(old(state), outcome, trace[|old(trace)|].ms)
    {
      ghost var before := trace;
      var ms := Now();
      WarrantedKept(before, state.active.value, outcome, ms);
      var _ :- Journal();
      TakeActive(outcome, ms);
      var _ :- Save(Closed(outcome, ms));
      r := Ok(Ended(outcome));
    }

    /** One AG step; after a failure AG's own state says whether it moved anyway. */
    method AgStep(campaign: nat, before: ProgramCounter) returns (moved: Result<bool>)
      requires Valid() && Active(trace, campaign) && AtCounter(trace, before)
      modifies `trace
      ensures Valid() && Keeps(old(trace), trace) && Quiet(old(trace), trace)
      ensures moved.Ok? ==> Judged(old(trace), trace, campaign, before, moved.value)
      ensures moved == Ok(false) ==> AtCounter(trace, before)
    {
      var done :- Journal();
      Record(Stepped(campaign, before, done));
      var _ :- Journal();
      if done {
        return Ok(true);
      }
      var snapshot :- Status();
      if snapshot.Some? && snapshot.value.pc != before {
        return Ok(true);
      }
      var _ :- Journal();
      moved := Ok(false);
    }

    method CloseCompleted() returns (r: Result<Summary>)
      requires Open() && state.active.value.campaign in SeenCompleted(trace) + Invoked(trace)
      modifies this
      ensures old(trace) <= trace
      ensures Valid() && (r.Ok? ==> Synced() && state.active == None)
      ensures r.Ok? ==> r.value == Ended(EndedCompleted)
    {
      r := Close(EndedCompleted);
      if r.Ok? && config.trigger {
        var _ :- Journal();
        var _ :- Journal();
      }
    }

    /** Not proven yet: wait while the window lasts, then close without claiming anything. */
    method Unproven() returns (r: Result<Summary>)
      requires Open() && KnownSettled(trace, state.active.value.campaign)
      modifies this
      ensures old(trace) <= trace
      ensures Valid() && (r.Ok? ==> Synced())
      ensures r.Ok? ==> |trace| > |old(trace)| && trace[|old(trace)|].Clock?
      ensures r.Ok? && trace[|old(trace)|].ms / 1000 < old(state.active.value.windowUntil) ==> r.value == Awaiting
      ensures r.Ok? && trace[|old(trace)|].ms / 1000 >= old(state.active.value.windowUntil) ==> r.value == Ended(PostconditionNotProven)
      ensures r.Ok? ==> (state.active == None <==> r.value != Awaiting)
    {
      ghost var before := trace;
      var ms := Now();
      KnownSettledKept(before, trace, state.active.value.campaign);
      if ms / 1000 >= state.active.value.windowUntil {
        JustRead(trace, ms, state.active.value.windowUntil);
        r := Close(PostconditionNotProven);
        return;
      }
      var _ :- Journal();
      r := Ok(Awaiting);
    }

    // ----- dispatch ------------------------------------------------------------------

    /** Recovery found the issuance not accepted, and the window was open right after. */
    ghost predicate Guarded(ms: nat)
      requires state.active.Some?
      reads this
    {
      && |trace| >= 2 && trace[|trace| - 1] == Clock(ms) && ms / 1000 < state.active.value.windowUntil
      && trace[|trace| - 2] == Recover(state.active.value.campaign, IssuanceNotAccepted)
    }

    /** Fence first, then dispatch: the fence is on disk and the window was open just before. */
    method FenceAndDispatch(ghost ms: nat) returns (r: Result<bool>)
      requires Open() && !state.active.value.dispatchStarted && Guarded(ms)
      modifies this
      ensures old(trace) <= trace
      ensures Valid() && (r.Ok? ==> Open())
      ensures r.Ok? ==>
        && state == old(state).(active := Some(old(state.active.value).(dispatchStarted := true)))
        && trace == old(trace) + [Saved(state, Fenced), Dispatch(state.active.value.campaign)]
        && Unasked(old(trace), trace)
    {
      state := state.(active := Some(state.active.value.(dispatchStarted := true)));
      var _ :- Save(Fenced);
      var _ :- Journal();
      Record(Dispatch(state.active.value.campaign));
      r := Journal();
    }

    /** Keep the issuance AG names, once. */
    method KeepIssuance(issuance: Option<string>) returns (r: Result<bool>)
      requires Open()
      modifies this
      ensures old(trace) <= trace
      ensures Valid() && (r.Ok? ==> Open() && Unasked(old(trace), trace))
      ensures r.Ok? ==> state.active.value == old(state.active.value).(issuance :=
        if old(state.active.value.issuance).Some? then old(state.active.value.issuance) else issuance)
    {
      if state.active.value.issuance.Some? || issuance == None {
        return Ok(true);
      }
      r := Change(state.active.value.(issuance := issuance));
    }

    /** AG holds a consumed authorization: recover first, dispatch at most once. */
    method Authorized(snapshot: Snapshot) returns (r: Result<Flow>)
      requires Open() && ReportedAt(trace, state.active.value.campaign, AuthorizationConsumed)
      modifies this
      ensures old(trace) <= trace
      ensures Valid() && (r.Ok? ==> Synced() && (r.value.Again? ==> state.active.Some?))
      ensures r.Ok? && state.active == None ==>
        r.value.Done? && r.value.result.Ended? &&
        r.value.result.outcome in {DispatchNotAccepted, WindowExpiredBeforeDispatch, DispatchRefused}
    {
      var _ :- KeepIssuance(snapshot.issuance);
      r := RecoverFirst();
    }

    /** What AG's recovery answers decides: drive on, go to the guards of a dispatch, or wait. */
    method RecoverFirst() returns (r: Result<Flow>)
      requires Open() && ReportedAt(trace, state.active.value.campaign, AuthorizationConsumed)
      modifies this
      ensures old(trace) <= trace
      ensures Valid() && (r.Ok? ==> Synced() && (r.value.Again? ==> state.active.Some?))
      ensures r.Ok? && state.active == None ==>
        r.value.Done? && r.value.result.Ended? &&
        r.value.result.outcome in {DispatchNotAccepted, WindowExpiredBeforeDispatch, DispatchRefused}
      ensures r.Ok? && trace == old(trace) ==> r.value == Done(Pending)
      ensures r.Ok? && trace != old(trace) ==> |trace| > |old(trace)| && trace[|old(trace)|].Recover?
      ensures r.Ok? && trace != old(trace) && trace[|old(trace)|].answer != IssuanceNotAccepted ==>
        state == old(state) && r.value == if trace[|old(trace)|].answer == Advanced then Again else Done(Pending)
      ensures r.Ok? && trace != old(trace) && trace[|old(trace)|].answer == IssuanceNotAccepted ==> |trace| > |old(trace)| + 1
    {
      var recovered :- Journal();
      var _ :- Journal();
      if !recovered {
        return Ok(Done(Pending));
      }
      var recovery: Recovery := *;
      Record(Recover(state.active.value.campaign, recovery));
      match recovery {
        case Advanced => r := Ok(Again);
        case IssuanceNotAccepted => r := Unaccepted();
        case Unexpected =>
          var _ :- Journal();
          r := Ok(Done(Pending));
      }
    }

    /** Docket never accepted the issuance: dispatch, unless that was tried before or the window has ended. */
    method Unaccepted() returns (r: Result<Flow>)
      requires Open() && trace != [] && trace[|trace| - 1] == Recover(state.active.value.campaign, IssuanceNotAccepted)
      requires ReportedAt(trace, state.active.value.campaign, AuthorizationConsumed)
      modifies this
      ensures old(trace) <= trace
      ensures Valid() && (r.Ok? ==> Synced() && (r.value.Again? ==> state.active.Some?))
      ensures r.Ok? && state.active == None ==>
        r.value.Done? && r.value.result.Ended? &&
        r.value.result.outcome in {DispatchNotAccepted, WindowExpiredBeforeDispatch, DispatchRefused}
      ensures r.Ok? ==>
        && |trace| > |old(trace)| && trace[|old(trace)|].Clock?
        && var inWindow := trace[|old(trace)|].ms / 1000 < old(state.active.value.windowUntil);
           if old(state.active.value.dispatchStarted) then
             r.value == Done(if inWindow then Pending else Ended(DispatchNotAccepted)) && (inWindow ==> state == old(state))
           else if inWindow then |trace| > |old(trace)| + 2 && trace[|old(trace)| + 2] == Dispatch(old(state.active.value.campaign))
           else r.value == Done(Ended(WindowExpiredBeforeDispatch))
    {
      var episode := state.active.value;
      ghost var before := trace;
      var ms := Now();
      JustDone(before, Recover(episode.campaign, IssuanceNotAccepted), ms);
      if episode.dispatchStarted {
        if ms / 1000 < episode.windowUntil {
          var _ :- Journal();
          return Ok(Done(Pending));
        }
        JustRead(trace, ms, episode.windowUntil);
        var outcome :- Close(DispatchNotAccepted);
        return Ok(Done(outcome));
      }
      if ms / 1000 >= episode.windowUntil {
        JustRead(trace, ms, episode.windowUntil);
        var outcome :- Close(WindowExpiredBeforeDispatch);
        return Ok(Done(outcome));
      }
      r := DispatchOnce(ms);
    }

    method DispatchOnce(ghost ms: nat) returns (r: Result<Flow>)
      requires Open() && !state.active.value.dispatchStarted && Guarded(ms)
      requires ReportedAt(trace, state.active.value.campaign, AuthorizationConsumed)
      modifies this
      ensures old(trace) <= trace
      ensures Valid() && (r.Ok? ==> Synced() && (r.value.Again? ==> state.active.Some?))
      ensures r.Ok? && state.active == None ==> r.value == Done(Ended(DispatchRefused))
      ensures r.Ok? ==> |trace| > |old(trace)| + 1 && trace[|old(trace)| + 1] == Dispatch(old(state.active.value.campaign))
    {
      var dispatched :- FenceAndDispatch(ms);
      var _ :- Journal();
      if dispatched {
        return Ok(Again);
      }
      r := Confirm();
    }

    /** Ask AG's recovery about a failed dispatch; without an answer nothing is confirmed. */
    method RecoverFailed(ghost refused: bool) returns (r: Result<Recovery>)
      requires Open() && trace != [] && trace[|trace| - 1] == DispatchFailed(state.active.value.campaign, refused)
      requires ReportedAt(trace, state.active.value.campaign, AuthorizationConsumed)
      modifies `trace
      ensures old(trace) <= trace
      ensures Valid() && (r.Ok? ==> Open())
      ensures r.Ok? ==> trace == old(trace) + [Recover(state.active.value.campaign, r.value)]
      ensures r.Ok? ==> LatelyBoth(trace, DispatchFailed(state.active.value.campaign, refused), Recover(state.active.value.campaign, r.value))
    {
      var answered :- Journal();
      var answer: Recovery := *;
      answer := if answered then answer else Unexpected;
      Record(Recover(state.active.value.campaign, answer));
      JustBoth(trace, DispatchFailed(state.active.value.campaign, refused), Recover(state.active.value.campaign, answer));
      var _ :- Journal();
      r := Ok(answer);
    }

    /** After a failed dispatch only a refusal that AG's recovery confirms closes
        the episode; one that it does not confirm as unaccepted drives on. */
    method Confirm() returns (r: Result<Flow>)
      requires Open() && state.active.value.dispatchStarted && trace != []
      requires trace[|trace| - 1] == Dispatch(state.active.value.campaign)
      requires ReportedAt(trace, state.active.value.campaign, AuthorizationConsumed)
      modifies this
      ensures old(trace) <= trace
      ensures Valid() && (r.Ok? ==> Synced() && (r.value.Again? ==> state.active.Some?))
      ensures r.Ok? ==>
        && |trace| > |old(trace)| + 1 && trace[|old(trace)|].DispatchFailed? && trace[|old(trace)| + 1].Recover?
        && r.value ==
           if trace[|old(trace)| + 1].answer != IssuanceNotAccepted then Again
           else Done(if trace[|old(trace)|].refused then Ended(DispatchRefused) else Pending)
      ensures r.Ok? && state.active == None ==> r.value == Done(Ended(DispatchRefused))
    {
      var refused: bool := *;
      Record(DispatchFailed(state.active.value.campaign, refused));
      var recovery :- RecoverFailed(refused);
      if recovery != IssuanceNotAccepted {
        return Ok(Again);
      }
      if !refused {
        var _ :- Journal();
        return Ok(Done(Pending));
      }
      var outcome :- Close(DispatchRefused);
      r := Ok(Done(outcome));
    }

    // ----- completion -----------------------------------------------------------------

    method Resolve(campaign: nat, post: bool) returns (current: Result<bool>)
      requires Valid()
      modifies `trace
      ensures Valid() && Keeps(old(trace), trace) && Quiet(old(trace), trace) && Unasked(old(trace), trace)
      ensures current == Ok(true) ==> trace != [] && trace[|trace| - 1] == Resolution(campaign, post, true, true)
    {
      var _ := Now();
      var answered: bool, bound: bool, valid: bool := *, *, *;
      if !answered {
        var _ :- Journal();
        return Ok(false);
      }
      Record(Resolution(campaign, post, bound, valid));
      var _ :- Journal();
      current := Ok(bound && valid);
    }

    method InvokeComplete(campaign: nat, ghost settledAt: nat) returns (moved: Result<bool>)
      requires Valid() && MayComplete(config, trace, campaign, settledAt) && AtCounter(trace, ObservationRequired)
      modifies `trace
      ensures old(trace) <= trace
      ensures Valid() && Keeps(old(trace), trace) && campaign in Invoked(trace)
      ensures moved == Ok(false) ==> AtCounter(trace, ObservationRequired)
    {
      ExtendedReports(trace, Complete(campaign, settledAt));
      Record(Complete(campaign, settledAt));
      moved := AgStep(campaign, ObservationRequired);
    }

    /** Whether the newest evaluation was stamped at or after this time. */
    method SampledSince(notBefore: nat) returns (r: Result<bool>)
      requires Valid()
      modifies `trace
      ensures Valid() && Keeps(old(trace), trace) && Quiet(old(trace), trace) && Unasked(old(trace), trace)
      ensures r == Ok(true) ==> |trace| == |old(trace)| + 1 && trace[|old(trace)|].Sample? && trace[|old(trace)|].at >= notBefore
    {
      var sampledAt: Result<Option<nat>> := *;
      var sample :- sampledAt;
      if sample == None || sample.value < notBefore {
        var _ :- Journal();
        return Ok(false);
      }
      Record(Sample(sample.value));
      var _ :- Journal();
      r := Ok(true);
    }

    /** The resolver answered current: with a sample past the dwell, ask AG for completion. */
    method AskCompletion(settledAt: nat) returns (moved: Result<bool>)
      requires Open() && MeasuredFrom(trace, state.active.value, settledAt)
      requires KnownSettled(trace, state.active.value.campaign) && AtCounter(trace, ObservationRequired)
      requires trace != [] && trace[|trace| - 1] == Resolution(state.active.value.campaign, true, true, true)
      modifies `trace
      ensures old(trace) <= trace
      ensures Valid() && Keeps(old(trace), trace) && (moved.Ok? ==> Open())
      ensures moved == Ok(false) ==> AtCounter(trace, ObservationRequired)
      ensures moved == Ok(true) ==> state.active.value.campaign in Invoked(trace)
    {
      ghost var before := trace;
      var sampled :- SampledSince(SaturatingAdd(settledAt, config.dwellSeconds * 1000));
      if !sampled {
        return Ok(false);
      }
      MeasuredFromKept(before, trace, state.active.value, settledAt);
      KnownSettledKept(before, trace, state.active.value.campaign);
      assert MayComplete(config, trace, state.active.value.campaign, settledAt);
      moved := InvokeComplete(state.active.value.campaign, settledAt);
    }

    /** Ask the postcondition resolver and, past the dwell, AG for completion. */
    method TryComplete(settledAt: nat) returns (moved: Result<bool>)
      requires Open() && MeasuredFrom(trace, state.active.value, settledAt)
      requires KnownSettled(trace, state.active.value.campaign) && AtCounter(trace, ObservationRequired)
      modifies `trace
      ensures old(trace) <= trace
      ensures Valid() && Keeps(old(trace), trace)
      ensures moved.Ok? ==> Open() && MeasuredFrom(trace, state.active.value, settledAt)
      ensures moved == Ok(false) ==> AtCounter(trace, ObservationRequired)
      ensures moved == Ok(true) ==> state.active.value.campaign in Invoked(trace)
    {
      ghost var before := trace;
      var current :- Resolve(state.active.value.campaign, true);
      MeasuredFromKept(before, trace, state.active.value, settledAt);
      KnownSettledKept(before, trace, state.active.value.campaign);
      if !current {
        return Ok(false);
      }
      before := trace;
      moved := AskCompletion(settledAt);
      MeasuredFromKept(before, trace, state.active.value, settledAt);
    }

    /** Choose an occurrence for the continuation, once. */
    method KeepContinuation() returns (r: Result<bool>)
      requires Open()
      modifies this
      ensures old(trace) <= trace
      ensures Valid() && (r.Ok? ==> Open() && Unasked(old(trace), trace) && Keeps(old(trace), trace))
      ensures r.Ok? ==> state.active.value == old(state.active.value).(continuation := state.active.value.continuation)
      ensures r.Ok? ==> state.active.value.continuation.Some?
      ensures r.Ok? && old(state.active.value.continuation).Some? ==> state == old(state)
    {
      if state.active.value.continuation.Some? {
        return Ok(true);
      }
      var occurrence: string := *;
      r := Change(state.active.value.(continuation := Some(occurrence)));
    }

    /** Ask AG to continue under an occurrence that is kept first; false when it refuses. */
    method RequestContinuation() returns (moved: Result<bool>)
      requires Open() && ReportedSettled(trace, state.active.value.campaign, true)
      modifies this
      ensures old(trace) <= trace
      ensures Valid() && (moved.Ok? ==> Open() && SameEpisode(old(state.active.value), state.active.value))
      ensures moved.Ok? ==> Keeps(old(trace), trace) && state.active.value.settledAt == old(state.active.value.settledAt)
      ensures moved.Ok? && old(state.active.value.continuation).Some? ==> state == old(state)
    {
      var _ :- KeepContinuation();
      var _ :- Journal();
      moved := AskContinuation();
    }

    method AskContinuation() returns (moved: Result<bool>)
      requires Open() && state.active.value.continuation.Some? && ReportedSettled(trace, state.active.value.campaign, true)
      modifies `trace
      ensures old(trace) <= trace
      ensures Valid() && Keeps(old(trace), trace) && (moved.Ok? ==> Open())
    {
      Record(ConsumerTrace.Continue(state.active.value.campaign, state.active.value.continuation.value));
      moved := AgStep(state.active.value.campaign, SettledObservationRequired);
    }

    /** Have the continuation occurrence in place; the answer is the one AG holds. */
    method Continue(pc: ProgramCounter) returns (r: Result<Option<Snapshot>>)
      requires Open() && (pc == SettledObservationRequired ==> ReportedSettled(trace, state.active.value.campaign, true))
      modifies this
      ensures old(trace) <= trace
      ensures Valid() && (r.Ok? ==> Open() && SameEpisode(old(state.active.value), state.active.value))
      ensures r.Ok? ==> Keeps(old(trace), trace) && state.active.value.settledAt == old(state.active.value.settledAt)
      ensures r.Ok? && old(state.active.value.continuation).Some? ==>
        state.active.value.continuation == old(state.active.value.continuation)
      ensures r.Ok? && r.value.Some? ==> LastStatus(trace) == r.value
      ensures r.Ok? && r.value.Some? && r.value.value.pc == Completed ==> Reported(old(trace)) <= SeenCompleted(trace)
    {
      if state.active.value.phase != AwaitingPostcondition {
        var _ :- Change(state.active.value.(phase := AwaitingPostcondition));
      }
      if pc == SettledObservationRequired {
        var moved :- RequestContinuation();
        if !moved {
          return Ok(None);
        }
      }
      ghost var before := trace;
      r := Status();
      if r.Ok? && r.value.Some? {
        ExtendedReports(before, ConsumerTrace.Status(r.value.value));
      }
    }

    function WindowEndMs(windowUntil: int): nat {
      if windowUntil < 0 then 0 else Min(windowUntil * 1000, U64_MAX)
    }

    /** Wait for the dwell inside the pass when the window allows; false when it does not. */
    method Dwell(notBefore: nat) returns (inWindow: bool)
      requires Open()
      modifies `trace
      ensures Open() && Keeps(old(trace), trace) && Quiet(old(trace), trace) && Unasked(old(trace), trace)
      ensures |trace| > |old(trace)| && trace[|old(trace)|].Clock?
      ensures !inWindow <==>
        trace[|old(trace)|].ms < notBefore && (state.active.value.windowUntil * 1000 <= notBefore || notBefore >= U64_MAX)
    {
      var ms := Now();
      if ms < notBefore {
        if notBefore >= WindowEndMs(state.active.value.windowUntil) {
          return false;
        }
        var _ := Now();
      }
      inWindow := true;
    }

    /** Ask NQ once for a collection. */
    method Collect() returns (r: Result<bool>)
      requires Open()
      modifies this
      ensures old(trace) <= trace
      ensures Valid() && (r.Ok? ==> Open() && Unasked(old(trace), trace) && Keeps(old(trace), trace))
      ensures r.Ok? ==> state.active.value == old(state.active.value).(
        collectRequested := old(state.active.value.collectRequested) || config.collect)
    {
      if state.active.value.collectRequested || !config.collect {
        return Ok(true);
      }
      var _ :- Journal();
      var _ :- Journal();
      r := Change(state.active.value.(collectRequested := true));
    }

    /** Wait out the dwell, then ask until AG completes or the attempts are used up. */
    method Prove(settledAt: nat) returns (r: Result<Summary>)
      requires Open() && MeasuredFrom(trace, state.active.value, settledAt)
      requires KnownSettled(trace, state.active.value.campaign) && AtCounter(trace, ObservationRequired)
      modifies this
      ensures old(trace) <= trace
      ensures Valid() && (r.Ok? ==> Synced())
      ensures r.Ok? && state.active == None ==> r.value.Ended? && r.value.outcome in {EndedCompleted, PostconditionNotProven}
    {
      ghost var before := trace;
      var inWindow := Dwell(SaturatingAdd(settledAt, config.dwellSeconds * 1000));
      KnownSettledKept(before, trace, state.active.value.campaign);
      if !inWindow {
        r := Unproven();
        return;
      }
      var _ :- Collect();
      MeasuredFromKept(before, trace, state.active.value, settledAt);
      KnownSettledKept(before, trace, state.active.value.campaign);
      r := Attempts(settledAt);
    }

    method Attempts(settledAt: nat) returns (r: Result<Summary>)
      requires Open() && MeasuredFrom(trace, state.active.value, settledAt)
      requires KnownSettled(trace, state.active.value.campaign) && AtCounter(trace, ObservationRequired)
      modifies this
      ensures old(trace) <= trace
      ensures Valid() && (r.Ok? ==> Synced())
      ensures r.Ok? && state.active == None ==> r.value.Ended? && r.value.outcome in {EndedCompleted, PostconditionNotProven}
    {
      for index := 0 to config.postconditionAttempts
        invariant Open() && MeasuredFrom(trace, state.active.value, settledAt) && old(trace) <= trace
        invariant KnownSettled(trace, state.active.value.campaign) && AtCounter(trace, ObservationRequired)
      {
        ghost var before := trace;
        var moved :- TryComplete(settledAt);
        KnownSettledKept(before, trace, state.active.value.campaign);
        if moved {
          r := CloseCompleted();
          return;
        }
      }
      r := Unproven();
    }

    /** The recorded settlement time; without one, now. */
    method SettlementTime() returns (settledAt: nat)
      requires Open() && KnownSettled(trace, state.active.value.campaign)
      modifies `trace
      ensures old(trace) <= trace
      ensures Open() && MeasuredFrom(trace, state.active.value, settledAt) && Unasked(old(trace), trace)
    {
      if state.active.value.settledAt.Some? {
        settledAt := state.active.value.settledAt.value;
      } else {
        ghost var before := trace;
        settledAt := Now();
        ReadOnceSettled(before, state.active.value.campaign, settledAt);
      }
    }

    /** The episode keeps the occurrence that AG holds; prove it. */
    method ProveSettled() returns (r: Result<Summary>)
      requires Open() && KnownSettled(trace, state.active.value.campaign) && AtCounter(trace, ObservationRequired)
      requires state.active.value.continuation == LastStatus(trace).value.held
      modifies this
      ensures old(trace) <= trace
      ensures Valid() && (r.Ok? ==> Synced())
      ensures r.Ok? && state.active == None ==> r.value.Ended? && r.value.outcome in {EndedCompleted, PostconditionNotProven}
    {
      ghost var before := trace;
      var settledAt := SettlementTime();
      KnownSettledKept(before, trace, state.active.value.campaign);
      r := Prove(settledAt);
    }

    method Postcondition(pc: ProgramCounter) returns (r: Result<Summary>)
      requires Open() && state.active.value.campaign in Reported(trace) && KnownSettled(trace, state.active.value.campaign)
      requires pc == SettledObservationRequired ==> ReportedSettled(trace, state.active.value.campaign, true)
      modifies this
      ensures old(trace) <= trace
      ensures Valid() && (r.Ok? ==> Synced())
      ensures r.Ok? && state.active == None ==> r.value.Ended? && r.value.outcome in {EndedCompleted, PostconditionNotProven}
    {
      ghost var before := trace;
      var episode := state.active.value;
      var snapshot :- Continue(pc);
      KnownSettledKept(before, trace, episode.campaign);
      if snapshot == None || snapshot.value.pc != ObservationRequired || snapshot.value.held == None {
        if snapshot.Some? && snapshot.value.pc == Completed {
          r := CloseCompleted();
        } else {
          r := Unproven();
        }
        return;
      }
      if episode.continuation != snapshot.value.held {
        var _ :- Change(state.active.value.(continuation := snapshot.value.held));
      }
      KnownSettledKept(before, trace, episode.campaign);
      r := ProveSettled();
    }

    // ----- driving --------------------------------------------------------------------

    /** Poll a dispatched attempt; true when AG left `dispatched`. */
    method Poll() returns (r: Result<bool>) {
      for index := 0 to config.pollAttempts {
        var polled: Option<ProgramCounter> := *;
        var _ :- Journal();
        if polled.Some? && polled.value != Dispatched {
          return Ok(true);
        }
      }
      r := Ok(false);
    }

    /** The time in AG's settlement record, or the time it was seen. */
    method ReportedTime(snapshot: Snapshot) returns (at: nat)
      requires Open() && ConsumerTrace.Status(snapshot) in trace
      requires snapshot.campaign == Some(state.active.value.campaign) && snapshot.pc == SettledObservationRequired
      modifies `trace
      ensures old(trace) <= trace
      ensures Open() && Keeps(old(trace), trace) && Unasked(old(trace), trace)
      ensures SettlementReported(trace, state.active.value.campaign, snapshot.settlement.id, at)
    {
      if snapshot.settlement.settledAt.Some? {
        at := snapshot.settlement.settledAt.value;
        AlreadyTimed(trace, snapshot, state.active.value.campaign);
      } else {
        ghost var before := trace;
        at := Now();
        TimedNow(before, snapshot, state.active.value.campaign, at);
      }
    }

    /** Keep what AG's settlement record says, once; without a time of its own it gets the time it was seen. */
    method RecordSettlement(snapshot: Snapshot) returns (r: Result<bool>)
      requires Open() && ConsumerTrace.Status(snapshot) in trace
      requires snapshot.campaign == Some(state.active.value.campaign) && snapshot.pc == SettledObservationRequired
      modifies this
      ensures old(trace) <= trace
      ensures Valid() && (r.Ok? ==> Open() && SameEpisode(old(state.active.value), state.active.value) && Keeps(old(trace), trace))
      ensures r.Ok? ==> Unasked(old(trace), trace)
      ensures r.Ok? && old(state.active.value.settlement).Some? ==> state == old(state)
      ensures r.Ok? && old(state.active.value.settlement) == None ==>
        && state.active.value.settlement == snapshot.settlement.id && state.active.value.settledAt.Some?
        && SettlementReported(trace, state.active.value.campaign, snapshot.settlement.id, state.active.value.settledAt.value)
    {
      var episode, settlement := state.active.value, snapshot.settlement;
      if episode.settlement.Some? {
        return Ok(true);
      }
      var settledAt := ReportedTime(snapshot);
      ghost var before := trace;
      state := state.(active := Some(episode.(
        settledAt := Some(settledAt), settlement := settlement.id,
        attempt := if settlement.attempt.Some? then settlement.attempt else episode.attempt,
        issuance := if settlement.issuance.Some? then settlement.issuance else episode.issuance)));
      r := Save(Changed);
      if r.Ok? {
        SettlementReportedKept(before, trace, episode.campaign, settlement.id, settledAt);
      }
    }

    /** A settlement without success ends the episode; one with success must still be proven. */
    method Settled(snapshot: Snapshot) returns (r: Result<Summary>)
      requires Open() && state.active.value.campaign in Reported(trace) && ConsumerTrace.Status(snapshot) in trace
      requires LastStatus(trace) == Some(snapshot)
      requires snapshot.campaign == Some(state.active.value.campaign) && snapshot.pc == SettledObservationRequired
      modifies this
      ensures old(trace) <= trace
      ensures Valid() && (r.Ok? ==> Synced())
      ensures r.Ok? && (state.active == None || Terminal(snapshot)) ==>
        state.active == None && r.value.Ended? && EndsFrom(snapshot, r.value.outcome)
    {
      ghost var before, campaign := trace, state.active.value.campaign;
      var _ :- RecordSettlement(snapshot);
      var _ :- Journal();
      if snapshot.settlement.outcome != "success" {
        r := Close(SettledFailure);
        return;
      }
      KnownFrom(before, snapshot, campaign);
      KnownSettledKept(before, trace, campaign);
      r := Postcondition(SettledObservationRequired);
    }

    /** The outcome that says AG refused the step from this program counter. */
    function Refusal(pc: ProgramCounter): Outcome {
      match pc
      case ObservationRequired => RefusedAtRecordProposal
      case ProposalRecorded => RefusedAtRequireStanding
      case StandingRequired => RefusedAtDecide
      case _ => RefusedAtAuthorize
    }

    /** An AG step before authorization: a refusal, and nothing else, closes the episode. */
    method Advance(before: ProgramCounter) returns (r: Result<Flow>)
      requires Open() && AtCounter(trace, before)
      requires before in {ObservationRequired, ProposalRecorded, StandingRequired, AdmissiblePendingAuthorization}
      modifies this
      ensures old(trace) <= trace
      ensures Valid() && (r.Ok? ==> Synced() && (r.value.Again? <==> state.active.Some?))
      ensures r.Ok? && state.active == None ==> r.value == Done(Ended(Refusal(before)))
      ensures r.Ok? && state.active.Some? ==> Judged(old(trace), trace, state.active.value.campaign, before, true)
    {
      ghost var start := trace;
      var moved :- AgStep(state.active.value.campaign, before);
      if moved {
        return Ok(Again);
      }
      JustRefused(start, trace, state.active.value.campaign, before);
      var outcome :- Close(Refusal(before));
      r := Ok(Done(outcome));
    }

    /** Authorization is asked inside the window only. */
    method Authorize() returns (r: Result<Flow>)
      requires Open() && ReportedAt(trace, state.active.value.campaign, AdmissiblePendingAuthorization)
      modifies this
      ensures old(trace) <= trace
      ensures Valid() && (r.Ok? ==> Synced() && (r.value.Again? <==> state.active.Some?))
      ensures r.Ok? ==> |trace| > |old(trace)| && trace[|old(trace)|].Clock?
      ensures r.Ok? && trace[|old(trace)|].ms / 1000 >= old(state.active.value.windowUntil) ==>
        r.value == Done(Ended(WindowExpiredBeforeAuthorization))
      ensures r.Ok? && trace[|old(trace)|].ms / 1000 < old(state.active.value.windowUntil) ==>
        r.value == Again || r.value == Done(Ended(RefusedAtAuthorize))
    {
      var ms := Now();
      if ms / 1000 < state.active.value.windowUntil {
        r := Advance(AdmissiblePendingAuthorization);
        return;
      }
      JustRead(trace, ms, state.active.value.windowUntil);
      var outcome :- Close(WindowExpiredBeforeAuthorization);
      r := Ok(Done(outcome));
    }

    /** Keep the attempt AG names and poll it. */
    method Await(snapshot: Snapshot) returns (r: Result<Flow>)
      requires Open()
      modifies this
      ensures old(trace) <= trace
      ensures Valid() && (r.Ok? ==> Open())
      ensures r.Ok? ==> state.active.value == old(state.active.value).(attempt :=
        if old(state.active.value.attempt).Some? then old(state.active.value.attempt) else snapshot.attempt)
    {
      if state.active.value.attempt == None && snapshot.attempt.Some? {
        var _ :- Change(state.active.value.(attempt := snapshot.attempt));
      }
      var left :- Poll();
      r := Ok(if left then Again else Done(Pending));
    }

    /** AG reported the open campaign; act on its program counter. */
    method Act(snapshot: Snapshot) returns (r: Result<Flow>)
      requires Open() && state.active.value.campaign in Reported(trace)
      requires ConsumerTrace.Status(snapshot) in trace && snapshot.campaign == Some(state.active.value.campaign)
      requires snapshot.pc == Completed ==> state.active.value.campaign in SeenCompleted(trace)
      requires LastStatus(trace) == Some(snapshot)
      modifies this
      ensures old(trace) <= trace
      ensures Valid() && (r.Ok? ==> Synced() && (r.value.Again? ==> state.active.Some?))
      ensures r.Ok? && (state.active == None || Terminal(snapshot)) ==>
        state.active == None && r.value.Done? && r.value.result.Ended? && EndsFrom(snapshot, r.value.result.outcome)
    {
      var outcome: Summary;
      match snapshot.pc {
        case ObservationRequired =>
          if !snapshot.prior {
            r := Advance(ObservationRequired);
            return;
          }
          KnownFrom(trace, snapshot, state.active.value.campaign);
          outcome :- Postcondition(ObservationRequired);
        case ProposalRecorded =>
          r := Advance(ProposalRecorded);
          return;
        case StandingRequired =>
          r := Advance(StandingRequired);
          return;
        case AdmissiblePendingAuthorization =>
          r := Authorize();
          return;
        case AuthorizationConsumed =>
          r := Authorized(snapshot);
          return;
        case Dispatched =>
          r := Await(snapshot);
          return;
        case ReconciliationRequired =>
          outcome :- Close(Indeterminate);
        case SettledObservationRequired =>
          outcome :- Settled(snapshot);
        case Halted =>
          outcome :- Close(EndedHalted);
        case Completed =>
          outcome :- CloseCompleted();
        case OtherCounter =>
          outcome :- Close(UnknownProgramCounter);
      }
      r := Ok(Done(outcome));
    }

    method DriveStep() returns (r: Result<Flow>)
      requires Open()
      modifies this
      ensures old(trace) <= trace
      ensures Valid() && (r.Ok? ==> Synced() && (r.value.Again? ==> state.active.Some?))
      ensures r.Ok? ==> |trace| > |old(trace)|
      ensures r.Ok? && ReportsOther(trace[|old(trace)|], old(state.active.value.campaign)) ==> r.value == Done(Ended(ForeignCampaign))
    {
      ghost var before := trace;
      var snapshot :- Status();
      var outcome: Summary;
      if snapshot == None {
        var _ :- Journal();
        ghost var read := trace;
        var ms := Now();
        if ms / 1000 < state.active.value.windowUntil {
          return Ok(Done(Pending));
        }
        JustDone(read, Unreadable, ms);
        JustRead(trace, ms, state.active.value.windowUntil);
        outcome :- Close(AgUnreadable);
        return Ok(Done(outcome));
      }
      ExtendedReports(before, ConsumerTrace.Status(snapshot.value));
      if snapshot.value.campaign != Some(state.active.value.campaign) {
        outcome :- Close(ForeignCampaign);
        return Ok(Done(outcome));
      }
      assert trace[|trace| - 1] == ConsumerTrace.Status(snapshot.value);
      r := Act(snapshot.value);
    }

    method Drive() returns (r: Result<Summary>)
      requires Open()
      modifies this
      ensures old(trace) <= trace
      ensures Valid() && (r.Ok? ==> Synced())
    {
      for n := 0 to DRIVE_STEPS_MAX
        invariant Open() && old(trace) <= trace
      {
        var flow :- DriveStep();
        if flow.Done? {
          return Ok(flow.result);
        }
      }
      r := Ok(Pending);
    }

    // ----- opening --------------------------------------------------------------------

    /** Initialise the campaign in AG; false when that failed and left no database. */
    method Initialise() returns (r: Result<bool>)
      requires Open()
      modifies `trace
      ensures old(trace) <= trace
      ensures Valid() && (r.Ok? ==> Open())
      ensures r == Ok(false) ==> LatelyBoth(trace, InitFailed(state.active.value.campaign), Database(false))
    {
      Record(Init(state.active.value.campaign));
      var initialised :- Journal();
      var _ :- Journal();
      if initialised {
        return Ok(true);
      }
      Record(InitFailed(state.active.value.campaign));
      var databaseExists := Exists();
      if !databaseExists {
        JustBoth(trace, InitFailed(state.active.value.campaign), Database(false));
      }
      r := Ok(databaseExists);
    }

    method BeginCampaign() returns (r: Result<Summary>)
      requires Open()
      modifies this
      ensures old(trace) <= trace
      ensures Valid() && (r.Ok? ==> Synced())
    {
      var _ :- Journal();
      var initialised :- Initialise();
      if !initialised {
        r := Close(RefusedAtInit);
        return;
      }
      var _ :- Change(state.active.value.(phase := Driving));
      r := Drive();
    }

    /** The model decider's reasoning: it closes the episode, waits, or begins the campaign. */
    method Reason() returns (r: Result<Summary>)
      requires Open() && state.active.value.phase == Reasoning
      modifies this
      ensures old(trace) <= trace
      ensures Valid() && (r.Ok? ==> Synced())
    {
      var start: bool, decided: bool := *, *;
      if start {
        r := BeginCampaign();
      } else if decided {
        var decision: string := *;
        r := Close(Reasoned(decision));
      } else {
        var _ :- Journal();
        r := Ok(Deliberating);
      }
    }

    method ArchiveDatabase() returns (r: Result<bool>)
      requires Valid() && trace != [] && trace[|trace| - 1].Status?
      requires trace[|trace| - 1].snapshot.pc !in {AuthorizationConsumed, Dispatched, ReconciliationRequired}
      modifies `trace
      ensures Valid() && Quiet(old(trace), trace) && |trace| == |old(trace)| + 2 && trace[|trace| - 1] == Archive
    {
      var _ := Now();
      Record(Archive);
      r := Journal();
    }

    /** Archive the previous campaign's database; refuse while its authority is unresolved. */
    method RetirePriorCampaign() returns (retired: Result<bool>)
      requires Valid()
      modifies `trace
      ensures Valid() && Quiet(old(trace), trace)
      ensures retired == Ok(true) ==> Cleared(old(trace), trace)
    {
      var databaseExists := Exists();
      if !databaseExists {
        return Ok(true);
      }
      var snapshot :- Status();
      if snapshot == None || snapshot.value.pc in {AuthorizationConsumed, Dispatched, ReconciliationRequired} {
        return Ok(false);
      }
      retired := ArchiveDatabase();
    }

    method Abstain() returns (r: Result<Summary>) {
      var _ :- Journal();
      r := Ok(Abstained);
    }

    /** Save the new episode. */
    method SaveOpened(candidate: Candidate, campaign: nat, ghost report: Report, ghost selectedAt: nat, ghost guardedAt: nat)
        returns (r: Result<bool>)
      requires Synced() && state.active == None && campaign !in Campaigns(trace) && campaign < nonce
      requires ReadInOrder(trace, selectedAt, guardedAt) && PriorCleared(trace) && PreconditionCurrent(trace, campaign)
      requires Decides(config, report, state, selectedAt, guardedAt, candidate)
      modifies this
      ensures old(trace) <= trace
      ensures Valid() && (r.Ok? ==> Open())
      ensures r.Ok? ==>
        && state.active.value.id == candidate.id && state.active.value.windowUntil == candidate.windowUntil
        && state.active.value.campaign == campaign && state.active.value.phase == (if config.model then Reasoning else Opening)
    {
      ghost var before := trace;
      var openedAt := Now();
      QuietCampaigns(before, trace);
      StillInOrder(before, trace, selectedAt, guardedAt);
      StillPrepared(before, trace, campaign);
      var phase := if config.model then Reasoning else Opening;
      var episode := Episode(candidate.id, candidate.windowUntil, campaign, phase, false,
                             None, None, None, None, false, None, openedAt, None, None);
      state := state.(active := Some(episode), lastWindowUntil := Some(candidate.windowUntil));
      assert MayOpen(config, trace, state, selectedAt, guardedAt);
      r := Save(Opened(selectedAt, guardedAt));
    }

    /** Save the new episode and hand it on. */
    method OpenEpisode(candidate: Candidate, campaign: nat, ghost report: Report, ghost selectedAt: nat, ghost guardedAt: nat)
        returns (r: Result<Summary>)
      requires Synced() && state.active == None && campaign !in Campaigns(trace) && campaign < nonce
      requires ReadInOrder(trace, selectedAt, guardedAt) && PriorCleared(trace) && PreconditionCurrent(trace, campaign)
      requires Decides(config, report, state, selectedAt, guardedAt, candidate)
      modifies this
      ensures old(trace) <= trace
      ensures Valid() && (r.Ok? ==> Synced())
    {
      var _ :- SaveOpened(candidate, campaign, report, selectedAt, guardedAt);
      var _ :- Journal();
      if config.model {
        r := Reason();
      } else {
        r := BeginCampaign();
      }
    }

    /** Plan, precondition and prior campaign allow an opening under a new campaign identity. */
    method Prepare() returns (r: Result<Option<nat>>)
      requires Valid()
      modifies `trace, `nonce
      ensures Valid() && Quiet(old(trace), trace)
      ensures r.Ok? && r.value.Some? ==> r.value.value !in Campaigns(trace) && r.value.value < nonce
      ensures r.Ok? && r.value.Some? ==> PriorCleared(trace) && PreconditionCurrent(trace, r.value.value)
    {
      var planned :- Journal();
      if !planned {
        return Ok(None);
      }
      var campaign := nonce;
      nonce := nonce + 1;
      var current :- Resolve(campaign, false);
      var ready: bool := *;
      if !current || (config.model && !ready) {
        return Ok(None);
      }
      ghost var resolved := trace;
      var retired :- RetirePriorCampaign();
      QuietJoins(old(trace), resolved, trace);
      QuietCampaigns(old(trace), trace);
      if retired {
        Prepared(resolved, trace, campaign);
      }
      r := Ok(if retired then Some(campaign) else None);
    }

    method Consider() returns (r: Result<Summary>)
      requires Synced() && state.active == None
      modifies this
      ensures old(trace) <= trace
      ensures Valid() && (r.Ok? ==> Synced())
    {
      var report: Option<Report> := *;
      if report == None {
        r := Abstain();
        return;
      }
      var selectedAt := Now();
      ghost var first := trace;
      var selected := Select(config, report.value, selectedAt / 1000);
      if selected == None || Seen(state, selected.value.id) {
        r := Abstain();
        return;
      }
      var guardedAt := Now(); // without an earlier window the reading is not used
      ghost var second := trace;
      if state.lastWindowUntil.Some? && guardedAt / 1000 < state.lastWindowUntil.value {
        r := Abstain();
        return;
      }
      var campaign :- Prepare();
      if campaign == None {
        r := Abstain();
        return;
      }
      BothRead(first, second, trace, selectedAt, guardedAt);
      r := OpenEpisode(selected.value, campaign.value, report.value, selectedAt, guardedAt);
    }

    // ----- whole passes ---------------------------------------------------------------

    method Resume() returns (r: Result<Summary>)
      requires Open()
      modifies this
      ensures old(trace) <= trace
      ensures Valid() && (r.Ok? ==> Synced())
    {
      var _ :- Journal();
      if state.active.value.phase == Reasoning {
        r := Reason();
        return;
      }
      if state.active.value.phase == Opening {
        var databaseExists := Exists();
        if !databaseExists {
          assert Idle(trace, |trace| - 1 + 1);
          r := Close(InterruptedBeforeInit);
          return;
        }
      }
      r := Drive();
    }

    method RunPass() returns (r: Result<Summary>)
      requires Valid()
      modifies this
      ensures old(trace) <= trace
      ensures Valid()
    {
      state := disk;
      var _ :- Journal();
      var swept: bool := *;
      if state.active.Some? {
        r := Resume();
      } else if !config.model || swept {
        r := Consider();
      } else {
        r := Abstain();
      }
    }

    /** Any number of passes, each ending where it will. */
    method Run(passes: nat)
      requires Valid()
      modifies this
      ensures old(trace) <= trace
      ensures GoodTrace(config, trace)
    {
      for n := 0 to passes
        invariant Valid() && old(trace) <= trace
      {
        var _ := RunPass();
      }
      SoundIsGood(config, trace);
    }
  }

  lemma JustDone(t: seq<Event>, e: Event, ms: nat)
    requires t != [] && t[|t| - 1] == e
    ensures Lately(t + [Clock(ms)], e)
  {
    var u := t + [Clock(ms)];
    assert u[|t| - 1] == e && Idle(u, |t| - 1 + 1);
  }

  lemma JustBoth(t: seq<Event>, first: Event, second: Event)
    requires |t| >= 2 && t[|t| - 2] == first && t[|t| - 1] == second
    ensures LatelyBoth(t, first, second)
  {
    var i := |t| - 2;
    assert t[i] == first && t[i + 1] == second && Idle(t, i + 2);
  }

  lemma JustRefused(before: seq<Event>, after: seq<Event>, campaign: nat, pc: ProgramCounter)
    requires Judged(before, after, campaign, pc, false)
    ensures StepRefused(after, campaign, pc)
  {
    var i := |before|;
    assert after[i] == Stepped(campaign, pc, false) && Unmoved(after[i + 1], pc) && Idle(after, i + 2);
  }

  /** In between the database was found missing or was archived. */
  ghost predicate Cleared(before: seq<Event>, after: seq<Event>) {
    exists i :: |before| <= i < |after| && (after[i] == Database(false) || after[i] == Archive)
  }

  lemma Prepared(resolved: seq<Event>, now: seq<Event>, campaign: nat)
    requires resolved != [] && resolved[|resolved| - 1] == Resolution(campaign, false, true, true)
    requires Quiet(resolved, now) && Cleared(resolved, now)
    ensures PriorCleared(now) && PreconditionCurrent(now, campaign)
  {
    var i :| |resolved| <= i < |now| && (now[i] == Database(false) || now[i] == Archive);
    assert UnsavedSince(now, i);
    var j := |resolved| - 1;
    assert now[j] == resolved[j] && UnsavedSince(now, j);
  }

  lemma StillPrepared(before: seq<Event>, after: seq<Event>, campaign: nat)
    requires PriorCleared(before) && PreconditionCurrent(before, campaign) && Quiet(before, after)
    ensures PriorCleared(after) && PreconditionCurrent(after, campaign)
  {
    var i :| 0 <= i < |before| && (before[i] == Database(false) || before[i] == Archive) && UnsavedSince(before, i);
    var j :| 0 <= j < |before| && before[j] == Resolution(campaign, false, true, true) && UnsavedSince(before, j);
    StillUnsaved(before, after, i);
    StillUnsaved(before, after, j);
    assert after[i] == before[i] && after[j] == before[j];
  }

  lemma StillUnsaved(before: seq<Event>, after: seq<Event>, i: nat)
    requires UnsavedSince(before, i) && Quiet(before, after)
    ensures UnsavedSince(after, i)
  {
    forall k | i <= k < |after|
      ensures !after[k].Saved?
    {
      assert k < |before| ==> after[k] == before[k];
    }
  }

  lemma KnownFrom(t: seq<Event>, snapshot: Snapshot, campaign: nat)
    requires Status(snapshot) in t && PastSettlement(Status(snapshot), campaign)
    ensures KnownSettled(t, campaign)
  {
    var i :| 0 <= i < |t| && t[i] == Status(snapshot);
    assert PastSettlement(t[i], campaign);
  }

  lemma AlreadyTimed(t: seq<Event>, snapshot: Snapshot, campaign: nat)
    requires Status(snapshot) in t && SettledStatus(Status(snapshot), campaign, snapshot.settlement.id)
    requires snapshot.settlement.settledAt.Some?
    ensures SettlementReported(t, campaign, snapshot.settlement.id, snapshot.settlement.settledAt.value)
  {
    var i :| 0 <= i < |t| && t[i] == Status(snapshot);
    assert SettledStatus(t[i], campaign, snapshot.settlement.id) && TimedBy(t, i, snapshot.settlement.settledAt.value);
  }

  lemma TimedNow(t: seq<Event>, snapshot: Snapshot, campaign: nat, ms: nat)
    requires Status(snapshot) in t && SettledStatus(Status(snapshot), campaign, snapshot.settlement.id)
    requires snapshot.settlement.settledAt == None
    ensures SettlementReported(t + [Clock(ms)], campaign, snapshot.settlement.id, ms)
  {
    var u := t + [Clock(ms)];
    var i :| 0 <= i < |t| && t[i] == Status(snapshot);
    assert u[i] == t[i] && u[|t|] == Clock(ms);
    assert SettledStatus(u[i], campaign, snapshot.settlement.id) && TimedBy(u, i, ms);
  }

  lemma QuietJoins(a: seq<Event>, b: seq<Event>, c: seq<Event>)
    requires Quiet(a, b) && Quiet(b, c)
    ensures Quiet(a, c)
  {
    forall k | |a| <= k < |c|
      ensures !c[k].Saved?
    {
      assert k < |b| ==> c[k] == b[k];
    }
  }

  lemma {:induction false} QuietCampaigns(before: seq<Event>, after: seq<Event>)
    requires Quiet(before, after)
    ensures Campaigns(after) == Campaigns(before)
  {
    if |after| > |before| {
      QuietCampaigns(before, after[..|after| - 1]);
    } else {
      assert before == after;
    }
  }

  lemma StillInOrder(before: seq<Event>, after: seq<Event>, first: nat, second: nat)
    requires ReadInOrder(before, first, second) && Quiet(before, after)
    ensures ReadInOrder(after, first, second)
  {
    var i, j :| 0 <= i < j < |before| && before[i] == Clock(first) && before[j] == Clock(second) && UnsavedSince(before, i);
    assert after[i] == before[i] && after[j] == before[j];
    StillUnsaved(before, after, i);
  }

  lemma BothRead(first: seq<Event>, second: seq<Event>, now: seq<Event>, selectedAt: nat, guardedAt: nat)
    requires first != [] && first[|first| - 1] == Clock(selectedAt) && second == first + [Clock(guardedAt)]
    requires Quiet(second, now)
    ensures ReadInOrder(now, selectedAt, guardedAt)
  {
    assert second[|first| - 1] == Clock(selectedAt) && second[|first|] == Clock(guardedAt) && UnsavedSince(second, |first| - 1);
    StillInOrder(second, now, selectedAt, guardedAt);
  }
}
