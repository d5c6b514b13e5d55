/** The remediation consumer seen from outside: its durable state, the steps
    that matter, and what each step must rest on. */
module ConsumerTrace {
  import opened Common

  /** A digest of condition and first sighting, taken to be injective. */
  datatype EpisodeId = EpisodeId(conditionId: string, firstSeen: string)

  datatype Phase = Reasoning | Opening | Driving | AwaitingPostcondition

  datatype Episode = Episode(
    id: EpisodeId, windowUntil: int, campaign: nat, phase: Phase, dispatchStarted: bool,
    issuance: Option<string>, attempt: Option<string>, settlement: Option<string>, continuation: Option<string>,
    collectRequested: bool, settledAt: Option<nat>, openedAt: nat, outcome: Option<Outcome>, closedAt: Option<nat>)

  datatype State = State(active: Option<Episode>, lastWindowUntil: Option<int>, closed: seq<Episode>)

  /** How an episode ends. */
  datatype Outcome =
    | EndedCompleted | PostconditionNotProven | SettledFailure
    | RefusedAtInit | RefusedAtRecordProposal | RefusedAtRequireStanding | RefusedAtDecide | RefusedAtAuthorize
    | WindowExpiredBeforeAuthorization | WindowExpiredBeforeDispatch | DispatchNotAccepted | DispatchRefused
    | Indeterminate | EndedHalted | UnknownProgramCounter | AgUnreadable | ForeignCampaign
    | InterruptedBeforeInit | Reasoned(decision: string)

  const CLOSED_KEPT := 256

  const EmptyState := State(None, None, [])

  predicate Seen(s: State, id: EpisodeId) {
    (s.active.Some? && s.active.value.id == id) || exists i :: 0 <= i < |s.closed| && s.closed[i].id == id
  }

  function Newest(closed: seq<Episode>): (kept: seq<Episode>)
    ensures |kept| == Min(|closed|, CLOSED_KEPT) && kept == closed[|closed| - |kept|..]
  {
    if |closed| > CLOSED_KEPT then closed[|closed| - CLOSED_KEPT..] else closed
  }

  /** The state with its open episode closed; only the newest closed episodes are kept. */
  function CloseEpisode(s: State, outcome: Outcome, ms: nat): State
    requires s.active.Some?
  {
    s.(active := None, closed := Newest(s.closed + [s.active.value.(outcome := Some(outcome), closedAt := Some(ms))]))
  }

  // ----- steps ------------------------------------------------------------------------

  datatype ProgramCounter =
    | ObservationRequired | ProposalRecorded | StandingRequired | AdmissiblePendingAuthorization
    | AuthorizationConsumed | Dispatched | ReconciliationRequired | SettledObservationRequired
    | Halted | Completed | OtherCounter

  datatype Settlement = Settlement(
    id: Option<string>, attempt: Option<string>, issuance: Option<string>, outcome: string, settledAt: Option<nat>)

  /** What AG reports of the occurrence it holds. */
  datatype Snapshot = Snapshot(
    campaign: Option<nat>, pc: ProgramCounter, prior: bool, issuance: Option<string>, attempt: Option<string>,
    settlement: Settlement, held: Option<string>)

  /** What AG's recovery says of the issuance. */
  datatype Recovery = Advanced | IssuanceNotAccepted | Unexpected

  /** Why a state is saved. */
  datatype Cause = Opened(selectedAt: nat, guardedAt: nat) | Changed | Fenced | Closed(outcome: Outcome, closedAt: nat)

  datatype Event =
    | Clock(ms: nat)
    | Saved(state: State, cause: Cause)
    | Status(snapshot: Snapshot)
    | Unreadable
    | Database(present: bool)
    | Init(campaign: nat)
    | InitFailed(campaign: nat)
    | Archive
    | Stepped(campaign: nat, pc: ProgramCounter, ok: bool)
    | Recover(campaign: nat, answer: Recovery)
    | Dispatch(campaign: nat)
    | DispatchFailed(campaign: nat, refused: bool)
    | Continue(campaign: nat, occurrence: string)
    | Resolution(campaign: nat, post: bool, bound: bool, current: bool)
    | Sample(at: nat)
    | Complete(campaign: nat, settledAt: nat)

  datatype Config = Config(
    conditionId: string, margin: int, reportMaxAge: int, dwellSeconds: nat, pollAttempts: nat,
    postconditionAttempts: nat, collect: bool, trigger: bool, model: bool)

  /** The state file after these steps. */
  ghost function Disk(t: seq<Event>): State {
    if t == [] then EmptyState
    else if t[|t| - 1].Saved? then t[|t| - 1].state
    else Disk(t[..|t| - 1])
  }

  /** What AG reported last. */
  ghost function LastStatus(t: seq<Event>): Option<Snapshot> {
    if t == [] then None
    else if t[|t| - 1].Status? then Some(t[|t| - 1].snapshot)
    else LastStatus(t[..|t| - 1])
  }

  ghost predicate AtCounter(t: seq<Event>, pc: ProgramCounter) {
    LastStatus(t).Some? && LastStatus(t).value.pc == pc
  }

  /** AG's last report is of this campaign at this program counter. */
  ghost predicate ReportedAt(t: seq<Event>, campaign: nat, pc: ProgramCounter) {
    AtCounter(t, pc) && LastStatus(t).value.campaign == Some(campaign)
  }

  /** AG's last report is of the campaign settled, with success or without. */
  ghost predicate ReportedSettled(t: seq<Event>, campaign: nat, success: bool) {
    ReportedAt(t, campaign, SettledObservationRequired) && (LastStatus(t).value.settlement.outcome == "success") == success
  }

  /** From here on only the clock was read. */
  ghost predicate Idle(t: seq<Event>, i: nat) {
    forall k :: i <= k < |t| ==> t[k].Clock?
  }

  /** Since this step only the clock was read. */
  ghost predicate Lately(t: seq<Event>, e: Event) {
    exists i :: 0 <= i < |t| && t[i] == e && Idle(t, i + 1)
  }

  /** Since these two steps, one right after the other, only the clock was read. */
  ghost predicate LatelyBoth(t: seq<Event>, first: Event, second: Event) {
    exists i :: 0 <= i < |t| - 1 && t[i] == first && t[i + 1] == second && Idle(t, i + 2)
  }

  lemma LatelyKept(t: seq<Event>, e: Event, ms: nat)
    requires Lately(t, e)
    ensures Lately(t + [Clock(ms)], e)
  {
    var i :| 0 <= i < |t| && t[i] == e && Idle(t, i + 1);
    var u := t + [Clock(ms)];
    assert u[i] == e && Idle(u, i + 1);
  }

  lemma LatelyBothKept(t: seq<Event>, first: Event, second: Event, ms: nat)
    requires LatelyBoth(t, first, second)
    ensures LatelyBoth(t + [Clock(ms)], first, second)
  {
    var i :| 0 <= i < |t| - 1 && t[i] == first && t[i + 1] == second && Idle(t, i + 2);
    var u := t + [Clock(ms)];
    assert u[i] == first && u[i + 1] == second && Idle(u, i + 2);
  }

  predicate Opens(e: Event) {
    e.Saved? && e.cause.Opened? && e.state.active.Some?
  }

  /** Campaigns of all episodes ever opened. */
  ghost function Campaigns(t: seq<Event>): set<nat> {
    if t == [] then {}
    else Campaigns(t[..|t| - 1]) + if Opens(t[|t| - 1]) then {t[|t| - 1].state.active.value.campaign} else {}
  }

  /** Campaigns AG has reported since its database was last replaced. */
  ghost function Reported(t: seq<Event>): set<nat> {
    if t == [] then {}
    else
      match t[|t| - 1]
      case Status(s) => Reported(t[..|t| - 1]) + (if s.campaign.Some? then {s.campaign.value} else {})
      case Init(_) => {}
      case Archive => {}
      case _ => Reported(t[..|t| - 1])
  }

  /** Campaigns for which AG reported completion. */
  ghost function SeenCompleted(t: seq<Event>): set<nat> {
    if t == [] then {}
    else
      SeenCompleted(t[..|t| - 1]) +
      if t[|t| - 1].Status? && t[|t| - 1].snapshot.pc == Completed then Reported(t) else {}
  }

  /** Campaigns for which completion was asked of AG. */
  ghost function Invoked(t: seq<Event>): set<nat> {
    if t == [] then {}
    else Invoked(t[..|t| - 1]) + if t[|t| - 1].Complete? then {t[|t| - 1].campaign} else {}
  }

  // ----- what each step must rest on ------------------------------------------------

  /** Two clock readings were taken in this order since the state was last saved. */
  ghost predicate ReadInOrder(t: seq<Event>, first: nat, second: nat) {
    exists i, j :: 0 <= i < j < |t| && t[i] == Clock(first) && t[j] == Clock(second) && UnsavedSince(t, i)
  }

  ghost predicate UnsavedSince(t: seq<Event>, i: nat) {
    forall k :: i <= k < |t| ==> !t[k].Saved?
  }

  /** The decision of a pass to open an episode, on its two clock readings. */
  predicate Admits(s: State, id: EpisodeId, windowUntil: int, margin: int, selectedAt: nat, guardedAt: nat) {
    && windowUntil - selectedAt / 1000 >= margin
    && !Seen(s, id)
    && (s.lastWindowUntil.Some? ==> guardedAt / 1000 >= s.lastWindowUntil.value)
  }

  /** Since the state was last saved, AG's database was found missing or was archived. */
  ghost predicate PriorCleared(t: seq<Event>) {
    exists i :: 0 <= i < |t| && (t[i] == Database(false) || t[i] == Archive) && UnsavedSince(t, i)
  }

  /** Since the state was last saved, the bound precondition resolver answered current for the campaign. */
  ghost predicate PreconditionCurrent(t: seq<Event>, campaign: nat) {
    exists i :: 0 <= i < |t| && t[i] == Resolution(campaign, false, true, true) && UnsavedSince(t, i)
  }

  ghost predicate MayOpen(config: Config, t: seq<Event>, s: State, selectedAt: nat, guardedAt: nat) {
    && Disk(t).active == None && s.active.Some? && s.closed == Disk(t).closed
    && var e := s.active.value;
    && s.lastWindowUntil == Some(e.windowUntil) && !e.dispatchStarted && e.campaign !in Campaigns(t)
    && e.settlement == None && e.settledAt == None
    && PriorCleared(t) && PreconditionCurrent(t, e.campaign)
    && ReadInOrder(t, selectedAt, guardedAt) && Admits(Disk(t), e.id, e.windowUntil, config.margin, selectedAt, guardedAt)
  }

  predicate SameEpisode(a: Episode, b: Episode) {
    a.id == b.id && a.windowUntil == b.windowUntil && a.campaign == b.campaign && a.dispatchStarted == b.dispatchStarted
  }

  /** AG's settlement record, as it reported it for the campaign at this step. */
  ghost predicate SettledStatus(e: Event, campaign: nat, settlement: Option<string>) {
    && e.Status? && e.snapshot.campaign == Some(campaign) && e.snapshot.pc == SettledObservationRequired
    && e.snapshot.settlement.id == settlement
  }

  /** The settlement time is the one AG reported or, when its record has none,
      a clock reading taken after the report. */
  ghost predicate SettlementReported(t: seq<Event>, campaign: nat, settlement: Option<string>, at: nat) {
    exists i :: 0 <= i < |t| && SettledStatus(t[i], campaign, settlement) && TimedBy(t, i, at)
  }

  ghost predicate TimedBy(t: seq<Event>, i: nat, at: nat)
    requires i < |t| && t[i].Status?
  {
    var reported := t[i].snapshot.settlement.settledAt;
    if reported.Some? then reported.value == at else exists k :: i < k < |t| && t[k] == Clock(at)
  }

  /** AG reported the campaign settled with success. */
  ghost predicate Succeeded(e: Event, campaign: nat) {
    && e.Status? && e.snapshot.campaign == Some(campaign)
    && e.snapshot.pc == SettledObservationRequired && e.snapshot.settlement.outcome == "success"
  }

  /** AG reported the campaign settled with success, or already past its settlement. */
  ghost predicate PastSettlement(e: Event, campaign: nat) {
    || Succeeded(e, campaign)
    || (e.Status? && e.snapshot.campaign == Some(campaign) && e.snapshot.pc == ObservationRequired && e.snapshot.prior)
  }

  /** A clock reading taken after AG reported the settlement as past. */
  ghost predicate ReadAfterSettlement(t: seq<Event>, campaign: nat, at: nat) {
    exists i, k :: 0 <= i < k < |t| && PastSettlement(t[i], campaign) && t[k] == Clock(at)
  }

  ghost predicate KnownSettled(t: seq<Event>, campaign: nat) {
    exists i :: 0 <= i < |t| && PastSettlement(t[i], campaign)
  }

  lemma KnownSettledKept(t: seq<Event>, u: seq<Event>, campaign: nat)
    requires t <= u && KnownSettled(t, campaign)
    ensures KnownSettled(u, campaign)
  {
    var i :| 0 <= i < |t| && PastSettlement(t[i], campaign);
    assert u[i] == t[i];
  }

  lemma ReadOnceSettled(t: seq<Event>, campaign: nat, ms: nat)
    requires KnownSettled(t, campaign)
    ensures ReadAfterSettlement(t + [Clock(ms)], campaign, ms)
  {
    var u, i :| u == t + [Clock(ms)] && 0 <= i < |t| && PastSettlement(t[i], campaign);
    assert u[i] == t[i] && u[|t|] == Clock(ms);
  }

  lemma ReadAfterSettlementKept(t: seq<Event>, u: seq<Event>, campaign: nat, at: nat)
    requires t <= u && ReadAfterSettlement(t, campaign, at)
    ensures ReadAfterSettlement(u, campaign, at)
  {
    var i, k :| 0 <= i < k < |t| && PastSettlement(t[i], campaign) && t[k] == Clock(at);
    assert u[i] == t[i] && u[k] == t[k];
  }

  lemma SettlementReportedKept(t: seq<Event>, u: seq<Event>, campaign: nat, settlement: Option<string>, at: nat)
    requires t <= u && SettlementReported(t, campaign, settlement, at)
    ensures SettlementReported(u, campaign, settlement, at)
  {
    var i :| 0 <= i < |t| && SettledStatus(t[i], campaign, settlement) && TimedBy(t, i, at);
    assert u[i] == t[i];
    if t[i].snapshot.settlement.settledAt == None {
      var k :| i < k < |t| && t[k] == Clock(at);
      assert u[k] == t[k];
    }
    assert TimedBy(u, i, at);
  }

  /** The recorded settlement stays; a missing one is recorded from what AG reported. */
  ghost predicate MaySettle(t: seq<Event>, a: Episode, b: Episode) {
    || (b.settlement == a.settlement && b.settledAt == a.settledAt)
    || (a.settlement == None && b.settledAt.Some? && SettlementReported(t, a.campaign, b.settlement, b.settledAt.value))
  }

  ghost predicate MayChange(t: seq<Event>, s: State) {
    && Disk(t).active.Some? && s.active.Some? && SameEpisode(Disk(t).active.value, s.active.value)
    && MaySettle(t, Disk(t).active.value, s.active.value)
    && s.lastWindowUntil == Disk(t).lastWindowUntil && s.closed == Disk(t).closed
  }

  /** The fence is set once, from open to set. */
  ghost predicate MayFence(d: State, s: State) {
    && d.active.Some? && !d.active.value.dispatchStarted
    && s == d.(active := Some(d.active.value.(dispatchStarted := true)))
  }

  /** Outcomes that say the episode ran out of time. */
  predicate TimedOut(outcome: Outcome) {
    || outcome.PostconditionNotProven? || outcome.WindowExpiredBeforeAuthorization?
    || outcome.WindowExpiredBeforeDispatch? || outcome.DispatchNotAccepted? || outcome.AgUnreadable?
  }

  /** The step failed, AG did not then report another program counter, and only the clock was read since. */
  ghost predicate StepRefused(t: seq<Event>, campaign: nat, pc: ProgramCounter) {
    exists i :: 0 <= i < |t| - 1 && t[i] == Stepped(campaign, pc, false) && Unmoved(t[i + 1], pc) && Idle(t, i + 2)
  }

  ghost predicate Unmoved(e: Event, pc: ProgramCounter) {
    e == Unreadable || (e.Status? && e.snapshot.pc == pc)
  }

  /** What an outcome claims of the episode it closes. */
  ghost predicate Warranted(t: seq<Event>, e: Episode, outcome: Outcome) {
    && (TimedOut(outcome) ==> ReadPast(t, e.windowUntil))
    && match outcome
       case EndedCompleted => e.campaign in SeenCompleted(t) + Invoked(t)
       case PostconditionNotProven => KnownSettled(t, e.campaign)
       case SettledFailure => ReportedSettled(t, e.campaign, false)
       case RefusedAtInit => LatelyBoth(t, InitFailed(e.campaign), Database(false))
       case RefusedAtRecordProposal => StepRefused(t, e.campaign, ObservationRequired)
       case RefusedAtRequireStanding => StepRefused(t, e.campaign, ProposalRecorded)
       case RefusedAtDecide => StepRefused(t, e.campaign, StandingRequired)
       case RefusedAtAuthorize => StepRefused(t, e.campaign, AdmissiblePendingAuthorization)
       case WindowExpiredBeforeAuthorization => ReportedAt(t, e.campaign, AdmissiblePendingAuthorization)
       case WindowExpiredBeforeDispatch => !e.dispatchStarted && Lately(t, Recover(e.campaign, IssuanceNotAccepted))
       case DispatchNotAccepted => e.dispatchStarted && Lately(t, Recover(e.campaign, IssuanceNotAccepted))
       case DispatchRefused => e.dispatchStarted && LatelyBoth(t, DispatchFailed(e.campaign, true), Recover(e.campaign, IssuanceNotAccepted))
       case Indeterminate => ReportedAt(t, e.campaign, ReconciliationRequired)
       case EndedHalted => ReportedAt(t, e.campaign, Halted)
       case UnknownProgramCounter => ReportedAt(t, e.campaign, OtherCounter)
       case AgUnreadable => Lately(t, Unreadable)
       case ForeignCampaign => LastStatus(t).Some? && LastStatus(t).value.campaign != Some(e.campaign)
       case InterruptedBeforeInit => e.phase == Opening && Lately(t, Database(false))
       case Reasoned(_) => e.phase == Reasoning
  }

  /** The clock was read at or past this second, and nothing else was done since. */
  ghost predicate ReadPast(t: seq<Event>, until: int) {
    exists i :: 0 <= i < |t| && t[i].Clock? && t[i].ms / 1000 >= until && Idle(t, i + 1)
  }

  lemma JustRead(t: seq<Event>, ms: nat, until: int)
    requires t != [] && t[|t| - 1] == Clock(ms) && ms / 1000 >= until
    ensures ReadPast(t, until)
  {
    assert Idle(t, |t| - 1 + 1);
  }

  lemma ReadPastKept(t: seq<Event>, until: int, ms: nat)
    requires ReadPast(t, until)
    ensures ReadPast(t + [Clock(ms)], until)
  {
    var i :| 0 <= i < |t| && t[i].Clock? && t[i].ms / 1000 >= until && Idle(t, i + 1);
    var u := t + [Clock(ms)];
    assert u[i] == t[i] && Idle(u, i + 1);
  }

  lemma StepRefusedKept(t: seq<Event>, campaign: nat, pc: ProgramCounter, ms: nat)
    requires StepRefused(t, campaign, pc)
    ensures StepRefused(t + [Clock(ms)], campaign, pc)
  {
    var i :| 0 <= i < |t| - 1 && t[i] == Stepped(campaign, pc, false) && Unmoved(t[i + 1], pc) && Idle(t, i + 2);
    var u := t + [Clock(ms)];
    assert u[i] == t[i] && u[i + 1] == t[i + 1] && Idle(u, i + 2);
  }

  lemma WarrantedKept(t: seq<Event>, e: Episode, outcome: Outcome, ms: nat)
    requires Warranted(t, e, outcome)
    ensures Warranted(t + [Clock(ms)], e, outcome)
  {
    ExtendedReports(t, Clock(ms));
    if TimedOut(outcome) {
      ReadPastKept(t, e.windowUntil, ms);
    }
    match outcome {
      case PostconditionNotProven => KnownSettledKept(t, t + [Clock(ms)], e.campaign);
      case RefusedAtInit => LatelyBothKept(t, InitFailed(e.campaign), Database(false), ms);
      case RefusedAtRecordProposal => StepRefusedKept(t, e.campaign, ObservationRequired, ms);
      case RefusedAtRequireStanding => StepRefusedKept(t, e.campaign, ProposalRecorded, ms);
      case RefusedAtDecide => StepRefusedKept(t, e.campaign, StandingRequired, ms);
      case RefusedAtAuthorize => StepRefusedKept(t, e.campaign, AdmissiblePendingAuthorization, ms);
      case WindowExpiredBeforeDispatch => LatelyKept(t, Recover(e.campaign, IssuanceNotAccepted), ms);
      case DispatchNotAccepted => LatelyKept(t, Recover(e.campaign, IssuanceNotAccepted), ms);
      case DispatchRefused => LatelyBothKept(t, DispatchFailed(e.campaign, true), Recover(e.campaign, IssuanceNotAccepted), ms);
      case AgUnreadable => LatelyKept(t, Unreadable, ms);
      case InterruptedBeforeInit => LatelyKept(t, Database(false), ms);
      case _ =>
    }
  }

  ghost predicate MayClose(t: seq<Event>, s: State, outcome: Outcome, ms: nat) {
    Disk(t).active.Some? && s == CloseEpisode(Disk(t), outcome, ms) && Warranted(t, Disk(t).active.value, outcome)
  }

  /** A dispatch follows, at once, AG's recovery finding the issuance not
      accepted, a clock reading inside the window and the saved fence. */
  ghost predicate MayDispatch(t: seq<Event>, campaign: nat) {
    && |t| >= 3 && t[|t| - 1].Saved? && t[|t| - 1].cause == Fenced && t[|t| - 1].state.active.Some?
    && var e := t[|t| - 1].state.active.value;
    && e.campaign == campaign && t[|t| - 2].Clock? && t[|t| - 2].ms / 1000 < e.windowUntil
    && t[|t| - 3] == Recover(campaign, IssuanceNotAccepted)
  }

  function SaturatingAdd(a: nat, b: nat): nat {
    Min(a + b, U64_MAX)
  }

  /** The dwell is measured from the recorded settlement time or, without one,
      from a reading taken when the settlement was known to be past. */
  ghost predicate MeasuredFrom(t: seq<Event>, e: Episode, at: nat) {
    if e.settledAt.Some? then e.settledAt.value == at else ReadAfterSettlement(t, e.campaign, at)
  }

  lemma MeasuredFromKept(t: seq<Event>, u: seq<Event>, e: Episode, at: nat)
    requires t <= u && MeasuredFrom(t, e, at)
    ensures MeasuredFrom(u, e, at)
  {
    if e.settledAt == None {
      ReadAfterSettlementKept(t, u, e.campaign, at);
    }
  }

  /** Completion is asked, at once, after the bound resolver answered current
      and a sample stamped no earlier than the dwell after the settlement. */
  ghost predicate MayComplete(config: Config, t: seq<Event>, campaign: nat, settledAt: nat) {
    && |t| >= 2 && t[|t| - 2] == Resolution(campaign, true, true, true)
    && t[|t| - 1].Sample? && t[|t| - 1].at >= SaturatingAdd(settledAt, config.dwellSeconds * 1000)
    && Disk(t).active.Some? && Disk(t).active.value.campaign == campaign
    && MeasuredFrom(t, Disk(t).active.value, settledAt) && KnownSettled(t, campaign)
  }

  /** A continuation is asked on a last report of success, under an occurrence that is on file. */
  ghost predicate MayContinue(t: seq<Event>, campaign: nat, occurrence: string) {
    && Active(t, campaign) && Disk(t).active.value.continuation == Some(occurrence)
    && ReportedSettled(t, campaign, true)
  }

  ghost predicate Active(t: seq<Event>, campaign: nat) {
    Disk(t).active.Some? && Disk(t).active.value.campaign == campaign
  }

  /** A database is archived right after AG reported its authority as resolved. */
  ghost predicate MayArchive(t: seq<Event>) {
    && |t| >= 2 && t[|t| - 1].Clock? && t[|t| - 2].Status?
    && t[|t| - 2].snapshot.pc !in {AuthorizationConsumed, Dispatched, ReconciliationRequired}
  }

  ghost predicate Allowed(config: Config, t: seq<Event>, e: Event) {
    match e
    case Saved(s, Opened(selectedAt, guardedAt)) => MayOpen(config, t, s, selectedAt, guardedAt)
    case Saved(s, Changed) => MayChange(t, s)
    case Saved(s, Fenced) => MayFence(Disk(t), s)
    case Saved(s, Closed(outcome, ms)) => MayClose(t, s, outcome, ms)
    case Init(campaign) => Active(t, campaign)
    case Archive => MayArchive(t)
    case Stepped(campaign, pc, _) => Active(t, campaign) && AtCounter(t, pc)
    case Recover(campaign, _) => Active(t, campaign) && ReportedAt(t, campaign, AuthorizationConsumed)
    case Dispatch(campaign) => MayDispatch(t, campaign)
    case DispatchFailed(campaign, _) => t != [] && t[|t| - 1] == Dispatch(campaign)
    case Continue(campaign, occurrence) => MayContinue(t, campaign, occurrence)
    case Complete(campaign, settledAt) => MayComplete(config, t, campaign, settledAt)
    case _ => true
  }

  /** Every step rests on what came before it. */
  ghost predicate GoodTrace(config: Config, t: seq<Event>) {
    t == [] || (GoodTrace(config, t[..|t| - 1]) && Allowed(config, t[..|t| - 1], t[|t| - 1]))
  }

  /** The same by position. */
  ghost predicate Sound(config: Config, t: seq<Event>) {
    forall n: nat :: n < |t| ==> AllowedAt(config, t, n)
  }

  ghost predicate AllowedAt(config: Config, t: seq<Event>, n: nat)
    requires n < |t|
  {
    Allowed(config, t[..n], t[n])
  }

  lemma {:induction false} SoundIsGood(config: Config, t: seq<Event>)
    requires Sound(config, t)
    ensures GoodTrace(config, t)
  {
    if t != [] {
      var m := |t| - 1;
      assert AllowedAt(config, t, m);
      forall n: nat | n < m
        ensures AllowedAt(config, t[..m], n)
      {
        assert AllowedAt(config, t, n) && t[..m][..n] == t[..n];
      }
      SoundIsGood(config, t[..m]);
    }
  }

  lemma Extended(config: Config, t: seq<Event>, e: Event)
    requires Sound(config, t) && Allowed(config, t, e)
    ensures Sound(config, t + [e])
    ensures Disk(t + [e]) == if e.Saved? then e.state else Disk(t)
    ensures Campaigns(t + [e]) == Campaigns(t) + if Opens(e) then {e.state.active.value.campaign} else {}
  {
    var u := t + [e];
    assert u[..|t|] == t;
    forall n: nat | n < |u|
      ensures AllowedAt(config, u, n)
    {
      if n < |t| {
        assert AllowedAt(config, t, n) && u[..n] == t[..n];
      }
    }
  }

  lemma ExtendedReports(t: seq<Event>, e: Event)
    ensures Invoked(t + [e]) == Invoked(t) + if e.Complete? then {e.campaign} else {}
    ensures SeenCompleted(t) <= SeenCompleted(t + [e])
    ensures e.Status? ==> Reported(t + [e]) == Reported(t) + if e.snapshot.campaign.Some? then {e.snapshot.campaign.value} else {}
    ensures e.Status? && e.snapshot.pc == Completed ==> Reported(t + [e]) <= SeenCompleted(t + [e])
    ensures !e.Init? && !e.Archive? ==> Reported(t) <= Reported(t + [e])
    ensures LastStatus(t + [e]) == if e.Status? then Some(e.snapshot) else LastStatus(t)
  {
    assert (t + [e])[..|t|] == t;
  }

  lemma {:induction false} GoodPrefix(config: Config, t: seq<Event>, n: nat)
    requires GoodTrace(config, t) && n <= |t|
    ensures GoodTrace(config, t[..n])
    ensures n < |t| ==> Allowed(config, t[..n], t[n])
  {
    if n == |t| {
      assert t[..n] == t;
    } else {
      var m := |t| - 1;
      if n < m {
        GoodPrefix(config, t[..m], n);
        assert t[..m][..n] == t[..n] && t[..m][n] == t[n];
      }
    }
  }
}
