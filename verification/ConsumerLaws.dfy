/** Safety of the remediation consumer over whole runs, crashes included. */
module ConsumerLaws {
  import opened Common
  import opened ConsumerTrace
  import opened Consumer

  // ----- at most one dispatch -----------------------------------------------------------

  lemma {:induction false} ActiveOpened(config: Config, t: seq<Event>)
    requires GoodTrace(config, t)
    ensures Disk(t).active.Some? ==> Disk(t).active.value.campaign in Campaigns(t)
  {
    if t != [] {
      ActiveOpened(config, t[..|t| - 1]);
    }
  }

  lemma {:induction false} DispatchedOpened(config: Config, t: seq<Event>, c: nat)
    requires GoodTrace(config, t) && Dispatch(c) in t
    ensures c in Campaigns(t)
  {
    var n := |t| - 1;
    if t[n] == Dispatch(c) {
      assert t[..n][n - 1] == t[n - 1];
      ActiveOpened(config, t[..n]);
    } else {
      assert Dispatch(c) in t[..n];
      DispatchedOpened(config, t[..n], c);
    }
  }

  /** Once a campaign was dispatched, its episode is fenced for as long as it is open. */
  lemma {:induction false} FenceHolds(config: Config, t: seq<Event>, c: nat)
    requires GoodTrace(config, t) && Dispatch(c) in t
    ensures Disk(t).active.Some? && Disk(t).active.value.campaign == c ==> Disk(t).active.value.dispatchStarted
  {
    var n := |t| - 1;
    if t[n] == Dispatch(c) {
      assert t[..n][n - 1].Saved?;
      GoodPrefix(config, t, n - 1);
      assert t[..n][..n - 1] == t[..n - 1];
    } else {
      assert Dispatch(c) in t[..n];
      FenceHolds(config, t[..n], c);
      DispatchedOpened(config, t[..n], c);
    }
  }

  /** No campaign is dispatched twice, whatever crashes and answers occur; each
      dispatch directly follows its saved fence, which in turn follows a clock
      reading inside the episode's window. */
  lemma AtMostOneDispatch(config: Config, t: seq<Event>, i: nat, j: nat)
    requires GoodTrace(config, t) && i < j < |t| && t[i].Dispatch? && t[j].Dispatch?
    ensures t[i].campaign != t[j].campaign
  {
    GoodPrefix(config, t, j);
    assert t[..j][j - 1] == t[j - 1];
    if t[i] == t[j] {
      assert i < j - 1;
      GoodPrefix(config, t, j - 1);
      assert t[..j - 1][i] == t[i];
      FenceHolds(config, t[..j - 1], t[i].campaign);
    }
  }

  lemma StaysClosed(config: Config, t: seq<Event>, c: nat)
    requires t != [] && GoodTrace(config, t) && c in Campaigns(t[..|t| - 1])
    requires Disk(t[..|t| - 1]).active.Some? ==> Disk(t[..|t| - 1]).active.value.campaign != c
    ensures c in Campaigns(t) && (Disk(t).active.Some? ==> Disk(t).active.value.campaign != c) && t[|t| - 1] != Dispatch(c)
  {
  }

  /** A campaign that is not open is never opened again, so it stays undispatched if it was. */
  lemma {:induction false} DispatchNeedsOpen(config: Config, t: seq<Event>, n: nat, c: nat)
    requires GoodTrace(config, t) && n <= |t| && c in Campaigns(t[..n])
    requires Disk(t[..n]).active.Some? ==> Disk(t[..n]).active.value.campaign != c
    ensures c in Campaigns(t) && (Disk(t).active.Some? ==> Disk(t).active.value.campaign != c)
    ensures forall k :: n <= k < |t| ==> t[k] != Dispatch(c)
  {
    if n == |t| {
      assert t[..n] == t;
    } else {
      var p := t[..|t| - 1];
      assert p[..n] == t[..n];
      DispatchNeedsOpen(config, p, n, c);
      StaysClosed(config, t, c);
      assert forall k :: n <= k < |p| ==> p[k] == t[k];
    }
  }

  /** An episode closed because its window ended before dispatch is never dispatched, before or after. */
  lemma ExpiredMeansUndispatched(config: Config, t: seq<Event>, i: nat, k: nat)
    requires GoodTrace(config, t) && i < |t| && k < |t|
    requires t[i].Saved? && t[i].cause.Closed? && t[i].cause.outcome == WindowExpiredBeforeDispatch
    ensures Disk(t[..i]).active.Some? && t[k] != Dispatch(Disk(t[..i]).active.value.campaign)
  {
    GoodPrefix(config, t, i);
    GoodPrefix(config, t, i + 1);
    var c := Disk(t[..i]).active.value.campaign;
    assert t[..i + 1][..i] == t[..i];
    ActiveOpened(config, t[..i]);
    DispatchNeedsOpen(config, t, i + 1, c);
    if k < i && t[k] == Dispatch(c) {
      assert t[..i][k] == t[k];
      FenceHolds(config, t[..i], c);
    }
  }

  // ----- what outcomes rest on -----------------------------------------------------------

  /** Where AG was asked last. */
  lemma {:induction false} LastStatusAt(t: seq<Event>) returns (k: nat)
    requires LastStatus(t).Some?
    ensures k < |t| && t[k] == Status(LastStatus(t).value) && forall x :: k < x < |t| ==> !t[x].Status?
  {
    var n := |t| - 1;
    if t[n].Status? {
      k := n;
    } else {
      k := LastStatusAt(t[..n]);
      forall x | k < x < |t|
        ensures !t[x].Status?
      {
        assert x < n ==> t[..n][x] == t[x];
      }
    }
  }

  /** Running out of time is claimed only after the window has ended, a refused
      or unaccepted dispatch only for a fenced episode, and every outcome only on
      what AG, the clock or the disk answered just before. */
  lemma OutcomesWarranted(config: Config, t: seq<Event>, i: nat)
    requires GoodTrace(config, t) && i < |t| && t[i].Saved? && t[i].cause.Closed?
    ensures Disk(t[..i]).active.Some? && Warranted(t[..i], Disk(t[..i]).active.value, t[i].cause.outcome)
    ensures TimedOut(t[i].cause.outcome) ==> ReadPast(t[..i], Disk(t[..i]).active.value.windowUntil)
    ensures t[i].cause.outcome == DispatchNotAccepted || t[i].cause.outcome == DispatchRefused ==>
      Disk(t[..i]).active.value.dispatchStarted
  {
    GoodPrefix(config, t, i);
  }

  /** An episode is closed as failed only on AG's last report, which has its campaign settled without success. */
  lemma FailureWasReported(config: Config, t: seq<Event>, i: nat) returns (k: nat)
    requires GoodTrace(config, t) && i < |t| && t[i].Saved? && t[i].cause.Closed? && t[i].cause.outcome == SettledFailure
    ensures k < i && Disk(t[..i]).active.Some? && t[k].Status? && forall x :: k < x < i ==> !t[x].Status?
    ensures t[k].snapshot.campaign == Some(Disk(t[..i]).active.value.campaign)
    ensures t[k].snapshot.pc == SettledObservationRequired && t[k].snapshot.settlement.outcome != "success"
  {
    OutcomesWarranted(config, t, i);
    k := LastStatusAt(t[..i]);
    forall x | k < x < i
      ensures !t[x].Status?
    {
      assert t[..i][x] == t[x];
    }
  }

  /** The program counter a refused step started from. */
  function RefusedFrom(outcome: Outcome): Option<ProgramCounter> {
    match outcome
    case RefusedAtRecordProposal => Some(ObservationRequired)
    case RefusedAtRequireStanding => Some(ProposalRecorded)
    case RefusedAtDecide => Some(StandingRequired)
    case RefusedAtAuthorize => Some(AdmissiblePendingAuthorization)
    case _ => None
  }

  /** An episode is closed as refused only after AG, last reported at that
      program counter, failed the step and was then not found to have moved. */
  lemma RefusalRests(config: Config, t: seq<Event>, i: nat) returns (k: nat)
    requires GoodTrace(config, t) && i < |t| && t[i].Saved? && t[i].cause.Closed? && RefusedFrom(t[i].cause.outcome).Some?
    ensures k + 1 < i && Disk(t[..i]).active.Some?
    ensures var c, pc := Disk(t[..i]).active.value.campaign, RefusedFrom(t[i].cause.outcome).value;
      && t[k] == Stepped(c, pc, false) && (t[k + 1] == Unreadable || (t[k + 1].Status? && t[k + 1].snapshot.pc == pc))
      && AtCounter(t[..k], pc)
    ensures forall x :: k + 2 <= x < i ==> t[x].Clock?
  {
    OutcomesWarranted(config, t, i);
    var p, c, pc := t[..i], Disk(t[..i]).active.value.campaign, RefusedFrom(t[i].cause.outcome).value;
    assert StepRefused(p, c, pc);
    k :| 0 <= k < |p| - 1 && p[k] == Stepped(c, pc, false) && Unmoved(p[k + 1], pc) && Idle(p, k + 2);
    GoodPrefix(config, t, k);
    forall x | k + 2 <= x < i
      ensures t[x].Clock?
    {
      assert p[x] == t[x];
    }
  }

  // ----- forgetting is safe ---------------------------------------------------------------

  ghost predicate MonotoneClock(t: seq<Event>) {
    forall i, j :: 0 <= i < j < |t| && t[i].Clock? && t[j].Clock? ==> t[i].ms <= t[j].ms
  }

  function WindowOf(e: Event): int
    requires Opens(e)
  {
    e.state.active.value.windowUntil
  }

  /** No episode is opened between `i` and `n`. */
  ghost predicate NoneOpened(t: seq<Event>, i: nat, n: nat)
    requires n <= |t|
  {
    forall k :: i < k < n ==> !Opens(t[k])
  }

  /** Until the next opening, the state remembers the window and the identity of the last one. */
  lemma {:induction false} LastOpeningKept(config: Config, t: seq<Event>, i: nat)
    requires GoodTrace(config, t) && i < |t| && Opens(t[i]) && NoneOpened(t, i, |t|)
    ensures Disk(t).lastWindowUntil == Some(WindowOf(t[i]))
    ensures Seen(Disk(t), t[i].state.active.value.id)
    ensures Disk(t).active.Some? ==> Disk(t).active.value.id == t[i].state.active.value.id
  {
    var n := |t| - 1;
    if i < n {
      assert t[..n][i] == t[i] && NoneOpened(t[..n], i, n);
      LastOpeningKept(config, t[..n], i);
      var d, e := Disk(t[..n]), t[n];
      if e.Saved? && e.cause.Closed? {
        var closed := d.closed + [d.active.value.(outcome := Some(e.cause.outcome), closedAt := Some(e.cause.closedAt))];
        assert Disk(t).closed == Newest(closed);
        assert Newest(closed)[|Newest(closed)| - 1] == closed[|closed| - 1];
      }
    }
  }

  /** The first opening after `i`, no later than `k`. */
  lemma {:induction false} NextOpening(t: seq<Event>, i: nat, k: nat) returns (m: nat)
    requires i < k < |t| && Opens(t[k])
    ensures i < m <= k && Opens(t[m]) && NoneOpened(t, i, m)
    decreases k
  {
    if x :| i < x < k && Opens(t[x]) {
      m := NextOpening(t, i, x);
    } else {
      m := k;
    }
  }

  /** What an opening rests on, by position in the run. */
  lemma OpeningReadings(config: Config, t: seq<Event>, k: nat) returns (a: nat, b: nat)
    requires GoodTrace(config, t) && k < |t| && Opens(t[k])
    ensures a < b < k && t[a] == Clock(t[k].cause.selectedAt) && t[b] == Clock(t[k].cause.guardedAt)
    ensures forall x :: a <= x < k ==> !t[x].Saved?
    ensures PriorCleared(t[..k]) && PreconditionCurrent(t[..k], t[k].state.active.value.campaign)
    ensures Admits(Disk(t[..k]), t[k].state.active.value.id, WindowOf(t[k]), config.margin, t[k].cause.selectedAt, t[k].cause.guardedAt)
  {
    GoodPrefix(config, t, k);
    var p := t[..k];
    assert MayOpen(config, p, t[k].state, t[k].cause.selectedAt, t[k].cause.guardedAt);
    a, b :| 0 <= a < b < |p| && p[a] == Clock(t[k].cause.selectedAt) && p[b] == Clock(t[k].cause.guardedAt) && UnsavedSince(p, a);
    forall x | a <= x < k
      ensures !t[x].Saved?
    {
      assert p[x] == t[x];
    }
  }

  /** Since the last save before an opening, the bound precondition resolver
      answered current for the new campaign, and AG's database was missing or was
      archived when AG had just reported its authority as resolved. */
  lemma OpeningPrepared(config: Config, t: seq<Event>, k: nat) returns (a: nat, b: nat)
    requires GoodTrace(config, t) && k < |t| && Opens(t[k])
    ensures a < k && b < k && forall x :: a <= x < k || b <= x < k ==> !t[x].Saved?
    ensures t[a] == Resolution(t[k].state.active.value.campaign, false, true, true)
    ensures t[b] == Database(false) ||
      (t[b] == Archive && b >= 2 && t[b - 2].Status? &&
       t[b - 2].snapshot.pc !in {AuthorizationConsumed, Dispatched, ReconciliationRequired})
  {
    var _, _ := OpeningReadings(config, t, k);
    var p, c := t[..k], t[k].state.active.value.campaign;
    a :| 0 <= a < |p| && p[a] == Resolution(c, false, true, true) && UnsavedSince(p, a);
    b :| 0 <= b < |p| && (p[b] == Database(false) || p[b] == Archive) && UnsavedSince(p, b);
    GoodPrefix(config, t, b);
    forall x | a <= x < k || b <= x < k
      ensures !t[x].Saved?
    {
      assert p[x] == t[x];
    }
  }

  /** Right after an opening, the guard of the next one has seen its window end. */
  lemma NextGuard(config: Config, t: seq<Event>, i: nat, m: nat)
    requires GoodTrace(config, t) && i < m < |t| && Opens(t[i]) && Opens(t[m]) && NoneOpened(t, i, m)
    ensures t[m].cause.guardedAt / 1000 >= WindowOf(t[i])
    ensures t[m].state.active.value.id != t[i].state.active.value.id
  {
    GoodPrefix(config, t, m);
    assert t[..m][i] == t[i] && NoneOpened(t[..m], i, m);
    LastOpeningKept(config, t[..m], i);
    var a, b := OpeningReadings(config, t, m);
  }

  /** With a clock that never goes back, every later opening is guarded after the earlier window's end. */
  lemma GuardAfterWindow(config: Config, t: seq<Event>, i: nat, k: nat)
    requires GoodTrace(config, t) && MonotoneClock(t) && i < k < |t| && Opens(t[i]) && Opens(t[k])
    ensures t[k].cause.guardedAt / 1000 >= WindowOf(t[i])
    ensures NoneOpened(t, i, k) || WindowOf(t[k]) >= WindowOf(t[i]) + config.margin
  {
    var m := NextOpening(t, i, k);
    NextGuard(config, t, i, m);
    if m < k {
      var a, b := OpeningReadings(config, t, m);
      var c, d := OpeningReadings(config, t, k);
      assert t[m].Saved? && m < c;
    }
  }

  ghost predicate WindowsFixed(t: seq<Event>) {
    forall i, k :: 0 <= i < k < |t| && Opens(t[i]) && Opens(t[k]) && t[i].state.active.value.id == t[k].state.active.value.id ==>
      WindowOf(t[i]) == WindowOf(t[k])
  }

  /** Forgetting is safe: although only the newest closed episodes are kept, no
      episode is opened twice. */
  lemma NoEpisodeTwice(config: Config, t: seq<Event>, i: nat, k: nat)
    requires GoodTrace(config, t) && MonotoneClock(t) && WindowsFixed(t) && config.margin >= 1
    requires i < k < |t| && Opens(t[i]) && Opens(t[k])
    ensures t[i].state.active.value.id != t[k].state.active.value.id
  {
    GuardAfterWindow(config, t, i, k);
    if NoneOpened(t, i, k) {
      NextGuard(config, t, i, k);
    }
  }

  /** The guard reading of every opening lies inside the window it opens. */
  ghost predicate GuardedInWindow(t: seq<Event>) {
    forall i :: 0 <= i < |t| && Opens(t[i]) ==> t[i].cause.guardedAt / 1000 < WindowOf(t[i])
  }

  /** Successive window ends strictly increase when each guard is read inside the window it opens. */
  lemma WindowsIncrease(config: Config, t: seq<Event>, i: nat, k: nat)
    requires GoodTrace(config, t) && MonotoneClock(t) && GuardedInWindow(t)
    requires i < k < |t| && Opens(t[i]) && Opens(t[k])
    ensures WindowOf(t[i]) < WindowOf(t[k])
  {
    GuardAfterWindow(config, t, i, k);
  }

  /** In particular when selection and guard read the clock less than the margin apart. */
  lemma CloseReadingsSuffice(config: Config, t: seq<Event>)
    requires GoodTrace(config, t)
    requires forall i :: 0 <= i < |t| && Opens(t[i]) ==>
      t[i].cause.guardedAt / 1000 - t[i].cause.selectedAt / 1000 < config.margin
    ensures GuardedInWindow(t)
  {
    forall i | 0 <= i < |t| && Opens(t[i])
      ensures t[i].cause.guardedAt / 1000 < WindowOf(t[i])
    {
      var a, b := OpeningReadings(config, t, i);
    }
  }

  // ----- dispatches fall in disjoint windows ---------------------------------------------

  /** The open episode at the end of the run was opened at some step, and nothing was opened since. */
  lemma {:induction false} OpenedAt(config: Config, t: seq<Event>) returns (p: nat)
    requires GoodTrace(config, t) && Disk(t).active.Some?
    ensures p < |t| && Opens(t[p]) && NoneOpened(t, p, |t|)
    ensures t[p].state.active.value.campaign == Disk(t).active.value.campaign && WindowOf(t[p]) == Disk(t).active.value.windowUntil
  {
    var n := |t| - 1;
    if Opens(t[n]) {
      p := n;
    } else {
      p := OpenedAt(config, t[..n]);
      assert t[..n][p] == t[p];
      forall k | p < k < |t|
        ensures !Opens(t[k])
      {
        if k < n {
          assert t[..n][k] == t[k];
        }
      }
    }
  }

  /** What a dispatch rests on, by position in the run. */
  lemma DispatchRests(config: Config, t: seq<Event>, j: nat) returns (p: nat)
    requires GoodTrace(config, t) && j < |t| && t[j].Dispatch?
    ensures 3 <= j && t[j - 3] == Recover(t[j].campaign, IssuanceNotAccepted) && t[j - 2].Clock?
    ensures p < j - 3 && Opens(t[p]) && NoneOpened(t, p, j)
    ensures t[p].state.active.value.campaign == t[j].campaign && t[j - 2].ms / 1000 < WindowOf(t[p])
    ensures ReportedAt(t[..j - 3], t[j].campaign, AuthorizationConsumed)
  {
    GoodPrefix(config, t, j);
    assert t[..j][j - 1] == t[j - 1] && t[..j][j - 2] == t[j - 2] && t[..j][j - 3] == t[j - 3];
    GoodPrefix(config, t, j - 3);
    p := OpenedAt(config, t[..j]);
    assert t[..j][p] == t[p];
    forall k | p < k < j
      ensures !Opens(t[k])
    {
      assert t[..j][k] == t[k];
    }
  }

  /** Dispatches of different campaigns are decided in disjoint windows: the
      later clock reading is past the earlier window, so windows of dispatched
      episodes strictly increase. */
  lemma DispatchWindowsDisjoint(config: Config, t: seq<Event>, i: nat, j: nat) returns (p: nat, q: nat)
    requires GoodTrace(config, t) && MonotoneClock(t) && i < j < |t| && t[i].Dispatch? && t[j].Dispatch?
    ensures 2 <= i && p < i && q < j && Opens(t[p]) && Opens(t[q]) && t[i - 2].Clock? && t[j - 2].Clock?
    ensures t[p].state.active.value.campaign == t[i].campaign && t[q].state.active.value.campaign == t[j].campaign
    ensures t[i - 2].ms / 1000 < WindowOf(t[p]) <= t[j - 2].ms / 1000 < WindowOf(t[q])
  {
    p := DispatchRests(config, t, i);
    q := DispatchRests(config, t, j);
    AtMostOneDispatch(config, t, i, j);
    if q < p {
      assert false;
    }
    GuardAfterWindow(config, t, p, q);
    var a, b := OpeningReadings(config, t, q);
  }

  /** At most one dispatch per episode, however many closed episodes were forgotten. */
  lemma OneDispatchPerEpisode(config: Config, t: seq<Event>, i: nat, j: nat) returns (p: nat, q: nat)
    requires GoodTrace(config, t) && MonotoneClock(t) && WindowsFixed(t) && config.margin >= 1
    requires i < j < |t| && t[i].Dispatch? && t[j].Dispatch?
    ensures p < i && q < j && Opens(t[p]) && Opens(t[q])
    ensures t[p].state.active.value.campaign == t[i].campaign && t[q].state.active.value.campaign == t[j].campaign
    ensures t[p].state.active.value.id != t[q].state.active.value.id
  {
    p, q := DispatchWindowsDisjoint(config, t, i, j);
    if p < q {
      NoEpisodeTwice(config, t, p, q);
    } else {
      NoEpisodeTwice(config, t, q, p);
    }
  }

  // ----- clock readings far apart ---------------------------------------------------------

  /** Readings the margin apart or more let an episode open whose window ends no later than the previous one. */
  lemma FarReadingsBreakOrder(config: Config, selectedAt: nat, guardedAt: nat) returns (report: Report, s: State, c: Candidate)
    requires config.reportMaxAge >= 0 && guardedAt / 1000 - selectedAt / 1000 >= config.margin
    ensures Decides(config, report, s, selectedAt, guardedAt, c)
    ensures s.lastWindowUntil.Some? && c.windowUntil <= s.lastWindowUntil.value
  {
    var now := selectedAt / 1000;
    report := Report(true, Some(now), true, Some(ReportedCondition(true, true, true, Some("later"), Some(now + config.margin), true)));
    s := State(None, Some(guardedAt / 1000), []);
    c := Candidate(EpisodeId(config.conditionId, "later"), now + config.margin);
  }

  /** Every opening that the two readings allow moves the window end forward,
      whatever the report and the state, exactly when they are less than the
      margin apart. */
  lemma WindowsIncreaseIff(config: Config, selectedAt: nat, guardedAt: nat)
    requires config.reportMaxAge >= 0
    ensures
      (forall report, s, c :: Decides(config, report, s, selectedAt, guardedAt, c) && s.lastWindowUntil.Some? ==>
         s.lastWindowUntil.value < c.windowUntil) <==> guardedAt / 1000 - selectedAt / 1000 < config.margin
  {
    if guardedAt / 1000 - selectedAt / 1000 >= config.margin {
      var report, s, c := FarReadingsBreakOrder(config, selectedAt, guardedAt);
    }
  }

  // ----- completion -----------------------------------------------------------------------

  /** AG reaches `completed` only through `complete`, and its database holds one
      campaign until it is initialised anew or archived. */
  ghost predicate HonestAg(t: seq<Event>) {
    forall i :: 0 <= i < |t| && t[i].Status? ==> HonestStatus(t[..i], t[i].snapshot)
  }

  ghost predicate HonestStatus(t: seq<Event>, s: Snapshot) {
    && (s.pc == Completed ==> s.campaign.Some? && s.campaign.value in Invoked(t))
    && (s.campaign.Some? ==> Reported(t) <= {s.campaign.value})
  }

  lemma {:induction false} CompletionWasAsked(t: seq<Event>)
    requires HonestAg(t)
    ensures SeenCompleted(t) <= Invoked(t)
  {
    if t != [] {
      var n := |t| - 1;
      forall i | 0 <= i < n && t[..n][i].Status?
        ensures HonestStatus(t[..n][..i], t[..n][i].snapshot)
      {
        assert t[..n][..i] == t[..i];
      }
      CompletionWasAsked(t[..n]);
    }
  }

  lemma {:induction false} InvokedAt(t: seq<Event>, c: nat) returns (j: nat)
    requires c in Invoked(t)
    ensures j < |t| && t[j].Complete? && t[j].campaign == c
  {
    var n := |t| - 1;
    if t[n].Complete? && t[n].campaign == c {
      j := n;
    } else {
      j := InvokedAt(t[..n], c);
    }
  }

  /** A recorded settlement time comes from a settlement that AG reported for the campaign. */
  lemma {:induction false} SettlementKept(config: Config, t: seq<Event>)
    requires GoodTrace(config, t) && Disk(t).active.Some? && Disk(t).active.value.settledAt.Some?
    ensures var e := Disk(t).active.value; SettlementReported(t, e.campaign, e.settlement, e.settledAt.value)
  {
    var n := |t| - 1;
    var p, e := t[..n], Disk(t).active.value;
    if !SettlementReported(p, e.campaign, e.settlement, e.settledAt.value) {
      SettlementKept(config, p);
    }
    SettlementReportedKept(p, t, e.campaign, e.settlement, e.settledAt.value);
  }

  /** An episode is closed as completed only after `complete` was asked of AG
      for its campaign, and that directly after the bound postcondition resolver
      answered current and the newest evaluation was stamped no earlier than the
      dwell after the settlement; a crash may lie between asking and closing.
      AG had then reported the campaign settled with success or past its
      settlement. The settlement time is the recorded one, which AG reported for
      the campaign before, or else a reading taken when AG had reported the
      settlement as past. */
  lemma CompletionSound(config: Config, t: seq<Event>, i: nat) returns (j: nat)
    requires GoodTrace(config, t) && HonestAg(t) && i < |t|
    requires t[i].Saved? && t[i].cause.Closed? && t[i].cause.outcome == EndedCompleted
    ensures 2 <= j < i && Disk(t[..i]).active.Some? && t[j].Complete? && t[j].campaign == Disk(t[..i]).active.value.campaign
    ensures t[j - 2] == Resolution(t[j].campaign, true, true, true)
    ensures t[j - 1].Sample? && t[j - 1].at >= SaturatingAdd(t[j].settledAt, config.dwellSeconds * 1000)
    ensures Disk(t[..j]).active.Some? && Disk(t[..j]).active.value.campaign == t[j].campaign
    ensures KnownSettled(t[..j], t[j].campaign)
    ensures var e := Disk(t[..j]).active.value;
      if e.settledAt.Some? then
        e.settledAt.value == t[j].settledAt && SettlementReported(t[..j], t[j].campaign, e.settlement, t[j].settledAt)
      else ReadAfterSettlement(t[..j], t[j].campaign, t[j].settledAt)
  {
    GoodPrefix(config, t, i);
    forall k | 0 <= k < i && t[..i][k].Status?
      ensures HonestStatus(t[..i][..k], t[..i][k].snapshot)
    {
      assert t[..i][..k] == t[..k];
    }
    CompletionWasAsked(t[..i]);
    j := InvokedAt(t[..i], Disk(t[..i]).active.value.campaign);
    GoodPrefix(config, t, j);
    assert t[..i][j] == t[j] && t[..j][j - 1] == t[j - 1] && t[..j][j - 2] == t[j - 2];
    if Disk(t[..j]).active.value.settledAt.Some? {
      SettlementKept(config, t[..j]);
    }
  }

  /** A continuation is asked only on AG's last report, which has the campaign
      settled with success, and under an occurrence that is on file. */
  lemma ContinuationAfterSuccess(config: Config, t: seq<Event>, i: nat) returns (k: nat)
    requires GoodTrace(config, t) && i < |t| && t[i].Continue?
    ensures k < i && Succeeded(t[k], t[i].campaign) && forall x :: k < x < i ==> !t[x].Status?
    ensures Disk(t[..i]).active.Some? && Disk(t[..i]).active.value.continuation == Some(t[i].occurrence)
  {
    GoodPrefix(config, t, i);
    k := LastStatusAt(t[..i]);
    forall x | k < x < i
      ensures !t[x].Status?
    {
      assert t[..i][x] == t[x];
    }
  }

  ghost predicate Continued(t: seq<Event>, campaign: nat) {
    exists k :: 0 <= k < |t| && t[k].Continue? && t[k].campaign == campaign
  }

  /** AG holds a continuation of a campaign only after it was asked for one. */
  ghost predicate HonestPrior(t: seq<Event>) {
    forall i :: 0 <= i < |t| && t[i].Status? && t[i].snapshot.pc == ObservationRequired && t[i].snapshot.prior ==>
      t[i].snapshot.campaign.Some? && Continued(t[..i], t[i].snapshot.campaign.value)
  }

  /** An episode is closed as completed only if AG reported its campaign settled
      with success before completion was asked, over any run and any crashes. */
  lemma CompletedMeansSuccess(config: Config, t: seq<Event>, i: nat) returns (k: nat, j: nat)
    requires GoodTrace(config, t) && HonestAg(t) && HonestPrior(t) && i < |t|
    requires t[i].Saved? && t[i].cause.Closed? && t[i].cause.outcome == EndedCompleted
    ensures k < j < i && Disk(t[..i]).active.Some?
    ensures var c := Disk(t[..i]).active.value.campaign;
      Succeeded(t[k], c) && t[j].Complete? && t[j].campaign == c
  {
    j := CompletionSound(config, t, i);
    var c := t[j].campaign;
    k :| 0 <= k < j && PastSettlement(t[..j][k], c);
    if !Succeeded(t[k], c) {
      var m :| 0 <= m < k && t[..k][m].Continue? && t[..k][m].campaign == c;
      k := ContinuationAfterSuccess(config, t, m);
    }
  }
}
