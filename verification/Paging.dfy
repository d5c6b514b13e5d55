/** Page deferral: the page of a page-class incident may wait for the end of
    its remediation window. */
module Paging {
  import opened Common
  import opened Lifecycle
  import opened LifecycleLaws

  datatype Policy = ObserveOnly | AutoRemediateThenPage

  /** What the configuration says of one condition: the rule's class, its
      response policy and, for a remediation target, the window. */
  datatype Target = Target(pageClass: bool, policy: Policy, window: Option<int>)

  datatype Reason = Recovered | NoLongerEvaluated | RecoveredWithinWindow

  function SaturatingAdd(a: int, b: int): int {
    if a + b > I64_MAX then I64_MAX else if a + b < I64_MIN then I64_MIN else a + b
  }

  function WindowUntil(firstSeen: Option<int>, window: int): Option<int> {
    if firstSeen.Some? then Some(SaturatingAdd(firstSeen.value, window)) else None
  }

  predicate SendPage(policy: Policy, until: Option<int>, observation: Observation, now: int) {
    policy == ObserveOnly || until == None || (now >= until.value && (observation == Present || observation == Unknown))
  }

  /** What one pass makes of a condition; `page` says that its page is decided now. */
  datatype Reconciled = Reconciled(state: State, deferred: bool, transition: Option<Action>, reason: Reason, page: bool)

  function EndOf(target: Target, firstSeen: Option<int>): Option<int> {
    if target.window.Some? then WindowUntil(firstSeen, target.window.value) else None
  }

  function ReasonFor(target: Target, c: State, deferred: bool, e: Entry): Reason {
    var clearedAt := if c.clearSince.Some? then c.clearSince.value else e.at;
    var until := EndOf(target, c.firstSeen);
    if e.kind == Removed then NoLongerEvaluated
    else if deferred && until.Some? && clearedAt < until.value then RecoveredWithinWindow
    else Recovered
  }

  function Reconciliation(target: Target, c: State, deferred: bool, e: Entry): Reconciled {
    var step := Step(c, e.kind, e.persistence, e.at);
    var send := SendPage(target.policy, EndOf(target, step.state.firstSeen), e.kind, e.at);
    match step.action
    case Some(Resolve) => Reconciled(step.state, false, step.action, ReasonFor(target, c, deferred, e), false)
    case Some(Trigger) =>
      var page := target.pageClass && send;
      Reconciled(step.state, target.pageClass && !send, step.action, ReasonFor(target, c, deferred, e), page)
    case None =>
      var page := step.state.active && deferred && send;
      Reconciled(step.state, deferred && !page, None, Recovered, page)
  }

  /** A condition as the evaluator keeps and updates it. */
  class Condition {
    var firstSeen: Option<int>
    var lastSeen: Option<int>
    var clearSince: Option<int>
    var unknownSince: Option<int>
    var active: bool
    var transitionAt: Option<int>
    var pageDeferred: bool

    function Snapshot(): State
      reads this
    {
      State(firstSeen, lastSeen, clearSince, unknownSince, active, transitionAt)
    }

    constructor ()
      ensures Snapshot() == Fresh && !pageDeferred
    {
      firstSeen, lastSeen, clearSince, unknownSince, active, transitionAt := None, None, None, None, false, None;
      pageDeferred := false;
    }

    method Observe(observation: Observation, persistence: int, now: int) returns (action: Option<Action>)
      modifies this
      ensures Outcome(Snapshot(), action) == Step(old(Snapshot()), observation, persistence, now)
      ensures pageDeferred == old(pageDeferred)
    {
      action := None;
      var shift: Option<int> := None;
      if unknownSince.Some? && now - unknownSince.value > UNKNOWN_GAP_SECONDS {
        shift := Some(now - unknownSince.value);
      }
      if observation != Unknown {
        unknownSince := None;
      }
      match observation
      case Present =>
        if shift.Some? && !active && firstSeen.Some? {
          firstSeen := Some(Min(firstSeen.value + shift.value, now));
        }
        if firstSeen == None {
          firstSeen := Some(now);
        }
        lastSeen := Some(now);
        clearSince := None;
        if !active && now - firstSeen.value > persistence {
          active := true;
          transitionAt := Some(now);
          return Some(Trigger);
        }
      case Clear =>
        if active {
          if shift.Some? && clearSince.Some? {
            clearSince := Some(Min(clearSince.value + shift.value, now));
          }
          if clearSince == None {
            clearSince := Some(now);
          }
          if now - clearSince.value >= RESOLVE_CONFIRM_SECONDS {
            active := false;
            firstSeen := None;
            clearSince := None;
            transitionAt := Some(now);
            return Some(Resolve);
          }
        } else {
          firstSeen := None;
          clearSince := None;
        }
      case Unknown =>
        var open := if active then clearSince.Some? else firstSeen.Some?;
        if open && unknownSince == None {
          unknownSince := Some(now);
        }
      case Removed =>
        unknownSince := None;
        firstSeen := None;
        clearSince := None;
        if active {
          active := false;
          transitionAt := Some(now);
          return Some(Resolve);
        }
    }

    /** One pass over this condition: the lifecycle step, the page decision and the resolve's reason. */
    method Reconcile(target: Target, observation: Observation, persistence: int, now: int) returns (outcome: Reconciled)
      modifies this
      ensures outcome == Reconciliation(target, old(Snapshot()), old(pageDeferred), Entry(observation, now, persistence))
      ensures Snapshot() == outcome.state && pageDeferred == outcome.deferred
    {
      var openedAt := firstSeen;
      var clearedAt := if clearSince.Some? then clearSince.value else now;
      var transition := Observe(observation, persistence, now);
      var until := if target.window.Some? then WindowUntil(firstSeen, target.window.value) else None;
      var reason, page := Recovered, false;
      if transition.Some? {
        var windowEnd := if target.window.Some? then WindowUntil(openedAt, target.window.value) else None;
        if observation == Removed {
          reason := NoLongerEvaluated;
        } else if pageDeferred && windowEnd.Some? && clearedAt < windowEnd.value {
          reason := RecoveredWithinWindow;
        }
        if transition.value == Resolve {
          pageDeferred := false;
        } else {
          pageDeferred := target.pageClass && !SendPage(target.policy, until, observation, now);
          page := target.pageClass && !pageDeferred;
        }
      } else if active && pageDeferred && SendPage(target.policy, until, observation, now) {
        pageDeferred := false;
        page := true;
      }
      outcome := Reconciled(Snapshot(), pageDeferred, transition, reason, page);
    }
  }

  // ----- whole incidents -----------------------------------------------------------

  /** The page is held after the first `n` entries. */
  ghost predicate Held(target: Target, h: seq<Entry>, n: nat)
    requires n <= |h|
  {
    n > 0 && Reconciliation(target, After(h, n - 1), Held(target, h, n - 1), h[n - 1]).deferred
  }

  ghost function Pass(target: Target, h: seq<Entry>, j: nat): Reconciled
    requires j < |h|
  {
    Reconciliation(target, After(h, j), Held(target, h, j), h[j])
  }

  /** Entries `j..k` belong to the incident that entry `j` triggers. */
  ghost predicate Incident(h: seq<Entry>, j: nat, k: nat) {
    j < k <= |h| && Decision(h, j) == Some(Trigger) && forall m :: j < m < k ==> Decision(h, m) == None
  }

  /** The end of the remediation window of the incident triggered at `j`, if it has one. */
  ghost function IncidentEnd(target: Target, h: seq<Entry>, j: nat): Option<int>
    requires j < |h|
  {
    if target.policy == ObserveOnly then None else EndOf(target, After(h, j + 1).firstSeen)
  }

  /** The page need not wait any longer at this pass. */
  ghost predicate Due(end: Option<int>, e: Entry) {
    end == None || (e.at >= end.value && (e.kind == Present || e.kind == Unknown))
  }

  /** No pass of `j..m` is due. */
  ghost predicate NotYet(target: Target, h: seq<Entry>, j: nat, m: nat)
    requires j <= m <= |h| && j < |h|
  {
    forall x :: j <= x < m ==> !Due(IncidentEnd(target, h, j), h[x])
  }

  /** While the condition is active its first sighting, and so the window end, never moves. */
  lemma {:induction false} WindowEndFixed(h: seq<Entry>, j: nat, k: nat)
    requires Incident(h, j, k)
    ensures After(h, k).active && After(h, k).firstSeen.Some? && After(h, k).firstSeen == After(h, j + 1).firstSeen
  {
    if k > j + 1 {
      WindowEndFixed(h, j, k - 1);
      assert Decision(h, k - 1) == None;
    }
  }

  /** The page is held exactly as long as no pass of the incident was due. */
  lemma {:induction false} HeldUntilDue(target: Target, h: seq<Entry>, j: nat, k: nat)
    requires Incident(h, j, k)
    ensures Held(target, h, k) <==> target.pageClass && NotYet(target, h, j, k)
  {
    var e := h[k - 1];
    if k == j + 1 {
      assert Held(target, h, k) <==> target.pageClass && !Due(IncidentEnd(target, h, j), e);
    } else {
      HeldUntilDue(target, h, j, k - 1);
      WindowEndFixed(h, j, k);
      assert Decision(h, k - 1) == None;
    }
  }

  /** A number as a 64-bit counter holds it. */
  function Capped(n: int): int {
    if n > I64_MAX then I64_MAX else if n < I64_MIN then I64_MIN else n
  }

  /** The page of an incident whose presence began at `start` need not wait: the
      policy does not hold it, or its window has ended and the condition is not
      observed to be clear or removed. */
  ghost predicate DueSince(target: Target, start: int, e: Entry) {
    || target.policy == ObserveOnly || target.window == None
    || (e.at >= Capped(start + target.window.value) && e.kind != Clear && e.kind != Removed)
  }

  lemma DueIsDueSince(target: Target, h: seq<Entry>, j: nat, e: Entry)
    requires Ordered(h) && j < |h| && Decision(h, j) == Some(Trigger)
    ensures Due(IncidentEnd(target, h, j), e) <==> DueSince(target, PresenceStart(h, j), e)
  {
    TriggerKeepsStart(h, j);
  }

  /** A page-class incident is paged at its first due pass and at no other; due
      is measured from the start of the presence that triggered it. */
  lemma PagedAtFirstDue(target: Target, h: seq<Entry>, j: nat, m: nat)
    requires j <= m < |h| && Incident(h, j, m + 1)
    ensures Pass(target, h, m).page <==>
      target.pageClass && Due(IncidentEnd(target, h, j), h[m]) && NotYet(target, h, j, m)
    ensures Ordered(h) ==>
      (Pass(target, h, m).page <==>
        && target.pageClass && DueSince(target, PresenceStart(h, j), h[m])
        && forall x :: j <= x < m ==> !DueSince(target, PresenceStart(h, j), h[x]))
  {
    if Ordered(h) {
      forall x | j <= x <= m
        ensures Due(IncidentEnd(target, h, j), h[x]) <==> DueSince(target, PresenceStart(h, j), h[x])
      {
        DueIsDueSince(target, h, j, h[x]);
      }
    }
    if m > j {
      assert Incident(h, j, m);
      HeldUntilDue(target, h, j, m);
      WindowEndFixed(h, j, m + 1);
      assert Decision(h, m) == None;
    }
  }

  lemma OnePagePerIncident(target: Target, h: seq<Entry>, j: nat, m: nat, x: nat)
    requires j <= m < x < |h| && Incident(h, j, x + 1)
    ensures !(Pass(target, h, m).page && Pass(target, h, x).page)
  {
    assert Incident(h, j, m + 1);
    PagedAtFirstDue(target, h, j, m);
    PagedAtFirstDue(target, h, j, x);
  }

  /** A resolve is marked recovered within the window exactly when a page-class
      incident was never due a page and its clear began before the window end. */
  lemma RecoveredWithinWindowMeans(target: Target, h: seq<Entry>, j: nat, k: nat)
    requires k < |h| && Incident(h, j, k) && Decision(h, k) == Some(Resolve)
    ensures var c := After(h, k);
      var clearedAt := if c.clearSince.Some? then c.clearSince.value else h[k].at;
      Pass(target, h, k).reason == RecoveredWithinWindow <==>
        && h[k].kind != Removed && target.pageClass && NotYet(target, h, j, k)
        && clearedAt < IncidentEnd(target, h, j).value
    ensures Pass(target, h, k).reason == RecoveredWithinWindow ==>
      forall m :: j <= m <= k ==> !Pass(target, h, m).page
    ensures Pass(target, h, k).reason == NoLongerEvaluated <==> h[k].kind == Removed
  {
    HeldUntilDue(target, h, j, k);
    WindowEndFixed(h, j, k);
    forall m | j <= m < k
      ensures NotYet(target, h, j, k) ==> !Pass(target, h, m).page
    {
      assert Incident(h, j, m + 1);
      PagedAtFirstDue(target, h, j, m);
      assert NotYet(target, h, j, k) ==> !Due(IncidentEnd(target, h, j), h[m]);
    }
  }

  /** The same mark, read off the history alone. */
  lemma RecoveredWithinWindowHistory(target: Target, h: seq<Entry>, j: nat, k: nat)
    requires Ordered(h) && k < |h| && Incident(h, j, k) && Decision(h, k) == Some(Resolve)
    ensures var i := OpenSince(h, j + 1, k, Clear);
      var clearedAt := if i.Some? then h[i.value].at + Excluded(h, i.value, k - 1) else h[k].at;
      Pass(target, h, k).reason == RecoveredWithinWindow <==>
        && h[k].kind != Removed && target.pageClass
        && (forall x :: j <= x < k ==> !DueSince(target, PresenceStart(h, j), h[x]))
        && clearedAt < Capped(PresenceStart(h, j) + target.window.value)
  {
    RecoveredWithinWindowMeans(target, h, j, k);
    ClearStart(h, j, k);
    TriggerKeepsStart(h, j);
    forall x | j <= x < k
      ensures Due(IncidentEnd(target, h, j), h[x]) <==> DueSince(target, PresenceStart(h, j), h[x])
    {
      DueIsDueSince(target, h, j, h[x]);
    }
    assert DueSince(target, PresenceStart(h, j), h[j]) || target.window.Some?;
  }
}
