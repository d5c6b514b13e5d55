/** One evaluation pass from reconciled conditions to answered submissions:
    planning, the order of the plan, save before submit, and retention. */
module Delivery {
  import opened Common
  import opened Lifecycle
  import opened Paging
  import opened EventIdentity

  // ----- data ---------------------------------------------------------------------

  datatype Role = Notice | Page
  datatype Schema = V1 | V2
  datatype Operation = Submit | SubmitAgain | Resubmit | SubmitBeforeResolve
  datatype Delivered = NoAnswer | CommandError | Accepted | Failed | Refused | OtherState(name: string)

  /** The newest intent of one route role. */
  datatype Intent = Intent(
    eventId: string, action: Action, route: string, schema: Schema,
    notificationId: Option<string>, outcome: Delivered, network: bool, at: int)

  datatype Tracked = Tracked(
    key: Key, life: State, deferred: bool, lastIntent: map<Role, Intent>, pendingTrigger: map<Role, Intent>)

  type Conditions = map<string, Tracked>

  datatype Routes = Routes(page: Option<string>, notice: string, networkEnabled: bool, noticeLocal: bool)

  /** What a pass reads of one condition; `known` says that the registry has its rule. */
  datatype Reading = Reading(key: Key, observation: Observation, persistence: int, target: Target, known: bool)

  /** What a pass is run on: one reading of every condition, the routes and the time. */
  datatype Inputs = Inputs(readings: map<string, Reading>, routes: Routes, now: int)

  datatype Planned = Planned(id: string, role: Role, action: Action, operation: Operation, retryOf: Option<string>)

  datatype Answer = Answer(outcome: Delivered, notificationId: Option<string>)

  /** One call to NQ: what was submitted where and how, and what came back. */
  datatype Submission = Submission(
    id: string, role: Role, eventId: string, action: Action, route: string, schema: Schema,
    operation: Operation, retryOf: Option<string>, answer: Answer)

  /** A trigger reported as dropped. */
  datatype Dropped = Dropped(id: string, role: Role, eventId: string)

  const RESEND_INTERVAL_SECONDS := 900
  const PAGE_RESEND_SECONDS := 120

  predicate Delivers(routes: Routes, schema: Schema) {
    routes.networkEnabled || (routes.noticeLocal && schema == V1)
  }

  // ----- what one pass decides for one condition ----------------------------------

  function Unseen(key: Key): Tracked {
    Tracked(key, Fresh, false, map[], map[])
  }

  function Loaded(conditions: Conditions, x: Inputs, id: string): Tracked
    requires id in x.readings
  {
    if id in conditions then conditions[id] else Unseen(x.readings[id].key)
  }

  function Reconcile(c: Tracked, r: Reading, now: int): Reconciled {
    Reconciliation(r.target, c.life, c.deferred, Entry(r.observation, now, r.persistence))
  }

  /** The condition has a transition or a held page that goes out now. */
  predicate Busy(o: Reconciled) {
    o.transition.Some? || o.page
  }

  function ActionOf(o: Reconciled): Action {
    if o.transition.Some? then o.transition.value else Trigger
  }

  /** The route of the intent this pass writes for `role`, if it writes one. */
  function WrittenRoute(c: Tracked, o: Reconciled, r: Reading, routes: Routes, role: Role): Option<string> {
    if !r.known || !Busy(o) then None
    else if o.transition == Some(Resolve) then
      if role in c.lastIntent then Some(c.lastIntent[role].route)
      else if c.lastIntent == map[] && role == Notice then Some(routes.notice)
      else None
    else if role == Notice then (if o.transition.Some? then Some(routes.notice) else None)
    else if o.page then routes.page
    else None
  }

  function NewIntent(key: Key, role: Role, route: string, action: Action, routes: Routes, now: int): Intent {
    var schema := if role == Page then V2 else V1;
    Intent(EventId(key, action, now), action, route, schema, None, NoAnswer, Delivers(routes, schema), now)
  }

  datatype FollowUp = FollowUp(operation: Operation, waits: bool)

  /** Whether a retained intent still needs work. */
  function FollowUpOf(last: Intent, active: bool, routes: Routes): Option<FollowUp> {
    if active != (last.action == Trigger) then None
    else if (last.outcome == NoAnswer || last.outcome == CommandError) && last.notificationId == None then
      Some(FollowUp(SubmitAgain, false))
    else if last.outcome == Accepted then None
    else if last.notificationId == None then None
    else if !Delivers(routes, last.schema) then None
    else if last.schema == V2 then Some(FollowUp(Resubmit, true))
    else if last.outcome == Failed || last.outcome == Refused then Some(FollowUp(Submit, true))
    else None
  }

  /** The follow-up taken now: not before the spacing has passed. */
  function DueFollowUp(last: Intent, active: bool, routes: Routes, now: int): Option<Operation> {
    match FollowUpOf(last, active, routes)
    case None => None
    case Some(f) =>
      var interval := if f.operation == Resubmit then PAGE_RESEND_SECONDS else RESEND_INTERVAL_SECONDS;
      if f.waits && now - last.at < interval then None else Some(f.operation)
  }

  /** An intent sent again: as it is, or as a new record under a new identity. */
  function Retried(key: Key, last: Intent, operation: Operation, routes: Routes, now: int): Intent {
    var again := last.(outcome := NoAnswer, network := Delivers(routes, last.schema), at := now);
    if operation == SubmitAgain then again
    else again.(eventId := EventId(key, last.action, now), notificationId := None)
  }

  /** A trigger that NQ did not retain must go before the intent that replaces it. */
  predicate Unretained(last: Intent) {
    last.action == Trigger && last.notificationId == None
  }

  /** A retained trigger that is replaced although its acceptance is not known. */
  predicate Superseded(last: Intent) {
    && last.action == Trigger && last.notificationId.Some?
    && last.outcome != Accepted && (last.outcome != Refused || last.network)
  }

  /** What one pass makes of one route role of one condition. */
  datatype Slot = Slot(last: Option<Intent>, pending: Option<Intent>, item: Option<Planned>, superseded: Option<Dropped>)

  function At(m: map<Role, Intent>, role: Role): Option<Intent> {
    if role in m then Some(m[role]) else None
  }

  function PlanSlot(id: string, c: Tracked, r: Reading, routes: Routes, now: int, role: Role): Slot {
    var o := Reconcile(c, r, now);
    var written := WrittenRoute(c, o, r, routes, role);
    var last, pending := At(c.lastIntent, role), At(c.pendingTrigger, role);
    if written.Some? then
      Slot(Some(NewIntent(c.key, role, written.value, ActionOf(o), routes, now)),
           if last.Some? && Unretained(last.value) then last else pending,
           Some(Planned(id, role, ActionOf(o), Submit, None)),
           if last.Some? && Superseded(last.value) then Some(Dropped(id, role, last.value.eventId)) else None)
    else if Busy(o) || last == None then Slot(last, pending, None, None)
    else
      match DueFollowUp(last.value, o.state.active, routes, now)
      case None => Slot(last, pending, None, None)
      case Some(operation) =>
        Slot(Some(Retried(c.key, last.value, operation, routes, now)), pending,
             Some(Planned(id, role, last.value.action, operation,
                          if operation == SubmitAgain then None else last.value.notificationId)), None)
  }

  function Both(notice: Option<Intent>, page: Option<Intent>): (m: map<Role, Intent>)
    ensures At(m, Notice) == notice && At(m, Page) == page
  {
    (if notice.Some? then map[Notice := notice.value] else map[]) + (if page.Some? then map[Page := page.value] else map[])
  }

  function ItemsOf(id: string, role: Role, slot: Slot): seq<Planned> {
    (if slot.item.Some? then [slot.item.value] else []) +
    (if slot.pending.Some? then [Planned(id, role, Trigger, SubmitBeforeResolve, None)] else [])
  }

  function SupersededIn(slot: Slot): set<Dropped> {
    if slot.superseded.Some? then {slot.superseded.value} else {}
  }

  /** What one pass makes of one condition. */
  datatype ConditionPlan = ConditionPlan(condition: Tracked, items: seq<Planned>, superseded: set<Dropped>)

  function Combine(id: string, key: Key, o: Reconciled, notice: Slot, page: Slot): ConditionPlan {
    ConditionPlan(
      Tracked(key, o.state, o.deferred, Both(notice.last, page.last), Both(notice.pending, page.pending)),
      ItemsOf(id, Notice, notice) + ItemsOf(id, Page, page),
      SupersededIn(notice) + SupersededIn(page))
  }

  function PlanCondition(id: string, c: Tracked, r: Reading, routes: Routes, now: int): ConditionPlan {
    Combine(id, c.key, Reconcile(c, r, now),
            PlanSlot(id, c, r, routes, now, Notice), PlanSlot(id, c, r, routes, now, Page))
  }

  // ----- the plan -------------------------------------------------------------------

  /** Triggers before resolves; within each, condition order, then role order. */
  predicate Precedes(a: Planned, b: Planned) {
    if a.action != b.action then a.action == Trigger
    else if a.id != b.id then Less(a.id, b.id)
    else a.role == Notice || b.role == Page
  }

  lemma PrecedesTotal(a: Planned, b: Planned)
    ensures Precedes(a, b) || Precedes(b, a)
  {
    LessTotal(a.id, b.id);
  }

  lemma PrecedesTransitive(a: Planned, b: Planned, c: Planned)
    requires Precedes(a, b) && Precedes(b, c)
    ensures Precedes(a, c)
  {
    if a.action == b.action == c.action && a.id != b.id && b.id != c.id {
      LessTransitive(a.id, b.id, c.id);
      LessIrreflexive(a.id);
    }
  }

  ghost predicate SortedPlan(plan: seq<Planned>) {
    forall i, j :: 0 <= i < j < |plan| ==> Precedes(plan[i], plan[j])
  }

  /** The intent that an item submits lives in this slot. */
  datatype Place = Place(id: string, role: Role, pending: bool)

  function PlaceOf(p: Planned): Place {
    Place(p.id, p.role, p.operation == SubmitBeforeResolve)
  }

  ghost predicate OnePerPlace(plan: seq<Planned>) {
    forall i, j :: 0 <= i < j < |plan| ==> PlaceOf(plan[i]) != PlaceOf(plan[j])
  }

  /** What a pass decides for every condition it evaluates. */
  function Plans(conditions: Conditions, x: Inputs): map<string, ConditionPlan> {
    map id | id in x.readings :: PlanCondition(id, Loaded(conditions, x, id), x.readings[id], x.routes, x.now)
  }

  ghost function PlannedConditions(plans: map<string, ConditionPlan>): Conditions {
    map id | id in plans :: plans[id].condition
  }

  /** In order, one item for each place, and exactly the items the conditions call for. */
  ghost predicate IsPlan(plan: seq<Planned>, plans: map<string, ConditionPlan>) {
    SortedPlan(plan) && OnePerPlace(plan) && forall p :: p in plan <==> p.id in plans && p in plans[p.id].items
  }

  ghost function AllSuperseded(plans: map<string, ConditionPlan>): set<Dropped> {
    set id, d | id in plans && d in plans[id].superseded :: d
  }

  // ----- submission ---------------------------------------------------------------

  function IntentAt(conditions: Conditions, p: Place): Option<Intent> {
    if p.id !in conditions then None
    else At(if p.pending then conditions[p.id].pendingTrigger else conditions[p.id].lastIntent, p.role)
  }

  /** An intent once NQ has answered its submission. */
  function Answered(last: Intent, answer: Answer, now: int): Intent {
    last.(outcome := answer.outcome, at := now,
          notificationId := if answer.notificationId.Some? then answer.notificationId else last.notificationId)
  }

  /** The conditions after one answered submission: a pending trigger is settled by its one attempt. */
  function Settle(c: Tracked, p: Planned, answer: Answer, now: int): Tracked {
    if p.operation == SubmitBeforeResolve then c.(pendingTrigger := c.pendingTrigger - {p.role})
    else if p.role in c.lastIntent then
      c.(lastIntent := c.lastIntent[p.role := Answered(c.lastIntent[p.role], answer, now)])
    else c
  }

  datatype Progress = Progress(conditions: Conditions, log: seq<Submission>, dropped: set<Dropped>)

  function SubmitOne(g: Progress, p: Planned, answer: Answer, now: int): Progress {
    var last := IntentAt(g.conditions, PlaceOf(p));
    if last == None then g
    else
      var id := last.value.eventId;
      Progress(
        g.conditions[p.id := Settle(g.conditions[p.id], p, answer, now)],
        g.log + [Submission(p.id, p.role, id, p.action, last.value.route, last.value.schema, p.operation, p.retryOf, answer)],
        if p.operation == SubmitBeforeResolve && answer.notificationId == None then g.dropped + {Dropped(p.id, p.role, id)}
        else g.dropped)
  }

  /** The pass after `k` answered submissions. */
  ghost function Submitted(start: Progress, plan: seq<Planned>, answers: seq<Answer>, now: int, k: nat): Progress
    requires k <= |plan| && k <= |answers|
  {
    if k == 0 then start else SubmitOne(Submitted(start, plan, answers, now, k - 1), plan[k - 1], answers[k - 1], now)
  }

  /** What is worth keeping once a pass has answered everything. */
  predicate Kept(c: Tracked, routes: Routes) {
    || c.life.active || c.life.firstSeen.Some? || c.pendingTrigger != map[]
    || exists role :: role in c.lastIntent && FollowUpOf(c.lastIntent[role], c.life.active, routes).Some?
  }

  function Retained(conditions: Conditions, routes: Routes): Conditions {
    map id | id in conditions && Kept(conditions[id], routes) :: conditions[id]
  }

  // ----- the pass -------------------------------------------------------------------

  lemma InsertKeeps(plan: seq<Planned>, k: nat, p: Planned)
    requires SortedPlan(plan) && k <= |plan|
    requires forall i :: 0 <= i < k ==> Precedes(plan[i], p)
    requires forall i :: k <= i < |plan| ==> Precedes(p, plan[i])
    ensures SortedPlan(plan[..k] + [p] + plan[k..])
    ensures multiset(plan[..k] + [p] + plan[k..]) == multiset(plan) + multiset{p}
  {
    assert plan == plan[..k] + plan[k..];
  }

  /** Stable insertion sort: equal items keep their order. */
  method Sort(plan: seq<Planned>) returns (sorted: seq<Planned>)
    ensures SortedPlan(sorted) && multiset(sorted) == multiset(plan)
  {
    sorted := [];
    for n := 0 to |plan|
      invariant SortedPlan(sorted) && multiset(sorted) == multiset(plan[..n])
    {
      var p, k := plan[n], |sorted|;
      while k > 0 && !Precedes(sorted[k - 1], p)
        invariant 0 <= k <= |sorted| && forall i :: k <= i < |sorted| ==> Precedes(p, sorted[i])
      {
        PrecedesTotal(sorted[k - 1], p);
        k := k - 1;
      }
      forall i | 0 <= i < k
        ensures Precedes(sorted[i], p)
      {
        if i < k - 1 {
          PrecedesTransitive(sorted[i], sorted[k - 1], p);
        }
      }
      InsertKeeps(sorted, k, p);
      sorted := sorted[..k] + [p] + sorted[k..];
      assert plan[..n + 1] == plan[..n] + [p];
    }
    assert plan[..|plan|] == plan;
  }

  lemma {:induction false} TwiceIn<T>(s: seq<T>, i: nat, j: nat)
    requires i < j < |s| && s[i] == s[j]
    ensures multiset(s)[s[i]] >= 2
  {
    assert s == s[..i] + [s[i]] + s[i + 1..j] + [s[j]] + s[j + 1..];
  }

  lemma {:induction false} OnceIn(plan: seq<Planned>, p: Planned)
    requires OnePerPlace(plan)
    ensures multiset(plan)[p] <= 1
  {
    if plan != [] {
      var n := |plan| - 1;
      assert plan == plan[..n] + [plan[n]];
      OnceIn(plan[..n], p);
      assert plan[n] !in plan[..n];
    }
  }

  lemma PermutationKeepsPlaces(plan: seq<Planned>, sorted: seq<Planned>)
    requires OnePerPlace(plan) && multiset(plan) == multiset(sorted)
    ensures OnePerPlace(sorted) && forall p :: p in sorted <==> p in plan
  {
    forall p
      ensures p in sorted <==> p in plan
    {
      assert p in sorted <==> p in multiset(sorted);
      assert p in plan <==> p in multiset(plan);
    }
    forall i, j | 0 <= i < j < |sorted|
      ensures PlaceOf(sorted[i]) != PlaceOf(sorted[j])
    {
      if sorted[i] == sorted[j] {
        TwiceIn(sorted, i, j);
        OnceIn(plan, sorted[i]);
      } else {
        assert sorted[i] in plan && sorted[j] in plan;
      }
    }
  }

  ghost predicate OwnItems(id: string, items: seq<Planned>) {
    OnePerPlace(items) && forall i :: 0 <= i < |items| ==> items[i].id == id
  }

  lemma SlotAtOwnPlace(id: string, c: Tracked, r: Reading, routes: Routes, now: int, role: Role)
    ensures var item := PlanSlot(id, c, r, routes, now, role).item;
      item.Some? ==> PlaceOf(item.value) == Place(id, role, false)
  {
  }

  lemma ItemsAtOwnPlaces(id: string, c: Tracked, r: Reading, routes: Routes, now: int)
    ensures OwnItems(id, PlanCondition(id, c, r, routes, now).items)
  {
    SlotAtOwnPlace(id, c, r, routes, now, Notice);
    SlotAtOwnPlace(id, c, r, routes, now, Page);
    CombinedPlaces(id, c.key, Reconcile(c, r, now),
                   PlanSlot(id, c, r, routes, now, Notice), PlanSlot(id, c, r, routes, now, Page));
  }

  lemma CombinedPlaces(id: string, key: Key, o: Reconciled, notice: Slot, page: Slot)
    requires notice.item.Some? ==> PlaceOf(notice.item.value) == Place(id, Notice, false)
    requires page.item.Some? ==> PlaceOf(page.item.value) == Place(id, Page, false)
    ensures OwnItems(id, Combine(id, key, o, notice, page).items)
  {
    OwnPlaces(id, Notice, notice);
    OwnPlaces(id, Page, page);
  }

  lemma OwnPlaces(id: string, role: Role, slot: Slot)
    requires slot.item.Some? ==> PlaceOf(slot.item.value) == Place(id, role, false)
    ensures var items := ItemsOf(id, role, slot);
      && OnePerPlace(items)
      && forall i :: 0 <= i < |items| ==> items[i].id == id && items[i].role == role
  {
  }

  /** How a pass ends. A crash before the plan is saved leaves the state file
      as it was; a later one leaves the last saved submission. */
  datatype PassResult =
    | ClockMovedBack
    | CrashedBeforeSave
    | Crashed(plan: seq<Planned>)
    | Completed(plan: seq<Planned>, log: seq<Submission>, dropped: set<Dropped>)

  ghost function Begun(plans: map<string, ConditionPlan>): Progress {
    Progress(PlannedConditions(plans), [], AllSuperseded(plans))
  }

  /** The state file. */
  datatype File = File(saved: Conditions, updatedAt: int)

  /** What a pass leaves in the state file and reports. */
  ghost predicate Evaluates(before: File, x: Inputs, answers: seq<Answer>, result: PassResult, after: File) {
    var plans := Plans(before.saved, x);
    match result
    case ClockMovedBack => x.now < before.updatedAt && after == before
    case CrashedBeforeSave => x.now >= before.updatedAt && after == before
    case Crashed(plan) =>
      && x.now >= before.updatedAt && after.updatedAt == x.now && IsPlan(plan, plans)
      && after.saved == Submitted(Begun(plans), plan, answers, x.now, Min(|plan|, |answers|)).conditions
    case Completed(plan, log, dropped) =>
      && x.now >= before.updatedAt && after.updatedAt == x.now && IsPlan(plan, plans) && |plan| <= |answers|
      && var g := Submitted(Begun(plans), plan, answers, x.now, |plan|);
         after.saved == Retained(g.conditions, x.routes) && log == g.log && dropped == g.dropped
  }

  class Evaluator {
    var conditions: Conditions
    /** What the state file holds. */
    var saved: Conditions
    var updatedAt: int

    constructor ()
      ensures saved == map[] && updatedAt == 0
    {
      conditions, saved, updatedAt := map[], map[], 0;
    }

    /** Write what was decided for each condition into the state and collect the plan. */
    method Apply(plans: map<string, ConditionPlan>) returns (plan: seq<Planned>, superseded: set<Dropped>)
      requires conditions.Keys <= plans.Keys
      requires forall id :: id in plans ==> OwnItems(id, plans[id].items)
      modifies `conditions
      ensures conditions == PlannedConditions(plans) && IsPlan(plan, plans) && superseded == AllSuperseded(plans)
    {
      plan, superseded := [], {};
      var todo := plans.Keys;
      while todo != {}
        invariant todo <= plans.Keys && conditions.Keys <= plans.Keys
        invariant forall id :: id in plans && id !in todo ==> id in conditions && conditions[id] == plans[id].condition
        invariant OnePerPlace(plan)
        invariant forall p :: p in plan <==> p.id in plans && p.id !in todo && p in plans[p.id].items
        invariant forall d :: d in superseded <==> exists id :: id in plans && id !in todo && d in plans[id].superseded
      {
        var id :| id in todo;
        assert OwnItems(id, plans[id].items);
        plan := plan + plans[id].items;
        superseded := superseded + plans[id].superseded;
        conditions := conditions[id := plans[id].condition];
        todo := todo - {id};
      }
      var sorted := Sort(plan);
      PermutationKeepsPlaces(plan, sorted);
      plan := sorted;
    }

    method MakePlan(x: Inputs) returns (plan: seq<Planned>, superseded: set<Dropped>)
      requires conditions.Keys <= x.readings.Keys
      modifies `conditions
      ensures var plans := Plans(old(conditions), x);
        && conditions == PlannedConditions(plans) && IsPlan(plan, plans) && superseded == AllSuperseded(plans)
    {
      var plans := Plans(conditions, x);
      forall id | id in plans
        ensures OwnItems(id, plans[id].items)
      {
        ItemsAtOwnPlaces(id, Loaded(conditions, x, id), x.readings[id], x.routes, x.now);
      }
      plan, superseded := Apply(plans);
    }

    /** Submit in order, saving after every answer, until the plan or the answers end. */
    method SubmitAll(plan: seq<Planned>, answers: seq<Answer>, superseded: set<Dropped>, now: int)
        returns (progress: Progress)
      requires saved == conditions
      modifies `conditions, `saved
      ensures saved == conditions == progress.conditions
      ensures progress ==
        Submitted(Progress(old(conditions), [], superseded), plan, answers, now, Min(|plan|, |answers|))
    {
      ghost var start := Progress(conditions, [], superseded);
      progress := Progress(conditions, [], superseded);
      var i := 0;
      while i < |plan| && i < |answers|
        invariant 0 <= i <= |plan| && i <= |answers|
        invariant progress == Submitted(start, plan, answers, now, i)
        invariant saved == conditions == progress.conditions
      {
        progress := SubmitOne(progress, plan[i], answers[i], now);
        conditions := progress.conditions;
        saved := conditions;
        i := i + 1;
      }
    }

    /** One pass; `answers` are NQ's, as many as arrive before a crash, which may
        also fall between the last answer and the final save. */
    method Evaluate(x: Inputs, planSaved: bool, answers: seq<Answer>, finished: bool) returns (result: PassResult)
      requires saved.Keys <= x.readings.Keys
      modifies this
      ensures result == ClockMovedBack <==> x.now < old(updatedAt)
      ensures result == CrashedBeforeSave <==> x.now >= old(updatedAt) && !planSaved
      ensures result.Crashed? ==> |answers| < |result.plan| || !finished
      ensures result.Completed? ==> finished
      ensures Evaluates(old(File(saved, updatedAt)), x, answers, result, File(saved, updatedAt))
    {
      if x.now < updatedAt {
        return ClockMovedBack;
      }
      conditions := saved;
      var plan, superseded := MakePlan(x);
      if !planSaved {
        return CrashedBeforeSave;
      }
      updatedAt := x.now;
      saved := conditions;
      var progress := SubmitAll(plan, answers, superseded, x.now);
      if |answers| < |plan| || !finished {
        return Crashed(plan);
      }
      conditions := Retained(conditions, x.routes);
      saved := conditions;
      result := Completed(plan, progress.log, progress.dropped);
    }
  }
}
