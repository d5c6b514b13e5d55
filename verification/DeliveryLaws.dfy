/** What passes keep: no trigger disappears unseen, and a crash after the plan
    is saved loses no planned intent. */
module DeliveryLaws {
  import opened Common
  import opened Lifecycle
  import opened Paging
  import opened EventIdentity
  import opened Delivery

  // ----- submission touches one place at a time ---------------------------------

  lemma OnlyItsPlace(g: Progress, p: Planned, answer: Answer, now: int, place: Place)
    requires place != PlaceOf(p)
    ensures IntentAt(SubmitOne(g, p, answer, now).conditions, place) == IntentAt(g.conditions, place)
  {
  }

  lemma {:induction false} Untouched(start: Progress, plan: seq<Planned>, answers: seq<Answer>, now: int, k: nat, place: Place)
    requires k <= |plan| && k <= |answers|
    requires forall i :: 0 <= i < k ==> PlaceOf(plan[i]) != place
    ensures IntentAt(Submitted(start, plan, answers, now, k).conditions, place) == IntentAt(start.conditions, place)
  {
    if k > 0 {
      Untouched(start, plan, answers, now, k - 1, place);
      OnlyItsPlace(Submitted(start, plan, answers, now, k - 1), plan[k - 1], answers[k - 1], now, place);
    }
  }

  ghost predicate AllPresent(plan: seq<Planned>, conditions: Conditions) {
    forall i :: 0 <= i < |plan| ==> IntentAt(conditions, PlaceOf(plan[i])).Some?
  }

  /** The submission an item makes: of the intent as it was planned. */
  ghost function Sends(start: Progress, p: Planned, answer: Answer): Submission
    requires IntentAt(start.conditions, PlaceOf(p)).Some?
  {
    var last := IntentAt(start.conditions, PlaceOf(p)).value;
    Submission(p.id, p.role, last.eventId, p.action, last.route, last.schema, p.operation, p.retryOf, answer)
  }

  ghost predicate DropsTrigger(p: Planned, answer: Answer) {
    p.operation == SubmitBeforeResolve && answer.notificationId == None
  }

  /** Submission `k` is of the intent as it was planned. */
  lemma SubmitsPlanned(start: Progress, plan: seq<Planned>, answers: seq<Answer>, now: int, k: nat)
    requires k < |plan| && k < |answers| && OnePerPlace(plan) && AllPresent(plan, start.conditions)
    ensures Submitted(start, plan, answers, now, k + 1).log ==
      Submitted(start, plan, answers, now, k).log + [Sends(start, plan[k], answers[k])]
  {
    Untouched(start, plan, answers, now, k, PlaceOf(plan[k]));
  }

  ghost function SendsAll(start: Progress, plan: seq<Planned>, answers: seq<Answer>, k: nat): (s: seq<Submission>)
    requires k <= |plan| && k <= |answers| && AllPresent(plan, start.conditions)
    ensures |s| == k && forall i :: 0 <= i < k ==> s[i] == Sends(start, plan[i], answers[i])
  {
    if k == 0 then [] else SendsAll(start, plan, answers, k - 1) + [Sends(start, plan[k - 1], answers[k - 1])]
  }

  /** After `k` submissions the log is the first `k` items in order, each under its planned identity. */
  lemma {:induction false} Logged(start: Progress, plan: seq<Planned>, answers: seq<Answer>, now: int, k: nat)
    requires k <= |plan| && k <= |answers| && OnePerPlace(plan) && AllPresent(plan, start.conditions) && start.log == []
    ensures Submitted(start, plan, answers, now, k).log == SendsAll(start, plan, answers, k)
  {
    if k > 0 {
      Logged(start, plan, answers, now, k - 1);
      SubmitsPlanned(start, plan, answers, now, k - 1);
    }
  }

  lemma {:induction false} DroppedKept(start: Progress, plan: seq<Planned>, answers: seq<Answer>, now: int, k: nat)
    requires k <= |plan| && k <= |answers|
    ensures start.dropped <= Submitted(start, plan, answers, now, k).dropped
  {
    if k > 0 {
      DroppedKept(start, plan, answers, now, k - 1);
    }
  }

  /** A pending trigger that is not retained is reported. */
  lemma {:induction false} ReportsDropped(start: Progress, plan: seq<Planned>, answers: seq<Answer>, now: int, k: nat, i: nat)
    requires i < k <= |plan| && k <= |answers| && OnePerPlace(plan) && AllPresent(plan, start.conditions)
    requires DropsTrigger(plan[i], answers[i])
    ensures Dropped(plan[i].id, plan[i].role, Sends(start, plan[i], answers[i]).eventId) in Submitted(start, plan, answers, now, k).dropped
  {
    if i < k - 1 {
      ReportsDropped(start, plan, answers, now, k - 1, i);
    } else {
      Untouched(start, plan, answers, now, i, PlaceOf(plan[i]));
    }
  }

  // ----- slots and items ------------------------------------------------------------

  ghost function SlotIn(conditions: Conditions, x: Inputs, id: string, role: Role): Slot
    requires id in x.readings
  {
    PlanSlot(id, Loaded(conditions, x, id), x.readings[id], x.routes, x.now, role)
  }

  function BeforeResolve(id: string, role: Role): Planned {
    Planned(id, role, Trigger, SubmitBeforeResolve, None)
  }

  lemma CombinedSlots(id: string, key: Key, o: Reconciled, notice: Slot, page: Slot, role: Role)
    ensures var q := Combine(id, key, o, notice, page);
      var slot := if role == Notice then notice else page;
      && At(q.condition.lastIntent, role) == slot.last && At(q.condition.pendingTrigger, role) == slot.pending
      && (slot.item.Some? ==> slot.item.value in q.items)
      && (slot.pending.Some? ==> BeforeResolve(id, role) in q.items)
      && SupersededIn(slot) <= q.superseded
  {
    var slot := if role == Notice then notice else page;
    var items := ItemsOf(id, role, slot);
    assert slot.item.Some? ==> items[0] == slot.item.value;
    assert slot.pending.Some? ==> items[|items| - 1] == BeforeResolve(id, role);
  }

  lemma PlannedSlot(conditions: Conditions, x: Inputs, id: string, role: Role)
    requires id in x.readings
    ensures var plans, slot := Plans(conditions, x), SlotIn(conditions, x, id, role);
      && IntentAt(PlannedConditions(plans), Place(id, role, false)) == slot.last
      && IntentAt(PlannedConditions(plans), Place(id, role, true)) == slot.pending
      && (slot.item.Some? ==> slot.item.value in plans[id].items)
      && (slot.pending.Some? ==> BeforeResolve(id, role) in plans[id].items)
      && SupersededIn(slot) <= AllSuperseded(plans)
  {
    var c, r := Loaded(conditions, x, id), x.readings[id];
    CombinedSlots(id, c.key, Reconcile(c, r, x.now),
                  PlanSlot(id, c, r, x.routes, x.now, Notice), PlanSlot(id, c, r, x.routes, x.now, Page), role);
  }

  ghost predicate Coherent(id: string, role: Role, slot: Slot) {
    slot.item.Some? ==> PlaceOf(slot.item.value) == Place(id, role, false) && slot.last.Some?
  }

  lemma SlotCoherent(id: string, c: Tracked, r: Reading, routes: Routes, now: int, role: Role)
    ensures Coherent(id, role, PlanSlot(id, c, r, routes, now, role))
  {
  }

  lemma CombinedPresent(id: string, key: Key, o: Reconciled, notice: Slot, page: Slot, p: Planned)
    requires Coherent(id, Notice, notice) && Coherent(id, Page, page)
    requires p in Combine(id, key, o, notice, page).items
    ensures var c := Combine(id, key, o, notice, page).condition;
      && p.id == id
      && At(if p.operation == SubmitBeforeResolve then c.pendingTrigger else c.lastIntent, p.role).Some?
  {
    assert p in ItemsOf(id, Notice, notice) || p in ItemsOf(id, Page, page);
  }

  lemma PlannedPresent(plan: seq<Planned>, conditions: Conditions, x: Inputs)
    requires IsPlan(plan, Plans(conditions, x))
    ensures AllPresent(plan, PlannedConditions(Plans(conditions, x)))
  {
    var plans := Plans(conditions, x);
    forall i | 0 <= i < |plan|
      ensures IntentAt(PlannedConditions(plans), PlaceOf(plan[i])).Some?
    {
      var p := plan[i];
      assert p in plan;
      ItemPresent(conditions, x, p);
    }
  }

  lemma ItemPresent(conditions: Conditions, x: Inputs, p: Planned)
    requires p.id in x.readings && p in Plans(conditions, x)[p.id].items
    ensures IntentAt(PlannedConditions(Plans(conditions, x)), PlaceOf(p)).Some?
  {
    var c, r := Loaded(conditions, x, p.id), x.readings[p.id];
    SlotCoherent(p.id, c, r, x.routes, x.now, Notice);
    SlotCoherent(p.id, c, r, x.routes, x.now, Page);
    CombinedPresent(p.id, c.key, Reconcile(c, r, x.now),
                    PlanSlot(p.id, c, r, x.routes, x.now, Notice), PlanSlot(p.id, c, r, x.routes, x.now, Page), p);
  }

  // ----- trigger conservation ---------------------------------------------------------

  ghost function Finished(conditions: Conditions, x: Inputs,
                          plan: seq<Planned>, answers: seq<Answer>): Progress
    requires |plan| <= |answers|
  {
    Submitted(Begun(Plans(conditions, x)), plan, answers, x.now, |plan|)
  }

  /** The event was submitted and retained before anything resolved. */
  ghost predicate RetainedFirst(log: seq<Submission>, id: string, role: Role, eventId: string) {
    exists i :: 0 <= i < |log| && RetainedBeforeResolves(log, i) && log[i].id == id && log[i].role == role && log[i].eventId == eventId
  }

  ghost predicate RetainedBeforeResolves(log: seq<Submission>, i: nat)
    requires i < |log|
  {
    log[i].answer.notificationId.Some? && forall j :: 0 <= j < |log| && log[j].action == Resolve ==> i < j
  }

  /** What a completed pass must say of a trigger it no longer keeps. */
  ghost predicate AccountedFor(g: Progress, id: string, role: Role, eventId: string) {
    Dropped(id, role, eventId) in g.dropped || RetainedFirst(g.log, id, role, eventId)
  }

  /** The plan submits every trigger before every resolve. */
  lemma TriggersFirst(plan: seq<Planned>, i: nat, j: nat)
    requires SortedPlan(plan) && i < |plan| && j < |plan| && plan[i].action == Trigger && plan[j].action == Resolve
    ensures i < j
  {
  }

  /** The pending trigger of a planned slot is retained ahead of every resolve or reported as dropped. */
  lemma PendingAccountedFor(conditions: Conditions, x: Inputs,
                            plan: seq<Planned>, answers: seq<Answer>, id: string, role: Role)
    requires IsPlan(plan, Plans(conditions, x)) && |plan| <= |answers| && id in x.readings
    requires SlotIn(conditions, x, id, role).pending.Some?
    ensures AccountedFor(Finished(conditions, x, plan, answers), id, role,
                         SlotIn(conditions, x, id, role).pending.value.eventId)
  {
    var plans := Plans(conditions, x);
    PlannedSlot(conditions, x, id, role);
    PlannedPresent(plan, conditions, x);
    SubmittedPending(Begun(plans), plan, answers, x.now, id, role);
  }

  lemma SubmittedPending(start: Progress, plan: seq<Planned>, answers: seq<Answer>, now: int, id: string, role: Role)
    requires SortedPlan(plan) && OnePerPlace(plan) && AllPresent(plan, start.conditions) && start.log == []
    requires |plan| <= |answers| && BeforeResolve(id, role) in plan
    requires IntentAt(start.conditions, Place(id, role, true)).Some?
    ensures AccountedFor(Submitted(start, plan, answers, now, |plan|), id, role,
                         IntentAt(start.conditions, Place(id, role, true)).value.eventId)
  {
    Logged(start, plan, answers, now, |plan|);
    var log := Submitted(start, plan, answers, now, |plan|).log;
    var i: nat :| i < |plan| && plan[i] == BeforeResolve(id, role);
    if DropsTrigger(plan[i], answers[i]) {
      ReportsDropped(start, plan, answers, now, |plan|, i);
    } else {
      LogKeepsOrder(start, plan, answers, log, i);
    }
  }

  /** Whatever a trigger's place in the log, every resolve comes later. */
  lemma LogKeepsOrder(start: Progress, plan: seq<Planned>, answers: seq<Answer>, log: seq<Submission>, i: nat)
    requires SortedPlan(plan) && AllPresent(plan, start.conditions) && |log| == |plan| <= |answers| && i < |plan|
    requires forall k :: 0 <= k < |plan| ==> log[k] == Sends(start, plan[k], answers[k])
    requires plan[i].action == Trigger && answers[i].notificationId.Some?
    ensures RetainedBeforeResolves(log, i) && log[i] == Sends(start, plan[i], answers[i])
  {
    forall j | 0 <= j < |log| && log[j].action == Resolve
      ensures i < j
    {
      assert log[j] == Sends(start, plan[j], answers[j]);
      TriggersFirst(plan, i, j);
    }
  }

  /** Trigger conservation: in a completed pass, a trigger whose place is taken
      by a new intent is known to be accepted, was refused on purpose, was
      retained by a submission ahead of every resolve, or is reported. */
  lemma TriggerConservation(conditions: Conditions, x: Inputs,
                            plan: seq<Planned>, answers: seq<Answer>, id: string, role: Role, last: Intent)
    requires IsPlan(plan, Plans(conditions, x)) && |plan| <= |answers| && id in x.readings
    requires var c := Loaded(conditions, x, id);
      && At(c.lastIntent, role) == Some(last) && last.action == Trigger
      && WrittenRoute(c, Reconcile(c, x.readings[id], x.now), x.readings[id], x.routes, role).Some?
    ensures
      || (last.notificationId.Some? && last.outcome == Accepted)
      || (last.notificationId.Some? && last.outcome == Refused && !last.network)
      || AccountedFor(Finished(conditions, x, plan, answers), id, role, last.eventId)
  {
    var plans := Plans(conditions, x);
    PlannedSlot(conditions, x, id, role);
    if last.notificationId == None {
      PendingAccountedFor(conditions, x, plan, answers, id, role);
    } else if Superseded(last) {
      DroppedKept(Begun(plans), plan, answers, x.now, |plan|);
      assert Dropped(id, role, last.eventId) in SupersededIn(SlotIn(conditions, x, id, role));
    }
  }

  // ----- triggers left pending by a crash ---------------------------------------------

  lemma {:induction false} PendingGone(start: Progress, plan: seq<Planned>, answers: seq<Answer>, now: int, k: nat, i: nat)
    requires i < k <= |plan| && k <= |answers| && OnePerPlace(plan) && plan[i].operation == SubmitBeforeResolve
    ensures IntentAt(Submitted(start, plan, answers, now, k).conditions, PlaceOf(plan[i])) == None
  {
    if i < k - 1 {
      PendingGone(start, plan, answers, now, k - 1, i);
      OnlyItsPlace(Submitted(start, plan, answers, now, k - 1), plan[k - 1], answers[k - 1], now, PlaceOf(plan[i]));
    }
  }

  /** A completed pass leaves no trigger pending, so only a crash can. */
  lemma NoPendingLeft(conditions: Conditions, x: Inputs,
                      plan: seq<Planned>, answers: seq<Answer>, id: string, role: Role)
    requires IsPlan(plan, Plans(conditions, x)) && |plan| <= |answers| && id in x.readings
    ensures IntentAt(Finished(conditions, x, plan, answers).conditions, Place(id, role, true)) == None
  {
    PlannedSlot(conditions, x, id, role);
    var start := Begun(Plans(conditions, x));
    if i :| 0 <= i < |plan| && PlaceOf(plan[i]) == Place(id, role, true) {
      PendingGone(start, plan, answers, x.now, |plan|, i);
    } else {
      assert BeforeResolve(id, role) !in plan;
      Untouched(start, plan, answers, x.now, |plan|, Place(id, role, true));
    }
  }

  /** A new intent replaces a trigger that was never retained. */
  ghost predicate Displaces(c: Tracked, r: Reading, routes: Routes, now: int, role: Role) {
    && WrittenRoute(c, Reconcile(c, r, now), r, routes, role).Some?
    && role in c.lastIntent && Unretained(c.lastIntent[role])
  }

  lemma SlotPending(id: string, c: Tracked, r: Reading, routes: Routes, now: int, role: Role)
    ensures PlanSlot(id, c, r, routes, now, role).pending ==
      if Displaces(c, r, routes, now, role) then Some(c.lastIntent[role]) else At(c.pendingTrigger, role)
  {
  }

  ghost predicate Logs(log: seq<Submission>, id: string, role: Role, eventId: string) {
    exists j :: 0 <= j < |log| && log[j].id == id && log[j].role == role && log[j].eventId == eventId
  }

  /** Whatever a completed pass submits for a role is what it planned for that slot. */
  lemma LoggedIsPlanned(conditions: Conditions, x: Inputs, plan: seq<Planned>, answers: seq<Answer>, id: string, role: Role, eventId: string)
    requires IsPlan(plan, Plans(conditions, x)) && |plan| <= |answers| && id in x.readings
    requires Logs(Finished(conditions, x, plan, answers).log, id, role, eventId)
    ensures var slot := SlotIn(conditions, x, id, role);
      || (slot.item.Some? && slot.last.Some? && slot.last.value.eventId == eventId)
      || (slot.pending.Some? && slot.pending.value.eventId == eventId)
  {
    var start, log := Begun(Plans(conditions, x)), Finished(conditions, x, plan, answers).log;
    PlannedPresent(plan, conditions, x);
    Logged(start, plan, answers, x.now, |plan|);
    var j :| 0 <= j < |log| && log[j].id == id && log[j].role == role && log[j].eventId == eventId;
    assert log[j] == Sends(start, plan[j], answers[j]);
    SentFromSlot(conditions, x, plan, plan[j]);
  }

  lemma SentFromSlot(conditions: Conditions, x: Inputs, plan: seq<Planned>, p: Planned)
    requires IsPlan(plan, Plans(conditions, x)) && p in plan
    ensures p.id in x.readings
    ensures var slot := SlotIn(conditions, x, p.id, p.role);
      && (p.operation != SubmitBeforeResolve ==> slot.item == Some(p))
      && IntentAt(PlannedConditions(Plans(conditions, x)), PlaceOf(p)) ==
         (if p.operation == SubmitBeforeResolve then slot.pending else slot.last)
  {
    PlannedSlot(conditions, x, p.id, p.role);
    if p.operation != SubmitBeforeResolve {
      ItemOfSlot(conditions, x, p);
    }
  }

  lemma {:induction false} DroppedComes(start: Progress, plan: seq<Planned>, answers: seq<Answer>, now: int, k: nat, d: Dropped)
    requires k <= |plan| && k <= |answers| && OnePerPlace(plan) && AllPresent(plan, start.conditions)
    requires d in Submitted(start, plan, answers, now, k).dropped && d !in start.dropped
    ensures exists i :: 0 <= i < k && DropsTrigger(plan[i], answers[i]) && d == DroppedBy(start, plan[i])
  {
    if d in Submitted(start, plan, answers, now, k - 1).dropped {
      DroppedComes(start, plan, answers, now, k - 1, d);
    } else {
      Untouched(start, plan, answers, now, k - 1, PlaceOf(plan[k - 1]));
      assert d == DroppedBy(start, plan[k - 1]);
    }
  }

  ghost function DroppedBy(start: Progress, p: Planned): Dropped
    requires IntentAt(start.conditions, PlaceOf(p)).Some?
  {
    Dropped(p.id, p.role, IntentAt(start.conditions, PlaceOf(p)).value.eventId)
  }

  lemma SlotSupersedes(id: string, c: Tracked, r: Reading, routes: Routes, now: int, role: Role, d: Dropped)
    requires PlanSlot(id, c, r, routes, now, role).superseded == Some(d)
    ensures d.id == id && d.role == role && role in c.lastIntent && d.eventId == c.lastIntent[role].eventId
    ensures !Unretained(c.lastIntent[role])
  {
  }

  lemma CombinedSuperseded(id: string, key: Key, o: Reconciled, notice: Slot, page: Slot, d: Dropped)
    requires d in Combine(id, key, o, notice, page).superseded
    ensures notice.superseded == Some(d) || page.superseded == Some(d)
  {
  }

  lemma SupersededComes(conditions: Conditions, x: Inputs, d: Dropped)
    requires d in AllSuperseded(Plans(conditions, x))
    ensures d.id in x.readings && SlotIn(conditions, x, d.id, d.role).superseded == Some(d)
  {
    var plans := Plans(conditions, x);
    var id :| id in plans && d in plans[id].superseded;
    var c, r := Loaded(conditions, x, id), x.readings[id];
    CombinedSuperseded(id, c.key, Reconcile(c, r, x.now),
                       PlanSlot(id, c, r, x.routes, x.now, Notice), PlanSlot(id, c, r, x.routes, x.now, Page), d);
    if PlanSlot(id, c, r, x.routes, x.now, Notice).superseded == Some(d) {
      SlotSupersedes(id, c, r, x.routes, x.now, Notice, d);
    } else {
      SlotSupersedes(id, c, r, x.routes, x.now, Page, d);
    }
  }

  /** Whatever a completed pass reports for a role is its pending trigger or a superseded one. */
  lemma DroppedIsPlanned(conditions: Conditions, x: Inputs, plan: seq<Planned>, answers: seq<Answer>, d: Dropped)
    requires IsPlan(plan, Plans(conditions, x)) && |plan| <= |answers| && d in Finished(conditions, x, plan, answers).dropped
    ensures d.id in x.readings
    ensures var slot := SlotIn(conditions, x, d.id, d.role);
      slot.superseded == Some(d) || (slot.pending.Some? && slot.pending.value.eventId == d.eventId)
  {
    var start := Begun(Plans(conditions, x));
    PlannedPresent(plan, conditions, x);
    if d in start.dropped {
      SupersededComes(conditions, x, d);
    } else {
      DroppedComes(start, plan, answers, x.now, |plan|, d);
      var i :| 0 <= i < |plan| && DropsTrigger(plan[i], answers[i]) && d == DroppedBy(start, plan[i]);
      SentFromSlot(conditions, x, plan, plan[i]);
    }
  }

  /** An identity that neither the other intent of the role nor anything written at `now` has. */
  ghost predicate Unshared(c: Tracked, place: Place, eventId: string, now: int) {
    && (forall a :: eventId != EventId(c.key, a, now))
    && (var other := At(if place.pending then c.lastIntent else c.pendingTrigger, place.role);
        other.Some? ==> other.value.eventId != eventId)
  }

  /** A trigger that is already pending is retained ahead of every resolve or
      reported by the next completed pass if and only if that pass displaces
      no other unretained trigger of the same role; when it does, the older
      one is gone. */
  lemma PendingConservation(conditions: Conditions, x: Inputs,
                            plan: seq<Planned>, answers: seq<Answer>, id: string, role: Role, pending: Intent)
    requires IsPlan(plan, Plans(conditions, x)) && |plan| <= |answers| && id in x.readings
    requires At(Loaded(conditions, x, id).pendingTrigger, role) == Some(pending)
    ensures !Displaces(Loaded(conditions, x, id), x.readings[id], x.routes, x.now, role) ==>
      AccountedFor(Finished(conditions, x, plan, answers), id, role, pending.eventId)
    ensures Unshared(Loaded(conditions, x, id), Place(id, role, true), pending.eventId, x.now) ==>
      (AccountedFor(Finished(conditions, x, plan, answers), id, role, pending.eventId) <==>
       !Displaces(Loaded(conditions, x, id), x.readings[id], x.routes, x.now, role))
  {
    var c := Loaded(conditions, x, id);
    SlotPending(id, c, x.readings[id], x.routes, x.now, role);
    if !Displaces(c, x.readings[id], x.routes, x.now, role) {
      PendingAccountedFor(conditions, x, plan, answers, id, role);
    } else if Unshared(c, Place(id, role, true), pending.eventId, x.now) {
      DisplacedIsGone(conditions, x, plan, answers, id, role, pending);
    }
  }

  lemma DisplacingSlot(id: string, c: Tracked, r: Reading, routes: Routes, now: int, role: Role)
    requires Displaces(c, r, routes, now, role)
    ensures var slot := PlanSlot(id, c, r, routes, now, role);
      && slot.pending == Some(c.lastIntent[role]) && slot.superseded == None
      && slot.last.Some? && slot.last.value.eventId == EventId(c.key, ActionOf(Reconcile(c, r, now)), now)
  {
  }

  lemma DisplacedIsGone(conditions: Conditions, x: Inputs, plan: seq<Planned>, answers: seq<Answer>, id: string, role: Role, pending: Intent)
    requires IsPlan(plan, Plans(conditions, x)) && |plan| <= |answers| && id in x.readings
    requires Displaces(Loaded(conditions, x, id), x.readings[id], x.routes, x.now, role)
    requires Unshared(Loaded(conditions, x, id), Place(id, role, true), pending.eventId, x.now)
    ensures !AccountedFor(Finished(conditions, x, plan, answers), id, role, pending.eventId)
  {
    var g, d := Finished(conditions, x, plan, answers), Dropped(id, role, pending.eventId);
    DisplacingSlot(id, Loaded(conditions, x, id), x.readings[id], x.routes, x.now, role);
    if d in g.dropped {
      DroppedIsPlanned(conditions, x, plan, answers, d);
    }
    if RetainedFirst(g.log, id, role, pending.eventId) {
      LoggedIsPlanned(conditions, x, plan, answers, id, role, pending.eventId);
    }
  }

  // ----- a crash after the plan is saved -----------------------------------------------

  /** What the state file holds after a crash with `|answers|` submissions answered. */
  ghost function AfterCrash(conditions: Conditions, x: Inputs,
                            plan: seq<Planned>, answers: seq<Answer>): Conditions
    requires |answers| <= |plan|
  {
    Submitted(Begun(Plans(conditions, x)), plan, answers, x.now, |answers|).conditions
  }

  /** An intent whose submission was planned and whose answer was not recorded. */
  ghost predicate Unanswered(conditions: Conditions, id: string, role: Role, last: Intent) {
    && IntentAt(conditions, Place(id, role, false)) == Some(last)
    && last.outcome == NoAnswer && last.notificationId == None
    && conditions[id].life.active == (last.action == Trigger)
  }

  lemma PlannedUnanswered(id: string, c: Tracked, r: Reading, routes: Routes, now: int, role: Role)
    ensures var slot := PlanSlot(id, c, r, routes, now, role);
      slot.item.Some? ==>
        && slot.last.Some? && slot.last.value.outcome == NoAnswer && slot.last.value.notificationId == None
        && slot.last.value.action == slot.item.value.action
        && Reconcile(c, r, now).state.active == (slot.last.value.action == Trigger)
  {
  }

  lemma {:induction false} LifeKept(start: Progress, plan: seq<Planned>, answers: seq<Answer>, now: int, k: nat, id: string)
    requires k <= |plan| && k <= |answers| && id in start.conditions
    ensures id in Submitted(start, plan, answers, now, k).conditions
    ensures Submitted(start, plan, answers, now, k).conditions[id].life == start.conditions[id].life
  {
    if k > 0 {
      LifeKept(start, plan, answers, now, k - 1, id);
    }
  }

  lemma CombinedItem(id: string, key: Key, o: Reconciled, notice: Slot, page: Slot, p: Planned)
    requires Coherent(id, Notice, notice) && Coherent(id, Page, page)
    requires p in Combine(id, key, o, notice, page).items && p.operation != SubmitBeforeResolve
    ensures (if p.role == Notice then notice else page).item == Some(p)
  {
    assert p in ItemsOf(id, Notice, notice) || p in ItemsOf(id, Page, page);
  }

  lemma ItemOfSlot(conditions: Conditions, x: Inputs, p: Planned)
    requires p.id in x.readings && p in Plans(conditions, x)[p.id].items && p.operation != SubmitBeforeResolve
    ensures SlotIn(conditions, x, p.id, p.role).item == Some(p)
  {
    var c, r := Loaded(conditions, x, p.id), x.readings[p.id];
    SlotCoherent(p.id, c, r, x.routes, x.now, Notice);
    SlotCoherent(p.id, c, r, x.routes, x.now, Page);
    CombinedItem(p.id, c.key, Reconcile(c, r, x.now),
                 PlanSlot(p.id, c, r, x.routes, x.now, Notice), PlanSlot(p.id, c, r, x.routes, x.now, Page), p);
  }

  /** After a crash every item that was not answered still has its intent in the
      state file, unanswered and in keeping with the condition's activity. */
  lemma StillUnanswered(conditions: Conditions, x: Inputs, plan: seq<Planned>, answers: seq<Answer>, i: nat)
    requires IsPlan(plan, Plans(conditions, x)) && |answers| <= i < |plan|
    ensures var disk, start := AfterCrash(conditions, x, plan, answers), PlannedConditions(Plans(conditions, x));
      && IntentAt(start, PlaceOf(plan[i])).Some?
      && IntentAt(disk, PlaceOf(plan[i])) == IntentAt(start, PlaceOf(plan[i]))
      && (plan[i].operation != SubmitBeforeResolve ==>
            Unanswered(disk, plan[i].id, plan[i].role, IntentAt(start, PlaceOf(plan[i])).value))
  {
    var p, start := plan[i], Begun(Plans(conditions, x));
    assert p in plan;
    ItemPresent(conditions, x, p);
    Untouched(start, plan, answers, x.now, |answers|, PlaceOf(p));
    if p.operation != SubmitBeforeResolve {
      ItemOfSlot(conditions, x, p);
      PlannedSlot(conditions, x, p.id, p.role);
      PlannedUnanswered(p.id, Loaded(conditions, x, p.id), x.readings[p.id], x.routes, x.now, p.role);
      LifeKept(start, plan, answers, x.now, |answers|, p.id);
    }
  }

  /** What the next pass does with an unanswered intent, case by case: without a
      transition or a page of its own the condition submits it again under the
      same identity; a displaced trigger goes first under its own identity; a
      resolve is replaced only because the condition triggered again; and in
      what remains the intent waits where it is. */
  lemma NextPassOnUnanswered(disk: Conditions, y: Inputs, id: string, role: Role, last: Intent)
    requires Unanswered(disk, id, role, last) && id in y.readings
    ensures var o, slot := Reconcile(disk[id], y.readings[id], y.now), SlotIn(disk, y, id, role);
      if !Busy(o) then
        && slot.item == Some(Planned(id, role, last.action, SubmitAgain, None))
        && slot.last.Some? && slot.last.value.eventId == last.eventId
      else if WrittenRoute(disk[id], o, y.readings[id], y.routes, role).Some? then
        if last.action == Trigger then slot.pending == Some(last) else o.transition == Some(Trigger)
      else slot.item == None && slot.last == Some(last)
  {
    NextSlot(id, disk[id], y.readings[id], y.routes, y.now, role, last);
  }

  lemma NextSlot(id: string, c: Tracked, r: Reading, routes: Routes, now: int, role: Role, last: Intent)
    requires At(c.lastIntent, role) == Some(last) && last.outcome == NoAnswer && last.notificationId == None
    requires c.life.active == (last.action == Trigger)
    ensures var o, slot := Reconcile(c, r, now), PlanSlot(id, c, r, routes, now, role);
      if !Busy(o) then
        && slot.item == Some(Planned(id, role, last.action, SubmitAgain, None))
        && slot.last.Some? && slot.last.value.eventId == last.eventId
      else if WrittenRoute(c, o, r, routes, role).Some? then
        if last.action == Trigger then slot.pending == Some(last) else o.transition == Some(Trigger)
      else slot.item == None && slot.last == Some(last)
  {
  }

  lemma SubmittedItem(start: Progress, plan: seq<Planned>, answers: seq<Answer>, now: int, p: Planned)
    requires OnePerPlace(plan) && AllPresent(plan, start.conditions) && start.log == [] && |plan| <= |answers| && p in plan
    requires IntentAt(start.conditions, PlaceOf(p)).Some?
    ensures Logs(Submitted(start, plan, answers, now, |plan|).log, p.id, p.role, IntentAt(start.conditions, PlaceOf(p)).value.eventId)
  {
    Logged(start, plan, answers, now, |plan|);
    var j :| 0 <= j < |plan| && plan[j] == p;
    assert Submitted(start, plan, answers, now, |plan|).log[j] == Sends(start, plan[j], answers[j]);
  }

  /** Whether the next pass submits again what item `p` of a crashed pass left behind. */
  ghost predicate Resumes(disk: Conditions, y: Inputs, p: Planned)
    requires p.id in disk && p.id in y.readings && IntentAt(disk, PlaceOf(p)).Some?
  {
    var c, r := disk[p.id], y.readings[p.id];
    var o := Reconcile(c, r, y.now);
    if p.operation == SubmitBeforeResolve then !Displaces(c, r, y.routes, y.now, p.role)
    else
      || !Busy(o)
      || (WrittenRoute(c, o, r, y.routes, p.role).Some? && IntentAt(disk, PlaceOf(p)).value.action == Trigger)
  }

  /** Crash recovery: after a crash at any point behind the save of the plan, the
      next completed pass submits every unanswered item again under the identity
      it was planned with, exactly when it resumes it. */
  lemma CrashRecovery(conditions: Conditions, x: Inputs, plan: seq<Planned>, answers: seq<Answer>, i: nat,
                      y: Inputs, again: seq<Planned>, replies: seq<Answer>)
    requires IsPlan(plan, Plans(conditions, x)) && |answers| <= i < |plan| && plan[i].id in y.readings
    requires IsPlan(again, Plans(AfterCrash(conditions, x, plan, answers), y)) && |again| <= |replies|
    ensures var disk, start := AfterCrash(conditions, x, plan, answers), PlannedConditions(Plans(conditions, x));
      && IntentAt(start, PlaceOf(plan[i])).Some? && IntentAt(disk, PlaceOf(plan[i])) == IntentAt(start, PlaceOf(plan[i]))
      && var eventId := IntentAt(start, PlaceOf(plan[i])).value.eventId;
         var resent := Logs(Finished(disk, y, again, replies).log, plan[i].id, plan[i].role, eventId);
      && (Resumes(disk, y, plan[i]) ==> resent)
      && (Unshared(disk[plan[i].id], PlaceOf(plan[i]), eventId, y.now) ==> (resent <==> Resumes(disk, y, plan[i])))
  {
    StillUnanswered(conditions, x, plan, answers, i);
    var disk := AfterCrash(conditions, x, plan, answers);
    var eventId := IntentAt(disk, PlaceOf(plan[i])).value.eventId;
    if Resumes(disk, y, plan[i]) {
      ResumedInLog(disk, y, again, replies, plan[i]);
    } else if Unshared(disk[plan[i].id], PlaceOf(plan[i]), eventId, y.now) {
      ResumesIff(disk, y, again, replies, plan[i]);
    }
  }

  lemma PlannedIsLogged(disk: Conditions, y: Inputs, again: seq<Planned>, replies: seq<Answer>, p: Planned)
    requires IsPlan(again, Plans(disk, y)) && |again| <= |replies| && p in again
    requires IntentAt(PlannedConditions(Plans(disk, y)), PlaceOf(p)).Some?
    ensures Logs(Finished(disk, y, again, replies).log, p.id, p.role, IntentAt(PlannedConditions(Plans(disk, y)), PlaceOf(p)).value.eventId)
  {
    PlannedPresent(again, disk, y);
    SubmittedItem(Begun(Plans(disk, y)), again, replies, y.now, p);
  }

  lemma ResumedPending(disk: Conditions, y: Inputs, again: seq<Planned>, replies: seq<Answer>, id: string, role: Role)
    requires IsPlan(again, Plans(disk, y)) && |again| <= |replies| && id in y.readings
    requires SlotIn(disk, y, id, role).pending.Some?
    ensures Logs(Finished(disk, y, again, replies).log, id, role, SlotIn(disk, y, id, role).pending.value.eventId)
  {
    PlannedSlot(disk, y, id, role);
    PlannedIsLogged(disk, y, again, replies, BeforeResolve(id, role));
  }

  lemma ResumedLast(disk: Conditions, y: Inputs, again: seq<Planned>, replies: seq<Answer>, id: string, role: Role)
    requires IsPlan(again, Plans(disk, y)) && |again| <= |replies| && id in y.readings
    requires SlotIn(disk, y, id, role).item.Some? && SlotIn(disk, y, id, role).last.Some?
    ensures Logs(Finished(disk, y, again, replies).log, id, role, SlotIn(disk, y, id, role).last.value.eventId)
  {
    PlannedSlot(disk, y, id, role);
    SlotCoherent(id, Loaded(disk, y, id), y.readings[id], y.routes, y.now, role);
    PlannedIsLogged(disk, y, again, replies, SlotIn(disk, y, id, role).item.value);
  }

  /** The next pass submits an unanswered item again exactly when it resumes it. */
  lemma ResumesIff(disk: Conditions, y: Inputs, again: seq<Planned>, replies: seq<Answer>, p: Planned)
    requires IsPlan(again, Plans(disk, y)) && |again| <= |replies| && p.id in y.readings && IntentAt(disk, PlaceOf(p)).Some?
    requires p.operation != SubmitBeforeResolve ==> Unanswered(disk, p.id, p.role, IntentAt(disk, PlaceOf(p)).value)
    requires Unshared(disk[p.id], PlaceOf(p), IntentAt(disk, PlaceOf(p)).value.eventId, y.now)
    ensures Logs(Finished(disk, y, again, replies).log, p.id, p.role, IntentAt(disk, PlaceOf(p)).value.eventId) <==>
      Resumes(disk, y, p)
  {
    var last := IntentAt(disk, PlaceOf(p)).value;
    if Resumes(disk, y, p) {
      ResumedInLog(disk, y, again, replies, p);
    } else {
      NotResumedSlot(p.id, disk[p.id], y.readings[p.id], y.routes, y.now, p, last);
      if Logs(Finished(disk, y, again, replies).log, p.id, p.role, last.eventId) {
        LoggedIsPlanned(disk, y, again, replies, p.id, p.role, last.eventId);
      }
    }
  }

  lemma NotResumedSlot(id: string, c: Tracked, r: Reading, routes: Routes, now: int, p: Planned, last: Intent)
    requires Unshared(c, PlaceOf(p), last.eventId, now)
    requires At(if p.operation == SubmitBeforeResolve then c.pendingTrigger else c.lastIntent, p.role) == Some(last)
    requires
      if p.operation == SubmitBeforeResolve then Displaces(c, r, routes, now, p.role)
      else Busy(Reconcile(c, r, now)) && !(WrittenRoute(c, Reconcile(c, r, now), r, routes, p.role).Some? && last.action == Trigger)
    ensures var slot := PlanSlot(id, c, r, routes, now, p.role);
      && (slot.pending.Some? ==> slot.pending.value.eventId != last.eventId)
      && (slot.item.Some? && slot.last.Some? ==> slot.last.value.eventId != last.eventId)
  {
    SlotPending(id, c, r, routes, now, p.role);
  }

  lemma ResumedInLog(disk: Conditions, y: Inputs, again: seq<Planned>, replies: seq<Answer>, p: Planned)
    requires IsPlan(again, Plans(disk, y)) && |again| <= |replies| && p.id in y.readings
    requires IntentAt(disk, PlaceOf(p)).Some? && Resumes(disk, y, p)
    requires p.operation != SubmitBeforeResolve ==> Unanswered(disk, p.id, p.role, IntentAt(disk, PlaceOf(p)).value)
    ensures Logs(Finished(disk, y, again, replies).log, p.id, p.role, IntentAt(disk, PlaceOf(p)).value.eventId)
  {
    var last := IntentAt(disk, PlaceOf(p)).value;
    if p.operation == SubmitBeforeResolve {
      SlotPending(p.id, disk[p.id], y.readings[p.id], y.routes, y.now, p.role);
    } else {
      NextPassOnUnanswered(disk, y, p.id, p.role, last);
    }
    if SlotIn(disk, y, p.id, p.role).pending == Some(last) {
      ResumedPending(disk, y, again, replies, p.id, p.role);
    } else {
      ResumedLast(disk, y, again, replies, p.id, p.role);
    }
  }

  /** Whom a transition or a page that is due concerns: a trigger the notice
      route and, when its page is decided, the page route; a resolve every route
      the condition used, or the notice route if it used none. */
  ghost predicate Concerns(c: Tracked, o: Reconciled, routes: Routes, role: Role) {
    match o.transition
    case Some(Trigger) => role == Notice || (o.page && routes.page.Some?)
    case Some(Resolve) => role in c.lastIntent || (role == Notice && c.lastIntent == map[])
    case None => o.page && role == Page && routes.page.Some?
  }

  /** A completed pass submits every transition and every due page of a known
      rule to all it concerns, under the identity of this pass. */
  lemma TransitionsSubmitted(conditions: Conditions, x: Inputs, plan: seq<Planned>, answers: seq<Answer>, id: string, role: Role)
    requires IsPlan(plan, Plans(conditions, x)) && |plan| <= |answers| && id in x.readings && x.readings[id].known
    requires Concerns(Loaded(conditions, x, id), Reconcile(Loaded(conditions, x, id), x.readings[id], x.now), x.routes, role)
    ensures var c := Loaded(conditions, x, id);
      Logs(Finished(conditions, x, plan, answers).log, id, role,
           EventId(c.key, ActionOf(Reconcile(c, x.readings[id], x.now)), x.now))
  {
    ConcernedSlot(id, Loaded(conditions, x, id), x.readings[id], x.routes, x.now, role);
    ResumedLast(conditions, x, plan, answers, id, role);
  }

  lemma ConcernedSlot(id: string, c: Tracked, r: Reading, routes: Routes, now: int, role: Role)
    requires r.known && Concerns(c, Reconcile(c, r, now), routes, role)
    ensures var slot := PlanSlot(id, c, r, routes, now, role);
      slot.item.Some? && slot.last.Some? && slot.last.value.eventId == EventId(c.key, ActionOf(Reconcile(c, r, now)), now)
  {
  }

  /** While the condition keeps its state, an unanswered notice is submitted
      again in the next pass exactly when no held page goes out in that pass. */
  lemma NoticeResentIffNoPageDue(disk: Conditions, y: Inputs, id: string, last: Intent)
    requires Unanswered(disk, id, Notice, last) && id in y.readings
    requires Reconcile(disk[id], y.readings[id], y.now).transition == None
    ensures var slot := SlotIn(disk, y, id, Notice);
      (slot.item.Some? && slot.last.Some? && slot.last.value.eventId == last.eventId) <==>
        !Reconcile(disk[id], y.readings[id], y.now).page
  {
    NextPassOnUnanswered(disk, y, id, Notice, last);
  }

  // ----- an NQ that is idempotent on event identities -----------------------------------

  datatype Record = Record(id: string, role: Role, eventId: string)

  function RecordOf(s: Submission): Record {
    Record(s.id, s.role, s.eventId)
  }

  /** NQ on one submission: it never retains the same event twice, and answers with a record only for what it holds. */
  ghost predicate Retains(before: seq<Record>, s: Submission, after: seq<Record>) {
    && (after == before || (RecordOf(s) !in before && after == before + [RecordOf(s)]))
    && (s.answer.notificationId.Some? ==> RecordOf(s) in after)
  }

  /** NQ's records before and after each submission. */
  ghost predicate NqRun(log: seq<Submission>, states: seq<seq<Record>>) {
    && |states| == |log| + 1 && Distinct(states[0])
    && forall i, j :: 0 <= i < |log| && j == i + 1 ==> Retains(states[i], log[i], states[j])
  }

  lemma {:induction false} NeverTwice(log: seq<Submission>, states: seq<seq<Record>>, n: nat)
    requires NqRun(log, states) && n <= |log|
    ensures Distinct(states[n])
    ensures forall i :: 0 <= i < n && log[i].answer.notificationId.Some? ==> RecordOf(log[i]) in states[n]
  {
    if n > 0 {
      NeverTwice(log, states, n - 1);
      assert Retains(states[n - 1], log[n - 1], states[n]);
    }
  }

  lemma {:induction false} HeldOnce<T(!new)>(s: seq<T>, x: T)
    requires Distinct(s)
    ensures multiset(s)[x] == if x in s then 1 else 0
  {
    if s != [] {
      var n := |s| - 1;
      assert s == s[..n] + [s[n]];
      HeldOnce(s[..n], x);
    }
  }

  /** The submission in flight at a crash: the next item of the plan, or none. */
  ghost predicate InFlight(start: Progress, plan: seq<Planned>, k: nat, lost: seq<Submission>) {
    lost == [] || (k < |plan| && |lost| == 1 && IntentAt(start.conditions, PlaceOf(plan[k])).Some? &&
                   lost[0] == Sends(start, plan[k], lost[0].answer))
  }

  /** All submissions of a pass that crashes and of the next one, with the one
      whose answer was lost in between. */
  ghost function Submissions(conditions: Conditions, x: Inputs, plan: seq<Planned>, answers: seq<Answer>, lost: seq<Submission>,
                             y: Inputs, again: seq<Planned>, replies: seq<Answer>): seq<Submission>
    requires |answers| <= |plan| && |again| <= |replies|
  {
    Submitted(Begun(Plans(conditions, x)), plan, answers, x.now, |answers|).log + lost +
    Finished(AfterCrash(conditions, x, plan, answers), y, again, replies).log
  }

  lemma AnsweredHeldOnce(log: seq<Submission>, states: seq<seq<Record>>, n: nat)
    requires NqRun(log, states) && n < |log| && log[n].answer.notificationId.Some?
    ensures multiset(states[|log|])[RecordOf(log[n])] == 1
  {
    NeverTwice(log, states, |log|);
    HeldOnce(states[|log|], RecordOf(log[n]));
  }

  /** With an NQ that is idempotent on event identities, an item left unanswered
      by a crash, its submission lost or not, is submitted again by the next
      pass that resumes it; at most one record of it exists throughout, and
      exactly one once that submission is answered with a record. */
  lemma RetainedOnce(conditions: Conditions, x: Inputs, plan: seq<Planned>, answers: seq<Answer>, i: nat, lost: seq<Submission>,
                     y: Inputs, again: seq<Planned>, replies: seq<Answer>, states: seq<seq<Record>>) returns (n: nat)
    requires IsPlan(plan, Plans(conditions, x)) && |answers| <= i < |plan| && plan[i].id in y.readings
    requires InFlight(Begun(Plans(conditions, x)), plan, |answers|, lost)
    requires IsPlan(again, Plans(AfterCrash(conditions, x, plan, answers), y)) && |again| <= |replies|
    requires IntentAt(AfterCrash(conditions, x, plan, answers), PlaceOf(plan[i])).Some? ==>
      Resumes(AfterCrash(conditions, x, plan, answers), y, plan[i])
    requires NqRun(Submissions(conditions, x, plan, answers, lost, y, again, replies), states)
    ensures IntentAt(PlannedConditions(Plans(conditions, x)), PlaceOf(plan[i])).Some?
    ensures var log := Submissions(conditions, x, plan, answers, lost, y, again, replies);
      var record := Record(plan[i].id, plan[i].role, IntentAt(PlannedConditions(Plans(conditions, x)), PlaceOf(plan[i])).value.eventId);
      && |answers| + |lost| <= n < |log| && RecordOf(log[n]) == record
      && (forall k :: 0 <= k < |states| ==> multiset(states[k])[record] <= 1)
      && (log[n].answer.notificationId.Some? ==> multiset(states[|log|])[record] == 1)
  {
    CrashRecovery(conditions, x, plan, answers, i, y, again, replies);
    PlannedPresent(plan, conditions, x);
    Logged(Begun(Plans(conditions, x)), plan, answers, x.now, |answers|);
    n := ResubmittedAt(conditions, x, plan, answers, lost, y, again, replies, plan[i],
                       IntentAt(PlannedConditions(Plans(conditions, x)), PlaceOf(plan[i])).value.eventId);
    OnceThroughout(Submissions(conditions, x, plan, answers, lost, y, again, replies), states, n);
  }

  lemma ResubmittedAt(conditions: Conditions, x: Inputs, plan: seq<Planned>, answers: seq<Answer>, lost: seq<Submission>,
                      y: Inputs, again: seq<Planned>, replies: seq<Answer>, p: Planned, eventId: string) returns (n: nat)
    requires |answers| <= |plan| && |again| <= |replies|
    requires |Submitted(Begun(Plans(conditions, x)), plan, answers, x.now, |answers|).log| == |answers|
    requires Logs(Finished(AfterCrash(conditions, x, plan, answers), y, again, replies).log, p.id, p.role, eventId)
    ensures var log := Submissions(conditions, x, plan, answers, lost, y, again, replies);
      |answers| + |lost| <= n < |log| && RecordOf(log[n]) == Record(p.id, p.role, eventId)
  {
    var log := Finished(AfterCrash(conditions, x, plan, answers), y, again, replies).log;
    var j :| 0 <= j < |log| && log[j].id == p.id && log[j].role == p.role && log[j].eventId == eventId;
    n := |answers| + |lost| + j;
    assert Submissions(conditions, x, plan, answers, lost, y, again, replies)[n] == log[j];
  }

  lemma OnceThroughout(log: seq<Submission>, states: seq<seq<Record>>, n: nat)
    requires NqRun(log, states) && n < |log|
    ensures forall k :: 0 <= k < |states| ==> multiset(states[k])[RecordOf(log[n])] <= 1
    ensures log[n].answer.notificationId.Some? ==> multiset(states[|log|])[RecordOf(log[n])] == 1
  {
    forall k | 0 <= k < |states|
      ensures multiset(states[k])[RecordOf(log[n])] <= 1
    {
      NeverTwice(log, states, k);
      HeldOnce(states[k], RecordOf(log[n]));
    }
    if log[n].answer.notificationId.Some? {
      AnsweredHeldOnce(log, states, n);
    }
  }
}
