/** What a pass does with intents that were answered, where new ones go, and
    what stays on file. */
module FollowUpLaws {
  import opened Common
  import opened Lifecycle
  import opened Paging
  import opened EventIdentity
  import opened Delivery
  import opened DeliveryLaws

  // ----- a pass's call for one role -------------------------------------------------

  /** The plan has an item for the newest intent of the role. */
  ghost predicate Touches(plan: seq<Planned>, id: string, role: Role) {
    exists p :: p in plan && p.id == id && p.role == role && p.operation != SubmitBeforeResolve
  }

  /** NQ was called for this role with exactly this. */
  ghost predicate Calls(log: seq<Submission>, id: string, role: Role, eventId: string, action: Action, route: string,
                        schema: Schema, operation: Operation, retryOf: Option<string>) {
    exists j :: 0 <= j < |log| && log[j] == Submission(id, role, eventId, action, route, schema, operation, retryOf, log[j].answer)
  }

  /** The plan and the calls do for the role what the slot says. */
  ghost predicate Realised(plan: seq<Planned>, log: seq<Submission>, id: string, role: Role, slot: Slot) {
    && (Touches(plan, id, role) <==> slot.item.Some?)
    && (slot.item.Some? ==>
          && slot.last.Some?
          && Calls(log, id, role, slot.last.value.eventId, slot.item.value.action, slot.last.value.route,
                   slot.last.value.schema, slot.item.value.operation, slot.item.value.retryOf))
  }

  lemma SlotIsCalled(conditions: Conditions, x: Inputs, plan: seq<Planned>, answers: seq<Answer>, id: string, role: Role)
    requires IsPlan(plan, Plans(conditions, x)) && |plan| <= |answers| && id in x.readings
    ensures Realised(plan, Finished(conditions, x, plan, answers).log, id, role, SlotIn(conditions, x, id, role))
  {
    var slot := SlotIn(conditions, x, id, role);
    PlannedSlot(conditions, x, id, role);
    SlotCoherent(id, Loaded(conditions, x, id), x.readings[id], x.routes, x.now, role);
    if slot.item.Some? {
      assert slot.item.value in plan && Touches(plan, id, role);
      ItemIsCalled(conditions, x, plan, answers, slot.item.value);
    }
    if Touches(plan, id, role) {
      var p :| p in plan && p.id == id && p.role == role && p.operation != SubmitBeforeResolve;
      ItemOfSlot(conditions, x, p);
    }
  }

  lemma ItemIsCalled(conditions: Conditions, x: Inputs, plan: seq<Planned>, answers: seq<Answer>, p: Planned)
    requires IsPlan(plan, Plans(conditions, x)) && |plan| <= |answers| && p in plan
    requires IntentAt(PlannedConditions(Plans(conditions, x)), PlaceOf(p)).Some?
    ensures var last := IntentAt(PlannedConditions(Plans(conditions, x)), PlaceOf(p)).value;
      Calls(Finished(conditions, x, plan, answers).log, p.id, p.role, last.eventId, p.action, last.route, last.schema, p.operation, p.retryOf)
  {
    var start := Begun(Plans(conditions, x));
    PlannedPresent(plan, conditions, x);
    Logged(start, plan, answers, x.now, |plan|);
    var j :| 0 <= j < |plan| && plan[j] == p;
    assert Finished(conditions, x, plan, answers).log[j] == Sends(start, plan[j], answers[j]);
  }

  // ----- transitions -------------------------------------------------------------------

  /** A new intent can deliver: over the network, or into a local inbox. */
  predicate CanDeliver(routes: Routes, role: Role) {
    routes.networkEnabled || (role == Notice && routes.noticeLocal)
  }

  /** Where a concerned role is addressed: a resolve follows the route its trigger took. */
  function RouteFor(c: Tracked, o: Reconciled, routes: Routes, role: Role): string {
    if o.transition == Some(Resolve) && role in c.lastIntent then c.lastIntent[role].route
    else if role == Page && routes.page.Some? then routes.page.value
    else routes.notice
  }

  /** The intent a concerned role gets: new, unanswered, and addressed to that role. */
  function Addressed(c: Tracked, o: Reconciled, routes: Routes, now: int, role: Role): Intent {
    var action := if o.transition == Some(Resolve) then Resolve else Trigger;
    Intent(EventId(c.key, action, now), action, RouteFor(c, o, routes, role), if role == Page then V2 else V1,
           None, NoAnswer, CanDeliver(routes, role), now)
  }

  lemma ConcernedIsWritten(id: string, c: Tracked, r: Reading, routes: Routes, now: int, role: Role)
    requires Busy(Reconcile(c, r, now))
    ensures var o, slot := Reconcile(c, r, now), PlanSlot(id, c, r, routes, now, role);
      if r.known && Concerns(c, o, routes, role) then
        && slot.last == Some(Addressed(c, o, routes, now, role))
        && slot.item == Some(Planned(id, role, Addressed(c, o, routes, now, role).action, Submit, None))
      else slot.last == At(c.lastIntent, role) && slot.item == None
  {
  }

  /** A pass with a transition or a due page puts a new intent on file and calls
      NQ with it for exactly the roles it concerns; other roles keep theirs and
      are not called. */
  lemma TransitionsAddressed(conditions: Conditions, x: Inputs, plan: seq<Planned>, answers: seq<Answer>, id: string, role: Role)
    requires IsPlan(plan, Plans(conditions, x)) && |plan| <= |answers| && id in x.readings
    requires Busy(Reconcile(Loaded(conditions, x, id), x.readings[id], x.now))
    ensures var c, r := Loaded(conditions, x, id), x.readings[id];
      var o := Reconcile(c, r, x.now);
      var new_, planned := Addressed(c, o, x.routes, x.now, role), PlannedConditions(Plans(conditions, x));
      if r.known && Concerns(c, o, x.routes, role) then
        && IntentAt(planned, Place(id, role, false)) == Some(new_)
        && Calls(Finished(conditions, x, plan, answers).log, id, role, new_.eventId, new_.action, new_.route, new_.schema, Submit, None)
      else IntentAt(planned, Place(id, role, false)) == At(c.lastIntent, role) && !Touches(plan, id, role)
  {
    ConcernedIsWritten(id, Loaded(conditions, x, id), x.readings[id], x.routes, x.now, role);
    SlotIsCalled(conditions, x, plan, answers, id, role);
    PlannedSlot(conditions, x, id, role);
  }

  // ----- follow-ups ----------------------------------------------------------------------

  /** The intent is about the state the condition is in. */
  predicate Relevant(last: Intent, active: bool) {
    if last.action == Trigger then active else !active
  }

  /** NQ has no record of it and gave no answer about it. */
  predicate Unheard(last: Intent) {
    last.notificationId == None && (last.outcome == NoAnswer || last.outcome == CommandError)
  }

  /** A page that NQ holds and that is not known to be accepted. */
  predicate PageOwed(last: Intent, routes: Routes) {
    last.schema == V2 && last.notificationId.Some? && last.outcome != Accepted && routes.networkEnabled
  }

  /** A notice that NQ holds and that was definitely not delivered. */
  predicate NoticeOwed(last: Intent, routes: Routes) {
    && last.schema == V1 && last.notificationId.Some? && (last.outcome == Failed || last.outcome == Refused)
    && (routes.networkEnabled || routes.noticeLocal)
  }

  /** The slot of an intent that is sent again: the same on the same route,
      unheard under its own identity, a recorded one under a new identity. */
  ghost predicate SentAgain(id: string, routes: Routes, now: int, role: Role, last: Intent, slot: Slot,
                            operation: Operation, eventId: string, retryOf: Option<string>)
  {
    && slot.item == Some(Planned(id, role, last.action, operation, retryOf))
    && slot.last == Some(Intent(eventId, last.action, last.route, last.schema, None, NoAnswer,
                                routes.networkEnabled || (last.schema == V1 && routes.noticeLocal), now))
  }

  ghost predicate FollowsUp(id: string, key: Key, active: bool, routes: Routes, now: int, role: Role, last: Intent, slot: Slot) {
    var again := EventId(key, last.action, now);
    if Relevant(last, active) && Unheard(last) then
      SentAgain(id, routes, now, role, last, slot, SubmitAgain, last.eventId, None)
    else if Relevant(last, active) && PageOwed(last, routes) && now - last.at >= 120 then
      SentAgain(id, routes, now, role, last, slot, Resubmit, again, last.notificationId)
    else if Relevant(last, active) && NoticeOwed(last, routes) && now - last.at >= 900 then
      SentAgain(id, routes, now, role, last, slot, Submit, again, last.notificationId)
    else slot.item == None && slot.last == Some(last)
  }

  lemma FollowUpSlot(id: string, c: Tracked, r: Reading, routes: Routes, now: int, role: Role, last: Intent)
    requires !Busy(Reconcile(c, r, now)) && At(c.lastIntent, role) == Some(last)
    ensures FollowsUp(id, c.key, c.life.active, routes, now, role, last, PlanSlot(id, c, r, routes, now, role))
  {
  }

  /** The plan and the calls do for the role exactly what its last intent is owed. */
  ghost predicate FollowedUp(plan: seq<Planned>, log: seq<Submission>, id: string, key: Key, active: bool, routes: Routes, now: int,
                             role: Role, last: Intent)
  {
    var relevant := Relevant(last, active);
    var page := relevant && PageOwed(last, routes) && now - last.at >= 120;
    var notice := relevant && NoticeOwed(last, routes) && now - last.at >= 900;
    var again := EventId(key, last.action, now);
    && (Touches(plan, id, role) <==> (relevant && Unheard(last)) || page || notice)
    && (last.outcome == Accepted ==> !Touches(plan, id, role))
    && (relevant && Unheard(last) ==> Calls(log, id, role, last.eventId, last.action, last.route, last.schema, SubmitAgain, None))
    && (page ==> Calls(log, id, role, again, last.action, last.route, V2, Resubmit, last.notificationId))
    && (notice ==> Calls(log, id, role, again, last.action, last.route, V1, Submit, last.notificationId))
  }

  lemma FromSlot(plan: seq<Planned>, log: seq<Submission>, id: string, key: Key, active: bool, routes: Routes, now: int,
                 role: Role, last: Intent, slot: Slot)
    requires Realised(plan, log, id, role, slot) && FollowsUp(id, key, active, routes, now, role, last, slot)
    ensures FollowedUp(plan, log, id, key, active, routes, now, role, last)
  {
  }

  /** Follow-ups, exactly: a pass without a transition or a due page sends an
      intent again if and only if it is about the condition's state and is
      unheard, or an owed page 120 s after its last answer, or an owed notice
      after 900 s. The unheard one goes under its own identity, the others under
      this pass's, naming the record they retry; all on the old route. So an
      accepted intent is never sent again. */
  lemma FollowUpsExact(conditions: Conditions, x: Inputs, plan: seq<Planned>, answers: seq<Answer>, id: string, role: Role, last: Intent)
    requires IsPlan(plan, Plans(conditions, x)) && |plan| <= |answers| && id in x.readings
    requires !Busy(Reconcile(Loaded(conditions, x, id), x.readings[id], x.now))
    requires At(Loaded(conditions, x, id).lastIntent, role) == Some(last)
    ensures FollowedUp(plan, Finished(conditions, x, plan, answers).log, id, Loaded(conditions, x, id).key,
                       Loaded(conditions, x, id).life.active, x.routes, x.now, role, last)
  {
    FollowUpSlot(id, Loaded(conditions, x, id), x.readings[id], x.routes, x.now, role, last);
    SlotIsCalled(conditions, x, plan, answers, id, role);
    FromSlot(plan, Finished(conditions, x, plan, answers).log, id, Loaded(conditions, x, id).key,
             Loaded(conditions, x, id).life.active, x.routes, x.now, role, last, SlotIn(conditions, x, id, role));
  }

  // ----- answers and retention ------------------------------------------------------------

  /** Every answer is on file: outcome and time replaced, a record id taken over when NQ gave one. */
  lemma {:induction false} AnswerOnFile(start: Progress, plan: seq<Planned>, answers: seq<Answer>, now: int, k: nat, i: nat)
    requires i < k <= |plan| && k <= |answers| && OnePerPlace(plan) && AllPresent(plan, start.conditions)
    requires plan[i].operation != SubmitBeforeResolve
    ensures var before := IntentAt(start.conditions, PlaceOf(plan[i])).value;
      var after := IntentAt(Submitted(start, plan, answers, now, k).conditions, PlaceOf(plan[i]));
      && after.Some? && after.value.outcome == answers[i].outcome && after.value.at == now
      && after.value.notificationId == (if answers[i].notificationId.Some? then answers[i].notificationId else before.notificationId)
      && (after.value.eventId, after.value.action, after.value.route, after.value.schema, after.value.network) ==
         (before.eventId, before.action, before.route, before.schema, before.network)
  {
    if i < k - 1 {
      AnswerOnFile(start, plan, answers, now, k - 1, i);
      OnlyItsPlace(Submitted(start, plan, answers, now, k - 1), plan[k - 1], answers[k - 1], now, PlaceOf(plan[i]));
    } else {
      Untouched(start, plan, answers, now, i, PlaceOf(plan[i]));
    }
  }

  /** Something is still to be done about the intent, now or later. */
  predicate Owed(last: Intent, active: bool, routes: Routes) {
    Relevant(last, active) && (Unheard(last) || PageOwed(last, routes) || NoticeOwed(last, routes))
  }

  /** A completed pass forgets exactly the conditions that are inactive with no
      presence open, no trigger pending and no intent owed. */
  lemma ForgottenIff(conditions: Conditions, routes: Routes, id: string)
    requires id in conditions
    ensures var c := conditions[id];
      id !in Retained(conditions, routes) <==>
        && !c.life.active && c.life.firstSeen == None && c.pendingTrigger == map[]
        && forall role :: role in c.lastIntent ==> !Owed(c.lastIntent[role], false, routes)
    ensures id in Retained(conditions, routes) ==> Retained(conditions, routes)[id] == conditions[id]
  {
    forall last, active
      ensures FollowUpOf(last, active, routes).Some? <==> Owed(last, active, routes)
    {
    }
  }

  /** What a pass reports as dropped: a pending trigger it submitted and got no
      record for, or a displaced trigger NQ holds whose acceptance is not known
      and that was not refused on purpose. */
  lemma ReportsOnlyLosses(conditions: Conditions, x: Inputs, plan: seq<Planned>, answers: seq<Answer>, d: Dropped)
    requires IsPlan(plan, Plans(conditions, x)) && |plan| <= |answers| && d in Finished(conditions, x, plan, answers).dropped
    ensures d.id in x.readings
    ensures
      || (exists i :: 0 <= i < |plan| && plan[i] == BeforeResolve(d.id, d.role) && answers[i].notificationId == None)
      || (var last := At(Loaded(conditions, x, d.id).lastIntent, d.role);
          && last.Some? && last.value.eventId == d.eventId && last.value.action == Trigger && last.value.notificationId.Some?
          && last.value.outcome != Accepted && !(last.value.outcome == Refused && !last.value.network)
          && Touches(plan, d.id, d.role))
  {
    var start := Begun(Plans(conditions, x));
    PlannedPresent(plan, conditions, x);
    if d in start.dropped {
      SupersededComes(conditions, x, d);
      SupersededIsLoss(d.id, Loaded(conditions, x, d.id), x.readings[d.id], x.routes, x.now, d.role, d);
      SlotIsCalled(conditions, x, plan, answers, d.id, d.role);
    } else {
      DroppedComes(start, plan, answers, x.now, |plan|, d);
      var i :| 0 <= i < |plan| && DropsTrigger(plan[i], answers[i]) && d == DroppedBy(start, plan[i]);
      SentFromSlot(conditions, x, plan, plan[i]);
      PendingItem(conditions, x, plan[i]);
    }
  }

  lemma SupersededIsLoss(id: string, c: Tracked, r: Reading, routes: Routes, now: int, role: Role, d: Dropped)
    requires PlanSlot(id, c, r, routes, now, role).superseded == Some(d)
    ensures PlanSlot(id, c, r, routes, now, role).item.Some?
    ensures var last := At(c.lastIntent, role);
      && last.Some? && last.value.eventId == d.eventId && last.value.action == Trigger && last.value.notificationId.Some?
      && last.value.outcome != Accepted && !(last.value.outcome == Refused && !last.value.network)
  {
  }

  lemma PendingItem(conditions: Conditions, x: Inputs, p: Planned)
    requires p.id in x.readings && p in Plans(conditions, x)[p.id].items && p.operation == SubmitBeforeResolve
    ensures p == BeforeResolve(p.id, p.role)
  {
    var c, r := Loaded(conditions, x, p.id), x.readings[p.id];
    SlotCoherent(p.id, c, r, x.routes, x.now, Notice);
    SlotCoherent(p.id, c, r, x.routes, x.now, Page);
    CombinedPending(p.id, c.key, Reconcile(c, r, x.now),
                    PlanSlot(p.id, c, r, x.routes, x.now, Notice), PlanSlot(p.id, c, r, x.routes, x.now, Page), p);
  }

  lemma CombinedPending(id: string, key: Key, o: Reconciled, notice: Slot, page: Slot, p: Planned)
    requires Coherent(id, Notice, notice) && Coherent(id, Page, page)
    requires p in Combine(id, key, o, notice, page).items && p.operation == SubmitBeforeResolve
    ensures p == BeforeResolve(id, p.role)
  {
    assert p in ItemsOf(id, Notice, notice) || p in ItemsOf(id, Page, page);
  }

  /** The order of the plan: triggers, then resolves; each by condition, and the notice of one before its page. */
  lemma PlanOrder(plan: seq<Planned>, i: nat, j: nat)
    requires SortedPlan(plan) && i < j < |plan|
    ensures
      || (plan[i].action == Trigger && plan[j].action == Resolve)
      || (plan[i].action == plan[j].action && Less(plan[i].id, plan[j].id))
      || (plan[i].action == plan[j].action && plan[i].id == plan[j].id && !(plan[i].role == Page && plan[j].role == Notice))
  {
  }
}
