/** Two runs that show why the exceptions in the delivery laws are needed. */
module DeliveryExamples {
  import opened Common
  import opened Lifecycle
  import opened Paging
  import opened EventIdentity
  import opened Delivery
  import opened DeliveryLaws

  const KEY := Key("site", "host", "disk", None)
  const ROUTES := Routes(Some("pager"), "chat", true, false)

  function Observed(observation: Observation): Reading {
    Reading(KEY, observation, 0, Target(false, ObserveOnly, None), true)
  }

  datatype Visit = Visit(observation: Observation, now: int)

  function NoticeIntent(action: Action, at: int): Intent {
    NewIntent(KEY, Notice, "chat", action, ROUTES, at)
  }

  function Visiting(v: Visit): Inputs {
    Inputs(map["disk" := Observed(v.observation)], ROUTES, v.now)
  }

  /** The condition after a pass that ends before its first answer. */
  ghost function Next(b: Tracked, v: Visit): Tracked {
    PlanCondition("disk", b, Observed(v.observation), ROUTES, v.now).condition
  }

  ghost predicate Sighted(c: Tracked) {
    && c.key == KEY && c.life.firstSeen == Some(0) && !c.life.active && c.life.unknownSince == None
    && c.lastIntent == map[] && c.pendingTrigger == map[]
  }

  ghost predicate Triggered(c: Tracked) {
    c.key == KEY && c.life.active && c.pendingTrigger == map[] && c.lastIntent == map[Notice := NoticeIntent(Trigger, 10)]
  }

  ghost predicate Resolved(c: Tracked) {
    && c.key == KEY && !c.life.active && c.life.firstSeen == None && c.life.unknownSince == None
    && c.pendingTrigger == map[Notice := NoticeIntent(Trigger, 10)] && c.lastIntent == map[Notice := NoticeIntent(Resolve, 20)]
  }

  ghost predicate SightedAgain(c: Tracked) {
    && c.key == KEY && !c.life.active && c.life.firstSeen == Some(30) && c.life.unknownSince == None
    && c.pendingTrigger == map[Notice := NoticeIntent(Trigger, 10)]
    && Notice in c.lastIntent && Page !in c.lastIntent && c.lastIntent[Notice].action == Resolve
  }

  ghost predicate TriggeredAgain(c: Tracked) {
    && c.key == KEY && c.life.active && c.lastIntent == map[Notice := NoticeIntent(Trigger, 40)]
    && c.pendingTrigger == map[Notice := NoticeIntent(Trigger, 10)]
  }

  // ----- what each pass of the run does to the condition -------------------------------

  lemma Sight()
    ensures Sighted(Next(Unseen(KEY), Visit(Present, 0)))
  {
  }

  lemma TriggerFirst(b: Tracked)
    requires Sighted(b)
    ensures Triggered(Next(b, Visit(Present, 10)))
  {
  }

  lemma ResolveFirst(b: Tracked)
    requires Triggered(b)
    ensures Resolved(Next(b, Visit(Removed, 20)))
  {
  }

  lemma SightAgain(b: Tracked)
    requires Resolved(b)
    ensures SightedAgain(Next(b, Visit(Present, 30)))
  {
  }

  lemma TriggerAgain(b: Tracked)
    requires SightedAgain(b)
    ensures TriggeredAgain(Next(b, Visit(Present, 40)))
  {
  }

  /** The second resolve displaces the second trigger, while the first is still pending. */
  lemma ResolveAgain(b: Tracked)
    requires TriggeredAgain(b)
    ensures Displaces(b, Observed(Removed), ROUTES, 50, Notice)
    ensures Unshared(b, Place("disk", Notice, true), NoticeIntent(Trigger, 10).eventId, 50)
  {
    SharedIdentities(KEY, Trigger, 10, KEY, Trigger, 40);
    SharedIdentities(KEY, Trigger, 10, KEY, Trigger, 50);
    SharedIdentities(KEY, Trigger, 10, KEY, Resolve, 50);
  }

  // ----- the run ------------------------------------------------------------------------

  ghost predicate Holds(e: Evaluator, c: Tracked, now: int)
    reads e
  {
    (e.saved == map["disk" := c] || (e.saved == map[] && c == Unseen(KEY))) && e.updatedAt <= now
  }

  lemma OneCondition(saved: Conditions, c: Tracked, v: Visit)
    requires saved == map["disk" := c] || (saved == map[] && c == Unseen(KEY))
    ensures PlannedConditions(Plans(saved, Visiting(v))) == map["disk" := Next(c, v)]
  {
    var plans := Plans(saved, Visiting(v));
    assert Loaded(saved, Visiting(v), "disk") == c && plans.Keys == {"disk"};
    OnlyPlan(plans, "disk");
  }

  lemma OnlyPlan(plans: map<string, ConditionPlan>, id: string)
    requires plans.Keys == {id}
    ensures PlannedConditions(plans) == map[id := plans[id].condition]
  {
  }

  /** A pass that crashes after saving its plan, before any answer. */
  method CrashingPass(e: Evaluator, v: Visit, ghost c: Tracked)
    requires Holds(e, c, v.now)
    modifies e
    ensures e.saved == map["disk" := Next(c, v)] && e.updatedAt == v.now
  {
    OneCondition(e.saved, c, v);
    var _ := e.Evaluate(Visiting(v), true, [], false);
  }

  method UntilResolved() returns (e: Evaluator, ghost c: Tracked)
    ensures fresh(e) && e.saved == map["disk" := c] && e.updatedAt == 20 && Resolved(c)
  {
    e := new Evaluator();
    c := Unseen(KEY);
    CrashingPass(e, Visit(Present, 0), c);
    Sight();
    c := Next(c, Visit(Present, 0));
    CrashingPass(e, Visit(Present, 10), c);
    TriggerFirst(c);
    c := Next(c, Visit(Present, 10));
    CrashingPass(e, Visit(Removed, 20), c);
    ResolveFirst(c);
    c := Next(c, Visit(Removed, 20));
  }

  method UntilTriggeredAgain() returns (e: Evaluator, ghost c: Tracked)
    ensures fresh(e) && e.saved == map["disk" := c] && e.updatedAt == 40 && TriggeredAgain(c)
  {
    e, c := UntilResolved();
    CrashingPass(e, Visit(Present, 30), c);
    SightAgain(c);
    c := Next(c, Visit(Present, 30));
    CrashingPass(e, Visit(Present, 40), c);
    TriggerAgain(c);
    c := Next(c, Visit(Present, 40));
  }

  /** Five passes that crash one after another, then one that completes: the
      first trigger is neither retained ahead of the resolve nor reported. */
  method TriggerCanBeLost(answers: seq<Answer>) returns (result: PassResult)
    ensures result.Completed? || (result.Crashed? && |answers| < |result.plan|)
    ensures result.Completed? ==>
      !AccountedFor(Progress(map[], result.log, result.dropped), "disk", Notice, EventId(KEY, Trigger, 10))
  {
    ghost var c;
    var e;
    e, c := UntilTriggeredAgain();
    ghost var saved := e.saved;
    ResolveAgain(c);
    result := e.Evaluate(Visiting(Visit(Removed, 50)), true, answers, true);
    if result.Completed? {
      DisplacedIsGone(saved, Visiting(Visit(Removed, 50)), result.plan, answers, "disk", Notice, NoticeIntent(Trigger, 10));
    }
  }

  /** A held page that goes out keeps an unanswered notice of the same incident waiting. */
  lemma HeldPageDelaysNotice() returns (disk: Conditions, y: Inputs, last: Intent)
    ensures "disk" in disk && "disk" in y.readings && Unanswered(disk, "disk", Notice, last)
    ensures Reconcile(disk["disk"], y.readings["disk"], y.now).transition == None
    ensures SlotIn(disk, y, "disk", Notice).item == None
  {
    last := NoticeIntent(Trigger, 10);
    disk := map["disk" := Tracked(KEY, State(Some(0), Some(10), None, None, true, Some(10)), true, map[Notice := last], map[])];
    y := Inputs(map["disk" := Reading(KEY, Present, 0, Target(true, AutoRemediateThenPage, Some(60)), true)], ROUTES, 60);
    NoticeResentIffNoPageDue(disk, y, "disk", last);
    assert Reconcile(disk["disk"], y.readings["disk"], y.now).page;
    NextPassOnUnanswered(disk, y, "disk", Notice, last);
  }
}
