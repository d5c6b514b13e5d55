/** Evaluating components from facts and live support, and propagating states
    and remaining lifetimes through the dependency graph. */
module Projection {
  import opened Common
  import opened StatusModel
  import opened DependencyGraph

  const NANOS_PER_MS := 1_000_000

  datatype Evaluation = Evaluation(
    directState: ProjectedState, state: ProjectedState, mode: Mode, remainingMs: Option<nat>)

  // ----- one component from its own facts --------------------------------

  /** Whole milliseconds of support left at `nowNs`; none once less than one is left. */
  function UsableRemainingMs(live: LiveSupport, nowNs: int): (r: Option<nat>)
    ensures r.Some? <==> nowNs + NANOS_PER_MS <= live.expiresAtNs < nowNs + (U64_MAX + 1) * NANOS_PER_MS
    ensures r.Some? ==> nowNs + r.value * NANOS_PER_MS <= live.expiresAtNs < nowNs + (r.value + 1) * NANOS_PER_MS
  {
    var ns := live.expiresAtNs - nowNs;
    if ns < 0 then None
    else
      var ms := ns / NANOS_PER_MS;
      if 0 < ms <= U64_MAX then Some(ms) else None
  }

  /** The requirement's fact is present, matches it, and its evidence has live
      support for the required selector that still has time left. */
  predicate Supported(key: Key, r: FactRequirement, inputs: Inputs, nowNs: int) {
    && r.factId in inputs.facts
    && var fact := inputs.facts[r.factId];
    && fact.subjectKey == key && fact.owner == r.owner && fact.nativeSchema == r.nativeSchema
    && fact.class_ == r.class_ && fact.class_.MayEstablishState()
    && fact.evidenceId in inputs.support
    && var live := inputs.support[fact.evidenceId];
    && live.selector == r.liveSupport && UsableRemainingMs(live, nowNs).Some?
  }

  function Axes(r: FactRequirement, inputs: Inputs): (Availability, Impact)
    requires r.factId in inputs.facts
  {
    (inputs.facts[r.factId].availability, inputs.facts[r.factId].impact)
  }

  function SupportMs(key: Key, r: FactRequirement, inputs: Inputs, nowNs: int): nat
    requires Supported(key, r, inputs, nowNs)
  {
    UsableRemainingMs(inputs.support[inputs.facts[r.factId].evidenceId], nowNs).value
  }

  /** All required facts are supported and agree on both axes. */
  ghost predicate Established(c: Component, inputs: Inputs, nowNs: int) {
    && c.requiredFacts != []
    && (forall j :: 0 <= j < |c.requiredFacts| ==> Supported(c.key, c.requiredFacts[j], inputs, nowNs))
    && (forall j :: 0 <= j < |c.requiredFacts| ==>
          Axes(c.requiredFacts[j], inputs) == Axes(c.requiredFacts[0], inputs))
  }

  /** `ms` is the least remaining lifetime over the required facts. */
  ghost predicate IsLeastSupport(c: Component, inputs: Inputs, nowNs: int, ms: nat)
    requires Established(c, inputs, nowNs)
  {
    && (forall j :: 0 <= j < |c.requiredFacts| ==> ms <= SupportMs(c.key, c.requiredFacts[j], inputs, nowNs))
    && (exists j :: 0 <= j < |c.requiredFacts| && ms == SupportMs(c.key, c.requiredFacts[j], inputs, nowNs))
  }

  predicate UnderMaintenance(c: Component, inputs: Inputs) {
    exists id :: id in c.maintenanceIds && id in inputs.maintenance &&
      inputs.maintenance[id].active && inputs.maintenance[id].componentKey == c.key
  }

  /** What a component's own facts say: nothing unless established, else the
      mapped axes for the least supported lifetime. */
  ghost predicate DirectlyEvaluates(c: Component, inputs: Inputs, nowNs: int, e: Evaluation) {
    && e.mode == (if UnderMaintenance(c, inputs) then Maintenance else Normal)
    && e.state == e.directState
    && (!Established(c, inputs, nowNs) ==> e.directState == Unknown && e.remainingMs == None)
    && (Established(c, inputs, nowNs) ==>
          && e.directState == MapState(Axes(c.requiredFacts[0], inputs).0, Axes(c.requiredFacts[0], inputs).1)
          && e.remainingMs.Some? && IsLeastSupport(c, inputs, nowNs, e.remainingMs.value))
  }

  method EvaluateDirect(c: Component, inputs: Inputs, nowNs: int) returns (e: Evaluation)
    ensures DirectlyEvaluates(c, inputs, nowNs, e)
  {
    var mode := if UnderMaintenance(c, inputs) then Maintenance else Normal;
    var unknown := Evaluation(Unknown, Unknown, mode, None);
    var axes: Option<(Availability, Impact)> := None;
    var remaining: Option<nat> := None;
    var i := 0;
    while i < |c.requiredFacts|
      invariant 0 <= i <= |c.requiredFacts|
      invariant forall j :: 0 <= j < i ==> Supported(c.key, c.requiredFacts[j], inputs, nowNs)
      invariant i == 0 ==> axes == None && remaining == None
      invariant i > 0 ==> axes == Some(Axes(c.requiredFacts[0], inputs)) && remaining.Some?
      invariant forall j :: 0 <= j < i ==> axes == Some(Axes(c.requiredFacts[j], inputs))
      invariant forall j :: 0 <= j < i ==> remaining.value <= SupportMs(c.key, c.requiredFacts[j], inputs, nowNs)
      invariant i > 0 ==> exists j :: 0 <= j < i && remaining.value == SupportMs(c.key, c.requiredFacts[j], inputs, nowNs)
    {
      var r := c.requiredFacts[i];
      if !Supported(c.key, r, inputs, nowNs) {
        return unknown;
      }
      if axes.Some? && axes.value != Axes(r, inputs) {
        return unknown;
      }
      axes := Some(Axes(r, inputs));
      var live := SupportMs(c.key, r, inputs, nowNs);
      remaining := Some(if remaining.Some? then Min(remaining.value, live) else live);
      i := i + 1;
    }
    if axes == None {
      return unknown;
    }
    var direct := MapState(axes.value.0, axes.value.1);
    e := Evaluation(direct, direct, mode, remaining);
  }

  /** The direct evaluation is a function of its inputs. */
  lemma DirectUnique(c: Component, inputs: Inputs, nowNs: int, e: Evaluation, e': Evaluation)
    requires DirectlyEvaluates(c, inputs, nowNs, e) && DirectlyEvaluates(c, inputs, nowNs, e')
    ensures e == e'
  {
  }

  // ----- one component from its dependencies -----------------------------

  /** The state a dependency in `state` imposes through `e` on a parent whose
      own facts say `directState`. */
  function EdgeEffect(e: Edge, directState: ProjectedState, state: ProjectedState): Option<ProjectedState> {
    if e.kind == Hard && directState == Healthy && state == MajorOutage then Some(Unknown)
    else
      match state
      case Healthy => None
      case Degraded => e.behavior.onDegraded.State()
      case PartialOutage => e.behavior.onPartial.State()
      case MajorOutage => e.behavior.onUnavailable.State()
      case Unknown => e.behavior.onUnknown.State()
  }

  function Effects(edges: seq<Edge>, key: Key, directState: ProjectedState, m: map<Key, Evaluation>): set<ProjectedState>
    requires forall e :: e in edges ==> e.dependency in m
  {
    set e | e in edges && e.parent == key && EdgeEffect(e, directState, m[e.dependency].state).Some?
      :: EdgeEffect(e, directState, m[e.dependency].state).value
  }

  /** A component that knows nothing of itself says nothing; several distinct
      effects, or one that contradicts a non-healthy direct state, say nothing either. */
  ghost function CombinedState(directState: ProjectedState, effects: set<ProjectedState>): ProjectedState {
    if directState == Unknown then Unknown
    else if effects == {} then directState
    else if s :| s in effects && effects == {s} && (directState == Healthy || directState == s) then s
    else Unknown
  }

  function MinLifetime(a: Option<nat>, b: Option<nat>): Option<nat> {
    if a.Some? && b.Some? then Some(Min(a.value, b.value)) else None
  }

  /** `start` cut down by every state-bearing dependency of `key`. */
  ghost function CombinedLifetime(edges: seq<Edge>, key: Key, start: Option<nat>, m: map<Key, Evaluation>): Option<nat>
    requires forall e :: e in edges ==> e.dependency in m
  {
    if edges == [] then start
    else
      var rest, last := edges[..|edges| - 1], edges[|edges| - 1];
      var sofar := CombinedLifetime(rest, key, start, m);
      if last.parent == key && last.kind != Informational then MinLifetime(sofar, m[last.dependency].remainingMs)
      else sofar
  }

  ghost function Combined(edges: seq<Edge>, key: Key, direct: Evaluation, m: map<Key, Evaluation>): Evaluation
    requires forall e :: e in edges ==> e.dependency in m
  {
    Evaluation(
      direct.directState,
      CombinedState(direct.directState, Effects(edges, key, direct.directState, m)),
      direct.mode,
      CombinedLifetime(edges, key, direct.remainingMs, m))
  }

  lemma SoleMember(effects: set<ProjectedState>, s: ProjectedState)
    requires s in effects
    ensures |effects| == 1 <==> effects == {s}
  {
    assert |effects - {s}| == |effects| - 1;
  }

  /** Overwrites one entry of the evaluation map with its combined value. */
  method ApplyDependencies(key: Key, edges: seq<Edge>, evaluations: map<Key, Evaluation>)
    returns (updated: map<Key, Evaluation>)
    requires key in evaluations && forall e :: e in edges ==> e.dependency in evaluations
    ensures updated == evaluations[key := Combined(edges, key, evaluations[key], evaluations)]
  {
    var direct := evaluations[key];
    var effects: set<ProjectedState> := {};
    var remaining := direct.remainingMs;
    var i := 0;
    while i < |edges|
      invariant 0 <= i <= |edges|
      invariant effects == Effects(edges[..i], key, direct.directState, evaluations)
      invariant remaining == CombinedLifetime(edges[..i], key, direct.remainingMs, evaluations)
    {
      var edge := edges[i];
      assert edges[..i + 1] == edges[..i] + [edge];
      assert edges[..i + 1][..i] == edges[..i];
      if edge.parent == key {
        var dependency := evaluations[edge.dependency];
        var effect := EdgeEffect(edge, direct.directState, dependency.state);
        if effect.Some? {
          effects := effects + {effect.value};
        }
        if edge.kind != Informational {
          remaining := MinLifetime(remaining, dependency.remainingMs);
        }
      }
      i := i + 1;
    }
    assert edges[..i] == edges;
    var state;
    if direct.directState == Unknown {
      state := Unknown;
    } else if effects == {} {
      state := direct.directState;
    } else {
      var effect :| effect in effects;
      SoleMember(effects, effect);
      if |effects| > 1 {
        state := Unknown;
      } else if direct.directState == Healthy || direct.directState == effect {
        state := effect;
      } else {
        state := Unknown;
      }
    }
    updated := evaluations[key := Evaluation(direct.directState, state, direct.mode, remaining)];
  }

  // ----- the whole graph --------------------------------------------------

  /** `m` satisfies every component's equation at once. */
  ghost predicate Solves(edges: seq<Edge>, direct: map<Key, Evaluation>, m: map<Key, Evaluation>) {
    && m.Keys == direct.Keys && Closed(edges, m.Keys)
    && forall k {:trigger SolvesAt(edges, direct, m, k)} :: k in m ==> SolvesAt(edges, direct, m, k)
  }

  /** The entry of `k` is what its dependencies' entries make of its direct evaluation. */
  ghost predicate SolvesAt(edges: seq<Edge>, direct: map<Key, Evaluation>, m: map<Key, Evaluation>, k: Key)
    requires m.Keys == direct.Keys && Closed(edges, m.Keys) && k in m
  {
    m[k] == Combined(edges, k, direct[k], m)
  }

  /** A component's equation reads the entries of its dependencies only. */
  lemma CombinedLocal(edges: seq<Edge>, key: Key, direct: Evaluation, m: map<Key, Evaluation>, m': map<Key, Evaluation>)
    requires forall e :: e in edges ==> e.dependency in m && e.dependency in m'
    requires forall e :: e in edges && e.parent == key ==> m[e.dependency] == m'[e.dependency]
    ensures Combined(edges, key, direct, m) == Combined(edges, key, direct, m')
  {
    assert Effects(edges, key, direct.directState, m) == Effects(edges, key, direct.directState, m');
    LifetimeLocal(edges, key, direct.remainingMs, m, m');
  }

  lemma {:induction false} LifetimeLocal(edges: seq<Edge>, key: Key, start: Option<nat>, m: map<Key, Evaluation>, m': map<Key, Evaluation>)
    requires forall e :: e in edges ==> e.dependency in m && e.dependency in m'
    requires forall e :: e in edges && e.parent == key ==> m[e.dependency] == m'[e.dependency]
    ensures CombinedLifetime(edges, key, start, m) == CombinedLifetime(edges, key, start, m')
  {
    if edges != [] {
      LifetimeLocal(edges[..|edges| - 1], key, start, m, m');
    }
  }

  /** In-place propagation along a dependencies-first order solves the equations. */
  method Propagate(edges: seq<Edge>, order: seq<Key>, direct: map<Key, Evaluation>)
    returns (m: map<Key, Evaluation>)
    requires Closed(edges, direct.Keys) && Topological(edges, direct.Keys, order)
    ensures Solves(edges, direct, m)
  {
    m := direct;
    var i := 0;
    while i < |order|
      invariant 0 <= i <= |order|
      invariant m.Keys == direct.Keys
      invariant forall k :: k in order[..i] ==> k in m
      invariant forall k {:trigger SolvesAt(edges, direct, m, k)} :: k in order[..i] ==> SolvesAt(edges, direct, m, k)
      invariant forall k :: k in m && k !in order[..i] ==> m[k] == direct[k]
    {
      var key := order[i];
      assert key in Elements(order);
      assert key !in order[..i];
      ghost var before := m;
      m := ApplyDependencies(key, edges, m);
      forall k | k in order[..i + 1]
        ensures SolvesAt(edges, direct, m, k)
      {
        assert k != key ==> SolvesAt(edges, direct, before, k);
        var p :| 0 <= p <= i && order[p] == k;
        forall e | e in edges && e.parent == k
          ensures m[e.dependency] == before[e.dependency]
        {
          assert HasEdge(edges, order[p], e.dependency);
          assert e.dependency in order[..p];
        }
        CombinedLocal(edges, k, direct[k], before, m);
      }
      i := i + 1;
    }
    assert forall k :: k in m ==> k in Elements(order);
    assert order[..i] == order;
  }

  lemma {:induction false} SolutionsAgree(edges: seq<Edge>, direct: map<Key, Evaluation>, order: seq<Key>, n: nat,
                                          m: map<Key, Evaluation>, m': map<Key, Evaluation>)
    requires Topological(edges, direct.Keys, order) && n <= |order|
    requires Solves(edges, direct, m) && Solves(edges, direct, m')
    ensures forall k :: k in order[..n] ==> k in m && m[k] == m'[k]
  {
    if n > 0 {
      SolutionsAgree(edges, direct, order, n - 1, m, m');
      var key := order[n - 1];
      assert key in Elements(order);
      forall e | e in edges && e.parent == key
        ensures m[e.dependency] == m'[e.dependency]
      {
        assert HasEdge(edges, order[n - 1], e.dependency);
      }
      CombinedLocal(edges, key, direct[key], m, m');
      assert SolvesAt(edges, direct, m, key) && SolvesAt(edges, direct, m', key);
      assert order[..n] == order[..n - 1] + [key];
    }
  }

  /** On an acyclic graph the equations have at most one solution, so every
      dependencies-first order computes the same map. */
  lemma SolutionUnique(edges: seq<Edge>, direct: map<Key, Evaluation>, m: map<Key, Evaluation>, m': map<Key, Evaluation>)
    requires Acyclic(edges) && Solves(edges, direct, m) && Solves(edges, direct, m')
    ensures m == m'
  {
    AcyclicIffOrderable(edges, direct.Keys);
    var order :| Topological(edges, direct.Keys, order);
    SolutionsAgree(edges, direct, order, |order|, m, m');
    assert order[..|order|] == order;
    forall k | k in m
      ensures m[k] == m'[k]
    {
      assert k in Elements(order);
    }
  }
}
