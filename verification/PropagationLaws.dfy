/** What a solution of the dependency equations says of each component, edge by edge. */
module PropagationLaws {
  import opened Common
  import opened StatusModel
  import opened DependencyGraph
  import opened Projection
  import opened PolicyValidation

  // ----- the axes of a fact ------------------------------------------------------

  function Severity(s: ProjectedState): nat
    requires s != Unknown
  {
    match s case Healthy => 0 case Degraded => 1 case PartialOutage => 2 case MajorOutage => 3
  }

  predicate NoWorse(a: Availability, b: Availability) {
    a == b || a == Available || (a == Impaired && b == Unavailable)
  }

  predicate NoMoreImpact(i: Impact, j: Impact) {
    i == j || i == NoImpact || (i == Partial && j == Total)
  }

  /** Healthy and a major outage are the two ends of the axes; a partial outage
      is a partial impact on something not fully available, and degradation an
      impairment without impact; every other pair says nothing. */
  lemma MapStateTable(a: Availability, i: Impact)
    ensures MapState(a, i) == Healthy <==> a == Available && i == NoImpact
    ensures MapState(a, i) == Degraded <==> a == Impaired && i == NoImpact
    ensures MapState(a, i) == PartialOutage <==> i == Partial && (a == Impaired || a == Unavailable)
    ensures MapState(a, i) == MajorOutage <==> a == Unavailable && i == Total
  {
  }

  /** Less availability or more impact never gives a milder known state. */
  lemma MapStateMonotone(a: Availability, i: Impact, b: Availability, j: Impact)
    requires MapState(a, i) != Unknown && MapState(b, j) != Unknown && NoWorse(a, b) && NoMoreImpact(i, j)
    ensures Severity(MapState(a, i)) <= Severity(MapState(b, j))
  {
  }

  // ----- which field an edge answers with -----------------------------------------

  /** In a dependency's state `s` the policy author's field for it holds `x`; a
      healthy dependency has no field. */
  ghost predicate Declares(b: Behavior, s: ProjectedState, x: DependencyEffect) {
    && s != Healthy
    && (s == Degraded ==> b.onDegraded == x)
    && (s == PartialOutage ==> b.onPartial == x)
    && (s == MajorOutage ==> b.onUnavailable == x)
    && (s == Unknown ==> b.onUnknown == x)
  }

  /** The state that an effect names. */
  ghost predicate NamesState(x: DependencyEffect, s: ProjectedState) {
    match x
    case Ignore => false
    case Degrade => s == Degraded
    case ToPartialOutage => s == PartialOutage
    case ToMajorOutage => s == MajorOutage
    case ToUnknown => s == Unknown
  }

  /** A major outage behind a hard edge of a healthy component overrules the fields. */
  ghost predicate Overrules(e: Edge, directState: ProjectedState, s: ProjectedState) {
    e.kind == Hard && directState == Healthy && s == MajorOutage
  }

  /** The edge calls for state `s` of its parent. */
  ghost predicate CallsFor(e: Edge, directState: ProjectedState, dependency: ProjectedState, s: ProjectedState) {
    if Overrules(e, directState, dependency) then s == Unknown
    else exists x :: Declares(e.behavior, dependency, x) && NamesState(x, s)
  }

  lemma EffectIsCall(e: Edge, directState: ProjectedState, dependency: ProjectedState, s: ProjectedState)
    ensures EdgeEffect(e, directState, dependency) == Some(s) <==> CallsFor(e, directState, dependency, s)
  {
    if EdgeEffect(e, directState, dependency) == Some(s) && !Overrules(e, directState, dependency) {
      var x := match dependency
        case Healthy => Ignore
        case Degraded => e.behavior.onDegraded
        case PartialOutage => e.behavior.onPartial
        case MajorOutage => e.behavior.onUnavailable
        case Unknown => e.behavior.onUnknown;
      assert Declares(e.behavior, dependency, x) && NamesState(x, s);
    }
  }

  /** Some edge of the component calls for `s` in the solution. */
  ghost predicate Called(edges: seq<Edge>, direct: map<Key, Evaluation>, m: map<Key, Evaluation>, k: Key, s: ProjectedState)
    requires k in direct && forall e :: e in edges ==> e.dependency in m
  {
    exists e :: e in edges && e.parent == k && CallsFor(e, direct[k].directState, m[e.dependency].state, s)
  }

  lemma EffectsAreCalls(edges: seq<Edge>, direct: map<Key, Evaluation>, m: map<Key, Evaluation>, k: Key, s: ProjectedState)
    requires k in direct && forall e :: e in edges ==> e.dependency in m
    ensures s in Effects(edges, k, direct[k].directState, m) <==> Called(edges, direct, m, k, s)
  {
    var d := direct[k].directState;
    if s in Effects(edges, k, d, m) {
      var e :| e in edges && e.parent == k && EdgeEffect(e, d, m[e.dependency].state) == Some(s);
      EffectIsCall(e, d, m[e.dependency].state, s);
    }
    if Called(edges, direct, m, k, s) {
      var e :| e in edges && e.parent == k && CallsFor(e, d, m[e.dependency].state, s);
      EffectIsCall(e, d, m[e.dependency].state, s);
    }
  }

  /** The state of a component in a solution: unknown of itself stays unknown;
      without a call it is the component's own; a call for one state takes a
      healthy component there and confirms one already there; everything else,
      two different calls or a call against the component's own trouble, says
      nothing. */
  lemma StateFollowsCalls(edges: seq<Edge>, direct: map<Key, Evaluation>, m: map<Key, Evaluation>, k: Key)
    requires Solves(edges, direct, m) && k in direct
    ensures var d := direct[k].directState;
      && (d == Unknown ==> m[k].state == Unknown)
      && (d != Unknown && (forall s :: !Called(edges, direct, m, k, s)) ==> m[k].state == d)
      && (forall s :: d != Unknown && Called(edges, direct, m, k, s) ==>
            m[k].state == if (d == Healthy || d == s) && (forall r :: Called(edges, direct, m, k, r) ==> r == s) then s else Unknown)
  {
    assert SolvesAt(edges, direct, m, k);
    var effects := Effects(edges, k, direct[k].directState, m);
    forall s
      ensures s in effects <==> Called(edges, direct, m, k, s)
    {
      EffectsAreCalls(edges, direct, m, k, s);
    }
    StateOfEffects(direct[k].directState, effects);
  }

  lemma StateOfEffects(d: ProjectedState, effects: set<ProjectedState>)
    ensures d == Unknown ==> CombinedState(d, effects) == Unknown
    ensures effects == {} ==> CombinedState(d, effects) == d
    ensures forall s :: d != Unknown && s in effects ==>
      CombinedState(d, effects) == if (d == Healthy || d == s) && (forall r :: r in effects ==> r == s) then s else Unknown
  {
    forall s | d != Unknown && s in effects
      ensures CombinedState(d, effects) == if (d == Healthy || d == s) && (forall r :: r in effects ==> r == s) then s else Unknown
    {
      if forall r :: r in effects ==> r == s {
        assert effects == {s};
      }
    }
  }

  // ----- consequences -----------------------------------------------------------------

  /** Fields for states that a dependency does not have can be changed freely. */
  ghost predicate AgreeWhereRead(edges: seq<Edge>, edges': seq<Edge>, m: map<Key, Evaluation>)
    requires forall e :: e in edges ==> e.dependency in m
  {
    && |edges| == |edges'|
    && forall i :: 0 <= i < |edges| ==>
         && edges'[i].parent == edges[i].parent && edges'[i].dependency == edges[i].dependency && edges'[i].kind == edges[i].kind
         && forall x :: Declares(edges[i].behavior, m[edges[i].dependency].state, x) <==>
                        Declares(edges'[i].behavior, m[edges[i].dependency].state, x)
  }

  lemma UnreadFieldsAt(edges: seq<Edge>, edges': seq<Edge>, direct: map<Key, Evaluation>, m: map<Key, Evaluation>, k: Key, s: ProjectedState)
    requires (forall e :: e in edges ==> e.dependency in m) && AgreeWhereRead(edges, edges', m) && k in direct
    requires forall e :: e in edges' ==> e.dependency in m
    ensures Called(edges, direct, m, k, s) ==> Called(edges', direct, m, k, s)
  {
    if Called(edges, direct, m, k, s) {
      var e :| e in edges && e.parent == k && CallsFor(e, direct[k].directState, m[e.dependency].state, s);
      var i :| 0 <= i < |edges| && edges[i] == e;
      assert edges'[i] in edges' && CallsFor(edges'[i], direct[k].directState, m[edges'[i].dependency].state, s);
    }
  }

  lemma AgreementIsMutual(edges: seq<Edge>, edges': seq<Edge>, m: map<Key, Evaluation>)
    requires (forall e :: e in edges ==> e.dependency in m) && AgreeWhereRead(edges, edges', m)
    ensures (forall e :: e in edges' ==> e.dependency in m) && AgreeWhereRead(edges', edges, m)
  {
    forall e | e in edges'
      ensures e.dependency in m
    {
      var i :| 0 <= i < |edges'| && edges'[i] == e;
      assert edges[i] in edges;
    }
  }

  lemma {:induction false} SameLifetimes(edges: seq<Edge>, edges': seq<Edge>, key: Key, start: Option<nat>, m: map<Key, Evaluation>)
    requires (forall e :: e in edges ==> e.dependency in m) && (forall e :: e in edges' ==> e.dependency in m)
    requires AgreeWhereRead(edges, edges', m)
    ensures CombinedLifetime(edges, key, start, m) == CombinedLifetime(edges', key, start, m)
  {
    if edges != [] {
      var n := |edges| - 1;
      SameLifetimes(edges[..n], edges'[..n], key, start, m);
    }
  }

  /** A solution stays one when only fields that no dependency's state reads are changed. */
  lemma UnreadFieldsIrrelevant(edges: seq<Edge>, edges': seq<Edge>, direct: map<Key, Evaluation>, m: map<Key, Evaluation>)
    requires Solves(edges, direct, m) && AgreeWhereRead(edges, edges', m)
    ensures Solves(edges', direct, m)
  {
    AgreementIsMutual(edges, edges', m);
    forall k | k in direct
      ensures SolvesAt(edges', direct, m, k)
    {
      assert SolvesAt(edges, direct, m, k);
      SameLifetimes(edges, edges', k, direct[k].remainingMs, m);
      var d := direct[k].directState;
      forall s
        ensures s in Effects(edges, k, d, m) <==> s in Effects(edges', k, d, m)
      {
        EffectsAreCalls(edges, direct, m, k, s);
        EffectsAreCalls(edges', direct, m, k, s);
        UnreadFieldsAt(edges, edges', direct, m, k, s);
        UnreadFieldsAt(edges', edges, direct, m, k, s);
      }
      assert Effects(edges, k, d, m) == Effects(edges', k, d, m);
    }
  }

  /** In a valid policy nothing is healthy that depends, by a hard or soft edge, on something unknown. */
  lemma UnknownIsNotIgnored(edges: seq<Edge>, direct: map<Key, Evaluation>, m: map<Key, Evaluation>, e: Edge)
    requires Solves(edges, direct, m) && e in edges && e.parent in direct && e.kind != Informational && ValidBehavior(e)
    requires m[e.dependency].state == Unknown
    ensures m[e.parent].state != Healthy
  {
    var x := e.behavior.onUnknown;
    assert Declares(e.behavior, Unknown, x);
    var s := match x case Ignore => Healthy case Degrade => Degraded case ToPartialOutage => PartialOutage
                     case ToMajorOutage => MajorOutage case ToUnknown => Unknown;
    assert NamesState(x, s);
    assert Called(edges, direct, m, e.parent, s);
    StateFollowsCalls(edges, direct, m, e.parent);
  }

  /** Nor does a healthy component stay healthy over a major outage behind a hard edge. */
  lemma HardOutageIsUnknown(edges: seq<Edge>, direct: map<Key, Evaluation>, m: map<Key, Evaluation>, e: Edge)
    requires Solves(edges, direct, m) && e in edges && e.parent in direct && e.kind == Hard
    requires direct[e.parent].directState == Healthy && m[e.dependency].state == MajorOutage
    ensures m[e.parent].state == Unknown
  {
    assert CallsFor(e, Healthy, MajorOutage, Unknown);
    assert Called(edges, direct, m, e.parent, Unknown);
    StateFollowsCalls(edges, direct, m, e.parent);
  }
}
