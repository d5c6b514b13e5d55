/** What holds of every projection. */
module ProjectionLaws {
  import opened Common
  import opened StatusModel
  import opened DependencyGraph
  import opened Projection
  import opened PolicyValidation
  import opened StatusArtifacts

  // ----- one artifact per input --------------------------------------------

  lemma MinimumUnique(components: seq<Component>, m: map<Key, Evaluation>, r: Option<nat>, r': Option<nat>)
    requires forall c :: c in components ==> c.key in m
    requires IsMinimumSupport(components, m, r) && IsMinimumSupport(components, m, r')
    ensures r == r'
  {
  }

  lemma EvaluatedUnique(p: Policy, inputs: Inputs, nowNs: int, direct: map<Key, Evaluation>, m: map<Key, Evaluation>,
                        direct': map<Key, Evaluation>, m': map<Key, Evaluation>)
    requires Acyclic(p.dependencies)
    requires Evaluated(p, inputs, nowNs, direct, m) && Evaluated(p, inputs, nowNs, direct', m')
    ensures direct == direct' && m == m'
  {
    forall k | k in direct
      ensures direct[k] == direct'[k]
    {
      var c :| c in p.components && c.key == k;
      DirectUnique(c, inputs, nowNs, direct[k], direct'[k]);
    }
    assert direct == direct';
    SolutionUnique(p.dependencies, direct, m, m');
  }

  /** What is published depends on the evaluations and the disclosed surface only. */
  lemma PublishedUnique(t: Times, d: Disclosure, components: seq<Component>, root: Key, generatedAt: nat,
                        m: map<Key, Evaluation>, a: Artifact, b: Artifact)
    requires ValidTimes(t) && m.Keys == Keys(components) && root in m
    requires Published(t, d, components, root, generatedAt, m, a) && Published(t, d, components, root, generatedAt, m, b)
    ensures b == a.(policyDigest := b.policyDigest, basisDigest := b.basisDigest)
  {
    var r :| IsMinimumSupport(components, m, r) && a.freshUntilUnixMs == FreshUntil(t, r, generatedAt);
    var r' :| IsMinimumSupport(components, m, r') && b.freshUntilUnixMs == FreshUntil(t, r', generatedAt);
    MinimumUnique(components, m, r, r');
    forall id | id in a.components
      ensures a.components[id] == b.components[id]
    {
      var c :| c in components && c.output.Some? && c.output.value.id == id;
    }
    assert a.components == b.components;
  }

  /** The artifact is a function of the policy, the inputs and the moment: the
      order in which the graph was walked leaves no trace. */
  lemma ProjectsUnique(p: Policy, inputs: Inputs, moment: Moment, a: Artifact, a': Artifact)
    requires Projects(p, inputs, moment, a) && Projects(p, inputs, moment, a')
    ensures a == a'
  {
    var direct, m :| Evaluated(p, inputs, moment.monotonicNowNs, direct, m) && Presents(p, inputs, moment, m, a);
    var direct', m' :| Evaluated(p, inputs, moment.monotonicNowNs, direct', m') && Presents(p, inputs, moment, m', a');
    EvaluatedUnique(p, inputs, moment.monotonicNowNs, direct, m, direct', m');
    PublishedUnique(p.times, p.disclosure, p.components, p.root, moment.generatedAtUnixMs, m, a, a');
  }

  lemma PresentedSelfConsistent(p: Policy, inputs: Inputs, moment: Moment, m: map<Key, Evaluation>, a: Artifact)
    requires ValidTimes(p.times) && m.Keys == Keys(p.components) && p.root in m && Presents(p, inputs, moment, m, a)
    ensures a.generatedAtUnixMs <= a.freshUntilUnixMs
    ensures a.freshUntilUnixMs == a.generatedAtUnixMs ==>
      a.aggregateState == Unknown && forall id :: id in a.components ==> a.components[id].state == Unknown
  {
    forall id | id in a.components
      ensures a.freshUntilUnixMs == a.generatedAtUnixMs ==> a.components[id].state == Unknown
    {
      var c :| c in p.components && c.output.Some? && c.output.value.id == id;
    }
  }

  /** What artifact validation asks of the window and the rows always holds. */
  lemma ArtifactSelfConsistent(p: Policy, inputs: Inputs, moment: Moment, a: Artifact)
    requires Projects(p, inputs, moment, a)
    ensures a.generatedAtUnixMs <= a.freshUntilUnixMs
    ensures a.components != map[]
    ensures a.freshUntilUnixMs == a.generatedAtUnixMs ==>
      a.aggregateState == Unknown && forall id :: id in a.components ==> a.components[id].state == Unknown
  {
    var direct, m :| Evaluated(p, inputs, moment.monotonicNowNs, direct, m) && Presents(p, inputs, moment, m, a);
    PresentedSelfConsistent(p, inputs, moment, m, a);
    var c :| c in p.components && c.key == p.root && c.output.Some?;
    assert c.output.value.id in OutputIds(p.components);
  }

  // ----- transitive support --------------------------------------------------

  /** One row: while the window is open, the evaluated state; the mode always;
      name and reason only as far as disclosed, the reason being the one
      declared safe for the shown state. */
  ghost predicate Shows(d: Disclosure, output: Output, e: Evaluation, open: bool, row: ProjectedComponent) {
    && row.state == (if open then e.state else Unknown) && row.mode == e.mode
    && (row.displayName.Some? <==> d.showDisplayName)
    && (row.displayName.Some? ==> row.displayName.value == output.displayName)
    && (row.reason.Some? <==> d.showReason && row.state in d.safeReasons)
    && (row.reason.Some? ==> row.reason.value == d.safeReasons[row.state])
  }

  lemma PublishedShows(t: Times, d: Disclosure, components: seq<Component>, root: Key, generatedAt: nat,
                       m: map<Key, Evaluation>, a: Artifact, c: Component)
    requires ValidTimes(t) && m.Keys == Keys(components) && root in m
    requires Published(t, d, components, root, generatedAt, m, a) && c in components && c.output.Some?
    ensures c.key in m && c.output.value.id in a.components
    ensures Shows(d, c.output.value, m[c.key], a.freshUntilUnixMs > a.generatedAtUnixMs, a.components[c.output.value.id])
  {
    var row := a.components[c.output.value.id];
    assert row == Row(d, c, m[c.key], a.freshUntilUnixMs > a.generatedAtUnixMs);
  }

  /** What an artifact shows: the granular time of generation, one row for each
      declared output and no other, and the root's state as the aggregate. */
  lemma ArtifactShows(p: Policy, inputs: Inputs, moment: Moment, direct: map<Key, Evaluation>, m: map<Key, Evaluation>,
                      a: Artifact, c: Component)
    requires Projects(p, inputs, moment, a) && Evaluated(p, inputs, moment.monotonicNowNs, direct, m)
    requires c in p.components && c.output.Some?
    ensures c.key in m && p.root in m && c.output.value.id in a.components
    ensures Shows(p.disclosure, c.output.value, m[c.key], a.freshUntilUnixMs > a.generatedAtUnixMs, a.components[c.output.value.id])
    ensures a.aggregateState == if a.freshUntilUnixMs > a.generatedAtUnixMs then m[p.root].state else Unknown
    ensures a.generatedAtUnixMs == moment.generatedAtUnixMs / p.times.timestampGranularityMs * p.times.timestampGranularityMs
    ensures a.components.Keys == set b | b in p.components && b.output.Some? :: b.output.value.id
  {
    var direct', m' :| Evaluated(p, inputs, moment.monotonicNowNs, direct', m') && Presents(p, inputs, moment, m', a);
    EvaluatedUnique(p, inputs, moment.monotonicNowNs, direct, m, direct', m');
    PublishedShows(p.times, p.disclosure, p.components, p.root, moment.generatedAtUnixMs, m, a, c);
  }

  /** Propagation leaves the mode alone: maintenance exactly when one of the
      component's declared assertions is active for this component. */
  lemma MaintenanceIff(p: Policy, inputs: Inputs, nowNs: int, direct: map<Key, Evaluation>, m: map<Key, Evaluation>, c: Component)
    requires Evaluated(p, inputs, nowNs, direct, m) && c in p.components
    ensures c.key in m
    ensures m[c.key].mode == Maintenance <==>
      exists id :: id in c.maintenanceIds && id in inputs.maintenance &&
        inputs.maintenance[id].active && inputs.maintenance[id].componentKey == c.key
  {
    assert DirectlyEvaluates(c, inputs, nowNs, direct[c.key]);
    assert SolvesAt(p.dependencies, direct, m, c.key);
  }

  /** The digests of an artifact: the disclosed surface, and on disclosure of
      the basis the whole policy, the inputs and the whole milliseconds left of
      each support. */
  lemma DigestsCover(p: Policy, inputs: Inputs, moment: Moment, a: Artifact)
    requires Projects(p, inputs, moment, a)
    ensures a.policyDigest.projectionId == p.projectionId && a.policyDigest.generation == p.generation
    ensures a.policyDigest.times == p.times && a.policyDigest.disclosure == p.disclosure
    ensures forall o :: o in a.policyDigest.outputs <==> exists c :: c in p.components && c.output == Some(o)
    ensures a.basisDigest.Some? <==> p.disclosure.includeBasisDigest
    ensures a.basisDigest.Some? ==>
      && a.basisDigest.value.policy == p && a.basisDigest.value.inputs == inputs
      && a.basisDigest.value.usableRemainingMs.Keys == inputs.support.Keys
      && forall id :: id in inputs.support && inputs.support[id].expiresAtNs <= moment.monotonicNowNs + U64_MAX * NANOS_PER_MS ==>
           WholeMsLeft(inputs.support[id].expiresAtNs - moment.monotonicNowNs, a.basisDigest.value.usableRemainingMs[id])
  {
    if a.basisDigest.Some? {
      forall id | id in inputs.support && inputs.support[id].expiresAtNs <= moment.monotonicNowNs + U64_MAX * NANOS_PER_MS
        ensures WholeMsLeft(inputs.support[id].expiresAtNs - moment.monotonicNowNs, a.basisDigest.value.usableRemainingMs[id])
      {
        var left := UsableRemainingMs(inputs.support[id], moment.monotonicNowNs);
      }
    }
  }

  ghost predicate WholeMsLeft(ns: int, ms: nat) {
    if ns < NANOS_PER_MS then ms == 0 else ms * NANOS_PER_MS <= ns < (ms + 1) * NANOS_PER_MS
  }

  /** A combined lifetime is bounded exactly when the component's own is and
      every state-bearing dependency's is, and is then their minimum. */
  lemma {:induction false} LifetimeIsMinimum(edges: seq<Edge>, key: Key, start: Option<nat>, m: map<Key, Evaluation>)
    requires forall e :: e in edges ==> e.dependency in m
    ensures
      var r := CombinedLifetime(edges, key, start, m);
      && (r.Some? <==> start.Some? && forall e :: e in edges && e.parent == key && e.kind != Informational
                                        ==> m[e.dependency].remainingMs.Some?)
      && (r.Some? ==> r.value <= start.value && forall e :: e in edges && e.parent == key && e.kind != Informational
                                                      ==> r.value <= m[e.dependency].remainingMs.value)
      && (r.Some? ==> r == start || exists e :: e in edges && e.parent == key && e.kind != Informational &&
                                                 r == m[e.dependency].remainingMs)
  {
    if edges != [] {
      var front, last := edges[..|edges| - 1], edges[|edges| - 1];
      assert edges == front + [last];
      LifetimeIsMinimum(front, key, start, m);
    }
  }

  /** A walk along hard and soft edges only. */
  ghost predicate StateBearingWalk(edges: seq<Edge>, w: seq<Key>) {
    |w| > 0 && forall i, j :: 0 <= i && j == i + 1 < |w| ==> StateBearingEdge(edges, w[i], w[j])
  }

  ghost predicate StateBearingEdge(edges: seq<Edge>, a: Key, b: Key) {
    exists e :: e in edges && e.parent == a && e.dependency == b && e.kind != Informational
  }

  /** Along a state-bearing walk remaining lifetimes never shrink. */
  lemma {:induction false} LifetimesGrowAlongWalks(edges: seq<Edge>, direct: map<Key, Evaluation>, m: map<Key, Evaluation>, w: seq<Key>)
    requires Solves(edges, direct, m) && StateBearingWalk(edges, w) && w[0] in m && m[w[0]].remainingMs.Some?
    ensures var k := w[|w| - 1];
      && k in m && m[k].remainingMs.Some? && m[w[0]].remainingMs.value <= m[k].remainingMs.value
      && direct[k].remainingMs.Some? && m[k].remainingMs.value <= direct[k].remainingMs.value
    decreases |w|
  {
    assert SolvesAt(edges, direct, m, w[0]);
    LifetimeIsMinimum(edges, w[0], direct[w[0]].remainingMs, m);
    if |w| > 1 {
      assert StateBearingEdge(edges, w[0], w[1]);
      var tail := w[1..];
      forall i, j | 0 <= i && j == i + 1 < |tail|
        ensures StateBearingEdge(edges, tail[i], tail[j])
      {
        assert StateBearingEdge(edges, w[i + 1], w[i + 2]);
      }
      LifetimesGrowAlongWalks(edges, direct, m, tail);
    }
  }

  lemma ShownIsBounded(p: Policy, inputs: Inputs, moment: Moment, m: map<Key, Evaluation>, a: Artifact, shown: Component)
    requires ValidTimes(p.times) && m.Keys == Keys(p.components) && p.root in m && Presents(p, inputs, moment, m, a)
    requires shown in p.components && shown.output.Some? && a.components[shown.output.value.id].state != Unknown
    ensures a.freshUntilUnixMs > a.generatedAtUnixMs && m[shown.key].remainingMs.Some?
    ensures a.freshUntilUnixMs <= moment.generatedAtUnixMs
              + Min(p.times.maximumAgeMs, m[shown.key].remainingMs.value) - p.times.admittedClockUncertaintyMs
  {
    var minimum :| IsMinimumSupport(p.components, m, minimum) &&
                   a.freshUntilUnixMs == FreshUntil(p.times, minimum, moment.generatedAtUnixMs);
    assert Shown(shown, m);
  }

  lemma DirectSupport(c: Component, inputs: Inputs, nowNs: int, e: Evaluation, j: nat)
    requires DirectlyEvaluates(c, inputs, nowNs, e) && e.remainingMs.Some? && j < |c.requiredFacts|
    ensures Supported(c.key, c.requiredFacts[j], inputs, nowNs)
    ensures e.remainingMs.value <= SupportMs(c.key, c.requiredFacts[j], inputs, nowNs)
  {
  }

  /** The fact is the required one, from the required owner, schema and class,
      about this component, of a class that may establish state; and its
      evidence has support for exactly the required selector with a millisecond
      or more left, and no more than the counter holds. */
  ghost predicate Backed(key: Key, r: FactRequirement, inputs: Inputs, nowNs: int) {
    exists fact, live ::
      && FactAt(inputs, r.factId, fact) && LiveAt(inputs, fact.evidenceId, live)
      && (fact.subjectKey, fact.owner, fact.nativeSchema, fact.class_) == (key, r.owner, r.nativeSchema, r.class_)
      && (fact.class_ == Observed || fact.class_ == DerivedAdmitted)
      && live.selector == r.liveSupport
      && NANOS_PER_MS <= live.expiresAtNs - nowNs < (U64_MAX + 1) * NANOS_PER_MS
  }

  ghost predicate FactAt(inputs: Inputs, id: string, fact: Fact) {
    id in inputs.facts && inputs.facts[id] == fact
  }

  ghost predicate LiveAt(inputs: Inputs, id: string, live: LiveSupport) {
    id in inputs.support && inputs.support[id] == live
  }

  lemma SupportedIffBacked(key: Key, r: FactRequirement, inputs: Inputs, nowNs: int)
    ensures Supported(key, r, inputs, nowNs) <==> Backed(key, r, inputs, nowNs)
  {
    if Supported(key, r, inputs, nowNs) {
      var fact := inputs.facts[r.factId];
      assert FactAt(inputs, r.factId, fact) && LiveAt(inputs, fact.evidenceId, inputs.support[fact.evidenceId]);
    }
  }

  /** Any two facts of the two requirements agree on both axes. */
  ghost predicate Agree(inputs: Inputs, r: FactRequirement, q: FactRequirement) {
    forall f, g :: FactAt(inputs, r.factId, f) && FactAt(inputs, q.factId, g) ==> f.availability == g.availability && f.impact == g.impact
  }

  /** A component is known of itself for a bounded time exactly when it has
      required facts, all of them are backed, and they agree on both axes; its
      state is then what those axes map to. */
  lemma KnownIff(c: Component, inputs: Inputs, nowNs: int, e: Evaluation)
    requires DirectlyEvaluates(c, inputs, nowNs, e)
    ensures e.remainingMs.Some? <==>
      && c.requiredFacts != []
      && (forall j :: 0 <= j < |c.requiredFacts| ==> Backed(c.key, c.requiredFacts[j], inputs, nowNs))
      && (forall j :: 0 <= j < |c.requiredFacts| ==> Agree(inputs, c.requiredFacts[j], c.requiredFacts[0]))
    ensures e.remainingMs.Some? ==>
      forall f :: FactAt(inputs, c.requiredFacts[0].factId, f) ==> e.directState == MapState(f.availability, f.impact)
  {
    forall j | 0 <= j < |c.requiredFacts|
      ensures Supported(c.key, c.requiredFacts[j], inputs, nowNs) <==> Backed(c.key, c.requiredFacts[j], inputs, nowNs)
    {
      SupportedIffBacked(c.key, c.requiredFacts[j], inputs, nowNs);
    }
    if c.requiredFacts != [] && forall j :: 0 <= j < |c.requiredFacts| ==> Supported(c.key, c.requiredFacts[j], inputs, nowNs) {
      forall j | 0 <= j < |c.requiredFacts|
        ensures Axes(c.requiredFacts[j], inputs) == Axes(c.requiredFacts[0], inputs) <==> Agree(inputs, c.requiredFacts[j], c.requiredFacts[0])
      {
        AxesAgree(inputs, c.requiredFacts[j], c.requiredFacts[0]);
      }
    }
  }

  lemma AxesAgree(inputs: Inputs, r: FactRequirement, q: FactRequirement)
    requires r.factId in inputs.facts && q.factId in inputs.facts
    ensures Axes(r, inputs) == Axes(q, inputs) <==> Agree(inputs, r, q)
  {
    assert FactAt(inputs, r.factId, inputs.facts[r.factId]) && FactAt(inputs, q.factId, inputs.facts[q.factId]);
  }

  /** Everything a shown state rests on, directly or through hard and soft
      edges, has all its required facts matched by live support, and the
      artifact expires no later than each of them allows. */
  lemma TransitiveSupport(p: Policy, inputs: Inputs, moment: Moment, a: Artifact, shown: Component, w: seq<Key>, c: Component, j: nat)
    requires Projects(p, inputs, moment, a)
    requires shown in p.components && shown.output.Some? && a.components[shown.output.value.id].state != Unknown
    requires StateBearingWalk(p.dependencies, w) && w[0] == shown.key
    requires c in p.components && c.key == w[|w| - 1] && j < |c.requiredFacts|
    ensures Supported(c.key, c.requiredFacts[j], inputs, moment.monotonicNowNs)
    ensures Backed(c.key, c.requiredFacts[j], inputs, moment.monotonicNowNs)
    ensures a.freshUntilUnixMs > a.generatedAtUnixMs
    ensures a.freshUntilUnixMs <= moment.generatedAtUnixMs
              + Min(p.times.maximumAgeMs, SupportMs(c.key, c.requiredFacts[j], inputs, moment.monotonicNowNs))
              - p.times.admittedClockUncertaintyMs
  {
    var direct, m :| Evaluated(p, inputs, moment.monotonicNowNs, direct, m) && Presents(p, inputs, moment, m, a);
    ShownIsBounded(p, inputs, moment, m, a, shown);
    LifetimesGrowAlongWalks(p.dependencies, direct, m, w);
    DirectSupport(c, inputs, moment.monotonicNowNs, direct[c.key], j);
    SupportedIffBacked(c.key, c.requiredFacts[j], inputs, moment.monotonicNowNs);
  }

  // ----- ageing ---------------------------------------------------------------

  /** No support outlives the counter: a consequence of admission before projection. */
  ghost predicate Representable(inputs: Inputs, nowNs: int) {
    forall id :: id in inputs.support ==> inputs.support[id].expiresAtNs - nowNs < (U64_MAX + 1) * NANOS_PER_MS
  }

  /** The later evaluation claims no more than the earlier one did. */
  ghost predicate Aged(earlier: Evaluation, later: Evaluation) {
    later.remainingMs.Some? ==>
      && earlier.directState == later.directState && earlier.state == later.state && earlier.mode == later.mode
      && earlier.remainingMs.Some? && earlier.remainingMs.value >= later.remainingMs.value
  }

  lemma SupportAges(key: Key, r: FactRequirement, inputs: Inputs, earlier: int, later: int)
    requires earlier <= later && Representable(inputs, earlier) && Supported(key, r, inputs, later)
    ensures Supported(key, r, inputs, earlier)
    ensures SupportMs(key, r, inputs, later) <= SupportMs(key, r, inputs, earlier)
  {
  }

  lemma DirectAges(c: Component, inputs: Inputs, earlier: int, later: int, e: Evaluation, e': Evaluation)
    requires earlier <= later && Representable(inputs, earlier)
    requires DirectlyEvaluates(c, inputs, earlier, e) && DirectlyEvaluates(c, inputs, later, e')
    ensures Aged(e, e') && e.mode == e'.mode
  {
    if e'.remainingMs.Some? {
      forall j | 0 <= j < |c.requiredFacts|
        ensures Supported(c.key, c.requiredFacts[j], inputs, earlier)
        ensures SupportMs(c.key, c.requiredFacts[j], inputs, later) <= SupportMs(c.key, c.requiredFacts[j], inputs, earlier)
      {
        SupportAges(c.key, c.requiredFacts[j], inputs, earlier, later);
      }
      assert Established(c, inputs, earlier);
    }
  }

  lemma InformationalSilent(e: Edge, directState: ProjectedState, state: ProjectedState)
    requires ValidBehavior(e) && e.kind == Informational
    ensures EdgeEffect(e, directState, state) == None
  {
  }

  /** One equation: bounded later, so the same state earlier. */
  lemma CombinedAges(edges: seq<Edge>, key: Key, d: Evaluation, d': Evaluation, m: map<Key, Evaluation>, m': map<Key, Evaluation>)
    requires forall e :: e in edges ==> ValidBehavior(e) && e.dependency in m && e.dependency in m'
    requires Aged(d, d') && d.mode == d'.mode
    requires forall e :: e in edges && e.parent == key ==> Aged(m[e.dependency], m'[e.dependency])
    ensures Aged(Combined(edges, key, d, m), Combined(edges, key, d', m'))
  {
    LifetimeIsMinimum(edges, key, d.remainingMs, m);
    LifetimeIsMinimum(edges, key, d'.remainingMs, m');
    if Combined(edges, key, d', m').remainingMs.Some? {
      forall e | e in edges && e.parent == key
        ensures EdgeEffect(e, d.directState, m[e.dependency].state) == EdgeEffect(e, d.directState, m'[e.dependency].state)
      {
        if e.kind == Informational {
          InformationalSilent(e, d.directState, m[e.dependency].state);
          InformationalSilent(e, d.directState, m'[e.dependency].state);
        }
      }
      assert Effects(edges, key, d.directState, m) == Effects(edges, key, d'.directState, m');
    }
  }

  lemma DirectAgesAt(p: Policy, inputs: Inputs, earlier: int, later: int, k: Key,
                     direct: map<Key, Evaluation>, m: map<Key, Evaluation>, direct': map<Key, Evaluation>, m': map<Key, Evaluation>)
    requires earlier <= later && Representable(inputs, earlier) && k in direct
    requires Evaluated(p, inputs, earlier, direct, m) && Evaluated(p, inputs, later, direct', m')
    ensures Aged(direct[k], direct'[k]) && direct[k].mode == direct'[k].mode
  {
    var c :| c in p.components && c.key == k;
    DirectAges(c, inputs, earlier, later, direct[k], direct'[k]);
  }

  lemma {:induction false} AgesAlongOrder(p: Policy, inputs: Inputs, earlier: int, later: int, order: seq<Key>, n: nat,
                                          direct: map<Key, Evaluation>, m: map<Key, Evaluation>,
                                          direct': map<Key, Evaluation>, m': map<Key, Evaluation>)
    requires forall e :: e in p.dependencies ==> ValidBehavior(e)
    requires earlier <= later && Representable(inputs, earlier)
    requires Evaluated(p, inputs, earlier, direct, m) && Evaluated(p, inputs, later, direct', m')
    requires Topological(p.dependencies, Keys(p.components), order) && n <= |order|
    ensures forall k :: k in order[..n] ==> k in m && k in m' && Aged(m[k], m'[k])
  {
    if n > 0 {
      AgesAlongOrder(p, inputs, earlier, later, order, n - 1, direct, m, direct', m');
      var k := order[n - 1];
      assert k in Elements(order);
      DirectAgesAt(p, inputs, earlier, later, k, direct, m, direct', m');
      forall e | e in p.dependencies && e.parent == k
        ensures Aged(m[e.dependency], m'[e.dependency])
      {
        assert HasEdge(p.dependencies, order[n - 1], e.dependency);
      }
      assert SolvesAt(p.dependencies, direct, m, k) && SolvesAt(p.dependencies, direct', m', k);
      CombinedAges(p.dependencies, k, direct[k], direct'[k], m, m');
      assert order[..n] == order[..n - 1] + [k];
    }
  }

  /** Time alone never changes a state that is still bounded: whatever is
      claimed later was claimed earlier, for at least as long. */
  lemma AgeingIsSafe(p: Policy, inputs: Inputs, earlier: int, later: int, k: Key,
                     direct: map<Key, Evaluation>, m: map<Key, Evaluation>,
                     direct': map<Key, Evaluation>, m': map<Key, Evaluation>)
    requires WellFormed(p) && earlier <= later && Representable(inputs, earlier)
    requires Evaluated(p, inputs, earlier, direct, m) && Evaluated(p, inputs, later, direct', m')
    requires k in m' && m'[k].remainingMs.Some?
    ensures k in m && m[k].state == m'[k].state && m[k].mode == m'[k].mode
    ensures m[k].remainingMs.Some? && m[k].remainingMs.value >= m'[k].remainingMs.value
  {
    AcyclicIffOrderable(p.dependencies, Keys(p.components));
    var order :| Topological(p.dependencies, Keys(p.components), order);
    AgesAlongOrder(p, inputs, earlier, later, order, |order|, direct, m, direct', m');
    assert k in Elements(order) && order[..|order|] == order;
  }

  // ----- informational edges ----------------------------------------------------

  lemma LifetimeStep(front: seq<Edge>, last: Edge, key: Key, start: Option<nat>, m: map<Key, Evaluation>)
    requires (forall e :: e in front ==> e.dependency in m) && last.dependency in m
    ensures forall e :: e in front + [last] ==> e.dependency in m
    ensures CombinedLifetime(front + [last], key, start, m) ==
      if last.parent == key && last.kind != Informational then
        MinLifetime(CombinedLifetime(front, key, start, m), m[last.dependency].remainingMs)
      else CombinedLifetime(front, key, start, m)
  {
    assert (front + [last])[..|front|] == front;
  }

  lemma StateBearingStep(front: seq<Edge>, last: Edge)
    ensures StateBearing(front + [last]) == if last.kind == Informational then StateBearing(front) else StateBearing(front) + [last]
  {
    assert (front + [last])[..|front|] == front;
  }

  lemma {:induction false} LifetimeIgnoresInformational(edges: seq<Edge>, key: Key, start: Option<nat>, m: map<Key, Evaluation>)
    requires forall e :: e in edges ==> e.dependency in m
    ensures CombinedLifetime(StateBearing(edges), key, start, m) == CombinedLifetime(edges, key, start, m)
    decreases |edges|
  {
    if edges != [] {
      var front, last := edges[..|edges| - 1], edges[|edges| - 1];
      assert edges == front + [last] && last in edges;
      LifetimeIgnoresInformational(front, key, start, m);
      StateBearingStep(front, last);
      LifetimeStep(front, last, key, start, m);
      if last.kind != Informational {
        LifetimeStep(StateBearing(front), last, key, start, m);
      }
    }
  }

  lemma CombinedIgnoresInformational(edges: seq<Edge>, key: Key, direct: Evaluation, m: map<Key, Evaluation>)
    requires forall e :: e in edges ==> ValidBehavior(e) && e.dependency in m
    ensures Combined(StateBearing(edges), key, direct, m) == Combined(edges, key, direct, m)
  {
    LifetimeIgnoresInformational(edges, key, direct.remainingMs, m);
    forall e | e in edges && e.kind == Informational
      ensures EdgeEffect(e, direct.directState, m[e.dependency].state) == None
    {
      InformationalSilent(e, direct.directState, m[e.dependency].state);
    }
    assert Effects(StateBearing(edges), key, direct.directState, m) == Effects(edges, key, direct.directState, m);
  }

  ghost function WithoutInformational(p: Policy): Policy {
    p.(dependencies := StateBearing(p.dependencies))
  }

  /** Deleting every informational edge leaves every state, mode and lifetime as it was. */
  lemma InformationalEdgesInert(p: Policy, inputs: Inputs, nowNs: int, direct: map<Key, Evaluation>, m: map<Key, Evaluation>,
                                direct': map<Key, Evaluation>, m': map<Key, Evaluation>)
    requires WellFormed(p) && Evaluated(p, inputs, nowNs, direct, m)
    requires Evaluated(WithoutInformational(p), inputs, nowNs, direct', m')
    ensures direct == direct' && m == m'
  {
    var q := WithoutInformational(p);
    SubgraphAcyclic(p.dependencies, q.dependencies);
    forall k | k in m
      ensures SolvesAt(q.dependencies, direct, m, k)
    {
      assert SolvesAt(p.dependencies, direct, m, k);
      CombinedIgnoresInformational(p.dependencies, k, direct[k], m);
    }
    assert Evaluated(q, inputs, nowNs, direct, m);
    EvaluatedUnique(q, inputs, nowNs, direct, m, direct', m');
  }

  /** The published artifact is the same too, except for a disclosed basis
      digest, which covers the whole policy. */
  lemma InformationalEdgesUnpublished(p: Policy, inputs: Inputs, moment: Moment, a: Artifact, a': Artifact)
    requires Projects(p, inputs, moment, a) && Projects(WithoutInformational(p), inputs, moment, a')
    ensures a' == a.(basisDigest := a'.basisDigest)
    ensures a == a' <==> !p.disclosure.includeBasisDigest || p == WithoutInformational(p)
  {
    var q := WithoutInformational(p);
    var direct, m :| Evaluated(p, inputs, moment.monotonicNowNs, direct, m) && Presents(p, inputs, moment, m, a);
    var direct', m' :| Evaluated(q, inputs, moment.monotonicNowNs, direct', m') && Presents(q, inputs, moment, m', a');
    InformationalEdgesInert(p, inputs, moment.monotonicNowNs, direct, m, direct', m');
    PublishedUnique(p.times, p.disclosure, p.components, p.root, moment.generatedAtUnixMs, m, a, a');
    assert a' == a.(policyDigest := a'.policyDigest, basisDigest := a'.basisDigest);
    assert a.policyDigest == a'.policyDigest;
  }
}
