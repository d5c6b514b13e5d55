/** The projected artifact: what is published for a policy, its inputs and a moment. */
module StatusArtifacts {
  import opened Common
  import opened Digits
  import opened StatusModel
  import opened DependencyGraph
  import opened Projection
  import opened PolicyValidation

  datatype ProjectedComponent = ProjectedComponent(
    displayName: Option<string>, state: ProjectedState, mode: Mode, reason: Option<string>)

  /** What the policy digest covers: the disclosed surface only. Digests are
      taken to be injective, so a digest is represented by its preimage. */
  datatype Surface = Surface(
    projectionId: string, generation: string, times: Times, outputs: set<Output>, disclosure: Disclosure)

  datatype Basis = Basis(policy: Policy, inputs: Inputs, usableRemainingMs: map<string, nat>)

  /** Component rows are keyed by their public id, which the artifact lists in strict order. */
  datatype Artifact = Artifact(
    policyDigest: Surface, generatedAtUnixMs: nat, freshUntilUnixMs: nat, admittedClockUncertaintyMs: nat,
    aggregateState: ProjectedState, components: map<string, ProjectedComponent>, basisDigest: Option<Basis>)

  /** The largest multiple of the granularity that is not after `value`. */
  function FloorTime(value: nat, granularity: nat): (r: nat)
    requires granularity > 0
    ensures r <= value < r + granularity && r == value / granularity * granularity
  {
    value - value % granularity
  }

  predicate Shown(c: Component, m: map<Key, Evaluation>)
    requires c.key in m
  {
    c.output.Some? && m[c.key].state != Unknown
  }

  /** The least lifetime over the visible components that claim a state; none
      when one of them is unbounded or there is no such component. */
  ghost predicate IsMinimumSupport(components: seq<Component>, m: map<Key, Evaluation>, r: Option<nat>)
    requires forall c :: c in components ==> c.key in m
  {
    if r.Some? then
      && (forall c {:trigger Shown(c, m)} :: c in components && Shown(c, m) ==>
            m[c.key].remainingMs.Some? && r.value <= m[c.key].remainingMs.value)
      && (exists c :: c in components && Shown(c, m) && m[c.key].remainingMs == r)
    else
      || (forall c :: c in components ==> !Shown(c, m))
      || (exists c :: c in components && Shown(c, m) && m[c.key].remainingMs == None)
  }

  method MinimumSupport(components: seq<Component>, m: map<Key, Evaluation>) returns (r: Option<nat>)
    requires forall c :: c in components ==> c.key in m
    ensures IsMinimumSupport(components, m, r)
  {
    r := None;
    var i := 0;
    while i < |components|
      invariant 0 <= i <= |components|
      invariant IsMinimumSupport(components[..i], m, r)
      invariant r == None ==> forall c :: c in components[..i] ==> !Shown(c, m)
    {
      var c := components[i];
      assert components[..i + 1] == components[..i] + [c];
      if Shown(c, m) {
        if m[c.key].remainingMs == None {
          assert c in components;
          return None;
        }
        r := if r.Some? then MinLifetime(r, m[c.key].remainingMs) else m[c.key].remainingMs;
      }
      i := i + 1;
    }
    assert components[..i] == components;
  }

  /** The presentation deadline: the least support, capped by the maximum age,
      less the publisher's clock uncertainty, rounded down. */
  function FreshUntil(t: Times, minimum: Option<nat>, generatedAt: nat): (r: nat)
    requires t.timestampGranularityMs > 0
    ensures r >= FloorTime(generatedAt, t.timestampGranularityMs)
    ensures r > FloorTime(generatedAt, t.timestampGranularityMs) ==>
      minimum.Some? && r <= generatedAt + Min(minimum.value, t.maximumAgeMs) - t.admittedClockUncertaintyMs
  {
    var floor := FloorTime(generatedAt, t.timestampGranularityMs);
    if minimum == None then floor
    else
      var window := Min(minimum.value, t.maximumAgeMs) - t.admittedClockUncertaintyMs;
      if window <= 0 || generatedAt + window > U64_MAX then floor
      else
        var deadline := FloorTime(generatedAt + window, t.timestampGranularityMs);
        if deadline > floor then deadline else floor
  }

  /** A time that the granularity can express, after `low` and not after `high`. */
  ghost predicate Expressible(m: nat, granularity: nat, low: int, high: int) {
    low < m * granularity <= high
  }

  lemma FloorsDiffer(low: nat, high: nat, g: nat)
    requires g > 0 && low <= high
    ensures FloorTime(high, g) > FloorTime(low, g) <==> exists m: nat :: Expressible(m, g, low, high)
  {
    if FloorTime(high, g) > FloorTime(low, g) {
      MultiplesApart(low / g, high / g, g);
      assert Expressible(high / g, g, low, high);
    }
    if m: nat :| Expressible(m, g, low, high) {
      MultiplesApart(low / g, m, g);
      MultiplesApart(high / g, m, g);
    }
  }

  lemma {:induction false} MultiplesApart(a: nat, b: nat, g: nat)
    requires g > 0
    ensures a < b ==> a * g + g <= b * g
    ensures b <= a ==> b * g <= a * g
    decreases a + b
  {
    if a < b {
      OneMoreTimes(b - 1, g);
      MultiplesApart(a, b - 1, g);
    } else if b < a {
      OneMoreTimes(a - 1, g);
      MultiplesApart(a - 1, b, g);
    }
  }

  /** The window opens exactly when support less uncertainty reaches a time that
      can be expressed and the deadline fits the counter; it is then the last
      such time. */
  lemma WindowOpensIff(t: Times, minimum: Option<nat>, generatedAt: nat)
    requires t.timestampGranularityMs > 0
    ensures var g, r := t.timestampGranularityMs, FreshUntil(t, minimum, generatedAt);
      var limit := if minimum.Some? then generatedAt + Min(minimum.value, t.maximumAgeMs) - t.admittedClockUncertaintyMs else generatedAt;
      && (r > FloorTime(generatedAt, g) <==> limit <= U64_MAX && exists m: nat :: Expressible(m, g, generatedAt, limit))
      && (r > FloorTime(generatedAt, g) ==> r <= limit < r + g)
  {
    if minimum.Some? {
      var limit := generatedAt + Min(minimum.value, t.maximumAgeMs) - t.admittedClockUncertaintyMs;
      if limit > generatedAt {
        FloorsDiffer(generatedAt, limit, t.timestampGranularityMs);
      }
    }
  }

  function DisclosureSurface(p: Policy): Surface {
    Surface(p.projectionId, p.generation, p.times, Outputs(p.components), p.disclosure)
  }

  function ReasonFor(d: Disclosure, state: ProjectedState): Option<string> {
    if d.showReason && state in d.safeReasons then Some(d.safeReasons[state]) else None
  }

  function Row(d: Disclosure, c: Component, e: Evaluation, current: bool): ProjectedComponent
    requires c.output.Some?
  {
    var state := if current then e.state else Unknown;
    ProjectedComponent(
      if d.showDisplayName then Some(c.output.value.displayName) else None,
      state, e.mode, ReasonFor(d, state))
  }

  /** `direct` and `m` are the direct and the combined evaluations of `p`. */
  ghost predicate Evaluated(p: Policy, inputs: Inputs, nowNs: int, direct: map<Key, Evaluation>, m: map<Key, Evaluation>) {
    && direct.Keys == Keys(p.components)
    && (forall c {:trigger DirectlyEvaluates(c, inputs, nowNs, direct[c.key])} ::
          c in p.components ==> DirectlyEvaluates(c, inputs, nowNs, direct[c.key]))
    && Solves(p.dependencies, direct, m)
  }

  /** The window, the aggregate and the rows of `a` present the combined evaluations `m`. */
  ghost predicate Published(t: Times, d: Disclosure, components: seq<Component>, root: Key, generatedAt: nat,
                            m: map<Key, Evaluation>, a: Artifact)
    requires ValidTimes(t) && m.Keys == Keys(components) && root in m
  {
    && a.generatedAtUnixMs == FloorTime(generatedAt, t.timestampGranularityMs)
    && a.admittedClockUncertaintyMs == t.admittedClockUncertaintyMs
    && (exists minimum :: IsMinimumSupport(components, m, minimum) && a.freshUntilUnixMs == FreshUntil(t, minimum, generatedAt))
    && var current := a.freshUntilUnixMs > a.generatedAtUnixMs;
    && a.aggregateState == (if current then m[root].state else Unknown)
    && a.components.Keys == OutputIds(components)
    && (forall c {:trigger a.components[c.output.value.id]} :: c in components && c.output.Some? ==>
          a.components[c.output.value.id] == Row(d, c, m[c.key], current))
  }

  /** `a` is the artifact for the combined evaluations `m`. */
  ghost predicate Presents(p: Policy, inputs: Inputs, moment: Moment, m: map<Key, Evaluation>, a: Artifact)
    requires ValidTimes(p.times) && m.Keys == Keys(p.components) && p.root in m
  {
    && Published(p.times, p.disclosure, p.components, p.root, moment.generatedAtUnixMs, m, a)
    && a.policyDigest == DisclosureSurface(p)
    && a.basisDigest == if p.disclosure.includeBasisDigest then Some(BasisOf(p, inputs, moment.monotonicNowNs)) else None
  }

  function BasisOf(p: Policy, inputs: Inputs, nowNs: int): Basis {
    Basis(p, inputs,
          map id | id in inputs.support ::
            var left := UsableRemainingMs(inputs.support[id], nowNs); if left.Some? then left.value else 0)
  }

  ghost predicate Projects(p: Policy, inputs: Inputs, moment: Moment, a: Artifact) {
    && WellFormed(p)
    && exists direct, m ::
         Evaluated(p, inputs, moment.monotonicNowNs, direct, m) && Presents(p, inputs, moment, m, a)
  }

  /** One row for each declared output. */
  ghost predicate RowsOf(d: Disclosure, components: seq<Component>, m: map<Key, Evaluation>, current: bool,
                         rows: map<string, ProjectedComponent>)
    requires forall c :: c in components ==> c.key in m
  {
    && rows.Keys == OutputIds(components)
    && forall c {:trigger rows[c.output.value.id]} :: c in components && c.output.Some? ==>
         rows[c.output.value.id] == Row(d, c, m[c.key], current)
  }

  lemma RowsAppend(d: Disclosure, components: seq<Component>, c: Component, m: map<Key, Evaluation>, current: bool,
                   rows: map<string, ProjectedComponent>)
    requires forall b :: b in components + [c] ==> b.key in m
    requires OutputsDistinct(components) && OutputsDistinct(components + [c])
    requires (forall b :: b in components ==> b.key in m) && RowsOf(d, components, m, current, rows)
    ensures c in components + [c] && RowsOf(d, components + [c], m, current,
      if c.output.Some? then rows[c.output.value.id := Row(d, c, m[c.key], current)] else rows)
  {
    OutputsDistinctStep(components, c);
    assert (components + [c])[|components|] == c;
    assert forall b :: b in components && b.output.Some? ==> b.output.value.id in OutputIds(components);
  }

  lemma OutputsDistinctPrefix(components: seq<Component>, i: nat)
    requires OutputsDistinct(components) && i <= |components|
    ensures OutputsDistinct(components[..i])
  {
  }

  method Rows(d: Disclosure, components: seq<Component>, m: map<Key, Evaluation>, current: bool)
    returns (rows: map<string, ProjectedComponent>)
    requires m.Keys == Keys(components) && OutputsDistinct(components)
    ensures RowsOf(d, components, m, current, rows)
  {
    rows := map[];
    var i := 0;
    assert forall c :: c in components ==> c.key in m;
    while i < |components|
      invariant 0 <= i <= |components|
      invariant RowsOf(d, components[..i], m, current, rows)
    {
      var c := components[i];
      assert components[..i + 1] == components[..i] + [c];
      OutputsDistinctPrefix(components, i);
      OutputsDistinctPrefix(components, i + 1);
      RowsAppend(d, components[..i], c, m, current, rows);
      if c.output.Some? {
        rows := rows[c.output.value.id := Row(d, c, m[c.key], current)];
      }
      i := i + 1;
    }
    assert components[..i] == components;
  }

  method EvaluateAll(components: seq<Component>, inputs: Inputs, nowNs: int) returns (direct: map<Key, Evaluation>)
    requires KeysOrdered(components)
    ensures direct.Keys == Keys(components)
    ensures forall c :: c in components ==> DirectlyEvaluates(c, inputs, nowNs, direct[c.key])
  {
    direct := map[];
    var i := 0;
    while i < |components|
      invariant 0 <= i <= |components|
      invariant direct.Keys == Keys(components[..i])
      invariant forall j :: 0 <= j < i ==> DirectlyEvaluates(components[j], inputs, nowNs, direct[components[j].key])
    {
      var c := components[i];
      assert components[..i + 1] == components[..i] + [c];
      KeysAppend(components[..i], c);
      var e := EvaluateDirect(c, inputs, nowNs);
      forall j | 0 <= j < i
        ensures components[j].key != c.key
      {
        if components[j].key == c.key {
          KeysDistinct(components, j, i);
        }
      }
      direct := direct[c.key := e];
      i := i + 1;
    }
    assert components[..i] == components;
  }

  method Present(p: Policy, inputs: Inputs, moment: Moment, m: map<Key, Evaluation>) returns (a: Artifact)
    requires ValidTimes(p.times) && OutputsDistinct(p.components) && m.Keys == Keys(p.components) && p.root in m
    ensures Presents(p, inputs, moment, m, a)
  {
    var minimum := MinimumSupport(p.components, m);
    var generatedAt := FloorTime(moment.generatedAtUnixMs, p.times.timestampGranularityMs);
    var freshUntil := FreshUntil(p.times, minimum, moment.generatedAtUnixMs);
    var current := freshUntil > generatedAt;
    var rows := Rows(p.disclosure, p.components, m, current);
    var basis := if p.disclosure.includeBasisDigest then Some(BasisOf(p, inputs, moment.monotonicNowNs)) else None;
    a := Artifact(DisclosureSurface(p), generatedAt, freshUntil, p.times.admittedClockUncertaintyMs,
                  if current then m[p.root].state else Unknown, rows, basis);
  }

  /** Refuses exactly the invalid policies; otherwise presents the evaluation
      of the whole graph at the moment. */
  method Project(p: Policy, inputs: Inputs, moment: Moment) returns (r: Option<Artifact>)
    ensures r.Some? <==> ValidPolicy(p)
    ensures r.Some? ==> Projects(p, inputs, moment, r.value)
  {
    var ok := Validate(p);
    if !ok {
      return None;
    }
    var direct := EvaluateAll(p.components, inputs, moment.monotonicNowNs);
    var order := DependencyOrder(p.components, p.dependencies);
    var m := Propagate(p.dependencies, order, direct);
    var a := Present(p, inputs, moment, m);
    assert Evaluated(p, inputs, moment.monotonicNowNs, direct, m);
    r := Some(a);
  }
}
