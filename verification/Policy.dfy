/** Validation of a projection policy. */
module PolicyValidation {
  import opened Common
  import opened StatusModel
  import opened DependencyGraph

  predicate StrictlyOrdered(s: seq<string>) {
    forall i, j :: 0 <= i < j < |s| ==> Less(s[i], s[j])
  }

  predicate EdgeLess(a: Edge, b: Edge) {
    Less(a.parent, b.parent) || (a.parent == b.parent && Less(a.dependency, b.dependency))
  }

  ghost predicate EdgesOrdered(edges: seq<Edge>) {
    forall i, j :: 0 <= i < j < |edges| ==> EdgeLess(edges[i], edges[j])
  }

  predicate ValidComponent(c: Component) {
    && (forall i, j :: 0 <= i < j < |c.requiredFacts| ==> Less(c.requiredFacts[i].factId, c.requiredFacts[j].factId))
    && (forall i :: 0 <= i < |c.requiredFacts| ==> c.requiredFacts[i].class_.MayEstablishState())
    && StrictlyOrdered(c.maintenanceIds)
  }

  /** Informational edges carry no effect; state-bearing ones never ignore an
      unknown dependency. */
  predicate ValidBehavior(e: Edge) {
    if e.kind == Informational then e.behavior == Behavior(Ignore, Ignore, Ignore, Ignore)
    else e.behavior.onUnknown != Ignore
  }

  predicate ValidEdge(e: Edge, keys: set<Key>) {
    e.parent != e.dependency && e.parent in keys && e.dependency in keys && ValidBehavior(e)
  }

  predicate ValidTimes(t: Times) {
    t.maximumAgeMs > 0 && t.timestampGranularityMs > 0 && t.admittedClockUncertaintyMs < t.maximumAgeMs
  }

  ghost predicate KeysOrdered(components: seq<Component>) {
    forall i, j :: 0 <= i < j < |components| ==> Less(components[i].key, components[j].key)
  }

  /** No output id is used twice. */
  ghost predicate OutputsDistinct(components: seq<Component>) {
    forall i, j :: 0 <= i < j < |components| && components[i].output.Some? && components[j].output.Some?
      ==> components[i].output.value.id != components[j].output.value.id
  }

  ghost function OutputIds(components: seq<Component>): set<string> {
    set c | c in components && c.output.Some? :: c.output.value.id
  }

  /** What evaluation and presentation rely on. */
  ghost predicate WellFormed(p: Policy) {
    && ValidTimes(p.times)
    && (exists c :: c in p.components && c.key == p.root && c.output.Some?)
    && OutputsDistinct(p.components)
    && Closed(p.dependencies, Keys(p.components))
    && (forall e :: e in p.dependencies ==> ValidBehavior(e))
    && Acyclic(p.dependencies)
  }

  /** Canonical order and size, which validation asks for on top. */
  ghost predicate Canonical(p: Policy) {
    && 0 < |p.components| <= MAX_COMPONENTS && |p.dependencies| <= MAX_DEPENDENCIES
    && KeysOrdered(p.components)
    && (forall c :: c in p.components ==> ValidComponent(c))
    && EdgesOrdered(p.dependencies)
    && (forall e :: e in p.dependencies ==> e.parent != e.dependency)
  }

  ghost predicate ValidPolicy(p: Policy) {
    WellFormed(p) && Canonical(p)
  }

  /** Strict order makes component keys distinct. */
  lemma KeysDistinct(components: seq<Component>, i: nat, j: nat)
    requires KeysOrdered(components)
    requires i < |components| && j < |components| && components[i].key == components[j].key
    ensures i == j
  {
    LessIrreflexive(components[i].key);
  }

  lemma OutputsDistinctStep(components: seq<Component>, c: Component)
    requires OutputsDistinct(components)
    ensures OutputsDistinct(components + [c]) <==> !(c.output.Some? && c.output.value.id in OutputIds(components))
    ensures OutputIds(components + [c]) ==
            OutputIds(components) + if c.output.Some? then {c.output.value.id} else {}
  {
    var longer := components + [c];
    if c.output.Some? && c.output.value.id in OutputIds(components) {
      var i :| 0 <= i < |components| && components[i].output.Some? && components[i].output.value.id == c.output.value.id;
      assert longer[i] == components[i] && longer[|components|] == c;
    } else {
      forall i, j | 0 <= i < j < |longer| && longer[i].output.Some? && longer[j].output.Some?
        ensures longer[i].output.value.id != longer[j].output.value.id
      {
        assert components[i] in components;
      }
    }
  }

  ghost predicate ValidComponents(components: seq<Component>) {
    KeysOrdered(components) && OutputsDistinct(components) && forall c :: c in components ==> ValidComponent(c)
  }

  /** Comparing with the last key alone keeps the whole list ordered. */
  lemma KeysOrderedStep(components: seq<Component>, c: Component)
    requires KeysOrdered(components)
    ensures KeysOrdered(components + [c]) <==> components == [] || Less(components[|components| - 1].key, c.key)
  {
    var n, longer := |components|, components + [c];
    if n > 0 {
      assert longer[n - 1] == components[n - 1] && longer[n] == c;
      if Less(components[n - 1].key, c.key) {
        forall i | 0 <= i < n - 1
          ensures Less(components[i].key, c.key)
        {
          LessTransitive(components[i].key, components[n - 1].key, c.key);
        }
      }
    }
  }

  lemma ValidComponentsStep(components: seq<Component>, c: Component)
    requires ValidComponents(components)
    ensures ValidComponents(components + [c]) <==>
      && (components == [] || Less(components[|components| - 1].key, c.key))
      && ValidComponent(c)
      && !(c.output.Some? && c.output.value.id in OutputIds(components))
  {
    KeysOrderedStep(components, c);
    OutputsDistinctStep(components, c);
    var longer := components + [c];
    assert longer[|components|] in longer && forall x :: x in components ==> x in longer;
    assert forall x :: x in longer <==> x in components || x == c;
  }

  lemma InvalidPrefix(components: seq<Component>, i: nat)
    requires i <= |components| && !ValidComponents(components[..i])
    ensures !ValidComponents(components)
  {
    assert forall c :: c in components[..i] ==> c in components;
  }

  /** What the loop knows of the components it has accepted. */
  ghost predicate Scanned(prefix: seq<Component>, keys: set<Key>, outputIds: set<string>, prior: Option<Key>) {
    && keys == Keys(prefix) && outputIds == OutputIds(prefix) && ValidComponents(prefix)
    && prior == if prefix == [] then None else Some(prefix[|prefix| - 1].key)
  }

  predicate Refuses(c: Component, outputIds: set<string>, prior: Option<Key>) {
    (prior.Some? && !Less(prior.value, c.key)) || !ValidComponent(c) || (c.output.Some? && c.output.value.id in outputIds)
  }

  lemma ScannedStep(prefix: seq<Component>, c: Component, keys: set<Key>, outputIds: set<string>, prior: Option<Key>)
    requires Scanned(prefix, keys, outputIds, prior)
    ensures Refuses(c, outputIds, prior) <==> !ValidComponents(prefix + [c])
    ensures !Refuses(c, outputIds, prior) ==>
      Scanned(prefix + [c], keys + {c.key}, outputIds + if c.output.Some? then {c.output.value.id} else {}, Some(c.key))
  {
    ValidComponentsStep(prefix, c);
    OutputsDistinctStep(prefix, c);
    KeysAppend(prefix, c);
  }

  method ValidateComponents(components: seq<Component>) returns (ok: bool, keys: set<Key>)
    ensures ok ==> keys == Keys(components)
    ensures ok <==> ValidComponents(components)
  {
    keys := {};
    var outputIds: set<string> := {};
    var prior: Option<Key> := None;
    var i := 0;
    while i < |components|
      invariant 0 <= i <= |components|
      invariant Scanned(components[..i], keys, outputIds, prior)
    {
      var c := components[i];
      assert components[..i + 1] == components[..i] + [c];
      ScannedStep(components[..i], c, keys, outputIds, prior);
      if Refuses(c, outputIds, prior) {
        InvalidPrefix(components, i + 1);
        return false, keys;
      }
      prior := Some(c.key);
      if c.output.Some? {
        outputIds := outputIds + {c.output.value.id};
      }
      keys := keys + {c.key};
      i := i + 1;
    }
    assert components[..i] == components;
    ok := true;
  }

  method ValidateDependencies(edges: seq<Edge>, keys: set<Key>) returns (ok: bool)
    ensures ok <==> (forall e :: e in edges ==> ValidEdge(e, keys)) && EdgesOrdered(edges)
  {
    var prior: Option<Edge> := None;
    var i := 0;
    while i < |edges|
      invariant 0 <= i <= |edges|
      invariant prior == if i == 0 then None else Some(edges[i - 1])
      invariant forall n :: 0 <= n < i ==> ValidEdge(edges[n], keys)
      invariant EdgesOrdered(edges[..i])
    {
      var e := edges[i];
      if !ValidEdge(e, keys) || (prior.Some? && !EdgeLess(prior.value, e)) {
        return false;
      }
      forall j | 0 <= j < i
        ensures EdgeLess(edges[j], e)
      {
        if j < i - 1 {
          assert edges[..i][j] == edges[j] && edges[..i][i - 1] == edges[i - 1];
          EdgeLessTransitive(edges[j], edges[i - 1], e);
        }
      }
      prior := Some(e);
      i := i + 1;
    }
    ok := true;
  }

  /** Accepts exactly the valid policies. */
  method Validate(p: Policy) returns (ok: bool)
    ensures ok <==> ValidPolicy(p)
  {
    if !ValidTimes(p.times) || p.components == [] || |p.components| > MAX_COMPONENTS || |p.dependencies| > MAX_DEPENDENCIES {
      return false;
    }
    var keys;
    ok, keys := ValidateComponents(p.components);
    if !ok {
      return;
    }
    if !exists c :: c in p.components && c.key == p.root && c.output.Some? {
      return false;
    }
    ok := ValidateDependencies(p.dependencies, keys);
    if !ok {
      return;
    }
    ok := ValidateAcyclic(p.components, p.dependencies);
  }

  /** What validation accepts, in full. */
  lemma AcceptedIff(p: Policy)
    ensures ValidPolicy(p) <==>
      && 0 < p.times.maximumAgeMs && 0 < p.times.timestampGranularityMs
      && p.times.admittedClockUncertaintyMs < p.times.maximumAgeMs
      && 0 < |p.components| <= 256 && |p.dependencies| <= 1024
      && (exists c :: c in p.components && c.key == p.root && c.output.Some?)
      && (forall i, j :: 0 <= i < j < |p.components| ==> Less(p.components[i].key, p.components[j].key))
      && (forall i, j :: 0 <= i < j < |p.components| && p.components[i].output.Some? && p.components[j].output.Some? ==>
            p.components[i].output.value.id != p.components[j].output.value.id)
      && (forall c, i, j :: c in p.components && 0 <= i < j < |c.requiredFacts| ==>
            Less(c.requiredFacts[i].factId, c.requiredFacts[j].factId))
      && (forall c, i :: c in p.components && 0 <= i < |c.requiredFacts| ==> c.requiredFacts[i].class_.MayEstablishState())
      && (forall c, i, j :: c in p.components && 0 <= i < j < |c.maintenanceIds| ==> Less(c.maintenanceIds[i], c.maintenanceIds[j]))
      && (forall i, j :: 0 <= i < j < |p.dependencies| ==>
            Less(p.dependencies[i].parent, p.dependencies[j].parent) ||
            (p.dependencies[i].parent == p.dependencies[j].parent && Less(p.dependencies[i].dependency, p.dependencies[j].dependency)))
      && (forall e :: e in p.dependencies ==>
            && e.parent != e.dependency && e.parent in Keys(p.components) && e.dependency in Keys(p.components)
            && (e.kind == Informational ==> e.behavior == Behavior(Ignore, Ignore, Ignore, Ignore))
            && (e.kind != Informational ==> e.behavior.onUnknown != Ignore))
      && Acyclic(p.dependencies)
  {
  }

  // ----- the canonical form -------------------------------------------------

  ghost predicate Ascending<T(!new)>(less: (T, T) -> bool, s: seq<T>) {
    forall i, j :: 0 <= i < j < |s| ==> less(s[i], s[j])
  }

  ghost predicate StrictOrder<T(!new)>(less: (T, T) -> bool) {
    (forall x :: !less(x, x)) && forall x, y :: less(x, y) ==> !less(y, x)
  }

  /** There is one way to put elements in strictly ascending order. */
  lemma {:induction false} AscendingUnique<T(!new)>(less: (T, T) -> bool, s: seq<T>, t: seq<T>)
    requires StrictOrder(less) && Ascending(less, s) && Ascending(less, t) && Elements(s) == Elements(t)
    ensures s == t
    decreases |s|
  {
    EmptyTogether(s, t);
    EmptyTogether(t, s);
    if s != [] {
      SameFirst(less, s, t);
      AscendingRest(less, s);
      AscendingRest(less, t);
      AscendingUnique(less, s[1..], t[1..]);
      assert s == [s[0]] + s[1..] && t == [t[0]] + t[1..];
    }
  }

  lemma EmptyTogether<T(!new)>(s: seq<T>, t: seq<T>)
    requires Elements(s) == Elements(t)
    ensures s != [] ==> t != []
  {
    if s != [] {
      assert s[0] in Elements(s);
    }
  }

  lemma SameFirst<T(!new)>(less: (T, T) -> bool, s: seq<T>, t: seq<T>)
    requires StrictOrder(less) && Ascending(less, s) && Ascending(less, t) && Elements(s) == Elements(t) && s != [] && t != []
    ensures s[0] == t[0]
  {
    var a, b := s[0], t[0];
    assert a in Elements(t) && b in Elements(s);
    var i :| 0 <= i < |t| && t[i] == a;
    var j :| 0 <= j < |s| && s[j] == b;
    assert (i == 0 || less(b, a)) && (j == 0 || less(a, b));
  }

  lemma AscendingRest<T(!new)>(less: (T, T) -> bool, s: seq<T>)
    requires StrictOrder(less) && Ascending(less, s) && s != []
    ensures Ascending(less, s[1..]) && Elements(s[1..]) == Elements(s) - {s[0]}
  {
    forall x
      ensures x in s[1..] <==> x in s && x != s[0]
    {
      if x in s && x != s[0] {
        var i :| 0 <= i < |s| && s[i] == x;
        assert s[1..][i - 1] == x;
      }
      if x in s[1..] {
        var i :| 0 <= i < |s| - 1 && s[1..][i] == x;
        assert less(s[0], s[i + 1]);
      }
    }
  }

  lemma LessIsStrict(a: string, b: string)
    ensures !Less(a, a) && (Less(a, b) ==> !Less(b, a))
  {
    LessIrreflexive(a);
    if Less(a, b) && Less(b, a) {
      LessTransitive(a, b, a);
    }
  }

  /** A valid policy is written in one way: the same declarations in another order are refused. */
  lemma CanonicalUnique(p: Policy, q: Policy)
    requires ValidPolicy(p) && ValidPolicy(q)
    requires Elements(p.components) == Elements(q.components) && Elements(p.dependencies) == Elements(q.dependencies)
    ensures p.components == q.components && p.dependencies == q.dependencies
  {
    var byKey := (a: Component, b: Component) => Less(a.key, b.key);
    var byEnds := (a: Edge, b: Edge) => EdgeLess(a, b);
    forall a: Component, b: Component
      ensures !byKey(a, a) && (byKey(a, b) ==> !byKey(b, a))
    {
      LessIsStrict(a.key, b.key);
    }
    forall a: Edge, b: Edge
      ensures !byEnds(a, a) && (byEnds(a, b) ==> !byEnds(b, a))
    {
      LessIsStrict(a.parent, b.parent);
      LessIsStrict(a.dependency, b.dependency);
    }
    AscendingUnique(byKey, p.components, q.components);
    AscendingUnique(byEnds, p.dependencies, q.dependencies);
  }

  // ----- dropping the informational edges --------------------------------

  function StateBearing(edges: seq<Edge>): (r: seq<Edge>)
    ensures forall e :: e in r <==> e in edges && e.kind != Informational
  {
    if edges == [] then []
    else
      var last := edges[|edges| - 1];
      StateBearing(edges[..|edges| - 1]) + if last.kind == Informational then [] else [last]
  }

  lemma EdgeLessTransitive(a: Edge, b: Edge, c: Edge)
    requires EdgeLess(a, b) && EdgeLess(b, c)
    ensures EdgeLess(a, c)
  {
    if Less(a.parent, b.parent) && Less(b.parent, c.parent) {
      LessTransitive(a.parent, b.parent, c.parent);
    } else if a.parent == b.parent == c.parent {
      LessTransitive(a.dependency, b.dependency, c.dependency);
    }
  }

  lemma {:induction false} StateBearingOrdered(edges: seq<Edge>)
    requires EdgesOrdered(edges)
    ensures EdgesOrdered(StateBearing(edges)) && |StateBearing(edges)| <= |edges|
  {
    if edges != [] {
      var front, last := edges[..|edges| - 1], edges[|edges| - 1];
      StateBearingOrdered(front);
      forall e | e in StateBearing(front)
        ensures EdgeLess(e, last)
      {
        var i :| 0 <= i < |front| && front[i] == e;
        assert edges[i] == e;
      }
    }
  }

  lemma SubgraphAcyclic(edges: seq<Edge>, sub: seq<Edge>)
    requires Acyclic(edges) && forall e :: e in sub ==> e in edges
    ensures Acyclic(sub)
  {
    forall w | Cycle(sub, w)
      ensures false
    {
      forall i, j | 0 <= i && j == i + 1 < |w|
        ensures HasEdge(edges, w[i], w[j])
      {
        assert HasEdge(sub, w[i], w[j]);
      }
      assert Cycle(edges, w);
    }
  }

  /** A valid policy stays valid without its informational edges. */
  lemma WithoutInformationalValid(p: Policy)
    requires ValidPolicy(p)
    ensures ValidPolicy(p.(dependencies := StateBearing(p.dependencies)))
  {
    var q := p.(dependencies := StateBearing(p.dependencies));
    StateBearingOrdered(p.dependencies);
    SubgraphAcyclic(p.dependencies, q.dependencies);
  }
}
