/** The dependency graph of a policy: cycle detection and the depth-first order. */
module DependencyGraph {
  import opened Common
  import opened StatusModel

  ghost predicate HasEdge(edges: seq<Edge>, a: Key, b: Key) {
    exists e :: e in edges && e.parent == a && e.dependency == b
  }

  /** A nonempty sequence of nodes, each depending on the next. */
  ghost predicate Walk(edges: seq<Edge>, w: seq<Key>) {
    |w| > 0 && forall i, j :: 0 <= i && j == i + 1 < |w| ==> HasEdge(edges, w[i], w[j])
  }

  ghost predicate Cycle(edges: seq<Edge>, w: seq<Key>) {
    Walk(edges, w) && |w| > 1 && w[0] == w[|w| - 1]
  }

  ghost predicate Acyclic(edges: seq<Edge>) {
    forall w :: !Cycle(edges, w)
  }

  /** Every endpoint is a declared component key. */
  ghost predicate Closed(edges: seq<Edge>, keys: set<Key>) {
    forall e :: e in edges ==> e.parent in keys && e.dependency in keys
  }

  /** Everything a listed node depends on is listed before it. */
  ghost predicate DependenciesFirst(edges: seq<Edge>, order: seq<Key>) {
    forall i, d :: 0 <= i < |order| && HasEdge(edges, order[i], d) ==> d in order[..i]
  }

  /** `order` lists exactly `keys`, each once, dependencies first. */
  ghost predicate Topological(edges: seq<Edge>, keys: set<Key>, order: seq<Key>) {
    Distinct(order) && Elements(order) == keys && DependenciesFirst(edges, order)
  }

  /** Following edges from `order[p]` only ever leads to earlier entries. */
  lemma {:induction false} WalkDescends(edges: seq<Edge>, order: seq<Key>, w: seq<Key>, p: nat)
    requires DependenciesFirst(edges, order) && Walk(edges, w) && |w| > 1
    requires p < |order| && w[0] == order[p]
    ensures w[|w| - 1] in order[..p]
    decreases |w|
  {
    assert HasEdge(edges, w[0], w[1]);
    var q :| 0 <= q < p && order[q] == w[1];
    if |w| > 2 {
      var tail := w[1..];
      forall i, i' | 0 <= i && i' == i + 1 < |tail|
        ensures HasEdge(edges, tail[i], tail[i'])
      {
        assert HasEdge(edges, w[i + 1], w[i + 2]);
      }
      WalkDescends(edges, order, tail, q);
    }
  }

  lemma OrderExcludesCycles(edges: seq<Edge>, keys: set<Key>, order: seq<Key>)
    requires Closed(edges, keys) && Topological(edges, keys, order)
    ensures Acyclic(edges)
  {
    forall w | Cycle(edges, w)
      ensures false
    {
      assert HasEdge(edges, w[0], w[1]);
      assert w[0] in Elements(order);
      var p :| 0 <= p < |order| && order[p] == w[0];
      WalkDescends(edges, order, w, p);
    }
  }

  /** A walk that comes back to a node closes a cycle. */
  lemma RepeatClosesCycle(edges: seq<Edge>, w: seq<Key>, i: nat, j: nat)
    requires Walk(edges, w) && i < j < |w| && w[i] == w[j]
    ensures !Acyclic(edges)
  {
    var c := w[i..j + 1];
    forall x, x' | 0 <= x && x' == x + 1 < |c|
      ensures HasEdge(edges, c[x], c[x'])
    {
      assert HasEdge(edges, w[i + x], w[i + x + 1]);
    }
    assert Cycle(edges, c);
  }

  /** Reaching a node already on the stack closes a cycle. */
  lemma StackClosesCycle(edges: seq<Edge>, stack: seq<Key>, node: Key)
    requires Walk(edges, stack + [node]) && node in stack
    ensures !Acyclic(edges)
  {
    var k :| 0 <= k < |stack| && stack[k] == node;
    RepeatClosesCycle(edges, stack + [node], k, |stack|);
  }

  lemma WalkExtends(edges: seq<Edge>, w: seq<Key>, d: Key)
    requires Walk(edges, w) && HasEdge(edges, w[|w| - 1], d)
    ensures Walk(edges, w + [d])
  {
    var longer := w + [d];
    forall i, j | 0 <= i && j == i + 1 < |longer|
      ensures HasEdge(edges, longer[i], longer[j])
    {
      assert j < |w| ==> HasEdge(edges, w[i], w[j]);
    }
  }

  /** Appending a node whose dependencies are all listed keeps the order. */
  lemma AppendKeepsOrder(edges: seq<Edge>, order: seq<Key>, node: Key)
    requires DependenciesFirst(edges, order)
    requires forall d :: HasEdge(edges, node, d) ==> d in order
    ensures DependenciesFirst(edges, order + [node])
  {
    var longer := order + [node];
    forall i, d | 0 <= i < |longer| && HasEdge(edges, longer[i], d)
      ensures d in longer[..i]
    {
      if i < |order| {
        assert longer[..i] == order[..i];
      } else {
        assert longer[..i] == order;
      }
    }
  }

  // ----- cycle detection ------------------------------------------------

  /** What one finished visit established: `order` is the finishing order of
      the visited nodes. */
  ghost predicate Settled(edges: seq<Edge>, visiting: set<Key>, visited: set<Key>, order: seq<Key>) {
    visited == Elements(order) && Distinct(order) && DependenciesFirst(edges, order) && visiting !! visited
  }

  method VisitAcyclic(node: Key, edges: seq<Edge>, visiting: set<Key>, visited: set<Key>,
                      ghost keys: set<Key>, ghost stack: seq<Key>, ghost order: seq<Key>)
    returns (ok: bool, visited': set<Key>, ghost order': seq<Key>)
    requires Closed(edges, keys) && node in keys && visiting <= keys
    requires visiting == Elements(stack) && Walk(edges, stack + [node])
    requires Settled(edges, visiting, visited, order) && visited <= keys
    ensures ok ==> Settled(edges, visiting, visited', order') && visited + {node} <= visited' <= keys
    ensures !ok ==> !Acyclic(edges)
    decreases keys - visiting
  {
    visited', order' := visited, order;
    if node in visited {
      return true, visited', order';
    }
    if node in visiting {
      StackClosesCycle(edges, stack, node);
      return false, visited', order';
    }
    var deeper := visiting + {node};
    var i := 0;
    while i < |edges|
      invariant 0 <= i <= |edges|
      invariant Settled(edges, deeper, visited', order') && visited <= visited' <= keys
      invariant forall j :: 0 <= j < i && edges[j].parent == node ==> edges[j].dependency in visited'
    {
      if edges[i].parent == node {
        assert HasEdge(edges, node, edges[i].dependency);
        WalkExtends(edges, stack + [node], edges[i].dependency);
        assert Elements(stack + [node]) == deeper;
        ok, visited', order' := VisitAcyclic(edges[i].dependency, edges, deeper, visited', keys, stack + [node], order');
        if !ok {
          return;
        }
      }
      i := i + 1;
    }
    AppendKeepsOrder(edges, order', node);
    visited', order' := visited' + {node}, order' + [node];
    ok := true;
  }

  /** Accepts exactly the graphs without a directed cycle. */
  method ValidateAcyclic(components: seq<Component>, edges: seq<Edge>) returns (ok: bool)
    requires Closed(edges, Keys(components))
    ensures ok <==> Acyclic(edges)
  {
    ghost var keys := Keys(components);
    var visited: set<Key> := {};
    ghost var order: seq<Key> := [];
    var i := 0;
    while i < |components|
      invariant 0 <= i <= |components|
      invariant Settled(edges, {}, visited, order) && visited <= keys
      invariant forall j :: 0 <= j < i ==> components[j].key in visited
    {
      ok, visited, order := VisitAcyclic(components[i].key, edges, {}, visited, keys, [], order);
      if !ok {
        return;
      }
      i := i + 1;
    }
    assert Topological(edges, keys, order);
    OrderExcludesCycles(edges, keys, order);
    ok := true;
  }

  // ----- the depth-first order ------------------------------------------

  /** `visited` is what is output plus what is still on the stack. */
  ghost predicate Ordered(edges: seq<Edge>, visited: set<Key>, output: seq<Key>, stack: seq<Key>) {
    visited == Elements(output) + Elements(stack) && Elements(output) !! Elements(stack) &&
    Distinct(output) && DependenciesFirst(edges, output)
  }

  method VisitOrder(key: Key, edges: seq<Edge>, visited: set<Key>, output: seq<Key>,
                    ghost keys: set<Key>, ghost stack: seq<Key>)
    returns (visited': set<Key>, output': seq<Key>)
    requires Closed(edges, keys) && Acyclic(edges) && key in keys && visited <= keys
    requires Walk(edges, stack + [key]) && Ordered(edges, visited, output, stack)
    ensures Ordered(edges, visited', output', stack) && visited <= visited' <= keys
    ensures output <= output' && key in output'
    decreases keys - visited
  {
    visited', output' := visited, output;
    if key in visited {
      if key in stack {
        StackClosesCycle(edges, stack, key);
      }
      return;
    }
    visited' := visited' + {key};
    assert Elements(stack + [key]) == Elements(stack) + {key};
    var i := 0;
    while i < |edges|
      invariant 0 <= i <= |edges|
      invariant Ordered(edges, visited', output', stack + [key])
      invariant visited + {key} <= visited' <= keys && output <= output'
      invariant forall j :: 0 <= j < i && edges[j].parent == key ==> edges[j].dependency in output'
    {
      if edges[i].parent == key {
        assert HasEdge(edges, key, edges[i].dependency);
        WalkExtends(edges, stack + [key], edges[i].dependency);
        visited', output' := VisitOrder(edges[i].dependency, edges, visited', output', keys, stack + [key]);
      }
      i := i + 1;
    }
    AppendKeepsOrder(edges, output', key);
    output' := output' + [key];
  }

  /** Lists every component once, dependencies first. */
  method DependencyOrder(components: seq<Component>, edges: seq<Edge>) returns (output: seq<Key>)
    requires Closed(edges, Keys(components)) && Acyclic(edges)
    ensures Topological(edges, Keys(components), output)
  {
    ghost var keys := Keys(components);
    var visited: set<Key> := {};
    output := [];
    var i := 0;
    while i < |components|
      invariant 0 <= i <= |components|
      invariant Ordered(edges, visited, output, []) && visited <= keys
      invariant forall j :: 0 <= j < i ==> components[j].key in output
    {
      visited, output := VisitOrder(components[i].key, edges, visited, output, keys, []);
      i := i + 1;
    }
  }

  // ----- acyclic graphs can be ordered -----------------------------------

  /** More places than values: some value repeats. */
  lemma {:induction false} Pigeonhole(w: seq<Key>, keys: set<Key>)
    requires |w| > |keys| && forall x :: x in w ==> x in keys
    ensures exists i, j :: 0 <= i < j < |w| && w[i] == w[j]
    decreases |w|
  {
    var last := w[|w| - 1];
    if i :| 0 <= i < |w| - 1 && w[i] == last {
      assert w[i] == w[|w| - 1];
    } else {
      var front := w[..|w| - 1];
      assert |keys - {last}| == |keys| - 1;
      Pigeonhole(front, keys - {last});
      var i, j :| 0 <= i < j < |front| && front[i] == front[j];
      assert w[i] == w[j];
    }
  }

  ghost predicate DependsInto(edges: seq<Edge>, k: Key, rest: set<Key>) {
    exists d :: d in rest && HasEdge(edges, k, d)
  }

  /** When every unlisted node depends on an unlisted node, walks never end. */
  lemma {:induction false} EndlessWalk(edges: seq<Edge>, rest: set<Key>, n: nat) returns (w: seq<Key>)
    requires rest != {} && forall k {:trigger DependsInto(edges, k, rest)} :: k in rest ==> DependsInto(edges, k, rest)
    ensures |w| == n + 1 && Walk(edges, w) && forall x :: x in w ==> x in rest
  {
    if n == 0 {
      var k :| k in rest;
      w := [k];
    } else {
      var shorter := EndlessWalk(edges, rest, n - 1);
      var last := shorter[n - 1];
      assert DependsInto(edges, last, rest);
      var d :| d in rest && HasEdge(edges, last, d);
      WalkExtends(edges, shorter, d);
      w := shorter + [d];
    }
  }

  /** In an acyclic graph some unlisted node has all its dependencies listed. */
  lemma NextNode(edges: seq<Edge>, keys: set<Key>, order: seq<Key>) returns (k: Key)
    requires Closed(edges, keys) && Acyclic(edges) && Elements(order) < keys
    ensures k in keys && k !in order && forall d :: HasEdge(edges, k, d) ==> d in order
  {
    var rest := keys - Elements(order);
    if k' :| k' in rest && !DependsInto(edges, k', rest) {
      k := k';
      forall d | HasEdge(edges, k, d)
        ensures d in order
      {
        assert d in keys;
      }
    } else {
      var w := EndlessWalk(edges, rest, |rest|);
      Pigeonhole(w, rest);
      var i, j :| 0 <= i < j < |w| && w[i] == w[j];
      RepeatClosesCycle(edges, w, i, j);
    }
  }

  lemma {:induction false} ExtendOrder(edges: seq<Edge>, keys: set<Key>, order: seq<Key>) returns (full: seq<Key>)
    requires Closed(edges, keys) && Acyclic(edges)
    requires Distinct(order) && Elements(order) <= keys && DependenciesFirst(edges, order)
    ensures Topological(edges, keys, full)
    decreases keys - Elements(order)
  {
    if Elements(order) == keys {
      full := order;
    } else {
      var k := NextNode(edges, keys, order);
      AppendKeepsOrder(edges, order, k);
      assert Elements(order + [k]) == Elements(order) + {k};
      full := ExtendOrder(edges, keys, order + [k]);
    }
  }

  /** A closed graph has a dependencies-first order exactly when it has no cycle. */
  lemma AcyclicIffOrderable(edges: seq<Edge>, keys: set<Key>)
    requires Closed(edges, keys)
    ensures Acyclic(edges) <==> exists order :: Topological(edges, keys, order)
  {
    if Acyclic(edges) {
      var order := ExtendOrder(edges, keys, []);
    }
    if order :| Topological(edges, keys, order) {
      OrderExcludesCycles(edges, keys, order);
    }
  }
}
