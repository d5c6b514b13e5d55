/** Event identities over runs in which settled conditions are forgotten. */
module EventIdentity {
  import opened Common
  import opened Digits
  import opened Lifecycle
  import opened LifecycleLaws

  datatype Key = Key(site: string, component: string, rule: string, targetClass: Option<string>)

  function EventPrefix(key: Key): string {
    key.site + "-" + key.rule + if key.targetClass.Some? then "-" + key.targetClass.value else ""
  }

  function ActionName(action: Action): string {
    match action case Trigger => "trigger" case Resolve => "resolve"
  }

  function IntegerText(n: int): string {
    if n < 0 then "-" + Decimal(-n) else Decimal(n)
  }

  function EventId(key: Key, action: Action, at: int): string {
    EventPrefix(key) + "-" + ActionName(action) + "-" + IntegerText(at)
  }

  /** A text that ends in digits is split where its last digits begin. */
  lemma TailUnique(p: string, d: string, q: string, e: string)
    requires p != "" && q != "" && !IsDigit(p[|p| - 1]) && !IsDigit(q[|q| - 1])
    requires AllDigits(d) && AllDigits(e) && p + d == q + e
    ensures p == q && d == e
  {
    var s := p + d;
    assert s[|p| - 1] == p[|p| - 1] && (q + e)[|q| - 1] == q[|q| - 1];
    DigitsAfter(p, d, |q| - 1);
    DigitsAfter(q, e, |p| - 1);
    assert |p| == |q|;
    assert p == s[..|p|] && q == (q + e)[..|q|] && d == s[|p|..] && e == (q + e)[|q|..];
  }

  lemma DigitsAfter(p: string, d: string, n: nat)
    requires AllDigits(d)
    ensures |p| <= n < |p + d| ==> IsDigit((p + d)[n])
  {
  }

  function Stem(key: Key, action: Action): string {
    EventPrefix(key) + "-" + ActionName(action) + "-"
  }

  function Sign(at: int): string {
    if at < 0 then "-" else ""
  }

  function Tail(at: int): (s: string)
    ensures AllDigits(s)
  {
    if at < 0 then Decimal(-at) else Decimal(at)
  }

  function Head(key: Key, action: Action, at: int): string {
    Stem(key, action) + Sign(at)
  }

  lemma HeadAndTail(key: Key, action: Action, at: int)
    ensures EventId(key, action, at) == Head(key, action, at) + Tail(at)
    ensures Head(key, action, at)[|Head(key, action, at)| - 1] == '-'
  {
    SignedText(at);
    JoinAssociates(Stem(key, action), Sign(at), Tail(at));
  }

  lemma SignedText(at: int)
    ensures IntegerText(at) == Sign(at) + Tail(at)
  {
  }

  lemma HeadUnique(k: Key, a: Action, s: int, l: Key, b: Action, t: int)
    requires Head(k, a, s) == Head(l, b, t)
    ensures EventPrefix(k) == EventPrefix(l) && a == b && (s < 0 <==> t < 0)
  {
    var h, g := Head(k, a, s), Head(l, b, t);
    assert h[|h| - 2] == (if s < 0 then '-' else ActionName(a)[6]);
    assert g[|g| - 2] == (if t < 0 then '-' else ActionName(b)[6]);
    var n := |EventPrefix(k)|;
    assert n == |EventPrefix(l)|;
    assert h[..n] == EventPrefix(k) && g[..n] == EventPrefix(l);
    assert h[n + 1] == ActionName(a)[0] && g[n + 1] == ActionName(b)[0];
  }

  /** Two transitions, of any two conditions, share an identity exactly when
      prefix, action and time agree. The prefix is site, rule and target class:
      conditions that differ in the component only are not told apart. */
  lemma SharedIdentities(k: Key, a: Action, s: int, l: Key, b: Action, t: int)
    ensures EventId(k, a, s) == EventId(l, b, t) <==> EventPrefix(k) == EventPrefix(l) && a == b && s == t
  {
    if EventId(k, a, s) == EventId(l, b, t) {
      HeadAndTail(k, a, s);
      HeadAndTail(l, b, t);
      TailUnique(Head(k, a, s), Tail(s), Head(l, b, t), Tail(t));
      HeadUnique(k, a, s, l, b, t);
    }
  }

  /** The component is no part of an identity, and the others are told apart: of
      site, rule and target class, two that agree fix the third. */
  lemma PrefixTells(k: Key, l: Key)
    ensures k.site == l.site && k.rule == l.rule && k.targetClass == l.targetClass ==> EventPrefix(k) == EventPrefix(l)
    ensures EventPrefix(k) == EventPrefix(l) && k.site == l.site && k.targetClass == l.targetClass ==> k.rule == l.rule
    ensures EventPrefix(k) == EventPrefix(l) && k.rule == l.rule && k.targetClass == l.targetClass ==> k.site == l.site
    ensures EventPrefix(k) == EventPrefix(l) && k.site == l.site && k.rule == l.rule ==> k.targetClass == l.targetClass
  {
    var c := if k.targetClass.Some? then "-" + k.targetClass.value else "";
    var d := if l.targetClass.Some? then "-" + l.targetClass.value else "";
    Middle(k.site + "-", k.rule, c, l.site + "-", l.rule, d);
    if k.site + "-" == l.site + "-" {
      assert k.site == (k.site + "-")[..|k.site|] && l.site == (l.site + "-")[..|l.site|];
    }
    if k.targetClass.Some? && l.targetClass.Some? && c == d {
      assert c[1..] == k.targetClass.value && d[1..] == l.targetClass.value;
    }
  }

  /** Of three joined texts, two that agree fix the third. */
  lemma Middle(a: string, b: string, c: string, x: string, y: string, z: string)
    ensures a + b + c == x + y + z && a == x && c == z ==> b == y
    ensures a + b + c == x + y + z && b == y && c == z ==> a == x
    ensures a + b + c == x + y + z && a == x && b == y ==> c == z
  {
    var s := a + b + c;
    assert s[|a|..|a| + |b|] == b && s[..|a|] == a && s[|a| + |b|..] == c;
    var t := x + y + z;
    assert t[|x|..|x| + |y|] == y && t[..|x|] == x && t[|x| + |y|..] == z;
  }

  /** An identity ends in the action's name and the time. */
  lemma IdentityEnds(key: Key, action: Action, at: int)
    ensures var id := EventId(key, action, at);
      var end := (if action == Trigger then "-trigger-" else "-resolve-") + IntegerText(at);
      |end| <= |id| && id[|id| - |end|..] == end && id[..|id| - |end|] == EventPrefix(key)
  {
    var p, t := EventPrefix(key), IntegerText(at);
    var end := (if action == Trigger then "-trigger-" else "-resolve-") + t;
    assert EventId(key, action, at) == p + end;
  }

  // ----- forgetting -----------------------------------------------------------------

  /** Inactive with no interval open: what the evaluator may forget. */
  predicate Settled(c: State) {
    !c.active && c.firstSeen == None
  }

  /** The state after `n` entries when a settled condition is forgotten after every entry in `drops`. */
  ghost function AfterForgetting(h: seq<Entry>, drops: set<nat>, n: nat): State
    requires n <= |h|
  {
    if n == 0 then Fresh
    else
      var c := Step(AfterForgetting(h, drops, n - 1), h[n - 1].kind, h[n - 1].persistence, h[n - 1].at).state;
      if n - 1 in drops && Settled(c) then Fresh else c
  }

  ghost function DecisionForgetting(h: seq<Entry>, drops: set<nat>, j: nat): Option<Action>
    requires j < |h|
  {
    Step(AfterForgetting(h, drops, j), h[j].kind, h[j].persistence, h[j].at).action
  }

  /** Equal in everything a later decision depends on; a settled state holds none of it. */
  ghost predicate Alike(c: State, d: State) {
    && c.active == d.active && c.firstSeen == d.firstSeen
    && c.clearSince == d.clearSince && c.unknownSince == d.unknownSince
    && (!c.active ==> c.clearSince == None) && (Settled(c) ==> c.unknownSince == None)
  }

  lemma AlikeStep(c: State, d: State, e: Entry)
    requires Alike(c, d)
    ensures var x, y := Step(c, e.kind, e.persistence, e.at), Step(d, e.kind, e.persistence, e.at);
      x.action == y.action && Alike(x.state, y.state)
  {
  }

  lemma {:induction false} AlikeForgetting(h: seq<Entry>, drops: set<nat>, n: nat)
    requires n <= |h|
    ensures Alike(AfterForgetting(h, drops, n), After(h, n))
  {
    if n > 0 {
      AlikeForgetting(h, drops, n - 1);
      AlikeStep(AfterForgetting(h, drops, n - 1), After(h, n - 1), h[n - 1]);
    }
  }

  /** Whatever is forgotten and whenever, every decision is the one of the run that forgets nothing. */
  lemma ForgettingInvisible(h: seq<Entry>, drops: set<nat>, j: nat)
    requires j < |h|
    ensures DecisionForgetting(h, drops, j) == Decision(h, j)
  {
    AlikeForgetting(h, drops, j);
    AlikeStep(AfterForgetting(h, drops, j), After(h, j), h[j]);
  }

  // ----- fresh identities -----------------------------------------------------------

  /** No two transitions of a condition share an identity, although it may be
      forgotten in between. */
  lemma IdentitiesFresh(key: Key, h: seq<Entry>, drops: set<nat>, j: nat, k: nat)
    requires Ordered(h) && (forall e :: e in h ==> e.persistence >= 0) && j < k < |h|
    requires DecisionForgetting(h, drops, j).Some? && DecisionForgetting(h, drops, k).Some?
    ensures var a, b := DecisionForgetting(h, drops, j).value, DecisionForgetting(h, drops, k).value;
      && EventId(key, a, h[j].at) != EventId(key, b, h[k].at)
      && (a == b ==> h[j].at < h[k].at)
  {
    ForgettingInvisible(h, drops, j);
    ForgettingInvisible(h, drops, k);
    var a, b := Decision(h, j).value, Decision(h, k).value;
    if a == b {
      SameActionLater(h, j, k);
    }
    if EventId(key, a, h[j].at) == EventId(key, b, h[k].at) {
      SharedIdentities(key, a, h[j].at, key, b, h[k].at);
    }
  }

  /** Triggers and resolves alternate, beginning with a trigger. */
  lemma TransitionsAlternate(h: seq<Entry>, drops: set<nat>, k: nat)
    requires Ordered(h) && k < |h| && DecisionForgetting(h, drops, k).Some?
    ensures
      if exists j :: 0 <= j < k && DecisionForgetting(h, drops, j).Some? then
        exists j :: 0 <= j < k && LastBefore(h, drops, j, k) && DecisionForgetting(h, drops, j) != DecisionForgetting(h, drops, k)
      else DecisionForgetting(h, drops, k) == Some(Trigger)
  {
    forall m | 0 <= m <= k
      ensures DecisionForgetting(h, drops, m) == Decision(h, m)
    {
      ForgettingInvisible(h, drops, m);
    }
    if exists j :: 0 <= j < k && DecisionForgetting(h, drops, j).Some? {
      var j := LatestDecision(h, drops, k);
      DecisionsAlternate(h, j, k);
    } else {
      NeverActive(h, k);
    }
  }

  ghost predicate LastBefore(h: seq<Entry>, drops: set<nat>, j: nat, k: nat)
    requires j < k <= |h|
  {
    DecisionForgetting(h, drops, j).Some? && forall m :: j < m < k ==> DecisionForgetting(h, drops, m) == None
  }

  lemma {:induction false} LatestDecision(h: seq<Entry>, drops: set<nat>, k: nat) returns (j: nat)
    requires k <= |h| && exists i :: 0 <= i < k && DecisionForgetting(h, drops, i).Some?
    ensures j < k && LastBefore(h, drops, j, k)
  {
    if DecisionForgetting(h, drops, k - 1).Some? {
      j := k - 1;
    } else {
      j := LatestDecision(h, drops, k - 1);
    }
  }

  lemma {:induction false} NeverActive(h: seq<Entry>, k: nat)
    requires k <= |h| && forall m :: 0 <= m < k ==> Decision(h, m) == None
    ensures !After(h, k).active
  {
    if k > 0 {
      NeverActive(h, k - 1);
      assert Decision(h, k - 1) == None;
    }
  }
}
