/** The lifecycle state machine against the whole observation history. */
module LifecycleLaws {
  import opened Common
  import opened Lifecycle

  // ----- time that counts -----------------------------------------------------

  /** Excluded runs are disjoint stretches of the interval: they end no later
      than its last definite observation. */
  lemma {:induction false} ExcludedFits(h: seq<Entry>, i: nat, m: nat)
    requires Ordered(h) && i <= m < |h| && h[i].kind != Unknown
    ensures i < UnknownFrom(h, m + 1) && 0 <= Excluded(h, i, m)
    ensures h[i].at + Excluded(h, i, m) <= h[UnknownFrom(h, m + 1) - 1].at
  {
    if m > i {
      ExcludedFits(h, i, m - 1);
    }
  }

  // ----- the state represents the history -----------------------------------------

  /** An interval start as the state keeps it: moved forward by what was excluded. */
  ghost function Kept(h: seq<Entry>, s: nat, n: nat, k: Observation): Option<int>
    requires n <= |h|
  {
    var i := OpenSince(h, s, n, k);
    if i == None then None else Some(h[i.value].at + Excluded(h, i.value, n - 1))
  }

  /** The state after `n` entries, read off the history. */
  ghost predicate Represents(h: seq<Entry>, n: nat)
    requires n <= |h|
  {
    var c, s := After(h, n), Since(h, n);
    var k := if Triggered(h, n) then Clear else Present;
    && c.active == Triggered(h, n)
    && (if c.active then c.firstSeen.Some? && c.clearSince == Kept(h, s, n, Clear)
        else c.firstSeen == Kept(h, s, n, Present) && c.clearSince == None)
    && c.unknownSince ==
       if OpenSince(h, s, n, k).Some? && UnknownFrom(h, n) < n then Some(h[UnknownFrom(h, n)].at) else None
  }

  /** The interval start that a definite observation at `n` works with. */
  lemma {:induction false} MovedIsKept(h: seq<Entry>, s: nat, n: nat, k: Observation, c: State, start: Option<int>)
    requires Ordered(h) && n < |h| && h[n].kind == k && (k == Present || k == Clear)
    requires start == Kept(h, s, n, k) && s <= n
    requires c.unknownSince == if OpenSince(h, s, n, k).Some? && UnknownFrom(h, n) < n then Some(h[UnknownFrom(h, n)].at) else None
    ensures OrNow(Moved(start, Shift(c, h[n].at), h[n].at), h[n].at) == Kept(h, s, n + 1, k)
    ensures Kept(h, s, n + 1, k).Some? && OpenSince(h, s, n + 1, k).Some?
    ensures h[n].at - Kept(h, s, n + 1, k).value == Counted(h, OpenSince(h, s, n + 1, k).value, n)
    ensures start.Some? && Shift(c, h[n].at).Some? ==> start.value + Shift(c, h[n].at).value <= h[n].at
  {
    var i := OpenSince(h, s, n, k);
    if i.Some? {
      ExcludedFits(h, i.value, n - 1);
    }
  }

  lemma UnknownKeeps(h: seq<Entry>, s: nat, n: nat, k: Observation)
    requires n < |h| && h[n].kind == Unknown && k != Unknown && s <= n
    ensures OpenSince(h, s, n + 1, k) == OpenSince(h, s, n, k) && Kept(h, s, n + 1, k) == Kept(h, s, n, k)
    ensures OpenSince(h, s, n, k).Some? ==> UnknownFrom(h, n + 1) == UnknownFrom(h, n)
  {
  }

  lemma {:induction false} RepresentsPresent(h: seq<Entry>, n: nat)
    requires Ordered(h) && n < |h| && Represents(h, n) && h[n].kind == Present
    ensures Represents(h, n + 1) && Decision(h, n) == Expected(h, n)
  {
    var c, s := After(h, n), Since(h, n);
    if !c.active {
      MovedIsKept(h, s, n, Present, c, c.firstSeen);
    }
  }

  lemma {:induction false} RepresentsClear(h: seq<Entry>, n: nat)
    requires Ordered(h) && n < |h| && Represents(h, n) && h[n].kind == Clear
    ensures Represents(h, n + 1) && Decision(h, n) == Expected(h, n)
  {
    var c, s := After(h, n), Since(h, n);
    if c.active {
      MovedIsKept(h, s, n, Clear, c, c.clearSince);
    }
  }

  lemma {:induction false} RepresentsUnknown(h: seq<Entry>, n: nat)
    requires Ordered(h) && n < |h| && Represents(h, n) && h[n].kind == Unknown
    ensures Represents(h, n + 1) && Decision(h, n) == Expected(h, n)
  {
    UnknownKeeps(h, Since(h, n), n, if Triggered(h, n) then Clear else Present);
  }

  lemma {:induction false} RepresentsRemoved(h: seq<Entry>, n: nat)
    requires Ordered(h) && n < |h| && Represents(h, n) && h[n].kind == Removed
    ensures Represents(h, n + 1) && Decision(h, n) == Expected(h, n)
  {
  }

  lemma {:induction false} RepresentsStep(h: seq<Entry>, n: nat)
    requires Ordered(h) && n < |h| && Represents(h, n)
    ensures Represents(h, n + 1) && Decision(h, n) == Expected(h, n)
  {
    match h[n].kind
    case Present => RepresentsPresent(h, n);
    case Clear => RepresentsClear(h, n);
    case Unknown => RepresentsUnknown(h, n);
    case Removed => RepresentsRemoved(h, n);
  }

  lemma RepresentsFresh(h: seq<Entry>)
    ensures Represents(h, 0)
  {
  }

  lemma {:induction false} AlwaysRepresents(h: seq<Entry>, n: nat)
    requires Ordered(h) && n <= |h|
    ensures Represents(h, n)
  {
    if n == 0 {
      RepresentsFresh(h);
    } else {
      AlwaysRepresents(h, n - 1);
      RepresentsStep(h, n - 1);
    }
  }

  /** With nondecreasing times the constant-size state decides exactly what the
      whole history says. */
  lemma StepRefinesHistory(h: seq<Entry>, j: nat)
    requires Ordered(h) && j < |h|
    ensures Decision(h, j) == Expected(h, j)
  {
    AlwaysRepresents(h, j);
    RepresentsStep(h, j);
  }

  /** What `OpenSince` names: the earliest entry of kind `k` in the segment
      from which only `k` and unknown entries follow. */
  ghost predicate OpensInterval(h: seq<Entry>, s: nat, i: nat, n: nat, k: Observation)
    requires n <= |h|
  {
    s <= i < n && h[i].kind == k && forall m: nat :: i <= m < n ==> h[m].kind == k || h[m].kind == Unknown
  }

  lemma {:induction false} OpenSinceIsEarliest(h: seq<Entry>, s: nat, n: nat, k: Observation)
    requires n <= |h| && k != Unknown
    ensures var r := OpenSince(h, s, n, k);
      && (r.Some? ==> OpensInterval(h, s, r.value, n, k))
      && (forall i: nat :: OpensInterval(h, s, i, n, k) ==> r.Some? && r.value <= i)
  {
    if n > s {
      OpenSinceIsEarliest(h, s, n - 1, k);
      forall i: nat | OpensInterval(h, s, i, n, k)
        ensures OpenSince(h, s, n, k).Some? && OpenSince(h, s, n, k).value <= i
      {
        if i < n - 1 {
          assert OpensInterval(h, s, i, n - 1, k);
        }
      }
    }
  }

  /** No clamp to `now` ever changes an interval start. */
  lemma ClampsIdle(h: seq<Entry>, j: nat)
    requires Ordered(h) && j < |h|
    ensures var c := After(h, j);
      && (h[j].kind == Present && !c.active && c.firstSeen.Some? && Shift(c, h[j].at).Some? ==>
            c.firstSeen.value + Shift(c, h[j].at).value <= h[j].at)
      && (h[j].kind == Clear && c.active && c.clearSince.Some? && Shift(c, h[j].at).Some? ==>
            c.clearSince.value + Shift(c, h[j].at).value <= h[j].at)
  {
    AlwaysRepresents(h, j);
    var c := After(h, j);
    if h[j].kind == Present && !c.active {
      MovedIsKept(h, Since(h, j), j, Present, c, c.firstSeen);
    } else if h[j].kind == Clear && c.active {
      MovedIsKept(h, Since(h, j), j, Clear, c, c.clearSince);
    }
  }

  /** Where the presence that triggers at `j` began, moved forward by the long unknown runs in it. */
  ghost function PresenceStart(h: seq<Entry>, j: nat): int
    requires j < |h|
  {
    var i := OpenSince(h, Since(h, j), j + 1, Present);
    if i.Some? then h[i.value].at + Excluded(h, i.value, j) else h[j].at
  }

  /** A trigger keeps the start of the presence it was decided on. */
  lemma TriggerKeepsStart(h: seq<Entry>, j: nat)
    requires Ordered(h) && j < |h| && Decision(h, j) == Some(Trigger)
    ensures OpenSince(h, Since(h, j), j + 1, Present).Some? && After(h, j + 1).firstSeen == Some(PresenceStart(h, j))
  {
    AlwaysRepresents(h, j);
    MovedIsKept(h, Since(h, j), j, Present, After(h, j), After(h, j).firstSeen);
  }

  /** Within an incident that `j` triggers, the clear interval is the one since the trigger. */
  lemma ClearStart(h: seq<Entry>, j: nat, k: nat)
    requires Ordered(h) && j < k <= |h| && Decision(h, j) == Some(Trigger) && forall m :: j < m < k ==> Decision(h, m) == None
    ensures var i := OpenSince(h, j + 1, k, Clear);
      After(h, k).clearSince == if i.Some? then Some(h[i.value].at + Excluded(h, i.value, k - 1)) else None
  {
    AlwaysRepresents(h, k);
    SinceDecision(h, j, k);
    ActiveUntil(h, j, k);
  }

  lemma {:induction false} SinceDecision(h: seq<Entry>, j: nat, k: nat)
    requires Ordered(h) && j < k <= |h| && Decision(h, j).Some? && forall m :: j < m < k ==> Decision(h, m) == None
    ensures Since(h, k) == j + 1
  {
    StepRefinesHistory(h, k - 1);
    if k > j + 1 {
      SinceDecision(h, j, k - 1);
      assert Decision(h, k - 1) == None;
    }
  }

  /** The time of the last entry before `n` of which `p` holds. */
  ghost function LastTime(h: seq<Entry>, n: nat, p: nat -> bool): Option<int>
    requires n <= |h|
  {
    if n == 0 then None else if p(n - 1) then Some(h[n - 1].at) else LastTime(h, n - 1, p)
  }

  /** The two stamps that no decision reads: the last presence and the last decision. */
  lemma {:induction false} StampsKept(h: seq<Entry>, n: nat)
    requires n <= |h|
    ensures After(h, n).lastSeen == LastTime(h, n, (i: nat) => i < |h| && h[i].kind == Present)
    ensures After(h, n).transitionAt == LastTime(h, n, (i: nat) => i < |h| && Decision(h, i).Some?)
  {
    if n > 0 {
      StampsKept(h, n - 1);
    }
  }

  // ----- short unknown runs leave no trace ---------------------------------------

  lemma {:induction false} AfterPrefix(h: seq<Entry>, g: seq<Entry>, n: nat)
    requires n <= |h| && n <= |g| && h[..n] == g[..n]
    ensures After(h, n) == After(g, n)
  {
    if n > 0 {
      assert h[..n - 1] == h[..n][..n - 1] && h[n - 1] == h[..n][n - 1] && g[n - 1] == g[..n][n - 1];
      AfterPrefix(h, g, n - 1);
    }
  }

  /** `t` entries of `h` from `n` are those of `g` from `m`. */
  ghost predicate Aligned(h: seq<Entry>, n: nat, g: seq<Entry>, m: nat, t: nat) {
    n + t <= |h| && m + t <= |g| && forall x :: n <= x < n + t ==> h[x] == g[x - n + m]
  }

  lemma AlignedAt(h: seq<Entry>, n: nat, g: seq<Entry>, m: nat, t: nat, k: nat)
    requires Aligned(h, n, g, m, t) && k < t
    ensures h[n + k] == g[m + k] && Aligned(h, n, g, m, k) && Aligned(h, n + k, g, m + k, t - k)
  {
  }

  lemma {:induction false} AfterSuffix(h: seq<Entry>, n: nat, g: seq<Entry>, m: nat, t: nat)
    requires Aligned(h, n, g, m, t) && After(h, n) == After(g, m)
    ensures After(h, n + t) == After(g, m + t)
  {
    if t > 0 {
      AlignedAt(h, n, g, m, t, t - 1);
      AfterSuffix(h, n, g, m, t - 1);
      SameStep(h, n + t - 1, g, m + t - 1);
    }
  }

  lemma {:induction false} SuffixDecides(h: seq<Entry>, n: nat, g: seq<Entry>, m: nat, t: nat)
    requires Aligned(h, n, g, m, t + 1) && After(h, n) == After(g, m)
    ensures Decision(h, n + t) == Decision(g, m + t)
  {
    AlignedAt(h, n, g, m, t + 1, t);
    AfterSuffix(h, n, g, m, t);
    SameStep(h, n + t, g, m + t);
  }

  lemma {:induction false} SameStep(h: seq<Entry>, n: nat, g: seq<Entry>, m: nat)
    requires n < |h| && m < |g| && After(h, n) == After(g, m) && h[n] == g[m]
    ensures After(h, n + 1) == After(g, m + 1) && Decision(h, n) == Decision(g, m)
  {
  }

  /** During a run of unknown entries only the start of the run may be noted. */
  lemma {:induction false} DuringRun(h: seq<Entry>, a: nat, b: nat)
    requires a < b <= |h| && After(h, a).unknownSince == None
    requires forall x :: a <= x < b ==> h[x].kind == Unknown
    ensures After(h, b) == After(h, a) || After(h, b) == After(h, a).(unknownSince := Some(h[a].at))
    ensures forall x :: a <= x < b ==> Decision(h, x) == None
  {
    if a + 1 < b {
      DuringRun(h, a, b - 1);
    }
  }

  /** No unknown run is being noted when the last observation was definite. */
  lemma NothingNoted(h: seq<Entry>, n: nat)
    requires n <= |h| && (n == 0 || h[n - 1].kind != Unknown)
    ensures After(h, n).unknownSince == None
  {
  }

  lemma ShortRunForgotten(c: State, since: int, e: Entry)
    requires c.unknownSince == None && e.kind != Unknown && e.at - since <= UNKNOWN_GAP_SECONDS
    ensures Step(c.(unknownSince := Some(since)), e.kind, e.persistence, e.at) == Step(c, e.kind, e.persistence, e.at)
  {
  }

  /** The first definite entry after a short run finds what it would find without the run. */
  lemma {:induction false} RunRejoins(h: seq<Entry>, a: nat, b: nat, g: seq<Entry>)
    requires a < b < |h| && a < |g| && h[..a] == g[..a] && h[b] == g[a]
    requires forall x :: a <= x < b ==> h[x].kind == Unknown
    requires (a == 0 || h[a - 1].kind != Unknown) && h[b].kind != Unknown && h[b].at - h[a].at <= UNKNOWN_GAP_SECONDS
    ensures After(h, b + 1) == After(g, a + 1) && Decision(h, b) == Decision(g, a)
    ensures forall x :: a <= x < b ==> Decision(h, x) == None
  {
    AfterPrefix(h, g, a);
    NothingNoted(h, a);
    DuringRun(h, a, b);
    ShortRunForgotten(After(h, a), h[a].at, h[b]);
  }

  lemma {:induction false} RunSkipped(h: seq<Entry>, a: nat, b: nat, g: seq<Entry>, t: nat)
    requires a < b && Aligned(h, b, g, a, t + 1) && h[..a] == g[..a]
    requires forall x :: a <= x < b ==> h[x].kind == Unknown
    requires (a == 0 || h[a - 1].kind != Unknown) && h[b].kind != Unknown && h[b].at - h[a].at <= UNKNOWN_GAP_SECONDS
    ensures Decision(h, b + t) == Decision(g, a + t)
    ensures forall x :: a <= x < b ==> Decision(h, x) == None
  {
    AlignedAt(h, b, g, a, t + 1, 0);
    RunRejoins(h, a, b, g);
    if t > 0 {
      AlignedAt(h, b, g, a, t + 1, 1);
      SuffixDecides(h, b + 1, g, a + 1, t - 1);
    }
  }

  /** Deleting a whole run of unknown observations no longer than the gap
      changes no decision in or after it. */
  lemma {:induction false} ShortRunsInvisible(h: seq<Entry>, a: nat, b: nat, t: nat)
    requires a < b < |h| && (forall x :: a <= x < b ==> h[x].kind == Unknown)
    requires (a == 0 || h[a - 1].kind != Unknown) && h[b].kind != Unknown && h[b].at - h[a].at <= UNKNOWN_GAP_SECONDS
    requires b + t < |h|
    ensures Decision(h, b + t) == Decision(h[..a] + h[b..], a + t)
    ensures forall x :: a <= x < b ==> Decision(h, x) == None
  {
    RunSkipped(h, a, b, h[..a] + h[b..], t);
  }

  // ----- alternation -----------------------------------------------------------------

  /** A trigger is decided only while inactive and a resolve only while active. */
  lemma DecisionsAlternate(h: seq<Entry>, j: nat, k: nat)
    requires Ordered(h) && j < k < |h| && Decision(h, j).Some? && Decision(h, k).Some?
    requires forall m :: j < m < k ==> Decision(h, m) == None
    ensures Decision(h, j) != Decision(h, k)
  {
    ActiveUntil(h, j, k);
  }

  lemma {:induction false} ActiveUntil(h: seq<Entry>, j: nat, k: nat)
    requires j < k <= |h| && Decision(h, j).Some? && forall m :: j < m < k ==> Decision(h, m) == None
    ensures After(h, k).active == (Decision(h, j) == Some(Trigger))
  {
    if j + 1 < k {
      ActiveUntil(h, j, k - 1);
      assert Decision(h, k - 1) == None;
    }
  }

  /** A trigger comes strictly later than every earlier resolve, when bounds are not negative. */
  lemma TriggerAfterResolve(h: seq<Entry>, m: nat, k: nat)
    requires Ordered(h) && m < k < |h| && h[k].persistence >= 0
    requires Decision(h, m) == Some(Resolve) && Decision(h, k) == Some(Trigger)
    ensures h[m].at < h[k].at
  {
    StepRefinesHistory(h, m);
    StepRefinesHistory(h, k);
    SinceAfter(h, m, k);
    var i := OpenSince(h, Since(h, k), k + 1, Present).value;
    ExcludedFits(h, i, k);
  }

  lemma {:induction false} SinceAfter(h: seq<Entry>, m: nat, n: nat)
    requires m < n <= |h| && Expected(h, m).Some?
    ensures Since(h, n) > m
  {
    if n > m + 1 {
      SinceAfter(h, m, n - 1);
    }
  }

  /** Between two decisions of the same action lies one of the other. */
  lemma {:induction false} OtherBetween(h: seq<Entry>, j: nat, k: nat) returns (m: nat)
    requires Ordered(h) && j < k < |h| && Decision(h, j).Some? && Decision(h, k) == Decision(h, j)
    ensures j < m < k && Decision(h, m).Some? && Decision(h, m) != Decision(h, j)
    decreases k - j
  {
    if x :| j < x < k && Decision(h, x).Some? {
      if Decision(h, x) != Decision(h, j) {
        m := x;
      } else {
        m := OtherBetween(h, j, x);
      }
    } else {
      DecisionsAlternate(h, j, k);
    }
  }

  /** Times of the same action strictly increase. */
  lemma SameActionLater(h: seq<Entry>, j: nat, k: nat)
    requires Ordered(h) && j < k < |h| && Decision(h, j).Some? && Decision(h, k) == Decision(h, j)
    requires forall e :: e in h ==> e.persistence >= 0
    ensures h[j].at < h[k].at
  {
    var m := OtherBetween(h, j, k);
    assert h[m] in h && h[k] in h;
    if Decision(h, j) == Some(Trigger) {
      TriggerAfterResolve(h, m, k);
    } else {
      TriggerAfterResolve(h, j, m);
    }
  }
}
