/** The per-condition lifecycle: persistence before a trigger, confirmation
    before a resolve, and runs of unknown observations that count for neither. */
module Lifecycle {
  import opened Common

  datatype Observation = Present | Clear | Unknown | Removed
  datatype Action = Trigger | Resolve

  const RESOLVE_CONFIRM_SECONDS := 120
  const UNKNOWN_GAP_SECONDS := 90

  // ----- the constant-size state ------------------------------------------

  datatype State = State(
    firstSeen: Option<int>, lastSeen: Option<int>, clearSince: Option<int>, unknownSince: Option<int>,
    active: bool, transitionAt: Option<int>)

  const Fresh := State(None, None, None, None, false, None)

  datatype Outcome = Outcome(state: State, action: Option<Action>)

  /** The length of the unknown run that ends now, if it is too long to absorb. */
  function Shift(c: State, now: int): Option<int> {
    if c.unknownSince.Some? && now - c.unknownSince.value > UNKNOWN_GAP_SECONDS then Some(now - c.unknownSince.value) else None
  }

  /** An interval start moved forward by `shift`, never past `now`. */
  function Moved(start: Option<int>, shift: Option<int>, now: int): Option<int> {
    if start.Some? && shift.Some? then Some(Min(start.value + shift.value, now)) else start
  }

  function OrNow(start: Option<int>, now: int): Option<int> {
    if start.Some? then start else Some(now)
  }

  function Step(c: State, observation: Observation, persistence: int, now: int): Outcome {
    match observation
    case Present =>
      var first := OrNow(if c.active then c.firstSeen else Moved(c.firstSeen, Shift(c, now), now), now);
      var seen := c.(firstSeen := first, lastSeen := Some(now), clearSince := None, unknownSince := None);
      if !c.active && now - first.value > persistence then
        Outcome(seen.(active := true, transitionAt := Some(now)), Some(Trigger))
      else Outcome(seen, None)
    case Clear =>
      if c.active then
        var since := OrNow(Moved(c.clearSince, Shift(c, now), now), now);
        if now - since.value >= RESOLVE_CONFIRM_SECONDS then
          Outcome(State(None, c.lastSeen, None, None, false, Some(now)), Some(Resolve))
        else Outcome(c.(clearSince := since, unknownSince := None), None)
      else Outcome(c.(firstSeen := None, clearSince := None, unknownSince := None), None)
    case Unknown =>
      var open := if c.active then c.clearSince.Some? else c.firstSeen.Some?;
      Outcome(if open then c.(unknownSince := OrNow(c.unknownSince, now)) else c, None)
    case Removed =>
      var closed := c.(firstSeen := None, clearSince := None, unknownSince := None);
      if c.active then Outcome(closed.(active := false, transitionAt := Some(now)), Some(Resolve))
      else Outcome(closed, None)
  }

  // ----- whole histories ------------------------------------------------------

  /** One pass's observation of the condition, its time and the bound in force. */
  datatype Entry = Entry(kind: Observation, at: int, persistence: int)

  ghost predicate Ordered(h: seq<Entry>) {
    forall i, j :: 0 <= i <= j < |h| ==> h[i].at <= h[j].at
  }

  /** The state after the first `n` entries. */
  ghost function After(h: seq<Entry>, n: nat): State
    requires n <= |h|
  {
    if n == 0 then Fresh else Step(After(h, n - 1), h[n - 1].kind, h[n - 1].persistence, h[n - 1].at).state
  }

  ghost function Decision(h: seq<Entry>, j: nat): Option<Action>
    requires j < |h|
  {
    Step(After(h, j), h[j].kind, h[j].persistence, h[j].at).action
  }

  /** Where the run of unknown observations that ends before `n` begins; `n` if there is none. */
  ghost function UnknownFrom(h: seq<Entry>, n: nat): (a: nat)
    requires n <= |h|
    ensures a <= n
  {
    if n > 0 && h[n - 1].kind == Unknown then UnknownFrom(h, n - 1) else n
  }

  /** Time from the first unknown observation of the run before `j` to `j`. */
  ghost function RunBefore(h: seq<Entry>, j: nat): int
    requires j < |h|
  {
    h[j].at - h[UnknownFrom(h, j)].at
  }

  /** Total length of the long unknown runs between entries `i` and `j`. */
  ghost function Excluded(h: seq<Entry>, i: nat, j: nat): int
    requires i <= j < |h|
  {
    if j == i then 0
    else
      Excluded(h, i, j - 1) +
      if h[j].kind != Unknown && RunBefore(h, j) > UNKNOWN_GAP_SECONDS then RunBefore(h, j) else 0
  }

  /** Elapsed time from `i` to `j` that counts. */
  ghost function Counted(h: seq<Entry>, i: nat, j: nat): int
    requires i <= j < |h|
  {
    h[j].at - h[i].at - Excluded(h, i, j)
  }

  /** The first entry of the interval of kind `k` that is open after `n`
      entries, looking no further back than `s`. */
  ghost function OpenSince(h: seq<Entry>, s: nat, n: nat, k: Observation): (r: Option<nat>)
    requires n <= |h|
    ensures r.Some? ==> s <= r.value < n && h[r.value].kind == k
  {
    if n <= s then None
    else if h[n - 1].kind == k then
      var before := OpenSince(h, s, n - 1, k);
      if before.Some? then before else Some(n - 1)
    else if h[n - 1].kind == Unknown then OpenSince(h, s, n - 1, k)
    else None
  }

  /** What the history alone says should be decided at `j`. */
  ghost function Expected(h: seq<Entry>, j: nat): Option<Action>
    requires j < |h|
    decreases j, 1
  {
    var s := Since(h, j);
    if !Triggered(h, j) then
      var i := OpenSince(h, s, j + 1, Present);
      if h[j].kind == Present && i.Some? && Counted(h, i.value, j) > h[j].persistence then Some(Trigger) else None
    else
      var i := OpenSince(h, s, j + 1, Clear);
      if h[j].kind == Removed then Some(Resolve)
      else if h[j].kind == Clear && i.Some? && Counted(h, i.value, j) >= RESOLVE_CONFIRM_SECONDS then Some(Resolve)
      else None
  }

  /** The first entry after the last decision before `n`. */
  ghost function Since(h: seq<Entry>, n: nat): (s: nat)
    requires n <= |h|
    ensures s <= n
    decreases n, 0
  {
    if n == 0 then 0 else if Expected(h, n - 1).Some? then n else Since(h, n - 1)
  }

  /** The last decision before `n` is a trigger. */
  ghost predicate Triggered(h: seq<Entry>, n: nat)
    requires n <= |h|
    decreases n, 0
  {
    n > 0 && if Expected(h, n - 1).Some? then Expected(h, n - 1) == Some(Trigger) else Triggered(h, n - 1)
  }
}
