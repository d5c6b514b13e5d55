/** From the support source's clock through admission, projection and
    rendering: a page shown as current rests on support that has not expired. */
module ClockSoundness {
  import opened Common
  import opened StatusModel
  import opened Projection
  import opened StatusArtifacts
  import opened ProjectionLaws

  // ----- the support source ----------------------------------------------

  /** A receiver clock reading at true time `t` (nanoseconds): whole
      milliseconds since `originNs`, truncated, from `baseMs`. */
  datatype ReceiverClock = ReceiverClock(originNs: int, baseMs: nat) {
    function Reading(t: int): int {
      baseMs + (t - originNs) / NANOS_PER_MS
    }

    /** The true time at which the clock first reads `ms`. */
    function FirstReads(ms: int): int {
      originNs + (ms - baseMs) * NANOS_PER_MS
    }
  }

  /** The lifetime the source states for current support: one millisecond
      less than its truncated clock shows. */
  function LiveSupportRemaining(expiryMs: Option<nat>, measuredAtMs: nat): Option<nat> {
    if expiryMs == None then None
    else
      var raw := if expiryMs.value >= measuredAtMs then expiryMs.value - measuredAtMs else 0;
      if raw <= 1 then None else Some(raw - 1)
  }

  /** Support measured now lasts this long past the true time of the
      measurement, whatever the source's clock and the moment in its tick. */
  ghost predicate LastsAtLeast(expiryMs: nat, measuredAtMs: nat, ms: nat) {
    forall clock: ReceiverClock, t: int :: clock.Reading(t) == measuredAtMs ==> t + ms * NANOS_PER_MS < clock.FirstReads(expiryMs)
  }

  /** The stated lifetime is the largest one that support is sure to last; none
      is stated exactly when not even a millisecond is sure. */
  lemma StatedLifetimeIsLargest(expiryMs: nat, measuredAtMs: nat, ms: nat)
    requires ms > 0
    ensures var stated := LiveSupportRemaining(Some(expiryMs), measuredAtMs);
      LastsAtLeast(expiryMs, measuredAtMs, ms) <==> stated.Some? && ms <= stated.value
  {
    if expiryMs < measuredAtMs + ms + 1 {
      var clock, t := ReceiverClock(0, measuredAtMs), NANOS_PER_MS - 1;
      assert clock.Reading(t) == measuredAtMs;
      assert !(t + ms * NANOS_PER_MS < clock.FirstReads(expiryMs));
    }
  }

  // ----- admission --------------------------------------------------------

  /** One exchange as the caller sees it; instants are readings of the
      caller's monotonic clock in nanoseconds. */
  datatype Exchange = Exchange(
    startedAtNs: int, admittedAtNs: int, evaluatedAtMs: nat, expiryMs: Option<nat>, measuredAtMs: nat,
    lifetimeMs: Option<nat>, maximumTrustedMs: nat)

  /** Caller time from before transmission to admission, rounded up. */
  function ElapsedMs(x: Exchange): nat
    requires x.startedAtNs <= x.admittedAtNs
  {
    Min((x.admittedAtNs - x.startedAtNs + 999_999) / NANOS_PER_MS, U64_MAX)
  }

  function ConservativeRemaining(lifetimeMs: Option<nat>, elapsedMs: nat): Option<nat> {
    if lifetimeMs.Some? && lifetimeMs.value > elapsedMs then Some(lifetimeMs.value - elapsedMs) else None
  }

  /** The admitted deadline on the caller's monotonic clock, if any. */
  function AdmittedUntil(x: Exchange): Option<int>
    requires x.startedAtNs <= x.admittedAtNs
  {
    if x.measuredAtMs < x.evaluatedAtMs then None
    else if x.expiryMs == None || x.expiryMs.value <= x.measuredAtMs then None
    else if x.lifetimeMs == None || x.lifetimeMs.value > x.expiryMs.value - x.measuredAtMs then None
    else if x.maximumTrustedMs == 0 then None
    else
      var left := ConservativeRemaining(x.lifetimeMs, ElapsedMs(x));
      if left == None then None
      else Some(x.admittedAtNs + Min(left.value, x.maximumTrustedMs) * NANOS_PER_MS)
  }

  /** How an exchange really went: `offsetNs` is what the caller's monotonic
      clock shows beyond true time; the source measured at `measuredNs`, after
      the caller started and before it admitted. */
  datatype History = History(exchange: Exchange, offsetNs: int, measuredNs: int, clock: ReceiverClock)

  /** The history agrees with what the caller read. */
  ghost predicate Consistent(h: History) {
    && h.exchange.startedAtNs - h.offsetNs <= h.measuredNs <= h.exchange.admittedAtNs - h.offsetNs
    && h.exchange.measuredAtMs == h.clock.Reading(h.measuredNs)
  }

  /** Moreover the source stated its lifetime with its margin. */
  ghost predicate Genuine(h: History) {
    && Consistent(h)
    && (h.exchange.expiryMs.Some? ==> h.exchange.expiryMs.value <= U64_MAX)
    && h.exchange.lifetimeMs == LiveSupportRemaining(h.exchange.expiryMs, h.exchange.measuredAtMs)
  }

  /** The true time at which the certificate's support ends at its source. */
  ghost function SourceExpiry(h: History): int
    requires h.exchange.expiryMs.Some?
  {
    h.clock.FirstReads(h.exchange.expiryMs.value)
  }

  /** The admitted deadline lies before the source's expiry. */
  ghost predicate WithinSource(h: History)
    requires h.exchange.startedAtNs <= h.exchange.admittedAtNs
    requires AdmittedUntil(h.exchange).Some?
  {
    AdmittedUntil(h.exchange).value - h.offsetNs < SourceExpiry(h)
  }

  /** The caller's whole exchange, up to the deadline, fits the certificate's
      window less one millisecond. */
  predicate FitsWindow(x: Exchange)
    requires x.startedAtNs <= x.admittedAtNs && AdmittedUntil(x).Some?
  {
    AdmittedUntil(x).value - x.startedAtNs <= (x.expiryMs.value - x.measuredAtMs - 1) * NANOS_PER_MS
  }

  lemma FittingIsWithin(h: History)
    requires Consistent(h) && AdmittedUntil(h.exchange).Some? && FitsWindow(h.exchange)
    ensures WithinSource(h)
  {
    var x := h.exchange;
    assert h.measuredNs < h.clock.FirstReads(x.measuredAtMs + 1);
    assert SourceExpiry(h) == h.clock.FirstReads(x.measuredAtMs + 1) + (x.expiryMs.value - x.measuredAtMs - 1) * NANOS_PER_MS;
  }

  /** The worst history: measured at once, at the end of a clock tick. */
  function Worst(x: Exchange): History {
    History(x, 0, x.startedAtNs, ReceiverClock(x.startedAtNs - (NANOS_PER_MS - 1), x.measuredAtMs))
  }

  /** An admitted exchange is sound, however it really went, exactly when it
      fits: the stated lifetime itself is not what admission may trust. */
  lemma AdmissionSoundIff(x: Exchange)
    requires x.startedAtNs <= x.admittedAtNs && AdmittedUntil(x).Some?
    ensures (forall h: History :: h.exchange == x && Consistent(h) ==> WithinSource(h)) <==> FitsWindow(x)
  {
    if FitsWindow(x) {
      forall h: History | h.exchange == x && Consistent(h)
        ensures WithinSource(h)
      {
        FittingIsWithin(h);
      }
    } else {
      var h := Worst(x);
      assert h.exchange == x && Consistent(h) && !WithinSource(h);
    }
  }

  /** An admitted deadline of a source that keeps its margin is never after the
      source's own expiry, whatever the transit times and roundings were. */
  lemma AdmissionWithinSource(h: History)
    requires Genuine(h) && AdmittedUntil(h.exchange).Some?
    ensures WithinSource(h)
  {
    var x := h.exchange;
    var left := ConservativeRemaining(x.lifetimeMs, ElapsedMs(x)).value;
    assert ElapsedMs(x) < x.lifetimeMs.value <= U64_MAX;
    assert ElapsedMs(x) * NANOS_PER_MS >= x.admittedAtNs - x.startedAtNs;
    assert Min(left, x.maximumTrustedMs) * NANOS_PER_MS <= left * NANOS_PER_MS;
    assert left * NANOS_PER_MS == (x.expiryMs.value - x.measuredAtMs - 1) * NANOS_PER_MS - ElapsedMs(x) * NANOS_PER_MS;
    assert FitsWindow(x);
    AdmissionSoundIff(x);
  }

  /** An exchange is admitted exactly when the source's measurement lies in its
      certificate's window, the stated lifetime fits that window, the caller
      trusts something, and at least a millisecond of the lifetime is left after
      the whole exchange. */
  lemma AdmittedIff(x: Exchange)
    requires x.startedAtNs <= x.admittedAtNs && (x.lifetimeMs.Some? ==> x.lifetimeMs.value <= U64_MAX)
    ensures AdmittedUntil(x).Some? <==>
      && x.expiryMs.Some? && x.evaluatedAtMs <= x.measuredAtMs < x.expiryMs.value
      && x.lifetimeMs.Some? && x.measuredAtMs + x.lifetimeMs.value <= x.expiryMs.value
      && x.maximumTrustedMs > 0
      && x.admittedAtNs + NANOS_PER_MS <= x.startedAtNs + x.lifetimeMs.value * NANOS_PER_MS
  {
    if x.lifetimeMs.Some? {
      RoundedUp(x.admittedAtNs - x.startedAtNs, x.lifetimeMs.value);
    }
  }

  /** The deadline is a whole number of milliseconds after admission, within the
      lifetime counted from before transmission and within what the caller
      trusts, and no later one is. */
  lemma AdmittedUntilIsLatest(x: Exchange)
    requires x.startedAtNs <= x.admittedAtNs && (x.lifetimeMs.Some? ==> x.lifetimeMs.value <= U64_MAX) && AdmittedUntil(x).Some?
    ensures var until, limit := AdmittedUntil(x).value, x.startedAtNs + x.lifetimeMs.value * NANOS_PER_MS;
      && (until - x.admittedAtNs) % NANOS_PER_MS == 0 && x.admittedAtNs < until
      && until <= limit && until <= x.admittedAtNs + x.maximumTrustedMs * NANOS_PER_MS
      && (until + NANOS_PER_MS > limit || until + NANOS_PER_MS > x.admittedAtNs + x.maximumTrustedMs * NANOS_PER_MS)
  {
    RoundedUp(x.admittedAtNs - x.startedAtNs, x.lifetimeMs.value);
  }

  lemma RoundedUp(ns: nat, ms: nat)
    ensures (ns + 999_999) / NANOS_PER_MS < ms <==> ns + NANOS_PER_MS <= ms * NANOS_PER_MS
    ensures ((ns + 999_999) / NANOS_PER_MS) * NANOS_PER_MS >= ns > ((ns + 999_999) / NANOS_PER_MS - 1) * NANOS_PER_MS
  {
  }

  /** Support admitted before a moment never outlives the counter at it, so the
      ageing law applies to whatever admission produced. */
  lemma AdmittedIsRepresentable(inputs: Inputs, nowNs: int, exchanges: map<string, Exchange>)
    requires exchanges.Keys == inputs.support.Keys
    requires forall id :: id in exchanges ==>
      && exchanges[id].startedAtNs <= exchanges[id].admittedAtNs <= nowNs && exchanges[id].maximumTrustedMs <= U64_MAX
      && AdmittedUntil(exchanges[id]) == Some(inputs.support[id].expiresAtNs)
    ensures Representable(inputs, nowNs)
  {
    forall id | id in inputs.support
      ensures inputs.support[id].expiresAtNs - nowNs < (U64_MAX + 1) * NANOS_PER_MS
    {
      assert AdmittedUntil(exchanges[id]) == Some(inputs.support[id].expiresAtNs);
    }
  }

  /** The source's margin is needed: a stated lifetime equal to the whole
      window is admitted, and when the exchange took no time and the caller
      trusts it all, some history overruns the expiry. */
  lemma MarginIsNeeded(x: Exchange)
    requires x.startedAtNs == x.admittedAtNs && x.expiryMs.Some? && x.evaluatedAtMs <= x.measuredAtMs < x.expiryMs.value
    requires x.lifetimeMs == Some(x.expiryMs.value - x.measuredAtMs) && x.maximumTrustedMs >= x.lifetimeMs.value
    ensures AdmittedUntil(x).Some? && exists h: History :: h.exchange == x && Consistent(h) && !WithinSource(h)
  {
    assert !FitsWindow(x);
    AdmissionSoundIff(x);
  }

  // ----- rendering --------------------------------------------------------

  datatype Rendered = Current | StatusUnavailable | ClockOverflow

  function RenderStatus(a: Artifact, nowUnixMs: nat, clockUncertaintyMs: nat): Rendered {
    if nowUnixMs + clockUncertaintyMs > U64_MAX then ClockOverflow
    else
      var earliest := if nowUnixMs >= clockUncertaintyMs then nowUnixMs - clockUncertaintyMs else 0;
      if earliest < a.generatedAtUnixMs || nowUnixMs + clockUncertaintyMs >= a.freshUntilUnixMs then StatusUnavailable
      else Current
  }

  /** A wall clock showing `ms` at true time `t` is off by at most `uncertaintyMs`. */
  ghost predicate WithinUncertainty(ms: nat, t: int, uncertaintyMs: nat) {
    (ms - uncertaintyMs) * NANOS_PER_MS <= t <= (ms + uncertaintyMs) * NANOS_PER_MS
  }

  /** A page is shown as current exactly when every time that the reader's clock
      allows lies in the artifact's window. */
  lemma CurrentIff(a: Artifact, nowUnixMs: nat, clockUncertaintyMs: nat)
    ensures RenderStatus(a, nowUnixMs, clockUncertaintyMs) == Current <==>
      && nowUnixMs + clockUncertaintyMs <= U64_MAX
      && forall t: int :: 0 <= t && WithinUncertainty(nowUnixMs, t, clockUncertaintyMs) ==>
           a.generatedAtUnixMs * NANOS_PER_MS <= t < a.freshUntilUnixMs * NANOS_PER_MS
    ensures RenderStatus(a, nowUnixMs, clockUncertaintyMs) == ClockOverflow <==> nowUnixMs + clockUncertaintyMs > U64_MAX
  {
    var latest := (nowUnixMs + clockUncertaintyMs) * NANOS_PER_MS;
    var earliest := if nowUnixMs >= clockUncertaintyMs then (nowUnixMs - clockUncertaintyMs) * NANOS_PER_MS else 0;
    assert WithinUncertainty(nowUnixMs, latest, clockUncertaintyMs) && WithinUncertainty(nowUnixMs, earliest, clockUncertaintyMs);
  }

  /** The publisher read its wall clock at `wallNs` and its monotonic clock no
      earlier; every admitted support has a genuine history on that clock. */
  ghost predicate PublishedAt(p: Policy, inputs: Inputs, moment: Moment, wallNs: int, offsetNs: int, histories: map<string, History>) {
    && WithinUncertainty(moment.generatedAtUnixMs, wallNs, p.times.admittedClockUncertaintyMs)
    && wallNs <= moment.monotonicNowNs - offsetNs
    && histories.Keys == inputs.support.Keys
    && forall id :: id in histories ==>
         && Genuine(histories[id]) && histories[id].offsetNs == offsetNs
         && AdmittedUntil(histories[id].exchange) == Some(inputs.support[id].expiresAtNs)
  }

  lemma DeadlineWithinSupport(p: Policy, inputs: Inputs, moment: Moment, wallNs: int, offsetNs: int,
                              histories: map<string, History>, id: string, deadlineMs: nat)
    requires PublishedAt(p, inputs, moment, wallNs, offsetNs, histories) && id in histories
    requires UsableRemainingMs(inputs.support[id], moment.monotonicNowNs).Some?
    requires deadlineMs <= moment.generatedAtUnixMs
               + UsableRemainingMs(inputs.support[id], moment.monotonicNowNs).value - p.times.admittedClockUncertaintyMs
    ensures deadlineMs * NANOS_PER_MS < SourceExpiry(histories[id])
  {
    AdmissionWithinSource(histories[id]);
    var left := UsableRemainingMs(inputs.support[id], moment.monotonicNowNs).value;
    assert left * NANOS_PER_MS <= inputs.support[id].expiresAtNs - moment.monotonicNowNs;
    assert deadlineMs * NANOS_PER_MS <=
           (moment.generatedAtUnixMs - p.times.admittedClockUncertaintyMs) * NANOS_PER_MS + left * NANOS_PER_MS;
  }

  /** End to end: when a reader whose clock is within its declared uncertainty
      is shown the artifact as current, the true time is before the source
      expiry of every support under every component that a shown state rests
      on, through any chain of hard and soft dependencies. */
  lemma CurrentMeansSupported(p: Policy, inputs: Inputs, moment: Moment, a: Artifact, wallNs: int, offsetNs: int,
                              histories: map<string, History>, readerMs: nat, readerUncertaintyMs: nat, readerNs: int,
                              shown: Component, w: seq<Key>, c: Component, j: nat)
    requires Projects(p, inputs, moment, a) && PublishedAt(p, inputs, moment, wallNs, offsetNs, histories)
    requires WithinUncertainty(readerMs, readerNs, readerUncertaintyMs)
    requires RenderStatus(a, readerMs, readerUncertaintyMs) == Current
    requires shown in p.components && shown.output.Some? && a.components[shown.output.value.id].state != Unknown
    requires StateBearingWalk(p.dependencies, w) && w[0] == shown.key
    requires c in p.components && c.key == w[|w| - 1] && j < |c.requiredFacts|
    ensures c.requiredFacts[j].factId in inputs.facts
    ensures var id := inputs.facts[c.requiredFacts[j].factId].evidenceId;
      id in histories && histories[id].exchange.expiryMs.Some? && readerNs < SourceExpiry(histories[id])
  {
    TransitiveSupport(p, inputs, moment, a, shown, w, c, j);
    var id := inputs.facts[c.requiredFacts[j].factId].evidenceId;
    DeadlineWithinSupport(p, inputs, moment, wallNs, offsetNs, histories, id, a.freshUntilUnixMs);
    assert readerNs <= (readerMs + readerUncertaintyMs) * NANOS_PER_MS;
    assert (readerMs + readerUncertaintyMs) * NANOS_PER_MS < a.freshUntilUnixMs * NANOS_PER_MS;
  }
}
