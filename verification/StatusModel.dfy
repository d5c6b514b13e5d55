/** The values of the status projection: policy, facts, live support, artifact. */
module StatusModel {
  import opened Common

  type Key = string

  datatype FactClass = Observed | DerivedAdmitted | Asserted | Historical | QualificationLifecycle {
    predicate MayEstablishState() {
      Observed? || DerivedAdmitted?
    }
  }

  datatype Availability = Available | Impaired | Unavailable | Indeterminate
  datatype Impact = NoImpact | Partial | Total | IndeterminateImpact
  datatype Mode = Normal | Maintenance
  datatype ProjectedState = Healthy | Degraded | PartialOutage | MajorOutage | Unknown
  datatype DependencyKind = Hard | Soft | Informational

  datatype DependencyEffect = Ignore | Degrade | ToPartialOutage | ToMajorOutage | ToUnknown {
    function State(): Option<ProjectedState> {
      match this
      case Ignore => None
      case Degrade => Some(Degraded)
      case ToPartialOutage => Some(PartialOutage)
      case ToMajorOutage => Some(MajorOutage)
      case ToUnknown => Some(Unknown)
    }
  }

  /** The exact identities a live support observation was queried for. */
  datatype Selector = Selector(
    consumer: string, subject: string, subjectIncarnation: string, scope: string,
    relianceContext: string, qualifiedGeneration: string, receiver: string,
    receiverIncarnation: string, receiverEpoch: string, receiverClock: string)

  datatype FactRequirement = FactRequirement(
    factId: string, owner: string, nativeSchema: string, class_: FactClass, liveSupport: Selector)

  datatype Output = Output(id: string, displayName: string)

  datatype Component = Component(
    key: Key, output: Option<Output>, requiredFacts: seq<FactRequirement>, maintenanceIds: seq<string>)

  datatype Behavior = Behavior(
    onUnavailable: DependencyEffect, onDegraded: DependencyEffect,
    onPartial: DependencyEffect, onUnknown: DependencyEffect)

  datatype Edge = Edge(parent: Key, dependency: Key, kind: DependencyKind, behavior: Behavior)

  datatype Disclosure = Disclosure(
    showDisplayName: bool, showReason: bool, safeReasons: map<ProjectedState, string>, includeBasisDigest: bool)

  datatype Times = Times(maximumAgeMs: nat, admittedClockUncertaintyMs: nat, timestampGranularityMs: nat)

  datatype Policy = Policy(
    projectionId: string, generation: string, root: Key, times: Times,
    components: seq<Component>, dependencies: seq<Edge>, disclosure: Disclosure)

  datatype Fact = Fact(
    subjectKey: Key, owner: string, nativeSchema: string, class_: FactClass, evidenceId: string,
    availability: Availability, impact: Impact)

  /** `assertions` by id; each names one component and may be active. */
  datatype MaintenanceAssertion = MaintenanceAssertion(componentKey: Key, active: bool)

  /** One admitted exchange. `expiresAtNs` is a reading of the projecting
      process's monotonic clock, in nanoseconds. */
  datatype LiveSupport = LiveSupport(
    certificateId: string, responseDigest: string, selector: Selector, expiresAtNs: int)

  datatype Inputs = Inputs(
    facts: map<string, Fact>, support: map<string, LiveSupport>,
    maintenance: map<string, MaintenanceAssertion>)

  datatype Moment = Moment(generatedAtUnixMs: nat, monotonicNowNs: int)

  const MAX_COMPONENTS := 256
  const MAX_DEPENDENCIES := 1024

  function MapState(availability: Availability, impact: Impact): ProjectedState {
    match (availability, impact)
    case (Available, NoImpact) => Healthy
    case (Impaired, NoImpact) => Degraded
    case (Impaired, Partial) => PartialOutage
    case (Unavailable, Partial) => PartialOutage
    case (Unavailable, Total) => MajorOutage
    case _ => Unknown
  }

  function Keys(components: seq<Component>): set<Key> {
    set c | c in components :: c.key
  }

  function Outputs(components: seq<Component>): set<Output> {
    set c | c in components && c.output.Some? :: c.output.value
  }

  lemma KeysAppend(components: seq<Component>, c: Component)
    ensures Keys(components + [c]) == Keys(components) + {c.key}
  {
    assert forall x :: x in components + [c] <==> x in components || x == c;
  }
}
