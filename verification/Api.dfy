/** The API objects the control plane reads, reduced to the fields its decisions depend on. */
module Api {
  datatype Option<+T> = None | Some(value: T)

  /** Quantities by dimension; an absent dimension means "not constrained" or "not requested". */
  type ResourceList = map<string, int>

  /** The operator is a free string in the API, so an unrecognised one is representable. */
  datatype Operator = In | NotIn | Exists | DoesNotExist | Gt | Lt | Unrecognised(text: string)

  datatype Requirement = Requirement(key: string, op: Operator, values: seq<string>)

  datatype Status = True | False | Unknown

  datatype Condition = Condition(kind: string, status: Status, since: int, generation: int,
                                 reason: string, message: string)

  const READY := "Ready"
  const DISRUPTED := "Disrupted"
  const LAUNCHED := "Launched"
  const REGISTERED := "Registered"
  const INITIALIZED := "Initialized"

  /** Some entry of the given kind is True. */
  predicate HasTrue(conditions: seq<Condition>, kind: string) {
    exists c :: c in conditions && c.kind == kind && c.status == True
  }

  datatype ClaimSpec = ClaimSpec(requirements: seq<Requirement>, allowPorts: seq<string>,
                                 reservedPorts: seq<int>, requests: ResourceList)

  /** An ExitClaim. `deleting` says that a deletion timestamp is set. */
  datatype Claim = Claim(name: string, poolLabel: string, spec: ClaimSpec, providerID: string,
                         conditions: seq<Condition>, allocatable: ResourceList, deleting: bool)

  datatype Pool = Pool(name: string, weight: int, template: ClaimSpec, limits: ResourceList)

  /** A Tunnel's identity and spec. A port request of None or 0 asks for automatic assignment. */
  datatype Tunnel = Tunnel(key: string, uid: string, ports: seq<Option<int>>,
                           requirements: seq<Requirement>, requests: ResourceList)

  datatype Offering = Offering(requirements: seq<Requirement>, price: real, available: bool)

  datatype InstanceType = InstanceType(name: string, requirements: seq<Requirement>,
                                       offerings: seq<Offering>, capacity: ResourceList, overhead: ResourceList)

  /** What one locked read of a cached exit yields. */
  datatype ExitSnapshot = ExitSnapshot(claim: Option<Claim>, allocations: map<int, string>, marked: bool)

  datatype Binding = Binding(tunnelKey: string, exitName: string, ports: seq<int>)
}
