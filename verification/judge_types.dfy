/** Records shared by the judge's components (scripts/local_runner.py). */
module JudgeTypes {

  /** A VM type as read from the problem: NUMA count, CPU and memory per NUMA. */
  datatype VMType = VMType(numas: int, cpu: int, mem: int)

  /** Where one VM was put, all indices 0-based; `numa2` is -1 for a
      single-NUMA VM; `partition` is the tag used by rack anti-affinity. */
  datatype Placement = Placement(
    net: int,
    rack: int,
    rackGlobal: int,
    pm: int,
    pmGlobal: int,
    numa1: int,
    numa2: int,
    partition: int)

  /** Every way the judge can abort a session. */
  datatype Violation =
    // a NUMA node would exceed its capacity
    | CpuExceeded
    | MemExceeded
    // a placement group asked for rack anti-affinity and rack affinity at once
    | GroupRulesConflict
    // hard placement-group rules
    | RackAntiAffinity
    | HardNetAffinity
    | HardRackAffinity
    // a dictionary lookup or set removal of an absent key
    | KeyError
    // contestant responses
    | PartialPlacement
    | BadTokenCount
    | Numa2OutOfRange
    | SameNuma
    | WrongNumaCount
    | NetOutOfRange
    | RackOutOfRange
    | PmOutOfRange
    | Numa1OutOfRange
    | MissingResponse
    // problem input the judge cannot interpret
    | BadInput
    | MissingRequest
    | UnknownRequest
}
