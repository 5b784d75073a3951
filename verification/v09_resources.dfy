/** The counters every level of the v09 solver's hierarchy shares
    (src/v09.cpp, `WithResources`): fixed totals, what is still available,
    and a cache of type fits keyed by type index. */
module Resources {
  import opened Common

  /** A VM type as the solver reads it: its 1-based index, how many NUMA
      nodes it spans and what it needs on each of them. */
  datatype VMType = VMType(index: int, nodes: int, cpu: int, memory: int)

  datatype Res = Res(totalCPU: int, totalMemory: int, availCPU: int, availMemory: int, fits: map<int, int>)

  /** The four counters a level keeps, so that one statement can cover all. */
  datatype Field = TotalCPU | TotalMemory | AvailCPU | AvailMemory

  function Get(r: Res, f: Field): int
  {
    match f
    case TotalCPU => r.totalCPU
    case TotalMemory => r.totalMemory
    case AvailCPU => r.availCPU
    case AvailMemory => r.availMemory
  }

  /** What one claim of `t` takes from a counter: nothing from the totals. */
  function Demand(t: VMType, f: Field): int
  {
    match f
    case AvailCPU => t.cpu
    case AvailMemory => t.memory
    case _ => 0
  }

  /** A fresh level: everything available, nothing cached. */
  function NewRes(cpu: int, memory: int): (r: Res)
    ensures Get(r, AvailCPU) == Get(r, TotalCPU) && Get(r, AvailMemory) == Get(r, TotalMemory)
  {
    Res(cpu, memory, cpu, memory, map[])
  }

  function Claim(r: Res, t: VMType): Res
  {
    r.(availCPU := r.availCPU - t.cpu, availMemory := r.availMemory - t.memory, fits := map[])
  }

  function Release(r: Res, t: VMType): Res
  {
    r.(availCPU := r.availCPU + t.cpu, availMemory := r.availMemory + t.memory, fits := map[])
  }

  /** The counters without the cache. */
  function Strip(r: Res): Res
  {
    r.(fits := map[])
  }

  /** A claim lowers each available counter by exactly the type's demand, a
      release raises it by the same amount; the totals stay, and both drop
      every cached fit. */
  lemma ClaimShift(r: Res, t: VMType)
    ensures forall f :: Get(Claim(r, t), f) == Get(r, f) - Demand(t, f)
    ensures forall f :: Get(Release(r, t), f) == Get(r, f) + Demand(t, f)
    ensures Claim(r, t).fits == map[] && Release(r, t).fits == map[]
  {
    forall f
      ensures Get(Claim(r, t), f) == Get(r, f) - Demand(t, f)
      ensures Get(Release(r, t), f) == Get(r, f) + Demand(t, f)
    {
    }
  }

  /** Claim and release are mutual inverses on the counters; what is lost
      is the cache. */
  lemma ClaimRelease(r: Res, t: VMType)
    ensures Release(Claim(r, t), t) == Strip(r)
    ensures Claim(Release(r, t), t) == Strip(r)
  {
  }

  function HasResources(r: Res, cpu: int, memory: int): bool
  {
    r.availCPU >= cpu && r.availMemory >= memory
  }

  /** Room for a whole VM of the type: its demand on each of its nodes. */
  function HasType(r: Res, t: VMType): bool
  {
    HasResources(r, t.nodes * t.cpu, t.nodes * t.memory)
  }

  /** `k` claims of the same type in a row. */
  function ClaimTimes(r: Res, t: VMType, k: nat): Res
  {
    if k == 0 then r else Claim(ClaimTimes(r, t, k - 1), t)
  }

  lemma {:induction false} ClaimTimesShift(r: Res, t: VMType, k: nat)
    ensures ClaimTimes(r, t, k).availCPU == r.availCPU - k * t.cpu
    ensures ClaimTimes(r, t, k).availMemory == r.availMemory - k * t.memory
  {
    if k > 0 {
      ClaimTimesShift(r, t, k - 1);
    }
  }

  /** A level has room for a type exactly when claiming the type once per
      node of the VM leaves both available counters non-negative. */
  lemma HasTypeSpec(r: Res, t: VMType)
    requires t.nodes >= 0
    ensures HasType(r, t) <==>
              ClaimTimes(r, t, t.nodes).availCPU >= 0 && ClaimTimes(r, t, t.nodes).availMemory >= 0
  {
    ClaimTimesShift(r, t, t.nodes);
  }

  /** With non-negative demands, whatever a level has room for after a claim
      it had room for before, and a release never takes room away. */
  lemma HasResourcesMonotone(r: Res, t: VMType, cpu: int, memory: int)
    requires t.cpu >= 0 && t.memory >= 0
    ensures HasResources(Claim(r, t), cpu, memory) ==> HasResources(r, cpu, memory)
    ensures HasResources(r, cpu, memory) ==> HasResources(Release(r, t), cpu, memory)
  {
  }
}
