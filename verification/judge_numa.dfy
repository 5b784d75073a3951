/** The judge's resource pool: one capacity cell per NUMA node, kept in a
    grid keyed by (network domain, rack, machine, NUMA), all 0-based
    (scripts/local_runner.py, class NUMA and the grid built in `interact`). */
module JudgeNuma {
  import opened Common
  import opened JudgeTypes

  datatype Numa = Numa(cpuTotal: int, memTotal: int, cpuUsed: int, memUsed: int)

  type Cell = (int, int, int, int)

  type Grid = map<Cell, Numa>

  predicate WithinCapacity(n: Numa)
  {
    n.cpuUsed <= n.cpuTotal && n.memUsed <= n.memTotal
  }

  /** Usage is never driven below zero. */
  predicate NonNegative(n: Numa)
  {
    0 <= n.cpuUsed && 0 <= n.memUsed
  }

  /** Adds the type's CPU and memory to the node; the CPU check comes first. */
  function Allocate(n: Numa, t: VMType): Result<Numa, Violation>
  {
    var m := n.(cpuUsed := n.cpuUsed + t.cpu, memUsed := n.memUsed + t.mem);
    if m.cpuUsed > m.cpuTotal then Err(CpuExceeded)
    else if m.memUsed > m.memTotal then Err(MemExceeded)
    else Ok(m)
  }

  /** Takes the type's CPU and memory back, without any check. */
  function Release(n: Numa, t: VMType): Numa
  {
    n.(cpuUsed := n.cpuUsed - t.cpu, memUsed := n.memUsed - t.mem)
  }

  /** Allocation fails exactly when CPU or memory would exceed the total, and
      otherwise raises each usage by exactly the type's amount. */
  lemma AllocateSpec(n: Numa, t: VMType)
    ensures Allocate(n, t).Ok? <==>
              n.cpuUsed + t.cpu <= n.cpuTotal && n.memUsed + t.mem <= n.memTotal
    ensures Allocate(n, t).Err? ==>
              Allocate(n, t).error == (if n.cpuUsed + t.cpu > n.cpuTotal then CpuExceeded else MemExceeded)
    ensures Allocate(n, t).Ok? ==>
              var m := Allocate(n, t).value;
              && m.cpuUsed - n.cpuUsed == t.cpu && m.memUsed - n.memUsed == t.mem
              && m.cpuTotal == n.cpuTotal && m.memTotal == n.memTotal
              && WithinCapacity(m)
  {
  }

  /** Releasing what was just allocated restores the node exactly. */
  lemma ReleaseUndoesAllocate(n: Numa, t: VMType)
    requires Allocate(n, t).Ok?
    ensures Release(Allocate(n, t).value, t) == n
  {
  }

  /** Releasing a type with non-negative demands never breaks the capacity bound. */
  lemma ReleaseKeepsCapacity(n: Numa, t: VMType)
    requires WithinCapacity(n) && t.cpu >= 0 && t.mem >= 0
    ensures WithinCapacity(Release(n, t))
    ensures Release(n, t).cpuUsed <= n.cpuUsed && Release(n, t).memUsed <= n.memUsed
  {
  }

  predicate InGrid(c: Cell, nNet: int, nRack: int, nPm: int, nNuma: int)
  {
    0 <= c.0 < nNet && 0 <= c.1 < nRack && 0 <= c.2 < nPm && 0 <= c.3 < nNuma
  }

  /** The grid the judge builds: every machine of every rack of every domain
      gets NUMA node `i` with the `i`-th (CPU, memory) totals, nothing used. */
  function InitGrid(nNet: int, nRack: int, nPm: int, numas: seq<(int, int)>): (g: Grid)
    ensures forall c :: c in g <==> InGrid(c, nNet, nRack, nPm, |numas|)
    ensures forall c :: c in g ==>
              0 <= c.3 < |numas| && g[c] == Numa(numas[c.3].0, numas[c.3].1, 0, 0)
    ensures (forall i :: 0 <= i < |numas| ==> numas[i].0 >= 0 && numas[i].1 >= 0) ==> GridWithinCapacity(g)
  {
    var cells := set net, rack, pm, i | 0 <= net < nNet && 0 <= rack < nRack && 0 <= pm < nPm && 0 <= i < |numas|
                   :: (net, rack, pm, i);
    assert forall c :: InGrid(c, nNet, nRack, nPm, |numas|) ==> c in cells by {
      forall c | InGrid(c, nNet, nRack, nPm, |numas|)
        ensures c in cells
      {
        assert c == (c.0, c.1, c.2, c.3);
      }
    }
    map c | c in cells :: Numa(numas[c.3].0, numas[c.3].1, 0, 0)
  }

  predicate GridWithinCapacity(g: Grid)
  {
    forall c :: c in g ==> WithinCapacity(g[c])
  }

  function AllocateCell(g: Grid, c: Cell, t: VMType): Result<Grid, Violation>
  {
    if c !in g then Err(BadInput)
    else match Allocate(g[c], t)
      case Ok(n) => Ok(g[c := n])
      case Err(v) => Err(v)
  }

  function ReleaseCell(g: Grid, c: Cell, t: VMType): Grid
  {
    if c in g then g[c := Release(g[c], t)] else g
  }

  /** Allocates a VM on its first NUMA node and, for a two-NUMA VM, on its second. */
  function AllocateVM(g: Grid, p: Placement, t: VMType): Result<Grid, Violation>
  {
    match AllocateCell(g, (p.net, p.rack, p.pm, p.numa1), t)
    case Err(v) => Err(v)
    case Ok(g1) =>
      if p.numa2 != -1 then AllocateCell(g1, (p.net, p.rack, p.pm, p.numa2), t) else Ok(g1)
  }

  /** Releases a VM's NUMA node(s), in the order the judge does. */
  function ReleaseVM(g: Grid, p: Placement, t: VMType): Grid
  {
    var g1 := ReleaseCell(g, (p.net, p.rack, p.pm, p.numa1), t);
    if p.numa2 != -1 then ReleaseCell(g1, (p.net, p.rack, p.pm, p.numa2), t) else g1
  }

  lemma ReleaseCellUndoesAllocateCell(g: Grid, c: Cell, t: VMType)
    requires AllocateCell(g, c, t).Ok?
    ensures ReleaseCell(AllocateCell(g, c, t).value, c, t) == g
  {
    ReleaseUndoesAllocate(g[c], t);
  }

  /** Allocation of a VM succeeds exactly when each of its cells exists and
      has room, and leaves every cell the VM does not use untouched. */
  lemma AllocateVMSpec(g: Grid, p: Placement, t: VMType)
    requires p.numa2 != p.numa1
    ensures var c1 := (p.net, p.rack, p.pm, p.numa1);
            var c2 := (p.net, p.rack, p.pm, p.numa2);
            && (AllocateVM(g, p, t).Ok? <==>
                  c1 in g && Allocate(g[c1], t).Ok? &&
                  (p.numa2 != -1 ==> c2 in g && Allocate(g[c2], t).Ok?))
            && (AllocateVM(g, p, t).Ok? ==>
                  var g' := AllocateVM(g, p, t).value;
                  && g'.Keys == g.Keys
                  && g'[c1] == Allocate(g[c1], t).value
                  && (p.numa2 != -1 ==> g'[c2] == Allocate(g[c2], t).value)
                  && forall c :: c in g && c != c1 && (p.numa2 == -1 || c != c2) ==> g'[c] == g[c])
  {
  }

  /** Releasing a VM right after allocating it restores the whole grid; this
      holds also when both NUMA indices coincide. */
  lemma ReleaseVMUndoesAllocateVM(g: Grid, p: Placement, t: VMType)
    requires AllocateVM(g, p, t).Ok?
    ensures ReleaseVM(AllocateVM(g, p, t).value, p, t) == g
  {
    var c1 := (p.net, p.rack, p.pm, p.numa1);
    var g1 := AllocateCell(g, c1, t).value;
    ReleaseCellUndoesAllocateCell(g, c1, t);
    if p.numa2 != -1 {
      var c2 := (p.net, p.rack, p.pm, p.numa2);
      ReleaseCellUndoesAllocateCell(g1, c2, t);
      var g2 := AllocateCell(g1, c2, t).value;
      if c2 == c1 {
        // both releases hit the same cell: order does not matter
        assert ReleaseCell(g2, c1, t) == g1[c1 := Release(g2[c1], t)];
      } else {
        assert ReleaseCell(g2, c1, t) == ReleaseCell(g1, c1, t)[c2 := g2[c2]];
      }
    }
  }

  /** Allocating a VM never pushes a cell over capacity, and releasing a VM
      with non-negative demands never does either: the grid stays within
      capacity through any sequence of the judge's successful operations. */
  lemma AllocateVMKeepsCapacity(g: Grid, p: Placement, t: VMType)
    requires GridWithinCapacity(g)
    requires AllocateVM(g, p, t).Ok?
    ensures GridWithinCapacity(AllocateVM(g, p, t).value)
  {
  }

  lemma ReleaseVMKeepsCapacity(g: Grid, p: Placement, t: VMType)
    requires GridWithinCapacity(g) && t.cpu >= 0 && t.mem >= 0
    ensures GridWithinCapacity(ReleaseVM(g, p, t))
  {
  }
}
