/** The judge's request loop (scripts/local_runner.py, `interact`): it replays
    the problem's requests, validates each placement the contestant answers
    with, charges the NUMA grid, feeds the placement groups and keeps the
    three score counters. Text I/O is replaced by already split integer
    lines: one per request payload and one per contestant response. */
module JudgeSession {
  import opened Common
  import opened JudgeTypes
  import opened JudgeNuma
  import opened JudgeGroup

  /** The problem header: domain, rack and machine counts, the (CPU, memory)
      totals of each NUMA node of a machine, and the VM types. */
  datatype Topology = Topology(nNet: int, nRack: int, nPm: int, numas: seq<(int, int)>, types: seq<VMType>)

  /** One request of the problem file after its type line. */
  datatype Request =
    // type 1: both parameter lines of a new placement group, concatenated
    | CreateGroup(data: seq<int>)
    // type 2: `count` VMs of type `typeId` in group `groupId`, partition tag, the new VM ids
    | PlaceVMs(count: int, typeId: int, groupId: int, partition: int, ids: seq<int>)
    // type 3: the id count followed by the 1-based ids of the VMs to delete
    | ReleaseVMs(tokens: seq<int>)
    // any other type line: 4 ends the session, everything else aborts it
    | Other(tag: int)

  /** A placed VM: 0-based type and group index (as Python computes them,
      so possibly -1) and where it went. */
  datatype VM = VM(typeId: int, groupId: int, placement: Placement)

  datatype Session = Session(
    grid: Grid,
    groups: seq<Group>,
    vms: seq<VM>,
    placed: int,
    softFulfilled: int,
    softTotal: int)

  /** How a session ends: all requests served, the contestant declined a
      batch, or the judge aborted with a violation during request `reqId`. */
  datatype Outcome =
    | Finished(session: Session)
    | Unfinished(session: Session)
    | Fatal(violation: Violation, reqId: int)

  function Start(topo: Topology): (s: Session)
    ensures s.groups == [] && s.vms == []
    ensures s.placed == 0 && s.softFulfilled == 0 && s.softTotal == 0
    ensures s.grid == InitGrid(topo.nNet, topo.nRack, topo.nPm, topo.numas)
  {
    Session(InitGrid(topo.nNet, topo.nRack, topo.nPm, topo.numas), [], [], 0, 0, 0)
  }

  // ---------------------------------------------------------------------
  // Validating one response line

  /** Turns a validated 1-based response line into a placement: ids become
      0-based, the rack and machine get domain-wide numbers, and the
      partition is the VM's position for `p == -1` and `p - 1` otherwise. */
  function MakePlacement(topo: Topology, line: seq<int>, i: int, p: int): Placement
    requires |line| == 4 || |line| == 5
  {
    var net := line[0] - 1;
    var rack := line[1] - 1;
    var pm := line[2] - 1;
    var rackGlobal := rack + net * topo.nRack;
    Placement(net, rack, rackGlobal, pm, pm + topo.nPm * rackGlobal, line[3] - 1,
              if |line| == 5 then line[4] - 1 else -1,
              if p == -1 then i else p - 1)
  }

  /** Checks a response line for the `i`-th VM of a batch of type `typeId`,
      in the judge's order, and builds the placement. */
  function ParsePlacement(topo: Topology, typeId: int, line: seq<int>, i: int, p: int): Result<Placement, Violation>
  {
    var nNuma := |topo.numas|;
    if |line| != 4 && |line| != 5 then Err(BadTokenCount)
    else if |line| == 5 && !(0 < line[4] <= nNuma) then Err(Numa2OutOfRange)
    else if |line| == 5 && line[3] == line[4] then Err(SameNuma)
    else match PyIndex(topo.types, typeId - 1)
      case None => Err(BadInput)
      case Some(t) =>
        if |line| - 3 != t.numas then Err(WrongNumaCount)
        else if !(0 < line[0] <= topo.nNet) then Err(NetOutOfRange)
        else if !(0 < line[1] <= topo.nRack) then Err(RackOutOfRange)
        else if !(0 < line[2] <= topo.nPm) then Err(PmOutOfRange)
        else if !(0 < line[3] <= nNuma) then Err(Numa1OutOfRange)
        else Ok(MakePlacement(topo, line, i, p))
  }

  /** A response line is accepted exactly when it names a machine and one or
      two distinct NUMA nodes inside the topology, as many NUMA nodes as the
      type needs. */
  lemma ParseAccepts(topo: Topology, typeId: int, line: seq<int>, i: int, p: int)
    requires PyIndex(topo.types, typeId - 1).Some?
    ensures var t := PyIndex(topo.types, typeId - 1).value;
            ParsePlacement(topo, typeId, line, i, p).Ok? <==>
              && |line| == t.numas + 3
              && (|line| == 4 || |line| == 5)
              && 1 <= line[0] <= topo.nNet
              && 1 <= line[1] <= topo.nRack
              && 1 <= line[2] <= topo.nPm
              && 1 <= line[3] <= |topo.numas|
              && (|line| == 5 ==> 1 <= line[4] <= |topo.numas| && line[3] != line[4])
  {
  }

  /** A line with neither 4 nor 5 tokens is refused before anything else is
      looked at; a second NUMA index is checked before the type is. */
  lemma ParseRejects(topo: Topology, typeId: int, line: seq<int>, i: int, p: int)
    ensures |line| != 4 && |line| != 5 ==> ParsePlacement(topo, typeId, line, i, p) == Err(BadTokenCount)
    ensures |line| == 5 && !(1 <= line[4] <= |topo.numas|) ==>
              ParsePlacement(topo, typeId, line, i, p) == Err(Numa2OutOfRange)
    ensures |line| == 5 && 1 <= line[4] <= |topo.numas| && line[3] == line[4] ==>
              ParsePlacement(topo, typeId, line, i, p) == Err(SameNuma)
    ensures ParsePlacement(topo, typeId, line, i, p).Ok? ==> PyIndex(topo.types, typeId - 1).Some?
  {
  }

  lemma MulAtLeast(x: int, n: int)
    requires x >= 1 && n > 0
    ensures x * n >= n
  {
  }

  lemma DivModUnique(a: int, b: int, n: int)
    requires 0 <= a < n
    ensures (a + b * n) / n == b && (a + b * n) % n == a
  {
    var q := (a + b * n) / n;
    var r := (a + b * n) % n;
    assert (b - q) * n == r - a;
    if b - q >= 1 {
      MulAtLeast(b - q, n);
    } else if q - b >= 1 {
      MulAtLeast(q - b, n);
    }
  }

  /** Domain-wide rack and machine numbers of in-range ids are in range and
      decode back into the ids, so distinct machines get distinct numbers. */
  lemma GlobalIds(net: int, rack: int, pm: int, nNet: int, nRack: int, nPm: int)
    requires 0 <= net < nNet && 0 <= rack < nRack && 0 <= pm < nPm
    ensures var rg := rack + net * nRack;
            var pg := pm + nPm * rg;
            && 0 <= rg < nNet * nRack && rg / nRack == net && rg % nRack == rack
            && 0 <= pg < nNet * nRack * nPm && pg / nPm == rg && pg % nPm == pm
  {
    var rg := rack + net * nRack;
    DivModUnique(rack, net, nRack);
    assert nPm * rg == rg * nPm;
    DivModUnique(pm, rg, nPm);
    assert rg + 1 <= (net + 1) * nRack;
    MulLe(net + 1, nNet, nRack);
    assert pm + nPm * rg + 1 <= (rg + 1) * nPm;
    MulLe(rg + 1, nNet * nRack, nPm);
  }

  lemma MulLe(x: int, y: int, n: int)
    requires 0 <= x <= y && n >= 0
    ensures x * n <= y * n
  {
  }

  /** The placement of an accepted line is the line shifted to 0-based ids,
      with the partition the batch assigns. */
  lemma PlacementIds(topo: Topology, typeId: int, line: seq<int>, i: int, p: int)
    requires ParsePlacement(topo, typeId, line, i, p).Ok?
    ensures var pl := ParsePlacement(topo, typeId, line, i, p).value;
            && pl.net == line[0] - 1 && pl.rack == line[1] - 1 && pl.pm == line[2] - 1
            && pl.numa1 == line[3] - 1
            && pl.numa2 == (if |line| == 5 then line[4] - 1 else -1)
            && pl.partition == (if p == -1 then i else p - 1)
            && pl.rackGlobal == pl.rack + pl.net * topo.nRack
            && pl.pmGlobal == pl.pm + topo.nPm * pl.rackGlobal
            && 0 <= pl.net < topo.nNet && 0 <= pl.rack < topo.nRack && 0 <= pl.pm < topo.nPm
            && 0 <= pl.numa1 < |topo.numas| && pl.numa2 < |topo.numas| && pl.numa2 != pl.numa1
  {
  }

  // ---------------------------------------------------------------------
  // A batch of placements (request type 2)

  /** Validates, records and charges the `i`-th VM of a batch, then registers
      it with its group; yields the group's verdict on the soft rules and
      whether the group has soft rules at all. */
  function PlaceOne(topo: Topology, s: Session, typeId: int, groupId: int, p: int, line: seq<int>, i: int)
    : Result<(Session, bool, bool), Violation>
  {
    match ParsePlacement(topo, typeId, line, i, p)
    case Err(v) => Err(v)
    case Ok(pl) =>
      match PyIndex(topo.types, typeId - 1)
      case None => Err(BadInput)
      case Some(t) =>
        match AllocateVM(s.grid, pl, t)
        case Err(v) => Err(v)
        case Ok(grid) =>
          match PySlot(|s.groups|, groupId - 1)
          case None => Err(BadInput)
          case Some(j) =>
            match NewPlacement(s.groups[j], pl)
            case Err(v) => Err(v)
            case Ok((grp, status)) =>
              var soft := HasSoftConstraints(grp);
              Ok((s.(grid := grid,
                     groups := s.groups[j := grp],
                     vms := s.vms + [VM(typeId - 1, groupId - 1, pl)],
                     softTotal := s.softTotal + (if soft then 1 else 0)),
                  status, soft))
  }

  datatype BatchEnd =
    | Declined
    | BatchFailed(violation: Violation)
    | BatchDone(session: Session, softOk: bool, rest: seq<seq<int>>)

  /** Reads the responses for VMs `i`, `i + 1`, ... of a batch of `count`. A
      lone -1 declines the batch when it comes first and is a violation
      after that; `softOk` stays true only while every VM's group has soft
      rules and reports them met. */
  function PlaceBatch(topo: Topology, s: Session, count: int, typeId: int, groupId: int, p: int,
                      i: int, responses: seq<seq<int>>, softOk: bool): BatchEnd
    decreases count - i
  {
    if i >= count then BatchDone(s, softOk, responses)
    else if |responses| == 0 then BatchFailed(MissingResponse)
    else if responses[0] == [-1] then
      if i == 0 then Declined else BatchFailed(PartialPlacement)
    else match PlaceOne(topo, s, typeId, groupId, p, responses[0], i)
      case Err(v) => BatchFailed(v)
      case Ok((s1, status, soft)) =>
        PlaceBatch(topo, s1, count, typeId, groupId, p, i + 1, responses[1..], soft && softOk && status)
  }

  /** The verdict on the soft rules that each VM `i`, `i + 1`, ... of a batch
      got from its group when it was registered, in batch order, up to the
      first response that does not go through. */
  function BatchStatuses(topo: Topology, s: Session, count: int, typeId: int, groupId: int, p: int,
                         i: int, responses: seq<seq<int>>): seq<bool>
    decreases count - i
  {
    if i >= count || |responses| == 0 || responses[0] == [-1] then []
    else match PlaceOne(topo, s, typeId, groupId, p, responses[0], i)
      case Err(_) => []
      case Ok((s1, status, _)) => [status] + BatchStatuses(topo, s1, count, typeId, groupId, p, i + 1, responses[1..])
  }

  /** The number of VMs whose machine respects the group's host anti-affinity. */
  function CountHostOk(g: Group, vms: seq<VM>): (r: nat)
    ensures r <= |vms|
    ensures r == |vms| <==> forall k :: 0 <= k < |vms| ==> HostOk(g, vms[k].placement.pmGlobal)
  {
    if |vms| == 0 then 0
    else CountHostOk(g, vms[..|vms| - 1]) + (if HostOk(g, vms[|vms| - 1].placement.pmGlobal) then 1 else 0)
  }

  /** The last `l` VMs (all of them when there are fewer). */
  function Latest(vms: seq<VM>, l: int): (r: seq<VM>)
    ensures l >= 0 ==> |r| <= l
    ensures 0 <= l <= |vms| ==> |r| == l && vms[..|vms| - l] + r == vms
  {
    if 0 <= l <= |vms| then vms[|vms| - l..] else if l < 0 then [] else vms
  }

  // ---------------------------------------------------------------------
  // Deleting VMs (request type 3)

  /** Deletes the VMs with the given 1-based ids, one after the other. */
  function ReleaseAll(topo: Topology, s: Session, ids: seq<int>): Result<Session, Violation>
    decreases |ids|
  {
    if |ids| == 0 then Ok(s)
    else match ReleaseOne(topo, s, ids[0])
      case Err(v) => Err(v)
      case Ok(s1) => ReleaseAll(topo, s1, ids[1..])
  }

  /** Deletes the VM with 1-based id `id`: its group forgets the placement,
      then its NUMA node(s) get the type's resources back. */
  function ReleaseOne(topo: Topology, s: Session, id: int): Result<Session, Violation>
  {
    match PyIndex(s.vms, id - 1)
    case None => Err(BadInput)
    case Some(vm) =>
      match PySlot(|s.groups|, vm.groupId)
      case None => Err(BadInput)
      case Some(j) =>
        match DeletePlacement(s.groups[j], vm.placement)
        case Err(v) => Err(v)
        case Ok(grp) =>
          match PyIndex(topo.types, vm.typeId)
          case None => Err(BadInput)
          case Some(t) => Ok(s.(groups := s.groups[j := grp], grid := ReleaseVM(s.grid, vm.placement, t)))
  }

  // ---------------------------------------------------------------------
  // The request loop

  datatype StepEnd =
    | Next(session: Session, rest: seq<seq<int>>)
    | Stop(finished: bool, session: Session)
    | Abort(violation: Violation)

  /** After a completed batch of `l` VMs for group `g`: `placed` grows by
      `l`, and when `softOk` held, the fulfilled count grows by `l`, or
      under host anti-affinity by the batch's VMs within the threshold. */
  function AfterBatch(s1: Session, softOk: bool, rest: seq<seq<int>>, l: int, g: int): StepEnd
  {
    var s2 := s1.(placed := s1.placed + l);
    if !softOk then Next(s2, rest)
    else match PyIndex(s2.groups, g - 1)
      case None => Abort(BadInput)
      case Some(grp) =>
        var gained := if grp.rules.hostAA > 0 then CountHostOk(grp, Latest(s2.vms, l)) else l;
        Next(s2.(softFulfilled := s2.softFulfilled + gained), rest)
  }

  /** Serves one request, consuming the responses it needs. */
  function Step(topo: Topology, s: Session, req: Request, responses: seq<seq<int>>): StepEnd
  {
    match req
    case CreateGroup(data) =>
      if |data| < 5 then Abort(BadInput)
      else (match NewGroup(data[1], data[2], data[3], data[4])
        case Err(v) => Abort(v)
        case Ok(g) => Next(s.(groups := s.groups + [g]), responses))
    case PlaceVMs(l, fl, g, p, ids) =>
      if |ids| != l then Abort(BadInput)
      else (match PlaceBatch(topo, s, l, fl, g, p, 0, responses, true)
        case Declined => Stop(false, s)
        case BatchFailed(v) => Abort(v)
        case BatchDone(s1, softOk, rest) => AfterBatch(s1, softOk, rest, l, g))
    case ReleaseVMs(tokens) =>
      (match ReleaseAll(topo, s, if |tokens| == 0 then [] else tokens[1..])
      case Err(v) => Abort(v)
      case Ok(s1) => Next(s1, responses))
    case Other(tag) =>
      if tag == 4 then Stop(true, s) else Abort(UnknownRequest)
  }

  /** Serves requests until one ends the session; `reqId` counts the
      requests already served. */
  function Run(topo: Topology, s: Session, requests: seq<Request>, responses: seq<seq<int>>, reqId: int): Outcome
    decreases |requests|
  {
    if |requests| == 0 then Fatal(MissingRequest, reqId + 1)
    else match Step(topo, s, requests[0], responses)
      case Next(s1, rest) => Run(topo, s1, requests[1..], rest, reqId + 1)
      case Stop(finished, s1) => if finished then Finished(s1) else Unfinished(s1)
      case Abort(v) => Fatal(v, reqId + 1)
  }

  function Judge(topo: Topology, requests: seq<Request>, responses: seq<seq<int>>): Outcome
  {
    Run(topo, Start(topo), requests, responses, 0)
  }

  // ---------------------------------------------------------------------
  // Properties

  ghost predicate CountersOk(s: Session)
  {
    0 <= s.softFulfilled <= s.softTotal && 0 <= s.placed
  }

  ghost predicate Invariant(s: Session)
  {
    CountersOk(s) && GridWithinCapacity(s.grid)
  }

  predicate TypesNonNegative(topo: Topology)
  {
    forall k :: 0 <= k < |topo.types| ==> topo.types[k].cpu >= 0 && topo.types[k].mem >= 0
  }

  predicate NumasNonNegative(topo: Topology)
  {
    forall k :: 0 <= k < |topo.numas| ==> topo.numas[k].0 >= 0 && topo.numas[k].1 >= 0
  }

  /** Two group lists of equal length whose groups have the same rules. */
  ghost predicate SameRules(a: seq<Group>, b: seq<Group>)
  {
    |a| == |b| && forall j :: 0 <= j < |a| ==> a[j].rules == b[j].rules
  }

  /** Placing one VM appends exactly one VM record, leaves `placed` and the
      fulfilled count alone, counts the VM in `softTotal` exactly when its
      group has soft rules, and never changes any group's rules. */
  lemma PlaceOneEffect(topo: Topology, s: Session, typeId: int, groupId: int, p: int, line: seq<int>, i: int)
    requires PlaceOne(topo, s, typeId, groupId, p, line, i).Ok?
    ensures var (s1, status, soft) := PlaceOne(topo, s, typeId, groupId, p, line, i).value;
            && PyIndex(s.groups, groupId - 1).Some?
            && soft == SoftGroup(s.groups, groupId)
            && |s1.vms| == |s.vms| + 1
            && s1.placed == s.placed && s1.softFulfilled == s.softFulfilled
            && s1.softTotal == s.softTotal + (if soft then 1 else 0)
            && SameRules(s.groups, s1.groups)
            && (GridWithinCapacity(s.grid) ==> GridWithinCapacity(s1.grid))
  {
    var pl := ParsePlacement(topo, typeId, line, i, p).value;
    var t := PyIndex(topo.types, typeId - 1).value;
    var j := PySlot(|s.groups|, groupId - 1).value;
    if GridWithinCapacity(s.grid) {
      AllocateVMKeepsCapacity(s.grid, pl, t);
    }
  }

  /** A completed batch adds one VM record per remaining VM, leaves
      `placed`, the fulfilled count and every group's rules alone, and keeps
      the grid within capacity. */
  lemma {:induction false} PlaceBatchShape(topo: Topology, s: Session, count: int, typeId: int, groupId: int,
                                           p: int, i: int, responses: seq<seq<int>>, softOk: bool)
    requires PlaceBatch(topo, s, count, typeId, groupId, p, i, responses, softOk).BatchDone?
    ensures var r := PlaceBatch(topo, s, count, typeId, groupId, p, i, responses, softOk);
            && |r.session.vms| == |s.vms| + Max(count - i, 0)
            && r.session.placed == s.placed && r.session.softFulfilled == s.softFulfilled
            && SameRules(s.groups, r.session.groups)
            && (GridWithinCapacity(s.grid) ==> GridWithinCapacity(r.session.grid))
    decreases count - i
  {
    if i < count {
      PlaceBatchUnfold(topo, s, count, typeId, groupId, p, i, responses, softOk);
      var one := PlaceOne(topo, s, typeId, groupId, p, responses[0], i).value;
      PlaceOneEffect(topo, s, typeId, groupId, p, responses[0], i);
      PlaceBatchShape(topo, one.0, count, typeId, groupId, p, i + 1, responses[1..], one.2 && softOk && one.1);
    }
  }

  /** Whether the 1-based group `g` exists (in Python's sense) and has soft rules. */
  predicate SoftGroup(groups: seq<Group>, g: int)
  {
    match PyIndex(groups, g - 1)
    case Some(grp) => HasSoftConstraints(grp)
    case None => false
  }

  lemma SameRulesSoft(a: seq<Group>, b: seq<Group>, g: int)
    requires SameRules(a, b)
    ensures SoftGroup(a, g) == SoftGroup(b, g)
    ensures PyIndex(a, g - 1).Some? == PyIndex(b, g - 1).Some?
  {
  }

  /** One step of a completed batch: the first response was a placement
      that went through, and the rest of the batch continues from there. */
  lemma PlaceBatchUnfold(topo: Topology, s: Session, count: int, typeId: int, groupId: int,
                         p: int, i: int, responses: seq<seq<int>>, softOk: bool)
    requires i < count
    requires PlaceBatch(topo, s, count, typeId, groupId, p, i, responses, softOk).BatchDone?
    ensures |responses| > 0 && responses[0] != [-1] && PlaceOne(topo, s, typeId, groupId, p, responses[0], i).Ok?
    ensures var one := PlaceOne(topo, s, typeId, groupId, p, responses[0], i).value;
            PlaceBatch(topo, s, count, typeId, groupId, p, i, responses, softOk)
            == PlaceBatch(topo, one.0, count, typeId, groupId, p, i + 1, responses[1..], one.2 && softOk && one.1)
  {
  }

  /** A completed batch adds all its remaining VMs to `softTotal` when the
      group has soft rules, and none otherwise. */
  lemma {:induction false} PlaceBatchSoftTotal(topo: Topology, s: Session, count: int, typeId: int, groupId: int,
                                               p: int, i: int, responses: seq<seq<int>>, softOk: bool)
    requires PlaceBatch(topo, s, count, typeId, groupId, p, i, responses, softOk).BatchDone?
    ensures PlaceBatch(topo, s, count, typeId, groupId, p, i, responses, softOk).session.softTotal
            == s.softTotal + (if SoftGroup(s.groups, groupId) then Max(count - i, 0) else 0)
    decreases count - i
  {
    if i < count {
      PlaceBatchUnfold(topo, s, count, typeId, groupId, p, i, responses, softOk);
      var one := PlaceOne(topo, s, typeId, groupId, p, responses[0], i).value;
      PlaceOneEffect(topo, s, typeId, groupId, p, responses[0], i);
      SameRulesSoft(s.groups, one.0.groups, groupId);
      PlaceBatchSoftTotal(topo, one.0, count, typeId, groupId, p, i + 1, responses[1..], one.2 && softOk && one.1);
    }
  }

  /** Every verdict of a batch was positive. */
  predicate AllMet(st: seq<bool>)
  {
    forall k :: 0 <= k < |st| ==> st[k]
  }

  lemma AllMetCons(b: bool, st: seq<bool>)
    ensures AllMet([b] + st) <==> b && AllMet(st)
  {
    var bs := [b] + st;
    if AllMet(bs) {
      assert bs[0] == b;
      forall k | 0 <= k < |st| ensures st[k] { assert bs[k + 1] == st[k]; }
    }
    if b && AllMet(st) {
      forall k | 0 <= k < |bs| ensures bs[k] { if k > 0 { assert bs[k] == st[k - 1]; } }
    }
  }

  lemma BatchStatusesUnfold(topo: Topology, s: Session, count: int, typeId: int, groupId: int, p: int,
                            i: int, responses: seq<seq<int>>)
    requires i < count && |responses| > 0 && responses[0] != [-1]
    requires PlaceOne(topo, s, typeId, groupId, p, responses[0], i).Ok?
    ensures var one := PlaceOne(topo, s, typeId, groupId, p, responses[0], i).value;
            BatchStatuses(topo, s, count, typeId, groupId, p, i, responses)
            == [one.1] + BatchStatuses(topo, one.0, count, typeId, groupId, p, i + 1, responses[1..])
  {
  }

  /** A completed batch reports its soft rules met exactly when it started
      out so and either had no VM left, or its group has soft rules and
      every one of its VMs was reported as meeting them. */
  lemma {:induction false} PlaceBatchSoftOk(topo: Topology, s: Session, count: int, typeId: int, groupId: int,
                                            p: int, i: int, responses: seq<seq<int>>, softOk: bool)
    requires PlaceBatch(topo, s, count, typeId, groupId, p, i, responses, softOk).BatchDone?
    ensures var st := BatchStatuses(topo, s, count, typeId, groupId, p, i, responses);
            && |st| == Max(count - i, 0)
            && (PlaceBatch(topo, s, count, typeId, groupId, p, i, responses, softOk).softOk <==>
                  softOk && (i >= count || (SoftGroup(s.groups, groupId) && AllMet(st))))
    decreases count - i
  {
    if i < count {
      PlaceBatchUnfold(topo, s, count, typeId, groupId, p, i, responses, softOk);
      var one := PlaceOne(topo, s, typeId, groupId, p, responses[0], i).value;
      PlaceOneEffect(topo, s, typeId, groupId, p, responses[0], i);
      SameRulesSoft(s.groups, one.0.groups, groupId);
      PlaceBatchSoftOk(topo, one.0, count, typeId, groupId, p, i + 1, responses[1..], one.2 && softOk && one.1);
      BatchStatusesUnfold(topo, s, count, typeId, groupId, p, i, responses);
      AllMetCons(one.1, BatchStatuses(topo, one.0, count, typeId, groupId, p, i + 1, responses[1..]));
    }
  }

  /** A served batch: the batch loop completed, and the session it left gets
      `l` more placed VMs and, when `softOk` held, the fulfilled count the
      judge computes for the batch's group. */
  lemma PlaceStepParts(topo: Topology, s: Session, l: int, fl: int, g: int, p: int, ids: seq<int>,
                       responses: seq<seq<int>>)
    requires Step(topo, s, PlaceVMs(l, fl, g, p, ids), responses).Next?
    ensures var r := PlaceBatch(topo, s, l, fl, g, p, 0, responses, true);
            var s1 := Step(topo, s, PlaceVMs(l, fl, g, p, ids), responses).session;
            && l == |ids| && r.BatchDone?
            && (r.softOk ==> PyIndex(r.session.groups, g - 1).Some?)
            && s1 == r.session.(placed := r.session.placed + l,
                                softFulfilled := r.session.softFulfilled +
                                  (if !r.softOk then 0
                                   else if PyIndex(r.session.groups, g - 1).value.rules.hostAA > 0
                                   then CountHostOk(PyIndex(r.session.groups, g - 1).value, Latest(r.session.vms, l))
                                   else l))
  {
    var r := PlaceBatch(topo, s, l, fl, g, p, 0, responses, true);
    assert l == |ids| && r.BatchDone?;
    assert Step(topo, s, PlaceVMs(l, fl, g, p, ids), responses) == AfterBatch(r.session, r.softOk, r.rest, l, g);
  }

  /** A served batch of `l` VMs adds `l` to `placed` and `l` VM records;
      `softTotal` grows by `l` when the group has soft rules and stays put
      otherwise. The fulfilled count grows only when the batch is empty or
      its group has soft rules and every VM was reported as meeting them,
      and then by `l`, or under host anti-affinity by the number of the
      batch's VMs whose machine is within the threshold afterwards. */
  lemma PlaceStepCounters(topo: Topology, s: Session, l: int, fl: int, g: int, p: int, ids: seq<int>,
                          responses: seq<seq<int>>)
    requires Step(topo, s, PlaceVMs(l, fl, g, p, ids), responses).Next?
    ensures var s1 := Step(topo, s, PlaceVMs(l, fl, g, p, ids), responses).session;
            && l == |ids|
            && s1.placed == s.placed + l
            && |s1.vms| == |s.vms| + l
            && s1.softTotal == s.softTotal + (if SoftGroup(s.groups, g) then l else 0)
            && s.softFulfilled <= s1.softFulfilled
            && s1.softFulfilled - s.softFulfilled <= s1.softTotal - s.softTotal
            && PyIndex(s1.groups, g - 1).Some?
    ensures var s1 := Step(topo, s, PlaceVMs(l, fl, g, p, ids), responses).session;
            var st := BatchStatuses(topo, s, l, fl, g, p, 0, responses);
            var grp := PyIndex(s1.groups, g - 1).value;
            var met := l == 0 || (SoftGroup(s.groups, g) && AllMet(st));
            s1.softFulfilled == s.softFulfilled +
              (if !met then 0 else if grp.rules.hostAA > 0 then CountHostOk(grp, s1.vms[|s.vms|..]) else l)
  {
    var r := PlaceBatch(topo, s, l, fl, g, p, 0, responses, true);
    PlaceStepParts(topo, s, l, fl, g, p, ids, responses);
    PlaceBatchShape(topo, s, l, fl, g, p, 0, responses, true);
    PlaceBatchSoftTotal(topo, s, l, fl, g, p, 0, responses, true);
    PlaceBatchSoftOk(topo, s, l, fl, g, p, 0, responses, true);
    SameRulesSoft(s.groups, r.session.groups, g);
    if l > 0 {
      PlaceBatchUnfold(topo, s, l, fl, g, p, 0, responses, true);
      PlaceOneEffect(topo, s, fl, g, p, responses[0], 0);
    }
    var s1 := Step(topo, s, PlaceVMs(l, fl, g, p, ids), responses).session;
    assert Latest(s1.vms, l) == s1.vms[|s.vms|..];
  }

  /** A lone -1 as the first response declines the batch and ends the
      session with the counters as they were; a -1 for a later VM of the
      batch is a violation. */
  lemma DeclineRule(topo: Topology, s: Session, count: int, typeId: int, groupId: int, p: int,
                    i: int, responses: seq<seq<int>>, softOk: bool)
    requires 0 <= i < count && |responses| > 0 && responses[0] == [-1]
    ensures PlaceBatch(topo, s, count, typeId, groupId, p, i, responses, softOk)
            == if i == 0 then Declined else BatchFailed(PartialPlacement)
    ensures i == 0 && |responses| > 0 ==>
              Step(topo, s, PlaceVMs(count, typeId, groupId, p, Ids(count)), responses) == Stop(false, s)
  {
  }

  /** `n` placeholder VM ids. */
  function Ids(n: int): (r: seq<int>)
    ensures n >= 0 ==> |r| == n
    decreases n
  {
    if n <= 0 then [] else Ids(n - 1) + [n]
  }

  /** Deleting a VM right after placing it gives its NUMA node(s) back
      exactly and returns its group, the `j`-th, to an observably equal
      state; no other group changes. */
  lemma ReleaseUndoesPlace(topo: Topology, s: Session, typeId: int, groupId: int, p: int, line: seq<int>, i: int, j: nat)
    requires PlaceOne(topo, s, typeId, groupId, p, line, i).Ok?
    requires PySlot(|s.groups|, groupId - 1) == Some(j)
    requires Consistent(s.groups[j])
    ensures ReleaseOne(topo, PlaceOne(topo, s, typeId, groupId, p, line, i).value.0, |s.vms| + 1).Ok?
    ensures var s2 := ReleaseOne(topo, PlaceOne(topo, s, typeId, groupId, p, line, i).value.0, |s.vms| + 1).value;
            && s2.grid == s.grid
            && s2.groups == s.groups[j := s2.groups[j]]
            && SameObservable(s.groups[j], s2.groups[j])
  {
    PlaceOneParts(topo, s, typeId, groupId, p, line, i);
    ReleaseUndoesRegister(topo, s, PlaceOne(topo, s, typeId, groupId, p, line, i).value.0,
                          ParsePlacement(topo, typeId, line, i, p).value, PyIndex(topo.types, typeId - 1).value,
                          typeId, groupId, j);
  }

  lemma ReleaseUndoesRegister(topo: Topology, s: Session, s1: Session, pl: Placement, t: VMType,
                              typeId: int, groupId: int, j: nat)
    requires PySlot(|s.groups|, groupId - 1) == Some(j)
    requires PyIndex(topo.types, typeId - 1) == Some(t)
    requires Consistent(s.groups[j])
    requires AllocateVM(s.grid, pl, t).Ok? && NewPlacement(s.groups[j], pl).Ok?
    requires s1.grid == AllocateVM(s.grid, pl, t).value
    requires s1.groups == s.groups[j := NewPlacement(s.groups[j], pl).value.0]
    requires s1.vms == s.vms + [VM(typeId - 1, groupId - 1, pl)]
    ensures ReleaseOne(topo, s1, |s.vms| + 1).Ok?
    ensures var s2 := ReleaseOne(topo, s1, |s.vms| + 1).value;
            && s2.grid == s.grid
            && s2.groups == s.groups[j := s2.groups[j]]
            && SameObservable(s.groups[j], s2.groups[j])
  {
    var g1 := NewPlacement(s.groups[j], pl).value.0;
    DeleteUndoesNew(s.groups[j], pl);
    var d := DeletePlacement(g1, pl).value;
    ReleaseOneOf(topo, s1, |s.vms| + 1, VM(typeId - 1, groupId - 1, pl), j, t);
    ReleaseVMUndoesAllocateVM(s.grid, pl, t);
    UpdateTwice(s.groups, j, g1, d);
  }

  lemma UpdateTwice<T>(s: seq<T>, j: nat, a: T, b: T)
    requires j < |s|
    ensures s[j := a][j := b] == s[j := b]
  {
  }

  /** A deletion whose lookups all succeed. */
  lemma ReleaseOneOf(topo: Topology, s: Session, id: int, vm: VM, j: nat, t: VMType)
    requires PyIndex(s.vms, id - 1) == Some(vm)
    requires PySlot(|s.groups|, vm.groupId) == Some(j)
    requires DeletePlacement(s.groups[j], vm.placement).Ok?
    requires PyIndex(topo.types, vm.typeId) == Some(t)
    ensures ReleaseOne(topo, s, id) ==
              Ok(s.(groups := s.groups[j := DeletePlacement(s.groups[j], vm.placement).value],
                    grid := ReleaseVM(s.grid, vm.placement, t)))
  {
  }

  /** The pieces a successful placement is made of. */
  lemma PlaceOneParts(topo: Topology, s: Session, typeId: int, groupId: int, p: int, line: seq<int>, i: int)
    requires PlaceOne(topo, s, typeId, groupId, p, line, i).Ok?
    ensures ParsePlacement(topo, typeId, line, i, p).Ok? && PyIndex(topo.types, typeId - 1).Some?
    ensures PySlot(|s.groups|, groupId - 1).Some?
    ensures var pl := ParsePlacement(topo, typeId, line, i, p).value;
            var t := PyIndex(topo.types, typeId - 1).value;
            var j := PySlot(|s.groups|, groupId - 1).value;
            var s1 := PlaceOne(topo, s, typeId, groupId, p, line, i).value.0;
            && AllocateVM(s.grid, pl, t).Ok? && NewPlacement(s.groups[j], pl).Ok?
            && s1.grid == AllocateVM(s.grid, pl, t).value
            && s1.groups == s.groups[j := NewPlacement(s.groups[j], pl).value.0]
            && s1.vms == s.vms + [VM(typeId - 1, groupId - 1, pl)]
  {
  }

  /** Releasing VMs never touches the counters or the number of VMs and
      groups, and keeps the grid within capacity when demands are non-negative. */
  lemma {:induction false} ReleaseAllEffect(topo: Topology, s: Session, ids: seq<int>)
    requires ReleaseAll(topo, s, ids).Ok?
    ensures var s1 := ReleaseAll(topo, s, ids).value;
            && s1.placed == s.placed && s1.softFulfilled == s.softFulfilled && s1.softTotal == s.softTotal
            && s1.vms == s.vms && |s1.groups| == |s.groups|
            && (TypesNonNegative(topo) && GridWithinCapacity(s.grid) ==> GridWithinCapacity(s1.grid))
    decreases |ids|
  {
    if |ids| > 0 {
      var s1 := ReleaseOne(topo, s, ids[0]).value;
      if TypesNonNegative(topo) && GridWithinCapacity(s.grid) {
        var vm := PyIndex(s.vms, ids[0] - 1).value;
        ReleaseVMKeepsCapacity(s.grid, vm.placement, PyIndex(topo.types, vm.typeId).value);
      }
      ReleaseAllEffect(topo, s1, ids[1..]);
    }
  }

  /** Every served request keeps the counters ordered and non-negative and
      the grid within capacity; a stopping request leaves the session as it was. */
  lemma StepKeepsInvariant(topo: Topology, s: Session, req: Request, responses: seq<seq<int>>)
    requires Invariant(s) && TypesNonNegative(topo)
    ensures Step(topo, s, req, responses).Next? ==> Invariant(Step(topo, s, req, responses).session)
    ensures Step(topo, s, req, responses).Stop? ==> Step(topo, s, req, responses).session == s
  {
    var r := Step(topo, s, req, responses);
    if r.Next? {
      match req
      case CreateGroup(data) =>
      case PlaceVMs(l, fl, g, p, ids) =>
        PlaceStepCounters(topo, s, l, fl, g, p, ids, responses);
        PlaceBatchShape(topo, s, l, fl, g, p, 0, responses, true);
      case ReleaseVMs(tokens) =>
        ReleaseAllEffect(topo, s, if |tokens| == 0 then [] else tokens[1..]);
      case Other(tag) =>
    }
  }

  /** Whatever the contestant answers, a session that ends normally reports
      counters with 0 <= softFulfilled <= softTotal and a grid within
      capacity; an aborted one names a request that was actually read. */
  lemma {:induction false} RunKeepsInvariant(topo: Topology, s: Session, requests: seq<Request>,
                                             responses: seq<seq<int>>, reqId: int)
    requires Invariant(s) && TypesNonNegative(topo)
    ensures var o := Run(topo, s, requests, responses, reqId);
            && (o.Finished? || o.Unfinished? ==> Invariant(o.session))
            && (o.Fatal? ==> reqId + 1 <= o.reqId <= reqId + |requests| + 1)
    decreases |requests|
  {
    if |requests| > 0 {
      StepKeepsInvariant(topo, s, requests[0], responses);
      match Step(topo, s, requests[0], responses)
      case Next(s1, rest) => RunKeepsInvariant(topo, s1, requests[1..], rest, reqId + 1);
      case Stop(_, _) =>
      case Abort(_) =>
    }
  }

  /** The judge's final counters always satisfy 0 <= fulfilled <= total and
      no NUMA node ends above its capacity. */
  lemma JudgeCounters(topo: Topology, requests: seq<Request>, responses: seq<seq<int>>)
    requires TypesNonNegative(topo) && NumasNonNegative(topo)
    ensures var o := Judge(topo, requests, responses);
            && (o.Finished? || o.Unfinished? ==>
                  0 <= o.session.softFulfilled <= o.session.softTotal && 0 <= o.session.placed
                  && GridWithinCapacity(o.session.grid))
            && (o.Fatal? ==> 1 <= o.reqId <= |requests| + 1)
  {
    RunKeepsInvariant(topo, Start(topo), requests, responses, 0);
  }
}
