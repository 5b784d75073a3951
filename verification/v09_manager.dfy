/** The manager of the v09 solver (src/v09.cpp, `Manager`): it builds the
    hierarchy, creates groups with their partition count normalised,
    registers, places and deletes VMs, and refreshes a group's targets
    after a placement. Which nodes a batch gets is decided by a search this
    model does not contain: `CreateVMs` takes its outcome as a parameter. */
module Solver {
  import opened Common
  import opened Resources
  import opened Hierarchy
  import opened TypeFit
  import opened FitCache
  import opened Targets

  datatype Manager = Manager(
    types: seq<VMType>,
    domains: seq<Domain>,
    pgs: map<int, PG>,
    vms: map<int, VM>)

  /** Errors the solver does not survive: `at` throws on a missing type,
      group or VM, and unplacing a VM without nodes reads past an empty
      vector. */
  datatype Fault = MissingType | MissingGroup | MissingVM | NotPlaced

  function NewManager(noDomains: int, noRacks: int, noPMs: int, cpu: seq<int>, memory: seq<int>, types: seq<VMType>)
    : (m: Manager)
    requires |cpu| <= |memory|
    ensures |m.domains| == Max(0, noDomains) && m.types == types && m.pgs == map[] && m.vms == map[]
  {
    Manager(types, NewDomains(noDomains, noRacks, noPMs, cpu, memory), map[], map[])
  }

  // ---------------------------------------------------------------- groups

  /** A group asks for rack anti-affinity only with at least two
      partitions; a count of one or less means none. */
  function NormalPartitions(partitions: int): (r: int)
    ensures r == 0 <==> partitions <= 1
    ensures r != 0 ==> r == partitions
  {
    if partitions <= 1 then 0 else partitions
  }

  /** `createPG`: `emplace` leaves an existing group of the same index alone. */
  function CreatePG(m: Manager, index: int, partitions: int, softPM: int, domainAffinity: int, rackAffinity: int)
    : (m': Manager)
    ensures m'.types == m.types && m'.domains == m.domains && m'.vms == m.vms
    ensures m'.pgs.Keys == m.pgs.Keys + {index}
    ensures forall g :: g in m.pgs ==> m'.pgs[g] == m.pgs[g]
  {
    if index in m.pgs then m
    else m.(pgs := m.pgs[index := NewPG(index, NormalPartitions(partitions), softPM, domainAffinity, rackAffinity)])
  }

  /** Every group's partition count is 0 or at least 2. */
  ghost predicate PartitionsNormal(m: Manager)
  {
    forall g :: g in m.pgs ==> m.pgs[g].partitions == 0 || m.pgs[g].partitions >= 2
  }

  /** A new group starts empty with the normalised partition count, so no
      group ever holds a count of 1 or below 0. */
  lemma CreatePGSpec(m: Manager, index: int, partitions: int, softPM: int, domainAffinity: int, rackAffinity: int)
    requires index !in m.pgs
    ensures var g := CreatePG(m, index, partitions, softPM, domainAffinity, rackAffinity).pgs[index];
      && g.index == index && g.vms == [] && g.softPM == softPM
      && g.domainAffinity == domainAffinity && g.rackAffinity == rackAffinity
      && (g.partitions == 0 <==> partitions <= 1)
      && (partitions > 1 ==> g.partitions == partitions)
    ensures PartitionsNormal(m) ==> PartitionsNormal(CreatePG(m, index, partitions, softPM, domainAffinity, rackAffinity))
  {
  }

  // ---------------------------------------------------------------- creating VMs

  /** `vmsByIndex.emplace` and `pg.vms.push_back` for one new VM. */
  function Enroll(m: Manager, vm: VM): (m': Manager)
    requires vm.pg in m.pgs
    ensures m'.domains == m.domains && m'.types == m.types && m'.pgs.Keys == m.pgs.Keys
    ensures m'.vms == m.vms[vm.index := vm]
  {
    var pg := m.pgs[vm.pg];
    m.(vms := m.vms[vm.index := vm], pgs := m.pgs[vm.pg := pg.(vms := pg.vms + [vm.index])])
  }

  /** The `emplace` loop of `createVMs`, from position `i` on: one unplaced
      VM per index, each appended to the group's list. `partition` is the
      request's, already forced to 0 for a group without partitions. */
  function Register(m: Manager, ids: seq<int>, t: VMType, pgIndex: int, partition: int, i: nat): (m': Manager)
    requires pgIndex in m.pgs
    ensures m'.domains == m.domains && m'.types == m.types && m'.pgs.Keys == m.pgs.Keys
    ensures forall id :: id in m.vms ==> id in m'.vms
    ensures forall k :: i <= k < |ids| ==> ids[k] in m'.vms
    decreases |ids| - i
  {
    if i >= |ids| then m
    else Register(Enroll(m, VM(ids[i], t, pgIndex, PartitionOf(partition, i), [])), ids, t, pgIndex, partition, i + 1)
  }

  /** What the search hands over for a batch: for every VM a non-empty
      list of existing nodes. */
  predicate Chosen(ds: seq<Domain>, ids: seq<int>, c: map<int, seq<NodeRef>>)
  {
    forall k :: 0 <= k < |ids| ==> ids[k] in c && |c[ids[k]]| > 0 && AllValid(ds, c[ids[k]])
  }

  function NodeAt(ds: seq<Domain>, x: NodeRef): Node
    requires ValidRef(ds, x)
  {
    ds[x.d].racks[x.r].pms[x.p].nodes[x.n]
  }

  /** The line printed for a placed VM: the indices of the domain, rack and
      PM of its first node, then the index of each of its nodes. */
  function LineOf(ds: seq<Domain>, xs: seq<NodeRef>): (line: seq<int>)
    requires |xs| > 0 && AllValid(ds, xs)
    ensures |line| == 3 + |xs|
  {
    var x := xs[0];
    [ds[x.d].index, ds[x.d].racks[x.r].index, ds[x.d].racks[x.r].pms[x.p].index]
      + seq(|xs|, k requires 0 <= k < |xs| => NodeAt(ds, xs[k]).index)
  }

  /** `vm->place(nodes)` for the VM of index `id`. */
  function PlaceOne(m: Manager, id: int, xs: seq<NodeRef>): (m': Manager)
    requires id in m.vms && |xs| > 0 && AllValid(m.domains, xs)
    ensures m'.types == m.types && m'.pgs == m.pgs && m'.vms == m.vms[id := m.vms[id].(nodes := xs)]
    ensures forall y :: ValidRef(m'.domains, y) <==> ValidRef(m.domains, y)
  {
    var (ds, vm) := Place(m.domains, m.vms[id], xs);
    m.(domains := ds, vms := m.vms[id := vm])
  }

  /** The placing loop of `createVMs`, from position `i` on: each VM takes
      the nodes chosen for it and its line is printed. */
  function PlaceBatch(m: Manager, ids: seq<int>, c: map<int, seq<NodeRef>>, i: nat): (r: (Manager, seq<seq<int>>))
    requires Chosen(m.domains, ids, c) && forall k :: i <= k < |ids| ==> ids[k] in m.vms
    ensures r.0.types == m.types && r.0.pgs == m.pgs && r.0.vms.Keys == m.vms.Keys
    ensures forall y :: ValidRef(r.0.domains, y) <==> ValidRef(m.domains, y)
    ensures i <= |ids| ==> |r.1| == |ids| - i
    decreases |ids| - i
  {
    if i >= |ids| then (m, [])
    else
      var m1 := PlaceOne(m, ids[i], c[ids[i]]);
      var (m', out) := PlaceBatch(m1, ids, c, i + 1);
      (m', [LineOf(m1.domains, c[ids[i]])] + out)
  }

  /** The VMs a group lists, in order; an index without a VM (which the
      invariant rules out) is skipped. */
  function Members(vms: map<int, VM>, ids: seq<int>): (r: seq<VM>)
    decreases |ids|
  {
    if |ids| == 0 then []
    else Members(vms, ids[..|ids| - 1]) + (if ids[|ids| - 1] in vms then [vms[ids[|ids| - 1]]] else [])
  }

  /** The manager after the request and what the solver printed for it. */
  datatype Created = Created(m: Manager, placed: bool, out: seq<seq<int>>)

  /** `createVMs`: look up the type and the group, normalise the partition,
      register the batch, and then either print `-1` and give up (the VMs
      stay registered, unplaced) or place every VM where the search chose,
      print its line and refresh the group's targets. The indices must be
      new and distinct. */
  function CreateVMs(m: Manager, ids: seq<int>, typeIndex: int, pgIndex: int, partition: int,
                     choice: Option<map<int, seq<NodeRef>>>): (res: Result<Created, Fault>)
    requires Distinct(ids) && forall k :: 0 <= k < |ids| ==> ids[k] !in m.vms
    requires choice.Some? ==> Chosen(m.domains, ids, choice.value)
    ensures res.Err? <==> !(1 <= typeIndex <= |m.types|) || pgIndex !in m.pgs
    ensures res.Err? ==> res.error == if 1 <= typeIndex <= |m.types| then MissingGroup else MissingType
    ensures res.Ok? ==> (res.value.placed <==> choice.Some?) && res.value.m.types == m.types
    ensures res.Ok? && !res.value.placed ==> res.value.out == [[-1]]
    ensures res.Ok? && res.value.placed ==> |res.value.out| == |ids|
  {
    if !(1 <= typeIndex <= |m.types|) then Err(MissingType)
    else if pgIndex !in m.pgs then Err(MissingGroup)
    else
      var m1 := Enlist(m, ids, typeIndex, pgIndex, partition);
      match choice
      case None => Ok(Created(m1, false, [[-1]]))
      case Some(c) =>
        var r := PlaceBatch(m1, ids, c, 0);
        Ok(Created(Refresh(r.0, pgIndex), true, r.1))
  }

  /** The registering half of `createVMs`: the partition is forced to 0 in
      a group without partitions before the batch is registered. */
  function Enlist(m: Manager, ids: seq<int>, typeIndex: int, pgIndex: int, partition: int): (m': Manager)
    requires 1 <= typeIndex <= |m.types| && pgIndex in m.pgs
    ensures m'.domains == m.domains && m'.types == m.types && m'.pgs.Keys == m.pgs.Keys
    ensures forall k :: 0 <= k < |ids| ==> ids[k] in m'.vms
  {
    var pg := m.pgs[pgIndex];
    Register(m, ids, m.types[typeIndex - 1], pgIndex, if pg.partitions == 0 then 0 else partition, 0)
  }

  /** `pg.updateTargets()` for the group of index `pgIndex`. */
  function Refresh(m: Manager, pgIndex: int): (m': Manager)
    requires pgIndex in m.pgs
    ensures m'.domains == m.domains && m'.types == m.types && m'.vms == m.vms && m'.pgs.Keys == m.pgs.Keys
    ensures forall g :: g in m.pgs ==> m'.pgs[g].(targets := m.pgs[g].targets) == m.pgs[g]
  {
    var g := m.pgs[pgIndex];
    m.(pgs := m.pgs[pgIndex := UpdateTargets(g, Members(m.vms, g.vms))])
  }

  // ---------------------------------------------------------------- deleting VMs

  /** Every VM's nodes exist and its group exists: what the solver's
      pointers guarantee. */
  ghost predicate Wired(m: Manager)
  {
    forall id :: id in m.vms ==> AllValid(m.domains, m.vms[id].nodes) && m.vms[id].pg in m.pgs
  }

  /** One iteration of `deleteVMs`: unplace the VM, drop it from its
      group's list, forget it. The group's targets are not refreshed. */
  function DeleteVM(m: Manager, id: int): (res: Result<Manager, Fault>)
    requires Wired(m)
    ensures res.Err? <==> id !in m.vms || !IsPlaced(m.vms[id])
    ensures res.Err? ==> res.error == if id !in m.vms then MissingVM else NotPlaced
    ensures res.Ok? ==> res.value.vms == m.vms - {id} && res.value.types == m.types && res.value.pgs.Keys == m.pgs.Keys
    ensures res.Ok? ==> Wired(res.value)
  {
    if id !in m.vms then Err(MissingVM)
    else
      var vm := m.vms[id];
      if !IsPlaced(vm) then Err(NotPlaced)
      else
        var (ds, _) := Unplace(m.domains, vm);
        var pg := m.pgs[vm.pg];
        Ok(m.(domains := ds, pgs := m.pgs[vm.pg := pg.(vms := Remove(pg.vms, id))], vms := m.vms - {id}))
  }

  /** `deleteVMs`: deletes in the order given; the first failure aborts. */
  function DeleteVMs(m: Manager, ids: seq<int>): (res: Result<Manager, Fault>)
    requires Wired(m)
    ensures res.Ok? ==> Wired(res.value) && res.value.types == m.types
    ensures |ids| > 0 && ids[0] !in m.vms ==> res == Err(MissingVM)
    decreases |ids|
  {
    if |ids| == 0 then Ok(m)
    else match DeleteVM(m, ids[0])
      case Err(f) => Err(f)
      case Ok(m') => DeleteVMs(m', ids[1..])
  }

  /** A successful `deleteVMs` forgets exactly the given VMs. */
  lemma {:induction false} DeleteVMsTable(m: Manager, ids: seq<int>)
    requires Wired(m)
    ensures DeleteVMs(m, ids).Ok? ==> DeleteVMs(m, ids).value.vms == m.vms - Elems(ids)
    decreases |ids|
  {
    if |ids| > 0 && DeleteVM(m, ids[0]).Ok? {
      var m' := DeleteVM(m, ids[0]).value;
      DeleteVMsTable(m', ids[1..]);
      assert DeleteVMs(m, ids) == DeleteVMs(m', ids[1..]);
      ElemsCons(ids);
      MinusTwice(m.vms, ids[0], Elems(ids[1..]));
    }
  }

  // ---------------------------------------------------------------- indices

  /** Every domain, rack, machine and node carries its 1-based position,
      as the constructors number them. */
  predicate IndexedAt(ds: seq<Domain>, y: NodeRef)
    requires ValidRef(ds, y)
  {
    && ds[y.d].index == y.d + 1 && ds[y.d].racks[y.r].index == y.r + 1
    && ds[y.d].racks[y.r].pms[y.p].index == y.p + 1 && NodeAt(ds, y).index == y.n + 1
  }

  ghost predicate Indexed(ds: seq<Domain>)
  {
    forall y :: ValidRef(ds, y) ==> IndexedAt(ds, y)
  }

  lemma UpdateIndexed(ds: seq<Domain>, x: NodeRef, t: VMType, op: Op)
    requires ValidRef(ds, x) && Indexed(ds)
    ensures Indexed(Update(ds, x, t, op))
  {
    var ds' := Update(ds, x, t, op);
    forall y | ValidRef(ds', y) ensures IndexedAt(ds', y) {
      assert IndexedAt(ds, y);
    }
  }

  lemma {:induction false} UpdateAllIndexed(ds: seq<Domain>, xs: seq<NodeRef>, t: VMType, op: Op)
    requires AllValid(ds, xs) && Indexed(ds)
    ensures Indexed(UpdateAll(ds, xs, t, op))
    decreases |xs|
  {
    if |xs| > 0 {
      UpdateIndexed(ds, xs[0], t, op);
      UpdateAllIndexed(Update(ds, xs[0], t, op), xs[1..], t, op);
    }
  }

  lemma BumpIndexed(ds: seq<Domain>, x: NodeRef, pg: int, delta: int)
    requires ValidRef(ds, x) && Indexed(ds)
    ensures Indexed(BumpAt(ds, x, pg, delta))
  {
    var ds' := BumpAt(ds, x, pg, delta);
    forall y | ValidRef(ds', y) ensures IndexedAt(ds', y) {
      assert IndexedAt(ds, y);
    }
  }

  /** The line the solver prints for a VM on nodes `xs`, written with the
      positions of those nodes: 1-based domain, rack and machine of the
      first node, then each node's 1-based position in its machine. */
  function Line(xs: seq<NodeRef>): (line: seq<int>)
    requires |xs| > 0
  {
    [xs[0].d + 1, xs[0].r + 1, xs[0].p + 1] + seq(|xs|, k requires 0 <= k < |xs| => xs[k].n + 1)
  }

  /** In a numbered hierarchy the printed indices are the positions. */
  lemma LineOfIndexed(ds: seq<Domain>, xs: seq<NodeRef>)
    requires |xs| > 0 && AllValid(ds, xs) && Indexed(ds)
    ensures LineOf(ds, xs) == Line(xs)
  {
    assert IndexedAt(ds, xs[0]);
    assert forall k :: 0 <= k < |xs| ==> IndexedAt(ds, xs[k]);
  }

  // ---------------------------------------------------------------- the invariant

  /** The hierarchy is consistent: every total is the sum of its parts,
      every group counter is canonical, no cached fit is stale and every
      index is a position. */
  ghost predicate Sound(ds: seq<Domain>, types: seq<VMType>)
  {
    Balanced(ds) && CountsCanonical(ds) && Coherent(ds, types) && Indexed(ds)
  }

  /** Group lists and VMs point at each other: a listed index has a VM of
      that group, and every VM is listed by its group. */
  ghost predicate Listed(m: Manager)
  {
    && (forall g, k :: g in m.pgs && 0 <= k < |m.pgs[g].vms| ==>
          m.pgs[g].vms[k] in m.vms && m.vms[m.pgs[g].vms[k]].pg == g)
    && (forall id :: id in m.vms ==> m.vms[id].index == id && m.vms[id].pg in m.pgs && id in m.pgs[m.vms[id].pg].vms)
  }

  ghost predicate Invariant(m: Manager)
  {
    Wired(m) && Listed(m) && Sound(m.domains, m.types) && PartitionsNormal(m)
  }

  /** A manager built from a well-formed description (every node has both a
      CPU and a memory size, counts are not negative) satisfies the
      invariant. */
  lemma NewManagerInvariant(noDomains: int, noRacks: int, noPMs: int, cpu: seq<int>, memory: seq<int>, types: seq<VMType>)
    requires |cpu| == |memory| && noRacks >= 0 && noPMs >= 0
    ensures Invariant(NewManager(noDomains, noRacks, noPMs, cpu, memory, types))
  {
    var ds := NewDomains(noDomains, noRacks, noPMs, cpu, memory);
    NewDomainsBalanced(noDomains, noRacks, noPMs, cpu, memory);
    NewDomainsCoherent(noDomains, noRacks, noPMs, cpu, memory, types);
    forall y | ValidRef(ds, y) ensures IndexedAt(ds, y) && Canonical(ds[y.d].racks[y.r].pms[y.p].vmsByPG) {
      NewDomainsShape(noDomains, noRacks, noPMs, cpu, memory, y);
    }
  }

  lemma CreatePGInvariant(m: Manager, index: int, partitions: int, softPM: int, domainAffinity: int, rackAffinity: int)
    requires Invariant(m)
    ensures Invariant(CreatePG(m, index, partitions, softPM, domainAffinity, rackAffinity))
  {
    if index !in m.pgs {
      CreatePGSpec(m, index, partitions, softPM, domainAffinity, rackAffinity);
    }
  }

  // ---------------------------------------------------------------- creating VMs, proved

  /** Enrolling a new, unplaced VM of an existing group keeps the invariant. */
  lemma EnrollInvariant(m: Manager, vm: VM)
    requires Invariant(m) && vm.pg in m.pgs && vm.index !in m.vms && !IsPlaced(vm)
    ensures Invariant(Enroll(m, vm))
  {
    var m' := Enroll(m, vm);
    forall g, k | g in m'.pgs && 0 <= k < |m'.pgs[g].vms|
      ensures m'.pgs[g].vms[k] in m'.vms && m'.vms[m'.pgs[g].vms[k]].pg == g
    {
      if g == vm.pg && k == |m.pgs[g].vms| {
        assert m'.pgs[g].vms[k] == vm.index;
      } else {
        assert m'.pgs[g].vms[k] == m.pgs[g].vms[k];
      }
    }
    forall id | id in m'.vms ensures id in m'.pgs[m'.vms[id].pg].vms {
      if id != vm.index {
        assert id in m.pgs[m.vms[id].pg].vms;
      }
    }
  }

  /** What registering a batch from position `i` on does to the VMs: each
      index gets an unplaced VM of the type and group with the partition of
      its position, and every other VM is kept. */
  lemma {:induction false} RegisterVMs(m: Manager, ids: seq<int>, t: VMType, pgIndex: int, partition: int, i: nat)
    requires pgIndex in m.pgs && i <= |ids| && Distinct(ids) && forall k :: i <= k < |ids| ==> ids[k] !in m.vms
    ensures var m' := Register(m, ids, t, pgIndex, partition, i);
            && (forall k :: i <= k < |ids| ==> m'.vms[ids[k]] == VM(ids[k], t, pgIndex, PartitionOf(partition, k), []))
            && (forall id :: id in m.vms ==> m'.vms[id] == m.vms[id])
    decreases |ids| - i
  {
    if i < |ids| {
      var m' := Register(m, ids, t, pgIndex, partition, i);
      var vm := VM(ids[i], t, pgIndex, PartitionOf(partition, i), []);
      var m1 := Enroll(m, vm);
      assert m' == Register(m1, ids, t, pgIndex, partition, i + 1);
      RegisterVMs(m1, ids, t, pgIndex, partition, i + 1);
      forall k | i <= k < |ids| ensures m'.vms[ids[k]] == VM(ids[k], t, pgIndex, PartitionOf(partition, k), []) {
        if k == i {
          assert m'.vms[ids[i]] == m1.vms[ids[i]];
        }
      }
      forall id | id in m.vms ensures m'.vms[id] == m.vms[id] {
        assert id != ids[i];
        assert m'.vms[id] == m1.vms[id];
      }
    }
  }

  /** Registering adds exactly the batch's indices. */
  lemma {:induction false} RegisterKeys(m: Manager, ids: seq<int>, t: VMType, pgIndex: int, partition: int, i: nat)
    requires pgIndex in m.pgs && i <= |ids|
    ensures Register(m, ids, t, pgIndex, partition, i).vms.Keys == m.vms.Keys + Elems(ids[i..])
    decreases |ids| - i
  {
    if i < |ids| {
      var m1 := Enroll(m, VM(ids[i], t, pgIndex, PartitionOf(partition, i), []));
      RegisterKeys(m1, ids, t, pgIndex, partition, i + 1);
      ElemsCons(ids[i..]);
      assert ids[i..][1..] == ids[i + 1..];
    }
  }

  /** Registering appends the batch to the group's list and touches no
      other group. */
  lemma {:induction false} RegisterPGs(m: Manager, ids: seq<int>, t: VMType, pgIndex: int, partition: int, i: nat)
    requires pgIndex in m.pgs && i <= |ids|
    ensures Register(m, ids, t, pgIndex, partition, i).pgs
         == m.pgs[pgIndex := m.pgs[pgIndex].(vms := m.pgs[pgIndex].vms + ids[i..])]
    decreases |ids| - i
  {
    if i == |ids| {
      assert m.pgs[pgIndex].(vms := m.pgs[pgIndex].vms + ids[i..]) == m.pgs[pgIndex];
    } else {
      var m1 := Enroll(m, VM(ids[i], t, pgIndex, PartitionOf(partition, i), []));
      RegisterPGs(m1, ids, t, pgIndex, partition, i + 1);
      assert ids[i..] == [ids[i]] + ids[i + 1..];
      assert m1.pgs[pgIndex].vms + ids[i + 1..] == m.pgs[pgIndex].vms + ids[i..];
    }
  }

  lemma {:induction false} RegisterInvariant(m: Manager, ids: seq<int>, t: VMType, pgIndex: int, partition: int, i: nat)
    requires pgIndex in m.pgs && Distinct(ids) && forall k :: i <= k < |ids| ==> ids[k] !in m.vms
    requires Invariant(m)
    ensures Invariant(Register(m, ids, t, pgIndex, partition, i))
    decreases |ids| - i
  {
    if i < |ids| {
      var vm := VM(ids[i], t, pgIndex, PartitionOf(partition, i), []);
      EnrollInvariant(m, vm);
      RegisterInvariant(Enroll(m, vm), ids, t, pgIndex, partition, i + 1);
    }
  }

  /** Placing one VM on existing nodes keeps the invariant. */
  lemma PlaceOneInvariant(m: Manager, id: int, xs: seq<NodeRef>)
    requires Invariant(m) && id in m.vms && |xs| > 0 && AllValid(m.domains, xs)
    ensures Invariant(PlaceOne(m, id, xs))
  {
    var ds, vm := m.domains, m.vms[id];
    PlaceKeeps(ds, vm, xs);
    PlaceCoherent(ds, vm, xs, m.types);
    UpdateAllIndexed(ds, xs, vm.vtype, ClaimOp);
    BumpIndexed(UpdateAll(ds, xs, vm.vtype, ClaimOp), xs[0], vm.pg, 1);
  }

  lemma {:induction false} PlaceBatchInvariant(m: Manager, ids: seq<int>, c: map<int, seq<NodeRef>>, i: nat)
    requires Chosen(m.domains, ids, c) && forall k :: i <= k < |ids| ==> ids[k] in m.vms
    requires Invariant(m)
    ensures Invariant(PlaceBatch(m, ids, c, i).0)
    decreases |ids| - i
  {
    if i < |ids| {
      PlaceBatchStep(m, ids, c, i);
      PlaceOneInvariant(m, ids[i], c[ids[i]]);
      PlaceBatchInvariant(PlaceOne(m, ids[i], c[ids[i]]), ids, c, i + 1);
    }
  }

  /** One step of `PlaceBatch`: the rest of the batch is placed on the
      manager after the first placement, where the choice is still valid. */
  lemma PlaceBatchStep(m: Manager, ids: seq<int>, c: map<int, seq<NodeRef>>, i: nat)
    requires Chosen(m.domains, ids, c) && i < |ids| && forall k :: i <= k < |ids| ==> ids[k] in m.vms
    ensures var m1 := PlaceOne(m, ids[i], c[ids[i]]);
            && Chosen(m1.domains, ids, c) && (forall k :: i < k < |ids| ==> ids[k] in m1.vms)
            && PlaceBatch(m, ids, c, i).0 == PlaceBatch(m1, ids, c, i + 1).0
  {
  }

  /** One step of the printing: the first line is the positions of the
      first VM's nodes, whatever the placement did to the hierarchy. */
  lemma PlaceBatchStepOut(m: Manager, ids: seq<int>, c: map<int, seq<NodeRef>>, i: nat)
    requires Chosen(m.domains, ids, c) && i < |ids| && forall k :: i <= k < |ids| ==> ids[k] in m.vms
    requires Indexed(m.domains)
    ensures var m1 := PlaceOne(m, ids[i], c[ids[i]]);
            && Indexed(m1.domains) && Chosen(m1.domains, ids, c) && (forall k :: i < k < |ids| ==> ids[k] in m1.vms)
            && PlaceBatch(m, ids, c, i).1 == [Line(c[ids[i]])] + PlaceBatch(m1, ids, c, i + 1).1
  {
    var ds, vm, xs := m.domains, m.vms[ids[i]], c[ids[i]];
    var m1 := PlaceOne(m, ids[i], xs);
    UpdateAllIndexed(ds, xs, vm.vtype, ClaimOp);
    BumpIndexed(UpdateAll(ds, xs, vm.vtype, ClaimOp), xs[0], vm.pg, 1);
    LineOfIndexed(m1.domains, xs);
  }

  /** The VM table once the batch from position `i` on has been placed:
      each of its VMs takes the nodes chosen for it. */
  function SetNodes(vms: map<int, VM>, ids: seq<int>, c: map<int, seq<NodeRef>>, i: nat): (r: map<int, VM>)
    requires forall k :: i <= k < |ids| ==> ids[k] in vms && ids[k] in c
    ensures r.Keys == vms.Keys
    decreases |ids| - i
  {
    if i >= |ids| then vms
    else SetNodes(vms[ids[i] := vms[ids[i]].(nodes := c[ids[i]])], ids, c, i + 1)
  }

  /** Placing a batch changes the VM table only by the nodes of its VMs. */
  lemma {:induction false} PlaceBatchTable(m: Manager, ids: seq<int>, c: map<int, seq<NodeRef>>, i: nat)
    requires Chosen(m.domains, ids, c) && forall k :: i <= k < |ids| ==> ids[k] in m.vms
    ensures forall k :: i <= k < |ids| ==> ids[k] in c
    ensures PlaceBatch(m, ids, c, i).0.vms == SetNodes(m.vms, ids, c, i)
    decreases |ids| - i
  {
    if i < |ids| {
      var m1 := PlaceOne(m, ids[i], c[ids[i]]);
      PlaceBatchStep(m, ids, c, i);
      PlaceBatchTable(m1, ids, c, i + 1);
    }
  }

  lemma {:induction false} SetNodesOthers(vms: map<int, VM>, ids: seq<int>, c: map<int, seq<NodeRef>>, i: nat, id: int)
    requires forall k :: i <= k < |ids| ==> ids[k] in vms && ids[k] in c
    requires id in vms && forall k :: i <= k < |ids| ==> ids[k] != id
    ensures SetNodes(vms, ids, c, i)[id] == vms[id]
    decreases |ids| - i
  {
    if i < |ids| {
      SetNodesOthers(vms[ids[i] := vms[ids[i]].(nodes := c[ids[i]])], ids, c, i + 1, id);
    }
  }

  lemma {:induction false} SetNodesBatch(vms: map<int, VM>, ids: seq<int>, c: map<int, seq<NodeRef>>, i: nat)
    requires forall k :: i <= k < |ids| ==> ids[k] in vms && ids[k] in c
    requires Distinct(ids)
    ensures forall k :: i <= k < |ids| ==> SetNodes(vms, ids, c, i)[ids[k]] == vms[ids[k]].(nodes := c[ids[k]])
    decreases |ids| - i
  {
    if i < |ids| {
      var vms1 := vms[ids[i] := vms[ids[i]].(nodes := c[ids[i]])];
      SetNodesBatch(vms1, ids, c, i + 1);
      SetNodesOthers(vms1, ids, c, i + 1, ids[i]);
      forall k | i < k < |ids| ensures SetNodes(vms, ids, c, i)[ids[k]] == vms[ids[k]].(nodes := c[ids[k]]) {
        assert ids[k] != ids[i];
      }
    }
  }

  /** Placing a batch from position `i` on leaves every VM outside it alone. */
  lemma PlaceBatchOthers(m: Manager, ids: seq<int>, c: map<int, seq<NodeRef>>, i: nat, id: int)
    requires Chosen(m.domains, ids, c) && forall k :: i <= k < |ids| ==> ids[k] in m.vms
    requires id in m.vms && forall k :: i <= k < |ids| ==> ids[k] != id
    ensures PlaceBatch(m, ids, c, i).0.vms[id] == m.vms[id]
  {
    PlaceBatchTable(m, ids, c, i);
    SetNodesOthers(m.vms, ids, c, i, id);
  }

  /** Each VM of the batch from position `i` on ends up on the nodes chosen
      for it. */
  lemma PlaceBatchVMs(m: Manager, ids: seq<int>, c: map<int, seq<NodeRef>>, i: nat)
    requires Chosen(m.domains, ids, c) && Distinct(ids) && forall k :: i <= k < |ids| ==> ids[k] in m.vms
    ensures forall k :: i <= k < |ids| ==> PlaceBatch(m, ids, c, i).0.vms[ids[k]] == m.vms[ids[k]].(nodes := c[ids[k]])
  {
    PlaceBatchTable(m, ids, c, i);
    SetNodesBatch(m.vms, ids, c, i);
  }

  /** The lines printed for the batch from position `i` on, as positions. */
  function Lines(ids: seq<int>, c: map<int, seq<NodeRef>>, i: nat): (out: seq<seq<int>>)
    requires forall k :: i <= k < |ids| ==> ids[k] in c && |c[ids[k]]| > 0
    decreases |ids| - i
  {
    if i >= |ids| then [] else [Line(c[ids[i]])] + Lines(ids, c, i + 1)
  }

  lemma {:induction false} LinesAt(ids: seq<int>, c: map<int, seq<NodeRef>>, i: nat)
    requires forall k :: i <= k < |ids| ==> ids[k] in c && |c[ids[k]]| > 0
    ensures i <= |ids| ==> |Lines(ids, c, i)| == |ids| - i
    ensures forall k :: i <= k < |ids| ==> Lines(ids, c, i)[k - i] == Line(c[ids[k]])
    decreases |ids| - i
  {
    if i < |ids| {
      LinesAt(ids, c, i + 1);
      var out, rest := Lines(ids, c, i), Lines(ids, c, i + 1);
      forall k | i < k < |ids| ensures out[k - i] == Line(c[ids[k]]) {
        assert out[k - i] == rest[k - (i + 1)];
      }
    }
  }

  lemma {:induction false} PlaceBatchLines(m: Manager, ids: seq<int>, c: map<int, seq<NodeRef>>, i: nat)
    requires Chosen(m.domains, ids, c) && forall k :: i <= k < |ids| ==> ids[k] in m.vms
    requires Indexed(m.domains)
    ensures PlaceBatch(m, ids, c, i).1 == Lines(ids, c, i)
    decreases |ids| - i
  {
    if i < |ids| {
      PlaceBatchStepOut(m, ids, c, i);
      PlaceBatchLines(PlaceOne(m, ids[i], c[ids[i]]), ids, c, i + 1);
    }
  }

  /** The lines printed from position `i` on are the positions of the
      chosen nodes. */
  lemma PlaceBatchOut(m: Manager, ids: seq<int>, c: map<int, seq<NodeRef>>, i: nat)
    requires Chosen(m.domains, ids, c) && forall k :: i <= k < |ids| ==> ids[k] in m.vms
    requires Indexed(m.domains) && i <= |ids|
    ensures forall k :: i <= k < |ids| ==> PlaceBatch(m, ids, c, i).1[k - i] == Line(c[ids[k]])
  {
    PlaceBatchLines(m, ids, c, i);
    LinesAt(ids, c, i);
  }

  /** Registering a batch of new indices keeps the invariant. */
  lemma EnlistInvariant(m: Manager, ids: seq<int>, typeIndex: int, pgIndex: int, partition: int)
    requires Invariant(m) && 1 <= typeIndex <= |m.types| && pgIndex in m.pgs
    requires Distinct(ids) && forall k :: 0 <= k < |ids| ==> ids[k] !in m.vms
    ensures Invariant(Enlist(m, ids, typeIndex, pgIndex, partition))
  {
    var pg := m.pgs[pgIndex];
    RegisterInvariant(m, ids, m.types[typeIndex - 1], pgIndex, if pg.partitions == 0 then 0 else partition, 0);
  }

  /** The partition the VM at position `k` of a batch gets: 0 in a group
      without partitions, otherwise the request's when it is not negative,
      otherwise `k + 1`. */
  function BatchPartition(pg: PG, partition: int, k: int): int
  {
    if pg.partitions == 0 then 0 else if partition >= 0 then partition else k + 1
  }

  /** Registering gives each index of the batch an unplaced VM with the
      requested type and group and the partition of its position, appends
      the batch to the group's list and changes no other VM or group. */
  lemma EnlistTable(m: Manager, ids: seq<int>, typeIndex: int, pgIndex: int, partition: int)
    requires Distinct(ids) && forall k :: 0 <= k < |ids| ==> ids[k] !in m.vms
    requires 1 <= typeIndex <= |m.types| && pgIndex in m.pgs
    ensures var m' := Enlist(m, ids, typeIndex, pgIndex, partition);
            && (forall k :: 0 <= k < |ids| ==>
                  m'.vms[ids[k]] == VM(ids[k], m.types[typeIndex - 1], pgIndex, BatchPartition(m.pgs[pgIndex], partition, k), []))
            && (forall id :: id in m.vms ==> m'.vms[id] == m.vms[id])
            && m'.vms.Keys == m.vms.Keys + Elems(ids)
            && m'.pgs == m.pgs[pgIndex := m.pgs[pgIndex].(vms := m.pgs[pgIndex].vms + ids)]
  {
    var t, pg := m.types[typeIndex - 1], m.pgs[pgIndex];
    var p0 := if pg.partitions == 0 then 0 else partition;
    RegisterVMs(m, ids, t, pgIndex, p0, 0);
    RegisterKeys(m, ids, t, pgIndex, p0, 0);
    RegisterPGs(m, ids, t, pgIndex, p0, 0);
    assert ids[0..] == ids;
  }

  /** A successful `createVMs` records one VM per requested index, with the
      requested type, group and the partition of its position, on the
      chosen nodes or on none when the batch was declined, and changes no
      other VM. */
  lemma CreateVMsTable(m: Manager, ids: seq<int>, typeIndex: int, pgIndex: int, partition: int,
                       choice: Option<map<int, seq<NodeRef>>>)
    requires Distinct(ids) && forall k :: 0 <= k < |ids| ==> ids[k] !in m.vms
    requires choice.Some? ==> Chosen(m.domains, ids, choice.value)
    requires 1 <= typeIndex <= |m.types| && pgIndex in m.pgs
    ensures var res := CreateVMs(m, ids, typeIndex, pgIndex, partition, choice);
            && res.Ok?
            && var m' := res.value.m;
            && (forall k :: 0 <= k < |ids| ==>
                  m'.vms[ids[k]] == VM(ids[k], m.types[typeIndex - 1], pgIndex, BatchPartition(m.pgs[pgIndex], partition, k),
                                       if choice.Some? then choice.value[ids[k]] else []))
            && (forall id :: id in m.vms ==> m'.vms[id] == m.vms[id])
            && m'.vms.Keys == m.vms.Keys + Elems(ids)
  {
    var m1 := Enlist(m, ids, typeIndex, pgIndex, partition);
    EnlistTable(m, ids, typeIndex, pgIndex, partition);
    if choice.Some? {
      PlaceBatchVMs(m1, ids, choice.value, 0);
      var m2 := PlaceBatch(m1, ids, choice.value, 0).0;
      assert CreateVMs(m, ids, typeIndex, pgIndex, partition, choice).value.m == Refresh(m2, pgIndex);
      forall id | id in m.vms ensures m2.vms[id] == m.vms[id] {
        PlaceBatchOthers(m1, ids, choice.value, 0, id);
      }
      forall k | 0 <= k < |ids| ensures m2.vms[ids[k]] == m1.vms[ids[k]].(nodes := choice.value[ids[k]]) {
      }
    }
  }

  /** A successful `createVMs` appends the batch to its group's list and
      changes no other group's list. */
  lemma CreateVMsLists(m: Manager, ids: seq<int>, typeIndex: int, pgIndex: int, partition: int,
                       choice: Option<map<int, seq<NodeRef>>>)
    requires Distinct(ids) && forall k :: 0 <= k < |ids| ==> ids[k] !in m.vms
    requires choice.Some? ==> Chosen(m.domains, ids, choice.value)
    requires 1 <= typeIndex <= |m.types| && pgIndex in m.pgs
    ensures var res := CreateVMs(m, ids, typeIndex, pgIndex, partition, choice);
            && res.Ok?
            && var m' := res.value.m;
            && m'.pgs.Keys == m.pgs.Keys
            && m'.pgs[pgIndex].vms == m.pgs[pgIndex].vms + ids
            && (forall g :: g in m.pgs && g != pgIndex ==> m'.pgs[g].vms == m.pgs[g].vms)
  {
    EnlistTable(m, ids, typeIndex, pgIndex, partition);
  }

  /** When the batch is placed, the solver prints for each VM, in request
      order, the 1-based positions of its chosen domain, rack, machine and
      nodes. */
  lemma CreateVMsOutput(m: Manager, ids: seq<int>, typeIndex: int, pgIndex: int, partition: int, c: map<int, seq<NodeRef>>)
    requires Invariant(m)
    requires Distinct(ids) && forall k :: 0 <= k < |ids| ==> ids[k] !in m.vms
    requires Chosen(m.domains, ids, c) && 1 <= typeIndex <= |m.types| && pgIndex in m.pgs
    ensures var res := CreateVMs(m, ids, typeIndex, pgIndex, partition, Some(c));
            && res.Ok? && res.value.placed && |res.value.out| == |ids|
            && forall k :: 0 <= k < |ids| ==> res.value.out[k] == Line(c[ids[k]])
  {
    var m1 := Enlist(m, ids, typeIndex, pgIndex, partition);
    EnlistInvariant(m, ids, typeIndex, pgIndex, partition);
    PlaceBatchOut(m1, ids, c, 0);
    var out := PlaceBatch(m1, ids, c, 0).1;
    assert CreateVMs(m, ids, typeIndex, pgIndex, partition, Some(c)).value.out == out;
    forall k | 0 <= k < |ids| ensures out[k] == Line(c[ids[k]]) {
      assert out[k] == out[k - 0];
    }
  }

  /** Refreshing a group's targets keeps the invariant. */
  lemma RefreshInvariant(m: Manager, pgIndex: int)
    requires Invariant(m) && pgIndex in m.pgs
    ensures Invariant(Refresh(m, pgIndex))
  {
    var m' := Refresh(m, pgIndex);
    assert forall g :: g in m.pgs ==> m'.pgs[g].vms == m.pgs[g].vms && m'.pgs[g].partitions == m.pgs[g].partitions;
  }

  /** `createVMs` keeps the invariant, whether it places the batch or not. */
  lemma CreateVMsInvariant(m: Manager, ids: seq<int>, typeIndex: int, pgIndex: int, partition: int,
                           choice: Option<map<int, seq<NodeRef>>>)
    requires Invariant(m)
    requires Distinct(ids) && forall k :: 0 <= k < |ids| ==> ids[k] !in m.vms
    requires choice.Some? ==> Chosen(m.domains, ids, choice.value)
    ensures var res := CreateVMs(m, ids, typeIndex, pgIndex, partition, choice);
            res.Ok? ==> Invariant(res.value.m)
  {
    if 1 <= typeIndex <= |m.types| && pgIndex in m.pgs {
      var m1 := Enlist(m, ids, typeIndex, pgIndex, partition);
      EnlistInvariant(m, ids, typeIndex, pgIndex, partition);
      if choice.Some? {
        PlaceBatchInvariant(m1, ids, choice.value, 0);
        RefreshInvariant(PlaceBatch(m1, ids, choice.value, 0).0, pgIndex);
      }
    }
  }

  /** Right after a placing `createVMs`, the group's targets are those its
      VMs determine: refreshing them again would change nothing. */
  lemma CreateVMsTargets(m: Manager, ids: seq<int>, typeIndex: int, pgIndex: int, partition: int, c: map<int, seq<NodeRef>>)
    requires Distinct(ids) && forall k :: 0 <= k < |ids| ==> ids[k] !in m.vms
    requires Chosen(m.domains, ids, c) && 1 <= typeIndex <= |m.types| && pgIndex in m.pgs
    ensures var res := CreateVMs(m, ids, typeIndex, pgIndex, partition, Some(c));
            && res.Ok? && pgIndex in res.value.m.pgs
            && var m' := res.value.m;
            m'.pgs[pgIndex] == UpdateTargets(m'.pgs[pgIndex], Members(m'.vms, m'.pgs[pgIndex].vms))
  {
    var m1 := Enlist(m, ids, typeIndex, pgIndex, partition);
    var m2 := PlaceBatch(m1, ids, c, 0).0;
    var g := m2.pgs[pgIndex];
    UpdateTargetsIdempotent(g, Members(m2.vms, g.vms));
  }

  /** A group's list resolves to its VMs, one for one, when every listed
      index has a VM. */
  lemma {:induction false} MembersAll(vms: map<int, VM>, ids: seq<int>)
    requires forall k :: 0 <= k < |ids| ==> ids[k] in vms
    ensures |Members(vms, ids)| == |ids|
    ensures forall k :: 0 <= k < |ids| ==> Members(vms, ids)[k] == vms[ids[k]]
    decreases |ids|
  {
    if |ids| > 0 {
      MembersAll(vms, ids[..|ids| - 1]);
    }
  }

  // ---------------------------------------------------------------- deleting VMs, proved

  lemma UnplaceIndexed(ds: seq<Domain>, vm: VM)
    requires IsPlaced(vm) && AllValid(ds, vm.nodes) && Indexed(ds)
    ensures Indexed(Unplace(ds, vm).0)
  {
    UpdateAllIndexed(ds, vm.nodes, vm.vtype, ReleaseOp);
    BumpIndexed(UpdateAll(ds, vm.nodes, vm.vtype, ReleaseOp), vm.nodes[0], vm.pg, -1);
  }

  /** Deleting one placed VM keeps the invariant. */
  lemma DeleteVMInvariant(m: Manager, id: int)
    requires Invariant(m) && id in m.vms && IsPlaced(m.vms[id])
    ensures DeleteVM(m, id).Ok? && Invariant(DeleteVM(m, id).value)
  {
    var vm := m.vms[id];
    var m' := DeleteVM(m, id).value;
    UnplaceKeeps(m.domains, vm);
    UnplaceCoherent(m.domains, vm, m.types);
    UnplaceIndexed(m.domains, vm);
    forall g, k | g in m'.pgs && 0 <= k < |m'.pgs[g].vms|
      ensures m'.pgs[g].vms[k] in m'.vms && m'.vms[m'.pgs[g].vms[k]].pg == g
    {
      var x := m'.pgs[g].vms[k];
      assert x in m'.pgs[g].vms;
      assert x in m.pgs[g].vms && x != id;
    }
    forall x | x in m'.vms ensures x in m'.pgs[m'.vms[x].pg].vms {
      assert x in m.pgs[m.vms[x].pg].vms;
    }
  }

  /** `deleteVMs` of placed VMs keeps the invariant. */
  lemma {:induction false} DeleteVMsInvariant(m: Manager, ids: seq<int>)
    requires Invariant(m)
    ensures DeleteVMs(m, ids).Ok? ==> Invariant(DeleteVMs(m, ids).value)
    decreases |ids|
  {
    if |ids| > 0 && ids[0] in m.vms && IsPlaced(m.vms[ids[0]]) {
      DeleteVMInvariant(m, ids[0]);
      DeleteVMsInvariant(DeleteVM(m, ids[0]).value, ids[1..]);
    }
  }

  /** A single-VM `createVMs` that places its VM is one enrolment, one
      placement and one refresh. */
  lemma CreateOne(m: Manager, id: int, typeIndex: int, pgIndex: int, partition: int, xs: seq<NodeRef>)
    requires id !in m.vms && 1 <= typeIndex <= |m.types| && pgIndex in m.pgs
    requires |xs| > 0 && AllValid(m.domains, xs)
    ensures var vm := VM(id, m.types[typeIndex - 1], pgIndex, BatchPartition(m.pgs[pgIndex], partition, 0), []);
            var res := CreateVMs(m, [id], typeIndex, pgIndex, partition, Some(map[id := xs]));
            && res.Ok? && id in Enroll(m, vm).vms
            && res.value.m == Refresh(PlaceOne(Enroll(m, vm), id, xs), pgIndex)
  {
    var vm := VM(id, m.types[typeIndex - 1], pgIndex, BatchPartition(m.pgs[pgIndex], partition, 0), []);
    EnlistSingle(m, id, typeIndex, pgIndex, partition);
    PlaceBatchSingle(Enroll(m, vm), id, xs);
  }

  lemma EnlistSingle(m: Manager, id: int, typeIndex: int, pgIndex: int, partition: int)
    requires 1 <= typeIndex <= |m.types| && pgIndex in m.pgs
    ensures Enlist(m, [id], typeIndex, pgIndex, partition)
         == Enroll(m, VM(id, m.types[typeIndex - 1], pgIndex, BatchPartition(m.pgs[pgIndex], partition, 0), []))
  {
    var t, pg := m.types[typeIndex - 1], m.pgs[pgIndex];
    var p0 := if pg.partitions == 0 then 0 else partition;
    var m1 := Enroll(m, VM(id, t, pgIndex, PartitionOf(p0, 0), []));
    assert Register(m, [id], t, pgIndex, p0, 0) == Register(m1, [id], t, pgIndex, p0, 1);
  }

  lemma PlaceBatchSingle(m: Manager, id: int, xs: seq<NodeRef>)
    requires id in m.vms && |xs| > 0 && AllValid(m.domains, xs)
    ensures PlaceBatch(m, [id], map[id := xs], 0).0 == PlaceOne(m, id, xs)
  {
    assert PlaceBatch(m, [id], map[id := xs], 0).0 == PlaceBatch(PlaceOne(m, id, xs), [id], map[id := xs], 1).0;
  }

  /** The manager right after enrolling and placing `vm` on `xs`. */
  function Placed(m: Manager, vm: VM, xs: seq<NodeRef>, pgIndex: int): (m': Manager)
    requires vm.pg in m.pgs && pgIndex in m.pgs && |xs| > 0 && AllValid(m.domains, xs)
    ensures vm.index in m'.vms && m'.vms[vm.index] == vm.(nodes := xs)
  {
    Refresh(PlaceOne(Enroll(m, vm), vm.index, xs), pgIndex)
  }

  lemma PlacedInvariant(m: Manager, vm: VM, xs: seq<NodeRef>, pgIndex: int)
    requires Invariant(m) && vm.index !in m.vms && vm.pg in m.pgs && !IsPlaced(vm) && pgIndex in m.pgs
    requires |xs| > 0 && AllValid(m.domains, xs)
    ensures Invariant(Placed(m, vm, xs, pgIndex))
  {
    var m1 := Enroll(m, vm);
    EnrollInvariant(m, vm);
    PlaceOneInvariant(m1, vm.index, xs);
    RefreshInvariant(PlaceOne(m1, vm.index, xs), pgIndex);
  }

  /** Deleting a VM right after enrolling and placing it restores every
      counter of the hierarchy. */
  lemma DeleteUndoesCreateDomains(m: Manager, vm: VM, xs: seq<NodeRef>, pgIndex: int)
    requires CountsCanonical(m.domains) && vm.pg in m.pgs && pgIndex in m.pgs
    requires |xs| > 0 && AllValid(m.domains, xs) && Wired(Placed(m, vm, xs, pgIndex))
    ensures var back := DeleteVM(Placed(m, vm, xs, pgIndex), vm.index);
            back.Ok? && Alike(back.value.domains, m.domains)
  {
    var m3 := Placed(m, vm, xs, pgIndex);
    assert m3.domains == Place(m.domains, vm, xs).0;
    assert DeleteVM(m3, vm.index).value.domains == Unplace(m3.domains, vm.(nodes := xs)).0;
    UnplaceUndoesPlace(m.domains, vm, xs);
  }

  /** ... and the VM table and every group list. */
  lemma DeleteUndoesCreateTables(m: Manager, vm: VM, xs: seq<NodeRef>, pgIndex: int)
    requires Listed(m) && vm.index !in m.vms && vm.pg in m.pgs && pgIndex in m.pgs
    requires |xs| > 0 && AllValid(m.domains, xs) && Wired(Placed(m, vm, xs, pgIndex))
    ensures var back := DeleteVM(Placed(m, vm, xs, pgIndex), vm.index);
            && back.Ok? && back.value.vms == m.vms && back.value.types == m.types
            && back.value.pgs.Keys == m.pgs.Keys
            && forall g :: g in m.pgs ==> back.value.pgs[g].(targets := m.pgs[g].targets) == m.pgs[g]
  {
    var id := vm.index;
    var m2 := PlaceOne(Enroll(m, vm), id, xs);
    var m3 := Placed(m, vm, xs, pgIndex);
    var pg := m.pgs[vm.pg];
    assert id !in pg.vms;
    RemoveAppended(pg.vms, id);
    assert m2.pgs[vm.pg].vms == pg.vms + [id];
    assert m3.pgs[vm.pg].vms == pg.vms + [id];
    assert m3.vms - {id} == m.vms;
  }

  /** Creating a single VM on existing nodes and deleting it again restores
      every counter of the hierarchy, the VM table and every group list;
      what may differ are cached type fits and the group's targets, which
      `deleteVMs` does not refresh. */
  lemma CreateThenDelete(m: Manager, id: int, typeIndex: int, pgIndex: int, partition: int, xs: seq<NodeRef>)
    requires Invariant(m) && id !in m.vms && 1 <= typeIndex <= |m.types| && pgIndex in m.pgs
    requires |xs| > 0 && AllValid(m.domains, xs)
    ensures var res := CreateVMs(m, [id], typeIndex, pgIndex, partition, Some(map[id := xs]));
            && res.Ok? && Wired(res.value.m)
            && var back := DeleteVM(res.value.m, id);
            && back.Ok?
            && Alike(back.value.domains, m.domains) && back.value.vms == m.vms && back.value.types == m.types
            && back.value.pgs.Keys == m.pgs.Keys
            && forall g :: g in m.pgs ==> back.value.pgs[g].(targets := m.pgs[g].targets) == m.pgs[g]
  {
    var vm := VM(id, m.types[typeIndex - 1], pgIndex, BatchPartition(m.pgs[pgIndex], partition, 0), []);
    CreateOne(m, id, typeIndex, pgIndex, partition, xs);
    PlacedInvariant(m, vm, xs, pgIndex);
    DeleteUndoesCreateDomains(m, vm, xs, pgIndex);
    DeleteUndoesCreateTables(m, vm, xs, pgIndex);
  }
}
