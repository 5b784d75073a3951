/** Why the type-fit caches of src/v09.cpp never go stale: every claim or
    release clears the cache of each level it touches, and the per-group
    machine counts that `place` and `unplace` also change play no part in
    any fit. */
module FitCache {
  import opened Resources
  import opened Hierarchy
  import opened TypeFit

  lemma ApplyClears(r: Res, t: VMType, op: Op)
    ensures Apply(r, t, op).fits == map[]
  {
  }

  lemma PMUpdateCoherent(pm: PM, n: nat, t: VMType, op: Op, types: seq<VMType>)
    requires n < |pm.nodes| && PMCoherent(pm, types)
    ensures PMCoherent(PMUpdate(pm, n, t, op), types)
  {
    ApplyClears(pm.res, t, op);
    ApplyClears(pm.nodes[n].res, t, op);
  }

  lemma RackUpdateCoherent(rack: Rack, p: nat, n: nat, t: VMType, op: Op, types: seq<VMType>)
    requires p < |rack.pms| && n < |rack.pms[p].nodes| && RackCoherent(rack, types)
    ensures RackCoherent(RackUpdate(rack, p, n, t, op), types)
  {
    ApplyClears(rack.res, t, op);
    PMUpdateCoherent(rack.pms[p], n, t, op, types);
  }

  lemma DomainUpdateCoherent(dom: Domain, r: nat, p: nat, n: nat, t: VMType, op: Op, types: seq<VMType>)
    requires r < |dom.racks| && p < |dom.racks[r].pms| && n < |dom.racks[r].pms[p].nodes|
    requires DomainCoherent(dom, types)
    ensures DomainCoherent(DomainUpdate(dom, r, p, n, t, op), types)
  {
    ApplyClears(dom.res, t, op);
    RackUpdateCoherent(dom.racks[r], p, n, t, op, types);
  }

  /** A claim or release keeps every cache in the hierarchy coherent. */
  lemma UpdateCoherent(ds: seq<Domain>, x: NodeRef, t: VMType, op: Op, types: seq<VMType>)
    requires ValidRef(ds, x) && Coherent(ds, types)
    ensures Coherent(Update(ds, x, t, op), types)
  {
    DomainUpdateCoherent(ds[x.d], x.r, x.p, x.n, t, op, types);
  }

  lemma {:induction false} UpdateAllCoherent(ds: seq<Domain>, xs: seq<NodeRef>, t: VMType, op: Op, types: seq<VMType>)
    requires AllValid(ds, xs) && Coherent(ds, types)
    ensures Coherent(UpdateAll(ds, xs, t, op), types)
    decreases |xs|
  {
    if |xs| > 0 {
      UpdateCoherent(ds, xs[0], t, op, types);
      UpdateAllCoherent(Update(ds, xs[0], t, op), xs[1..], t, op, types);
    }
  }

  lemma PMBumpCoherent(pm: PM, pg: int, delta: int, types: seq<VMType>)
    requires PMCoherent(pm, types)
    ensures PMCoherent(PMBump(pm, pg, delta), types)
  {
    assert PMBump(pm, pg, delta).nodes == pm.nodes;
  }

  /** A count change leaves every fit of the rack as it was. */
  lemma RackBumpFresh(rack: Rack, p: nat, pg: int, delta: int, t: VMType)
    requires p < |rack.pms| && Measurable(t)
    ensures FreshRack(RackBump(rack, p, pg, delta), t) == FreshRack(rack, t)
  {
    var rack' := RackBump(rack, p, pg, delta);
    assert forall i :: 0 <= i < |rack.pms| ==> rack'.pms[i].nodes == rack.pms[i].nodes;
    FreshPMsPointwise(rack'.pms, rack.pms, t);
  }

  lemma RackBumpCoherent(rack: Rack, p: nat, pg: int, delta: int, types: seq<VMType>)
    requires p < |rack.pms| && RackCoherent(rack, types)
    ensures RackCoherent(RackBump(rack, p, pg, delta), types)
  {
    var rack' := RackBump(rack, p, pg, delta);
    PMBumpCoherent(rack.pms[p], pg, delta, types);
    forall k | k in rack'.res.fits
      ensures 1 <= k <= |types| && Measurable(types[k - 1]) && rack'.res.fits[k] == FreshRack(rack', types[k - 1])
    {
      RackBumpFresh(rack, p, pg, delta, types[k - 1]);
    }
  }

  lemma DomainBumpFresh(dom: Domain, r: nat, p: nat, pg: int, delta: int, t: VMType)
    requires r < |dom.racks| && p < |dom.racks[r].pms| && Measurable(t)
    ensures FreshDomain(DomainBump(dom, r, p, pg, delta), t) == FreshDomain(dom, t)
  {
    var dom' := DomainBump(dom, r, p, pg, delta);
    RackBumpFresh(dom.racks[r], p, pg, delta, t);
    assert forall i :: 0 <= i < |dom.racks| ==> FreshRack(dom'.racks[i], t) == FreshRack(dom.racks[i], t);
    FreshRacksPointwise(dom'.racks, dom.racks, t);
  }

  lemma DomainBumpCoherent(dom: Domain, r: nat, p: nat, pg: int, delta: int, types: seq<VMType>)
    requires r < |dom.racks| && p < |dom.racks[r].pms| && DomainCoherent(dom, types)
    ensures DomainCoherent(DomainBump(dom, r, p, pg, delta), types)
  {
    var dom' := DomainBump(dom, r, p, pg, delta);
    RackBumpCoherent(dom.racks[r], p, pg, delta, types);
    forall k | k in dom'.res.fits
      ensures 1 <= k <= |types| && Measurable(types[k - 1]) && dom'.res.fits[k] == FreshDomain(dom', types[k - 1])
    {
      DomainBumpFresh(dom, r, p, pg, delta, types[k - 1]);
    }
  }

  /** Counting a VM for its group on a machine keeps every cache coherent,
      although no cache is cleared: no fit depends on those counts. */
  lemma BumpCoherent(ds: seq<Domain>, x: NodeRef, pg: int, delta: int, types: seq<VMType>)
    requires ValidRef(ds, x) && Coherent(ds, types)
    ensures Coherent(BumpAt(ds, x, pg, delta), types)
  {
    DomainBumpCoherent(ds[x.d], x.r, x.p, pg, delta, types);
  }

  /** `place` and `unplace` never leave a stale fit behind. */
  lemma PlaceCoherent(ds: seq<Domain>, vm: VM, placement: seq<NodeRef>, types: seq<VMType>)
    requires |placement| > 0 && AllValid(ds, placement) && Coherent(ds, types)
    ensures Coherent(Place(ds, vm, placement).0, types)
  {
    UpdateAllCoherent(ds, placement, vm.vtype, ClaimOp, types);
    BumpCoherent(UpdateAll(ds, placement, vm.vtype, ClaimOp), placement[0], vm.pg, 1, types);
  }

  lemma UnplaceCoherent(ds: seq<Domain>, vm: VM, types: seq<VMType>)
    requires IsPlaced(vm) && AllValid(ds, vm.nodes) && Coherent(ds, types)
    ensures Coherent(Unplace(ds, vm).0, types)
  {
    UpdateAllCoherent(ds, vm.nodes, vm.vtype, ReleaseOp, types);
    BumpCoherent(UpdateAll(ds, vm.nodes, vm.vtype, ReleaseOp), vm.nodes[0], vm.pg, -1, types);
  }

  /** A freshly built hierarchy has nothing cached. */
  lemma NewDomainsCoherent(noDomains: int, noRacks: int, noPMs: int, cpu: seq<int>, memory: seq<int>, types: seq<VMType>)
    requires |cpu| <= |memory|
    ensures Coherent(NewDomains(noDomains, noRacks, noPMs, cpu, memory), types)
  {
  }
}
