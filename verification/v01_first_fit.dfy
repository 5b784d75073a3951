/** The first-fit solver (src/v01.cpp): a Domain > Rack > PM > Node
    hierarchy built with 1-based indices, placement groups with hard
    domain/rack affinity and rack anti-affinity by partition, VMs placed
    one at a time on the first PM (in domain, rack, PM order) that has
    enough fitting nodes, and deletion that gives the resources back.

    A node is identified by its position in the hierarchy; a placed VM
    records its PM's position and the positions of its nodes on that PM. */
module FirstFit {
  import opened Common

  /** `Affinity::HARD`; `NONE` (0) and `SOFT` (1) impose nothing here. */
  const Hard := 2

  datatype VMType = VMType(nodes: int, cpu: int, memory: int)

  datatype Node = Node(index: int, cpu: int, memory: int, vms: seq<int>)

  datatype PM = PM(index: int, nodes: seq<Node>)

  datatype Rack = Rack(index: int, pms: seq<PM>)

  datatype Domain = Domain(index: int, racks: seq<Rack>)

  /** Where a VM sits: PM `p` of rack `r` of domain `d`, on the listed node
      positions of that PM (all 0-based). */
  datatype Host = Host(d: nat, r: nat, p: nat, nodes: seq<nat>)

  datatype VM = VM(index: int, vtype: VMType, pg: int, partition: int, host: Option<Host>)

  /** A VM as its group's list sees it: the group reads only its partition
      and the domain and rack of its first node, none of which change while
      the VM is in the list. */
  datatype Member = Member(vm: int, partition: int, domain: nat, rack: nat)

  datatype PG = PG(
    index: int,
    partitions: int,
    softPM: int,
    domainAffinity: int,
    rackAffinity: int,
    vms: seq<Member>)

  datatype Manager = Manager(
    types: seq<VMType>,
    domains: seq<Domain>,
    pgs: map<int, PG>,
    vms: map<int, VM>)

  // ---------------------------------------------------------------------
  // Construction

  function NewPM(index: int, cpu: seq<int>, memory: seq<int>): (pm: PM)
    requires |cpu| == |memory|
    ensures pm.index == index && |pm.nodes| == |cpu|
    ensures forall n :: 0 <= n < |pm.nodes| ==> pm.nodes[n] == Node(n + 1, cpu[n], memory[n], [])
  {
    PM(index, seq(|cpu|, n requires 0 <= n < |cpu| => Node(n + 1, cpu[n], memory[n], [])))
  }

  function NewRack(index: int, noPMs: int, cpu: seq<int>, memory: seq<int>): (rack: Rack)
    requires |cpu| == |memory|
    ensures rack.index == index && |rack.pms| == Max(0, noPMs)
    ensures forall p :: 0 <= p < |rack.pms| ==> rack.pms[p] == NewPM(p + 1, cpu, memory)
  {
    Rack(index, seq(Max(0, noPMs), p => NewPM(p + 1, cpu, memory)))
  }

  function NewDomain(index: int, noRacks: int, noPMs: int, cpu: seq<int>, memory: seq<int>): (dom: Domain)
    requires |cpu| == |memory|
    ensures dom.index == index && |dom.racks| == Max(0, noRacks)
    ensures forall r :: 0 <= r < |dom.racks| ==> dom.racks[r] == NewRack(r + 1, noPMs, cpu, memory)
  {
    Domain(index, seq(Max(0, noRacks), r => NewRack(r + 1, noPMs, cpu, memory)))
  }

  /** The hierarchy the `Manager` constructor builds. */
  function NewDomains(noDomains: int, noRacks: int, noPMs: int, cpu: seq<int>, memory: seq<int>): (ds: seq<Domain>)
    requires |cpu| == |memory|
    ensures |ds| == Max(0, noDomains)
    ensures forall d :: 0 <= d < |ds| ==> ds[d] == NewDomain(d + 1, noRacks, noPMs, cpu, memory)
  {
    seq(Max(0, noDomains), d => NewDomain(d + 1, noRacks, noPMs, cpu, memory))
  }

  function NewManager(noDomains: int, noRacks: int, noPMs: int, cpu: seq<int>, memory: seq<int>,
                      types: seq<VMType>): Manager
    requires |cpu| == |memory|
  {
    Manager(types, NewDomains(noDomains, noRacks, noPMs, cpu, memory), map[], map[])
  }

  /** Every index field is the 1-based position of its element. */
  predicate PMIndexed(pm: PM)
  {
    forall n :: 0 <= n < |pm.nodes| ==> pm.nodes[n].index == n + 1
  }

  predicate RackIndexed(rack: Rack)
  {
    forall p :: 0 <= p < |rack.pms| ==> rack.pms[p].index == p + 1 && PMIndexed(rack.pms[p])
  }

  predicate DomainIndexed(dom: Domain)
  {
    forall r :: 0 <= r < |dom.racks| ==> dom.racks[r].index == r + 1 && RackIndexed(dom.racks[r])
  }

  predicate Indexed(ds: seq<Domain>)
  {
    forall d :: 0 <= d < |ds| ==> ds[d].index == d + 1 && DomainIndexed(ds[d])
  }

  /** Every node's free CPU and memory is non-negative. */
  predicate PMNonNegative(pm: PM)
  {
    forall n :: 0 <= n < |pm.nodes| ==> pm.nodes[n].cpu >= 0 && pm.nodes[n].memory >= 0
  }

  predicate RackNonNegative(rack: Rack)
  {
    forall p :: 0 <= p < |rack.pms| ==> PMNonNegative(rack.pms[p])
  }

  predicate DomainNonNegative(dom: Domain)
  {
    forall r :: 0 <= r < |dom.racks| ==> RackNonNegative(dom.racks[r])
  }

  predicate NonNegative(ds: seq<Domain>)
  {
    forall d :: 0 <= d < |ds| ==> DomainNonNegative(ds[d])
  }

  /** The constructors number every level from 1 in creation order, give each
      PM one node per configured NUMA with its full capacity and no VMs, and
      so start with non-negative capacity when the configuration has it. */
  lemma NewDomainsSpec(noDomains: int, noRacks: int, noPMs: int, cpu: seq<int>, memory: seq<int>)
    requires |cpu| == |memory|
    ensures var ds := NewDomains(noDomains, noRacks, noPMs, cpu, memory);
            && Indexed(ds)
            && |ds| == Max(0, noDomains)
            && (forall d, r, p ::
                  0 <= d < |ds| && 0 <= r < |ds[d].racks| && 0 <= p < |ds[d].racks[r].pms| ==>
                    && |ds[d].racks| == Max(0, noRacks)
                    && |ds[d].racks[r].pms| == Max(0, noPMs)
                    && |ds[d].racks[r].pms[p].nodes| == |cpu|)
            && (forall d, r, p, n ::
                  0 <= d < |ds| && 0 <= r < |ds[d].racks| && 0 <= p < |ds[d].racks[r].pms| &&
                  0 <= n < |ds[d].racks[r].pms[p].nodes| ==>
                    var node := ds[d].racks[r].pms[p].nodes[n];
                    node.cpu == cpu[n] && node.memory == memory[n] && node.vms == [])
            && ((forall i :: 0 <= i < |cpu| ==> cpu[i] >= 0 && memory[i] >= 0) ==> NonNegative(ds))
  {
  }

  // ---------------------------------------------------------------------
  // Choosing nodes on one PM

  predicate Fits(node: Node, t: VMType)
  {
    node.cpu >= t.cpu && node.memory >= t.memory
  }

  /** The positions from `i` on of the nodes with room for one part of `t`,
      ascending: the reference the node scan is measured against. */
  function FittingFrom(nodes: seq<Node>, t: VMType, i: nat): seq<nat>
    decreases |nodes| - i
  {
    if i >= |nodes| then []
    else if Fits(nodes[i], t) then [i] + FittingFrom(nodes, t, i + 1)
    else FittingFrom(nodes, t, i + 1)
  }

  /** The reference lists exactly the fitting positions from `i` on, each
      once, in ascending order. */
  lemma {:induction false} FittingSpec(nodes: seq<Node>, t: VMType, i: nat)
    ensures var f := FittingFrom(nodes, t, i);
            && (forall k :: 0 <= k < |f| ==> i <= f[k] < |nodes| && Fits(nodes[f[k]], t))
            && Increasing(f)
            && (forall n :: i <= n < |nodes| && Fits(nodes[n], t) ==> n in f)
    decreases |nodes| - i
  {
    if i < |nodes| {
      FittingSpec(nodes, t, i + 1);
    }
  }

  /** The first `k` elements of `f`, or all of them when `k` is not in 1..|f|. */
  function Truncate(f: seq<nat>, k: int): seq<nat>
  {
    if 1 <= k <= |f| then f[..k] else f
  }

  /** The node loop of `createVMs`: collect fitting nodes in order and stop
      as soon as the collection holds `t.nodes` of them. */
  function Scan(nodes: seq<Node>, t: VMType, i: nat, acc: seq<nat>): seq<nat>
    decreases |nodes| - i
  {
    if i >= |nodes| then acc
    else if Fits(nodes[i], t) then
      if |acc| + 1 == t.nodes then acc + [i] else Scan(nodes, t, i + 1, acc + [i])
    else Scan(nodes, t, i + 1, acc)
  }

  lemma TruncateCons(x: nat, rest: seq<nat>, k: int)
    requires k != 1
    ensures Truncate([x] + rest, k) == [x] + Truncate(rest, k - 1)
  {
    if 2 <= k <= |rest| + 1 {
      assert ([x] + rest)[..k] == [x] + rest[..k - 1];
    }
  }

  lemma {:induction false} ScanSpec(nodes: seq<Node>, t: VMType, i: nat, acc: seq<nat>)
    ensures Scan(nodes, t, i, acc) == acc + Truncate(FittingFrom(nodes, t, i), t.nodes - |acc|)
    decreases |nodes| - i
  {
    if i < |nodes| {
      var rest := FittingFrom(nodes, t, i + 1);
      var k := t.nodes - |acc|;
      if Fits(nodes[i], t) {
        assert FittingFrom(nodes, t, i) == [i] + rest;
        if |acc| + 1 == t.nodes {
          assert Truncate([i] + rest, k) == [i];
        } else {
          ScanSpec(nodes, t, i + 1, acc + [i]);
          TruncateCons(i, rest, k);
          assert acc + [i] + Truncate(rest, k - 1) == acc + ([i] + Truncate(rest, k - 1));
        }
      } else {
        ScanSpec(nodes, t, i + 1, acc);
      }
    }
  }

  /** The nodes the solver takes on a PM: the first `t.nodes` fitting ones in
      position order, or every fitting one when there are fewer. */
  function PickNodes(nodes: seq<Node>, t: VMType): seq<nat>
  {
    Scan(nodes, t, 0, [])
  }

  /** The scan picks the first `t.nodes` fitting nodes (all of them when there
      are fewer), so every pick is a distinct fitting node, in position order. */
  lemma PickNodesSpec(nodes: seq<Node>, t: VMType)
    ensures var picks := PickNodes(nodes, t);
            && picks == Truncate(FittingFrom(nodes, t, 0), t.nodes)
            && (forall k :: 0 <= k < |picks| ==> picks[k] < |nodes| && Fits(nodes[picks[k]], t))
            && Increasing(picks)
  {
    var f := FittingFrom(nodes, t, 0);
    ScanSpec(nodes, t, 0, []);
    assert PickNodes(nodes, t) == Truncate(f, t.nodes);
    FittingSpec(nodes, t, 0);
    TruncatePrefix(f, t.nodes);
  }

  lemma TruncatePrefix(f: seq<nat>, k: int)
    ensures |Truncate(f, k)| <= |f|
    ensures forall j :: 0 <= j < |Truncate(f, k)| ==> Truncate(f, k)[j] == f[j]
    ensures Increasing(f) ==> Increasing(Truncate(f, k))
  {
  }

  /** The PM can take the VM: the scan found exactly `t.nodes` nodes. */
  predicate Accepts(pm: PM, t: VMType)
  {
    |PickNodes(pm.nodes, t)| == t.nodes
  }

  /** For a VM of at least one node, a PM accepts it exactly when it has that
      many fitting nodes, and the picks are then `t.nodes` distinct fitting
      nodes, in position order, none skipped. */
  lemma PickSpec(pm: PM, t: VMType)
    requires t.nodes >= 1
    ensures var f := FittingFrom(pm.nodes, t, 0);
            var picks := PickNodes(pm.nodes, t);
            && (Accepts(pm, t) <==> |f| >= t.nodes)
            && (Accepts(pm, t) ==>
                  && picks == f[..t.nodes]
                  && (forall k :: 0 <= k < |picks| ==> picks[k] < |pm.nodes| && Fits(pm.nodes[picks[k]], t))
                  && (forall k, j :: 0 <= k < j < |picks| ==> picks[k] < picks[j])
                  && (forall n :: 0 <= n < picks[|picks| - 1] && Fits(pm.nodes[n], t) ==> n in picks))
  {
    var f := FittingFrom(pm.nodes, t, 0);
    FittingSpec(pm.nodes, t, 0);
    PickNodesSpec(pm.nodes, t);
    if |f| >= t.nodes {
      var picks := f[..t.nodes];
      forall n | 0 <= n < picks[|picks| - 1] && Fits(pm.nodes[n], t)
        ensures n in picks
      {
        var k :| 0 <= k < |f| && f[k] == n;
        IncreasingOrder(f, k, t.nodes - 1);
        assert picks[k] == n;
      }
    }
  }

  /** In an increasing sequence a smaller element sits at a smaller position. */
  lemma IncreasingOrder(f: seq<nat>, a: nat, b: nat)
    requires Increasing(f) && a < |f| && b < |f| && f[a] < f[b]
    ensures a < b
  {
  }

  // ---------------------------------------------------------------------
  // The group's hard rules

  /** `rackSupportsVM`: may a VM of partition `partition` of group `pg` go
      to rack `r` of domain `d`? */
  predicate RackSupports(pg: PG, partition: int, d: nat, r: nat)
  {
    if |pg.vms| == 0 then true
    else
      && (pg.domainAffinity == Hard ==> pg.vms[0].domain == d)
      && (pg.rackAffinity == Hard ==> pg.vms[0].domain == d && pg.vms[0].rack == r)
      && (pg.partitions > 0 ==>
            forall a :: a in pg.vms && a.domain == d && a.rack == r ==> a.partition == partition)
  }

  /** The hard rules a group's placed VMs obey: one domain under hard domain
      affinity, one rack under hard rack affinity, and one partition per rack
      under rack anti-affinity. */
  predicate GroupRules(pg: PG)
  {
    && (pg.domainAffinity == Hard ==> forall a, b :: a in pg.vms && b in pg.vms ==> a.domain == b.domain)
    && (pg.rackAffinity == Hard ==>
          forall a, b :: a in pg.vms && b in pg.vms ==> a.domain == b.domain && a.rack == b.rack)
    && (pg.partitions > 0 ==>
          forall a, b :: a in pg.vms && b in pg.vms && a.domain == b.domain && a.rack == b.rack ==>
            a.partition == b.partition)
  }

  /** For a group that obeys its rules, the rack check accepts a rack exactly
      when adding the VM there keeps the rules: comparing with the group's
      first VM is enough. */
  lemma RackSupportsSpec(pg: PG, vm: int, partition: int, d: nat, r: nat)
    requires GroupRules(pg)
    ensures RackSupports(pg, partition, d, r) <==>
              GroupRules(pg.(vms := pg.vms + [Member(vm, partition, d, r)]))
  {
    var x := Member(vm, partition, d, r);
    var g := pg.(vms := pg.vms + [x]);
    if RackSupports(pg, partition, d, r) {
      assert forall a :: a in g.vms <==> a in pg.vms || a == x;
    } else {
      assert pg.vms[0] in g.vms && x in g.vms;
    }
  }

  // ---------------------------------------------------------------------
  // First fit

  /** PM `p` of rack `r` of domain `d` exists, its rack admits the VM and the
      PM has the nodes for it. */
  predicate Hosts(ds: seq<Domain>, pg: PG, partition: int, t: VMType, d: nat, r: nat, p: nat)
  {
    && d < |ds| && r < |ds[d].racks| && p < |ds[d].racks[r].pms|
    && RackSupports(pg, partition, d, r)
    && Accepts(ds[d].racks[r].pms[p], t)
  }

  /** The PM loop: the first PM from `p` on that accepts the VM. */
  function SearchPMs(pms: seq<PM>, t: VMType, p: nat): Option<nat>
    decreases |pms| - p
  {
    if p >= |pms| then None
    else if Accepts(pms[p], t) then Some(p)
    else SearchPMs(pms, t, p + 1)
  }

  /** The rack loop of domain `d`: skip racks the group rules out, take the
      first PM of the first rack that has one. */
  function SearchRacks(ds: seq<Domain>, pg: PG, partition: int, t: VMType, d: nat, r: nat): Option<(nat, nat)>
    requires d < |ds|
    decreases |ds[d].racks| - r
  {
    if r >= |ds[d].racks| then None
    else if !RackSupports(pg, partition, d, r) then SearchRacks(ds, pg, partition, t, d, r + 1)
    else match SearchPMs(ds[d].racks[r].pms, t, 0)
      case Some(p) => Some((r, p))
      case None => SearchRacks(ds, pg, partition, t, d, r + 1)
  }

  /** The domain loop. */
  function SearchDomains(ds: seq<Domain>, pg: PG, partition: int, t: VMType, d: nat): Option<(nat, nat, nat)>
    decreases |ds| - d
  {
    if d >= |ds| then None
    else match SearchRacks(ds, pg, partition, t, d, 0)
      case Some((r, p)) => Some((d, r, p))
      case None => SearchDomains(ds, pg, partition, t, d + 1)
  }

  /** The PM loop stops at the first accepting PM from `p` on, and finds none
      exactly when none accepts. */
  lemma {:induction false} SearchPMsSpec(pms: seq<PM>, t: VMType, p: nat)
    ensures var res := SearchPMs(pms, t, p);
            && (res.Some? ==>
                  && p <= res.value < |pms| && Accepts(pms[res.value], t)
                  && forall q :: p <= q < res.value ==> !Accepts(pms[q], t))
            && (res.None? ==> forall q :: p <= q < |pms| ==> !Accepts(pms[q], t))
    decreases |pms| - p
  {
    if p < |pms| && !Accepts(pms[p], t) {
      SearchPMsSpec(pms, t, p + 1);
    }
  }

  /** The rack loop stops at the first hosting PM of the first rack from `r`
      on that has one. */
  lemma {:induction false} SearchRacksSpec(ds: seq<Domain>, pg: PG, partition: int, t: VMType, d: nat, r: nat)
    requires d < |ds|
    ensures var res := SearchRacks(ds, pg, partition, t, d, r);
            && (res.Some? ==>
                  && r <= res.value.0 && Hosts(ds, pg, partition, t, d, res.value.0, res.value.1)
                  && (forall r': nat, p': nat :: r <= r' < res.value.0 ==> !Hosts(ds, pg, partition, t, d, r', p'))
                  && (forall p': nat :: p' < res.value.1 ==> !Hosts(ds, pg, partition, t, d, res.value.0, p')))
            && (res.None? ==> forall r': nat, p': nat :: r <= r' ==> !Hosts(ds, pg, partition, t, d, r', p'))
    decreases |ds[d].racks| - r
  {
    if r < |ds[d].racks| {
      if RackSupports(pg, partition, d, r) {
        SearchPMsSpec(ds[d].racks[r].pms, t, 0);
      }
      if SearchRacks(ds, pg, partition, t, d, r) != SearchRacks(ds, pg, partition, t, d, r + 1) {
      } else {
        SearchRacksSpec(ds, pg, partition, t, d, r + 1);
      }
    }
  }

  /** The domain loop stops at the first domain from `d` on that has a
      hosting PM, and there at the first one. */
  lemma {:induction false} SearchDomainsSpec(ds: seq<Domain>, pg: PG, partition: int, t: VMType, d: nat)
    ensures var res := SearchDomains(ds, pg, partition, t, d);
            && (res.Some? ==>
                  && d <= res.value.0 && Hosts(ds, pg, partition, t, res.value.0, res.value.1, res.value.2)
                  && (forall d': nat, r': nat, p': nat :: d <= d' < res.value.0 ==> !Hosts(ds, pg, partition, t, d', r', p'))
                  && (forall r': nat, p': nat :: r' < res.value.1 ==> !Hosts(ds, pg, partition, t, res.value.0, r', p'))
                  && (forall p': nat :: p' < res.value.2 ==> !Hosts(ds, pg, partition, t, res.value.0, res.value.1, p')))
            && (res.None? ==> forall d': nat, r': nat, p': nat :: d <= d' ==> !Hosts(ds, pg, partition, t, d', r', p'))
    decreases |ds| - d
  {
    if d < |ds| {
      SearchRacksSpec(ds, pg, partition, t, d, 0);
      if SearchRacks(ds, pg, partition, t, d, 0).None? {
        SearchDomainsSpec(ds, pg, partition, t, d + 1);
      }
    }
  }

  /** (d', r', p') comes before (d, r, p) in the solver's search order. */
  predicate Before(d': nat, r': nat, p': nat, d: nat, r: nat, p: nat)
  {
    d' < d || (d' == d && (r' < r || (r' == r && p' < p)))
  }

  /** Where the solver puts a VM: the nodes picked on the first PM, in
      domain, rack, PM order, that hosts it. */
  function FindHost(ds: seq<Domain>, pg: PG, partition: int, t: VMType): (h: Option<Host>)
    ensures h.Some? ==> HostValid(ds, h.value, t)
  {
    SearchDomainsSpec(ds, pg, partition, t, 0);
    match SearchDomains(ds, pg, partition, t, 0)
    case Some((d, r, p)) =>
      PickNodesSpec(ds[d].racks[r].pms[p].nodes, t);
      Some(Host(d, r, p, PickNodes(ds[d].racks[r].pms[p].nodes, t)))
    case None => None
  }

  /** A found host is in a rack the group admits, and each of its nodes had
      room for the VM. */
  lemma FindHostSpec(ds: seq<Domain>, pg: PG, partition: int, t: VMType)
    requires FindHost(ds, pg, partition, t).Some?
    ensures var h := FindHost(ds, pg, partition, t).value;
            && RackSupports(pg, partition, h.d, h.r)
            && forall k :: 0 <= k < |h.nodes| ==> Fits(PMAt(ds, h.d, h.r, h.p).nodes[h.nodes[k]], t)
  {
    SearchDomainsSpec(ds, pg, partition, t, 0);
    var h := FindHost(ds, pg, partition, t).value;
    PickNodesSpec(PMAt(ds, h.d, h.r, h.p).nodes, t);
  }

  /** First fit: the chosen PM hosts the VM, with the nodes the scan picks
      there, and no PM before it in domain, rack, PM order does; no host is
      found exactly when no PM anywhere hosts the VM. */
  lemma FindHostFirst(ds: seq<Domain>, pg: PG, partition: int, t: VMType)
    ensures var h := FindHost(ds, pg, partition, t);
            && (h.Some? ==>
                  && Hosts(ds, pg, partition, t, h.value.d, h.value.r, h.value.p)
                  && h.value.nodes == PickNodes(ds[h.value.d].racks[h.value.r].pms[h.value.p].nodes, t)
                  && forall d': nat, r': nat, p': nat :: Before(d', r', p', h.value.d, h.value.r, h.value.p) ==>
                       !Hosts(ds, pg, partition, t, d', r', p'))
            && (h.None? <==> forall d': nat, r': nat, p': nat :: !Hosts(ds, pg, partition, t, d', r', p'))
  {
    SearchDomainsSpec(ds, pg, partition, t, 0);
  }

  // ---------------------------------------------------------------------
  // Claiming and giving back node resources

  function ClaimNode(node: Node, t: VMType, vm: int): Node
  {
    node.(cpu := node.cpu - t.cpu, memory := node.memory - t.memory, vms := node.vms + [vm])
  }

  function ReleaseNode(node: Node, t: VMType, vm: int): Node
  {
    node.(cpu := node.cpu + t.cpu, memory := node.memory + t.memory, vms := Remove(node.vms, vm))
  }

  /** Claims the picked nodes one after another. */
  function ClaimNodes(nodes: seq<Node>, picks: seq<nat>, t: VMType, vm: int): (res: seq<Node>)
    requires forall k :: 0 <= k < |picks| ==> picks[k] < |nodes|
    ensures |res| == |nodes|
    decreases |picks|
  {
    if |picks| == 0 then nodes
    else ClaimNodes(nodes[picks[0] := ClaimNode(nodes[picks[0]], t, vm)], picks[1..], t, vm)
  }

  /** Gives the VM's nodes back one after another. */
  function ReleaseNodes(nodes: seq<Node>, picks: seq<nat>, t: VMType, vm: int): (res: seq<Node>)
    requires forall k :: 0 <= k < |picks| ==> picks[k] < |nodes|
    ensures |res| == |nodes|
    decreases |picks|
  {
    if |picks| == 0 then nodes
    else ReleaseNodes(nodes[picks[0] := ReleaseNode(nodes[picks[0]], t, vm)], picks[1..], t, vm)
  }

  predicate Increasing(picks: seq<nat>)
  {
    forall k, j :: 0 <= k < j < |picks| ==> picks[k] < picks[j]
  }

  /** On distinct positions the sequential claim touches each picked node
      once and no other node. */
  lemma {:induction false} ClaimNodesAt(nodes: seq<Node>, picks: seq<nat>, t: VMType, vm: int)
    requires forall k :: 0 <= k < |picks| ==> picks[k] < |nodes|
    requires Increasing(picks)
    ensures forall n :: 0 <= n < |nodes| ==>
              ClaimNodes(nodes, picks, t, vm)[n] == if n in picks then ClaimNode(nodes[n], t, vm) else nodes[n]
    decreases |picks|
  {
    if |picks| > 0 {
      var next := nodes[picks[0] := ClaimNode(nodes[picks[0]], t, vm)];
      ClaimNodesAt(next, picks[1..], t, vm);
      assert forall n :: n in picks <==> n == picks[0] || n in picks[1..];
      assert picks[0] !in picks[1..];
    }
  }

  lemma {:induction false} ReleaseNodesAt(nodes: seq<Node>, picks: seq<nat>, t: VMType, vm: int)
    requires forall k :: 0 <= k < |picks| ==> picks[k] < |nodes|
    requires Increasing(picks)
    ensures forall n :: 0 <= n < |nodes| ==>
              ReleaseNodes(nodes, picks, t, vm)[n] == if n in picks then ReleaseNode(nodes[n], t, vm) else nodes[n]
    decreases |picks|
  {
    if |picks| > 0 {
      var next := nodes[picks[0] := ReleaseNode(nodes[picks[0]], t, vm)];
      ReleaseNodesAt(next, picks[1..], t, vm);
      assert forall n :: n in picks <==> n == picks[0] || n in picks[1..];
      assert picks[0] !in picks[1..];
    }
  }

  /** Giving back the nodes of a VM that held none of them before restores
      every node exactly. */
  lemma ReleaseUndoesClaim(nodes: seq<Node>, picks: seq<nat>, t: VMType, vm: int)
    requires forall k :: 0 <= k < |picks| ==> picks[k] < |nodes|
    requires Increasing(picks)
    requires forall k :: 0 <= k < |picks| ==> vm !in nodes[picks[k]].vms
    ensures ReleaseNodes(ClaimNodes(nodes, picks, t, vm), picks, t, vm) == nodes
  {
    var claimed := ClaimNodes(nodes, picks, t, vm);
    ClaimNodesAt(nodes, picks, t, vm);
    ReleaseNodesAt(claimed, picks, t, vm);
    var back := ReleaseNodes(claimed, picks, t, vm);
    forall n | 0 <= n < |nodes|
      ensures back[n] == nodes[n]
    {
      if n in picks {
        RemoveAppended(nodes[n].vms, vm);
      }
    }
  }

  /** Claiming fitting nodes never drives a capacity below zero. */
  lemma ClaimKeepsNonNegative(nodes: seq<Node>, picks: seq<nat>, t: VMType, vm: int)
    requires forall k :: 0 <= k < |picks| ==> picks[k] < |nodes| && Fits(nodes[picks[k]], t)
    requires Increasing(picks)
    requires forall n :: 0 <= n < |nodes| ==> nodes[n].cpu >= 0 && nodes[n].memory >= 0
    ensures forall n :: 0 <= n < |nodes| ==>
              ClaimNodes(nodes, picks, t, vm)[n].cpu >= 0 && ClaimNodes(nodes, picks, t, vm)[n].memory >= 0
  {
    ClaimNodesAt(nodes, picks, t, vm);
  }

  // ---------------------------------------------------------------------
  // The manager

  /** Errors the solver does not survive: `unordered_map::at` throws on a
      missing group or VM index, and `vector::at(0)` throws when a placed VM
      of a zero-node type is printed. */
  datatype Fault = MissingGroup | MissingVM | EmptyNodeList

  /** `createPG`: `emplace` leaves an existing group of the same index alone. */
  function CreatePG(m: Manager, index: int, partitions: int, softPM: int, domainAffinity: int, rackAffinity: int)
    : (m': Manager)
    ensures m'.types == m.types && m'.domains == m.domains && m'.vms == m.vms
    ensures m'.pgs.Keys == m.pgs.Keys + {index}
    ensures forall g :: g in m.pgs ==> m'.pgs[g] == m.pgs[g]
    ensures index !in m.pgs ==>
              m'.pgs[index] == PG(index, partitions, softPM, domainAffinity, rackAffinity, [])
  {
    if index in m.pgs then m
    else m.(pgs := m.pgs[index := PG(index, partitions, softPM, domainAffinity, rackAffinity, [])])
  }

  predicate ValidPM(ds: seq<Domain>, d: nat, r: nat, p: nat)
  {
    d < |ds| && r < |ds[d].racks| && p < |ds[d].racks[r].pms|
  }

  function PMAt(ds: seq<Domain>, d: nat, r: nat, p: nat): PM
    requires ValidPM(ds, d, r, p)
  {
    ds[d].racks[r].pms[p]
  }

  /** Replaces one PM, leaving the rest of the hierarchy as it is. */
  function SetPM(ds: seq<Domain>, d: nat, r: nat, p: nat, pm: PM): (res: seq<Domain>)
    requires ValidPM(ds, d, r, p)
    ensures forall d', r', p' :: ValidPM(res, d', r', p') <==> ValidPM(ds, d', r', p')
    ensures forall d', r', p' :: ValidPM(ds, d', r', p') ==>
              PMAt(res, d', r', p') == if d' == d && r' == r && p' == p then pm else PMAt(ds, d', r', p')
  {
    var rack := ds[d].racks[r];
    var dom := ds[d];
    ds[d := dom.(racks := dom.racks[r := rack.(pms := rack.pms[p := pm])])]
  }

  /** A PM that keeps its own and its nodes' index fields keeps the whole
      hierarchy numbered, and one with non-negative nodes keeps every node
      non-negative. */
  lemma SetPMKeeps(ds: seq<Domain>, d: nat, r: nat, p: nat, pm: PM)
    requires ValidPM(ds, d, r, p)
    ensures Indexed(ds) && pm.index == p + 1 && PMIndexed(pm) ==> Indexed(SetPM(ds, d, r, p, pm))
    ensures NonNegative(ds) && PMNonNegative(pm) ==> NonNegative(SetPM(ds, d, r, p, pm))
  {
  }

  /** `SetPM` with the PM already there changes nothing. */
  lemma SetPMSame(ds: seq<Domain>, d: nat, r: nat, p: nat)
    requires ValidPM(ds, d, r, p)
    ensures SetPM(ds, d, r, p, PMAt(ds, d, r, p)) == ds
  {
    var rack := ds[d].racks[r];
    assert rack.pms[p := rack.pms[p]] == rack.pms;
    assert ds[d].racks[r := rack] == ds[d].racks;
  }

  /** The later of two replacements of the same PM wins. */
  lemma SetPMTwice(ds: seq<Domain>, d: nat, r: nat, p: nat, a: PM, b: PM)
    requires ValidPM(ds, d, r, p)
    ensures SetPM(SetPM(ds, d, r, p, a), d, r, p, b) == SetPM(ds, d, r, p, b)
  {
    var rack := ds[d].racks[r];
    var dom := ds[d];
    var s1 := SetPM(ds, d, r, p, a);
    assert s1[d].racks[r].pms[p := b] == rack.pms[p := b];
    assert s1[d].racks[r := s1[d].racks[r].(pms := rack.pms[p := b])] == dom.racks[r := rack.(pms := rack.pms[p := b])];
  }

  /** The `emplace` loop of `createVMs`: one unplaced VM per index. */
  function Register(vms: map<int, VM>, ids: seq<int>, t: VMType, pg: int, partition: int, i: nat)
    : (res: map<int, VM>)
    decreases |ids| - i
  {
    if i >= |ids| then vms
    else Register(vms[ids[i] := VM(ids[i], t, pg, PartitionOf(partition, i), None)], ids, t, pg, partition, i + 1)
  }

  /** Places one registered VM on the first PM that hosts it: claims the
      picked nodes and appends the VM to its group. `None` when no PM can. */
  function PlaceVM(m: Manager, id: int): (res: Option<Manager>)
    ensures res.Some? <==>
              id in m.vms && m.vms[id].pg in m.pgs &&
              FindHost(m.domains, m.pgs[m.vms[id].pg], m.vms[id].partition, m.vms[id].vtype).Some?
  {
    if id !in m.vms || m.vms[id].pg !in m.pgs then None
    else
      var vm := m.vms[id];
      var pg := m.pgs[vm.pg];
      match FindHost(m.domains, pg, vm.partition, vm.vtype)
      case None => None
      case Some(h) =>
        var pm := PMAt(m.domains, h.d, h.r, h.p);
        Some(m.(domains := SetPM(m.domains, h.d, h.r, h.p, pm.(nodes := ClaimNodes(pm.nodes, h.nodes, vm.vtype, id))),
                pgs := m.pgs[vm.pg := pg.(vms := pg.vms + [Member(id, vm.partition, h.d, h.r)])],
                vms := m.vms[id := vm.(host := Some(h))]))
  }

  /** Places the batch from position `i` on, in order, and stops at the
      first VM that finds no place; the flag says whether all were placed.
      Claims made before a failure stay. */
  function PlaceAll(m: Manager, ids: seq<int>, i: nat): (res: (Manager, bool))
    decreases |ids| - i
  {
    if i >= |ids| then (m, true)
    else match PlaceVM(m, ids[i])
      case None => (m, false)
      case Some(m') => PlaceAll(m', ids, i + 1)
  }

  /** The line printed for a placed VM: domain, rack and PM index, then the
      index of each of its nodes. */
  function LineOf(ds: seq<Domain>, h: Host): seq<int>
  {
    if ValidPM(ds, h.d, h.r, h.p) && forall k :: 0 <= k < |h.nodes| ==> h.nodes[k] < |PMAt(ds, h.d, h.r, h.p).nodes|
    then
      var pm := PMAt(ds, h.d, h.r, h.p);
      [ds[h.d].index, ds[h.d].racks[h.r].index, pm.index] +
      seq(|h.nodes|, k requires 0 <= k < |h.nodes| => pm.nodes[h.nodes[k]].index)
    else []
  }

  /** A host by position, as a line shows it once the indices are the
      positions: 1-based domain, rack and PM, then each node, 1-based. */
  function Printed(h: Host): seq<int>
  {
    [h.d + 1, h.r + 1, h.p + 1] + seq(|h.nodes|, k requires 0 <= k < |h.nodes| => h.nodes[k] + 1)
  }

  function Lines(m: Manager, ids: seq<int>): seq<seq<int>>
  {
    seq(|ids|, k requires 0 <= k < |ids| =>
      if ids[k] in m.vms && m.vms[ids[k]].host.Some? then LineOf(m.domains, m.vms[ids[k]].host.value) else [])
  }

  /** The manager after the request and what the solver printed for it. */
  datatype Created = Created(m: Manager, placed: bool, out: seq<seq<int>>)

  /** `createVMs`: register the batch, place it VM by VM, and print one line
      per VM if all found a place, otherwise the single line `-1`. The
      indices must be new and distinct, and the type index in range. A type
      of zero nodes is taken by any PM with an empty node list, and printing
      such a VM's first node throws. */
  function CreateVMs(m: Manager, ids: seq<int>, typeIndex: int, pgIndex: int, partition: int)
    : (res: Result<Created, Fault>)
    requires 1 <= typeIndex <= |m.types|
    requires Distinct(ids) && forall k :: 0 <= k < |ids| ==> ids[k] !in m.vms
    ensures res == Err(MissingGroup) <==> pgIndex !in m.pgs
    ensures res == Err(EmptyNodeList) ==> m.types[typeIndex - 1].nodes == 0 && |ids| > 0
    ensures m.types[typeIndex - 1].nodes != 0 ==> (res.Err? <==> pgIndex !in m.pgs)
    ensures res.Ok? && !res.value.placed ==> res.value.out == [[-1]]
    ensures res.Ok? && res.value.placed ==> |res.value.out| == |ids|
  {
    if pgIndex !in m.pgs then Err(MissingGroup)
    else
      var m1 := m.(vms := Register(m.vms, ids, m.types[typeIndex - 1], pgIndex, partition, 0));
      var (m2, ok) := PlaceAll(m1, ids, 0);
      if !ok then Ok(Created(m2, false, [[-1]]))
      else if m.types[typeIndex - 1].nodes == 0 && |ids| > 0 then Err(EmptyNodeList)
      else Ok(Created(m2, true, Lines(m2, ids)))
  }

  /** `removeFromVector` on a group's list: every entry of the VM goes. */
  function RemoveMember(s: seq<Member>, vm: int): (res: seq<Member>)
  {
    if |s| == 0 then []
    else RemoveMember(s[..|s| - 1], vm) + (if s[|s| - 1].vm == vm then [] else [s[|s| - 1]])
  }

  /** Exactly the entries of other VMs stay. */
  lemma {:induction false} RemoveMemberSpec(s: seq<Member>, vm: int)
    ensures forall a :: a in RemoveMember(s, vm) <==> a in s && a.vm != vm
  {
    if |s| > 0 {
      var pre := s[..|s| - 1];
      RemoveMemberSpec(pre, vm);
      assert pre + [s[|s| - 1]] == s;
    }
  }

  lemma RemoveMemberAppended(s: seq<Member>, x: Member)
    requires forall a :: a in s ==> a.vm != x.vm
    ensures RemoveMember(s + [x], x.vm) == s
  {
    assert (s + [x])[..|s|] == s;
    RemoveMemberUntouched(s, x.vm);
  }

  lemma {:induction false} RemoveMemberUntouched(s: seq<Member>, vm: int)
    requires forall k :: 0 <= k < |s| ==> s[k].vm != vm
    ensures RemoveMember(s, vm) == s
  {
    if |s| > 0 {
      var pre := s[..|s| - 1];
      RemoveMemberUntouched(pre, vm);
      assert RemoveMember(s, vm) == RemoveMember(pre, vm) + [s[|s| - 1]];
      assert pre + [s[|s| - 1]] == s;
    }
  }

  /** Gives a VM's nodes back, when its recorded position exists. */
  function ReleaseHost(ds: seq<Domain>, h: Host, t: VMType, vm: int): seq<Domain>
  {
    if ValidPM(ds, h.d, h.r, h.p) && forall k :: 0 <= k < |h.nodes| ==> h.nodes[k] < |PMAt(ds, h.d, h.r, h.p).nodes|
    then
      var pm := PMAt(ds, h.d, h.r, h.p);
      SetPM(ds, h.d, h.r, h.p, pm.(nodes := ReleaseNodes(pm.nodes, h.nodes, t, vm)))
    else ds
  }

  /** One iteration of `deleteVMs`: give the nodes back, leave the group,
      forget the VM. */
  function DeleteVM(m: Manager, id: int): (res: Result<Manager, Fault>)
    ensures res.Err? <==> id !in m.vms
    ensures res.Ok? ==> res.value.vms == m.vms - {id} && res.value.types == m.types
    ensures res.Ok? ==> res.value.pgs.Keys == m.pgs.Keys
  {
    if id !in m.vms then Err(MissingVM)
    else
      var vm := m.vms[id];
      var ds := match vm.host
        case None => m.domains
        case Some(h) => ReleaseHost(m.domains, h, vm.vtype, id);
      var pgs := if vm.pg in m.pgs then m.pgs[vm.pg := m.pgs[vm.pg].(vms := RemoveMember(m.pgs[vm.pg].vms, id))]
                 else m.pgs;
      Ok(m.(domains := ds, pgs := pgs, vms := m.vms - {id}))
  }

  /** `deleteVMs`: deletes in the order given; a missing index aborts. */
  function DeleteVMs(m: Manager, ids: seq<int>): (res: Result<Manager, Fault>)
    ensures res.Ok? <==> Distinct(ids) && forall k :: 0 <= k < |ids| ==> ids[k] in m.vms
    ensures res.Ok? ==> res.value.vms == m.vms - set k | 0 <= k < |ids| :: ids[k]
    decreases |ids|
  {
    if |ids| == 0 then Ok(m)
    else match DeleteVM(m, ids[0])
      case Err(f) => Err(f)
      case Ok(m') => DeleteVMs(m', ids[1..])
  }

  // ---------------------------------------------------------------------
  // Invariants and the properties of placing and deleting

  /** A placed VM's record names an existing PM and `t.nodes` distinct nodes on it. */
  predicate HostValid(ds: seq<Domain>, h: Host, t: VMType)
  {
    && ValidPM(ds, h.d, h.r, h.p)
    && |h.nodes| == t.nodes
    && Increasing(h.nodes)
    && forall k :: 0 <= k < |h.nodes| ==> h.nodes[k] < |PMAt(ds, h.d, h.r, h.p).nodes|
  }

  ghost predicate HostsValid(m: Manager)
  {
    forall id :: id in m.vms && m.vms[id].host.Some? ==> HostValid(m.domains, m.vms[id].host.value, m.vms[id].vtype)
  }

  ghost predicate AllGroupRules(m: Manager)
  {
    forall g :: g in m.pgs ==> GroupRules(m.pgs[g])
  }

  /** What every reachable manager satisfies: numbered hierarchy, no node
      over-committed, every group within its hard rules, every placed VM's
      record pointing at real nodes. */
  ghost predicate Invariant(m: Manager)
  {
    Indexed(m.domains) && NonNegative(m.domains) && AllGroupRules(m) && HostsValid(m)
  }

  /** Two hierarchies with the same PMs, each with the same number of nodes. */
  ghost predicate SameShape(a: seq<Domain>, b: seq<Domain>)
  {
    && (forall d, r, p :: ValidPM(a, d, r, p) <==> ValidPM(b, d, r, p))
    && (forall d, r, p :: ValidPM(a, d, r, p) ==> |PMAt(a, d, r, p).nodes| == |PMAt(b, d, r, p).nodes|)
  }

  lemma SameShapeHosts(m: Manager, ds: seq<Domain>)
    requires HostsValid(m) && SameShape(m.domains, ds)
    ensures HostsValid(m.(domains := ds))
  {
  }

  /** `id` appears on no node's list and in no group. */
  ghost predicate Absent(m: Manager, id: int)
  {
    && (forall d, r, p, n :: ValidPM(m.domains, d, r, p) && 0 <= n < |PMAt(m.domains, d, r, p).nodes| ==>
          id !in PMAt(m.domains, d, r, p).nodes[n].vms)
    && (forall g, a :: g in m.pgs && a in m.pgs[g].vms ==> a.vm != id)
  }

  /** The start: a fresh manager satisfies the invariant when the configured
      capacities are non-negative. */
  lemma NewManagerInvariant(noDomains: int, noRacks: int, noPMs: int, cpu: seq<int>, memory: seq<int>,
                            types: seq<VMType>)
    requires |cpu| == |memory|
    requires forall i :: 0 <= i < |cpu| ==> cpu[i] >= 0 && memory[i] >= 0
    ensures Invariant(NewManager(noDomains, noRacks, noPMs, cpu, memory, types))
  {
    NewDomainsSpec(noDomains, noRacks, noPMs, cpu, memory);
  }

  lemma CreatePGInvariant(m: Manager, index: int, partitions: int, softPM: int, domainAffinity: int, rackAffinity: int)
    requires Invariant(m)
    ensures Invariant(CreatePG(m, index, partitions, softPM, domainAffinity, rackAffinity))
  {
  }

  /** One placement, spelled out: the host is the first fit, the VM gets
      `t.nodes` distinct nodes of one PM, each of which had room; exactly those
      nodes are claimed, the group gains the VM, and the record gets the host. */
  lemma PlaceVMParts(m: Manager, id: int)
    requires PlaceVM(m, id).Some?
    ensures var vm := m.vms[id];
            var pg := m.pgs[vm.pg];
            var h := FindHost(m.domains, pg, vm.partition, vm.vtype).value;
            var pm := PMAt(m.domains, h.d, h.r, h.p);
            && HostValid(m.domains, h, vm.vtype)
            && RackSupports(pg, vm.partition, h.d, h.r)
            && (forall k :: 0 <= k < |h.nodes| ==> Fits(pm.nodes[h.nodes[k]], vm.vtype))
            && PlaceVM(m, id).value ==
                 m.(domains := SetPM(m.domains, h.d, h.r, h.p, pm.(nodes := ClaimNodes(pm.nodes, h.nodes, vm.vtype, id))),
                    pgs := m.pgs[vm.pg := pg.(vms := pg.vms + [Member(id, vm.partition, h.d, h.r)])],
                    vms := m.vms[id := vm.(host := Some(h))])
  {
    var vm := m.vms[id];
    FindHostSpec(m.domains, m.pgs[vm.pg], vm.partition, vm.vtype);
  }

  /** Claiming the picked nodes keeps the PM's numbering and node count, and
      keeps every node non-negative. */
  lemma ClaimPM(pm: PM, h: Host, t: VMType, id: int)
    requires forall k :: 0 <= k < |h.nodes| ==> h.nodes[k] < |pm.nodes| && Fits(pm.nodes[h.nodes[k]], t)
    requires Increasing(h.nodes)
    ensures var pm' := pm.(nodes := ClaimNodes(pm.nodes, h.nodes, t, id));
            && |pm'.nodes| == |pm.nodes|
            && (PMIndexed(pm) ==> PMIndexed(pm'))
            && (PMNonNegative(pm) ==> PMNonNegative(pm'))
  {
    ClaimNodesAt(pm.nodes, h.nodes, t, id);
  }

  /** Placing a VM keeps the invariant. */
  lemma PlaceVMInvariant(m: Manager, id: int)
    requires Invariant(m) && PlaceVM(m, id).Some?
    ensures Invariant(PlaceVM(m, id).value)
  {
    var vm := m.vms[id];
    var pg := m.pgs[vm.pg];
    var h := FindHost(m.domains, pg, vm.partition, vm.vtype).value;
    var pm := PMAt(m.domains, h.d, h.r, h.p);
    PlaceVMParts(m, id);
    var pm' := pm.(nodes := ClaimNodes(pm.nodes, h.nodes, vm.vtype, id));
    ClaimPM(pm, h, vm.vtype, id);
    assert PMIndexed(pm) && PMNonNegative(pm) && pm.index == h.p + 1;
    SetPMKeeps(m.domains, h.d, h.r, h.p, pm');
    var ds := SetPM(m.domains, h.d, h.r, h.p, pm');
    assert SameShape(m.domains, ds);
    RackSupportsSpec(pg, id, vm.partition, h.d, h.r);
    var m' := PlaceVM(m, id).value;
    SameShapeHosts(m, ds);
    assert HostsValid(m') by {
      assert HostValid(ds, h, vm.vtype);
    }
  }

  /** Deleting a VM right after placing it gives back exactly what the
      placement took: nodes, group list and all, and forgets the VM. */
  lemma DeleteUndoesPlace(m: Manager, id: int)
    requires PlaceVM(m, id).Some? && m.vms[id].host.None? && Absent(m, id)
    ensures DeleteVM(PlaceVM(m, id).value, id) == Ok(m.(vms := m.vms - {id}))
  {
    var vm := m.vms[id];
    var pg := m.pgs[vm.pg];
    var h := FindHost(m.domains, pg, vm.partition, vm.vtype).value;
    var pm := PMAt(m.domains, h.d, h.r, h.p);
    PlaceVMParts(m, id);
    var claimed := ClaimNodes(pm.nodes, h.nodes, vm.vtype, id);
    var ds := SetPM(m.domains, h.d, h.r, h.p, pm.(nodes := claimed));
    ReleaseUndoesClaim(pm.nodes, h.nodes, vm.vtype, id);
    assert ReleaseHost(ds, h, vm.vtype, id) == SetPM(ds, h.d, h.r, h.p, pm) by {
      assert pm.(nodes := claimed).(nodes := pm.nodes) == pm;
    }
    SetPMTwice(m.domains, h.d, h.r, h.p, pm.(nodes := claimed), pm);
    SetPMSame(m.domains, h.d, h.r, h.p);
    RemoveMemberAppended(pg.vms, Member(id, vm.partition, h.d, h.r));
    var m' := PlaceVM(m, id).value;
    assert m'.vms[id] == vm.(host := Some(h));
    assert PMAt(ds, h.d, h.r, h.p) == pm.(nodes := claimed);
    assert m'.domains == ds;
    var pg' := m'.pgs[vm.pg];
    assert pg'.(vms := RemoveMember(pg'.vms, id)) == pg;
    assert m'.pgs[vm.pg := pg] == m.pgs;
    assert m'.vms - {id} == m.vms - {id};
  }

  /** Giving back a VM's nodes keeps the PM's numbering and node count, and
      keeps every node non-negative when the type's demands are. */
  lemma ReleasePM(pm: PM, h: Host, t: VMType, id: int)
    requires forall k :: 0 <= k < |h.nodes| ==> h.nodes[k] < |pm.nodes|
    requires Increasing(h.nodes)
    ensures var pm' := pm.(nodes := ReleaseNodes(pm.nodes, h.nodes, t, id));
            && |pm'.nodes| == |pm.nodes|
            && (PMIndexed(pm) ==> PMIndexed(pm'))
            && (PMNonNegative(pm) && t.cpu >= 0 && t.memory >= 0 ==> PMNonNegative(pm'))
  {
    ReleaseNodesAt(pm.nodes, h.nodes, t, id);
  }

  /** Deleting a VM whose type asks for non-negative resources keeps the
      invariant. */
  lemma DeleteVMInvariant(m: Manager, id: int)
    requires Invariant(m) && id in m.vms
    requires m.vms[id].vtype.cpu >= 0 && m.vms[id].vtype.memory >= 0
    ensures Invariant(DeleteVM(m, id).value)
  {
    var vm := m.vms[id];
    var m' := DeleteVM(m, id).value;
    if vm.pg in m.pgs {
      RemoveMemberSpec(m.pgs[vm.pg].vms, id);
    }
    if vm.host.Some? {
      var h := vm.host.value;
      var pm := PMAt(m.domains, h.d, h.r, h.p);
      var pm' := pm.(nodes := ReleaseNodes(pm.nodes, h.nodes, vm.vtype, id));
      ReleasePM(pm, h, vm.vtype, id);
      assert PMIndexed(pm) && PMNonNegative(pm) && pm.index == h.p + 1;
      SetPMKeeps(m.domains, h.d, h.r, h.p, pm');
      assert m'.domains == SetPM(m.domains, h.d, h.r, h.p, pm');
      assert SameShape(m.domains, m'.domains);
    }
    SameShapeHosts(m.(vms := m.vms - {id}), m'.domains);
  }

  /** Extending a VM table: same keys, same VMs, except that unplaced ones
      may have been placed. */
  ghost predicate Extends(a: map<int, VM>, b: map<int, VM>)
  {
    && a.Keys == b.Keys
    && forall id :: id in a ==>
         b[id].(host := None) == a[id].(host := None) && (a[id].host.Some? ==> b[id].host == a[id].host)
  }

  lemma {:induction false} RegisterSpec(vms: map<int, VM>, ids: seq<int>, t: VMType, pg: int, partition: int, i: nat)
    requires Distinct(ids)
    ensures var res := Register(vms, ids, t, pg, partition, i);
            && res.Keys == vms.Keys + (set k | i <= k < |ids| :: ids[k])
            && (forall k :: i <= k < |ids| ==> res[ids[k]] == VM(ids[k], t, pg, PartitionOf(partition, k), None))
            && (forall id :: id in vms && (forall k :: i <= k < |ids| ==> ids[k] != id) ==> res[id] == vms[id])
    decreases |ids| - i
  {
    if i < |ids| {
      var next := vms[ids[i] := VM(ids[i], t, pg, PartitionOf(partition, i), None)];
      RegisterSpec(next, ids, t, pg, partition, i + 1);
      assert (set k | i <= k < |ids| :: ids[k]) == {ids[i]} + (set k | i + 1 <= k < |ids| :: ids[k]);
    }
  }

  /** Placing one VM changes only that VM's record, and only its host. */
  lemma PlaceVMTable(m: Manager, id: int)
    requires PlaceVM(m, id).Some?
    ensures var m' := PlaceVM(m, id).value;
            && m'.types == m.types
            && m'.vms[id].host.Some?
            && m'.vms == m.vms[id := m.vms[id].(host := m'.vms[id].host)]
  {
    PlaceVMParts(m, id);
  }

  /** Placing a batch touches only the batch's VMs. */
  lemma {:induction false} PlaceAllTable(m: Manager, ids: seq<int>, i: nat)
    requires Distinct(ids)
    requires forall k :: i <= k < |ids| ==> ids[k] in m.vms && m.vms[ids[k]].host.None?
    ensures var (m', ok) := PlaceAll(m, ids, i);
            && m'.types == m.types
            && Extends(m.vms, m'.vms)
            && (forall id :: id in m.vms && (forall k :: i <= k < |ids| ==> ids[k] != id) ==> m'.vms[id] == m.vms[id])
    decreases |ids| - i
  {
    if i < |ids| {
      var id := ids[i];
      PlaceAllUnfold(m, ids, i);
      if PlaceVM(m, id).Some? {
        var m1 := PlaceVM(m, id).value;
        PlaceVMTable(m, id);
        assert forall k :: i < k < |ids| ==> ids[k] != id;
        PlaceAllTable(m1, ids, i + 1);
        var res := PlaceAll(m1, ids, i + 1);
        ExtendsStep(m.vms, id, m1.vms[id].host, res.0.vms);
        forall x | x in m.vms && (forall k :: i <= k < |ids| ==> ids[k] != x) ensures res.0.vms[x] == m.vms[x] {
          assert x != id;
          assert m1.vms[x] == m.vms[x];
        }
      }
    }
  }

  /** Placing a batch reports success exactly when every VM of the batch
      found a place. */
  lemma {:induction false} PlaceAllOk(m: Manager, ids: seq<int>, i: nat)
    requires Distinct(ids)
    requires forall k :: i <= k < |ids| ==> ids[k] in m.vms && m.vms[ids[k]].host.None?
    ensures var (m', ok) := PlaceAll(m, ids, i);
            && (forall k :: i <= k < |ids| ==> ids[k] in m'.vms)
            && (ok <==> forall k :: i <= k < |ids| ==> m'.vms[ids[k]].host.Some?)
    decreases |ids| - i
  {
    PlaceAllTable(m, ids, i);
    if i < |ids| {
      var id := ids[i];
      PlaceAllUnfold(m, ids, i);
      if PlaceVM(m, id).Some? {
        var m1 := PlaceVM(m, id).value;
        PlaceVMTable(m, id);
        assert forall k :: i < k < |ids| ==> ids[k] != id;
        PlaceAllOk(m1, ids, i + 1);
        PlaceAllTable(m1, ids, i + 1);
        var res := PlaceAll(m1, ids, i + 1);
        assert res.0.vms[id].host == m1.vms[id].host;
      }
    }
  }

  /** Placing an unplaced VM and then extending further extends the start. */
  lemma ExtendsStep(a: map<int, VM>, id: int, host: Option<Host>, c: map<int, VM>)
    requires id in a && a[id].host.None?
    requires Extends(a[id := a[id].(host := host)], c)
    ensures Extends(a, c)
  {
    var b := a[id := a[id].(host := host)];
    forall x | x in a
      ensures c[x].(host := None) == a[x].(host := None)
    {
      assert b[x].(host := None) == a[x].(host := None);
    }
  }

  /** One step of `PlaceAll`. */
  lemma PlaceAllUnfold(m: Manager, ids: seq<int>, i: nat)
    requires i < |ids|
    ensures PlaceVM(m, ids[i]).None? ==> PlaceAll(m, ids, i) == (m, false)
    ensures PlaceVM(m, ids[i]).Some? ==> PlaceAll(m, ids, i) == PlaceAll(PlaceVM(m, ids[i]).value, ids, i + 1)
  {
  }

  /** Placing a batch keeps the invariant. */
  lemma {:induction false} PlaceAllInvariant(m: Manager, ids: seq<int>, i: nat)
    requires Invariant(m)
    ensures Invariant(PlaceAll(m, ids, i).0)
    decreases |ids| - i
  {
    if i < |ids| && PlaceVM(m, ids[i]).Some? {
      PlaceVMInvariant(m, ids[i]);
      PlaceAllInvariant(PlaceVM(m, ids[i]).value, ids, i + 1);
    }
  }

  /** With a numbered hierarchy the printed line is the 1-based domain, rack
      and PM position followed by the 1-based node positions. */
  lemma LineOfIndexed(ds: seq<Domain>, h: Host, t: VMType)
    requires Indexed(ds) && HostValid(ds, h, t)
    ensures LineOf(ds, h) == Printed(h)
  {
  }

  /** A batch request keeps the invariant. */
  lemma CreateVMsInvariant(m: Manager, ids: seq<int>, typeIndex: int, pgIndex: int, partition: int)
    requires 1 <= typeIndex <= |m.types|
    requires Distinct(ids) && forall k :: 0 <= k < |ids| ==> ids[k] !in m.vms
    requires Invariant(m) && CreateVMs(m, ids, typeIndex, pgIndex, partition).Ok?
    ensures Invariant(CreateVMs(m, ids, typeIndex, pgIndex, partition).value.m)
  {
    var t := m.types[typeIndex - 1];
    RegisterSpec(m.vms, ids, t, pgIndex, partition, 0);
    var m1 := m.(vms := Register(m.vms, ids, t, pgIndex, partition, 0));
    assert HostsValid(m1);
    PlaceAllInvariant(m1, ids, 0);
  }

  /** A batch request adds exactly the batch's VMs, with the request's type
      and group and the partition rule (the request's partition if
      non-negative, else position + 1), leaves the other VMs alone, and
      reports success exactly when every VM of the batch was placed. */
  lemma CreateVMsTable(m: Manager, ids: seq<int>, typeIndex: int, pgIndex: int, partition: int)
    requires 1 <= typeIndex <= |m.types|
    requires Distinct(ids) && forall k :: 0 <= k < |ids| ==> ids[k] !in m.vms
    requires CreateVMs(m, ids, typeIndex, pgIndex, partition).Ok?
    ensures var c := CreateVMs(m, ids, typeIndex, pgIndex, partition).value;
            && c.m.types == m.types
            && c.m.vms.Keys == m.vms.Keys + (set k | 0 <= k < |ids| :: ids[k])
            && (forall id :: id in m.vms ==> c.m.vms[id] == m.vms[id])
            && (forall k :: 0 <= k < |ids| ==>
                  var vm := c.m.vms[ids[k]];
                  && vm.index == ids[k] && vm.vtype == m.types[typeIndex - 1]
                  && vm.pg == pgIndex && vm.partition == PartitionOf(partition, k))
            && (c.placed <==> forall k :: 0 <= k < |ids| ==> c.m.vms[ids[k]].host.Some?)
  {
    var t := m.types[typeIndex - 1];
    RegisterSpec(m.vms, ids, t, pgIndex, partition, 0);
    var m1 := m.(vms := Register(m.vms, ids, t, pgIndex, partition, 0));
    PlaceAllTable(m1, ids, 0);
    PlaceAllOk(m1, ids, 0);
    var c := CreateVMs(m, ids, typeIndex, pgIndex, partition).value;
    forall k | 0 <= k < |ids|
      ensures var vm := c.m.vms[ids[k]];
              && vm.index == ids[k] && vm.vtype == t && vm.pg == pgIndex && vm.partition == PartitionOf(partition, k)
    {
      assert c.m.vms[ids[k]].(host := None) == m1.vms[ids[k]].(host := None);
    }
  }

  /** A request that went through registered the batch, ran the placing
      loop over it, and printed what that loop produced. */
  lemma CreateVMsParts(m: Manager, ids: seq<int>, typeIndex: int, pgIndex: int, partition: int)
    requires 1 <= typeIndex <= |m.types|
    requires Distinct(ids) && forall k :: 0 <= k < |ids| ==> ids[k] !in m.vms
    requires CreateVMs(m, ids, typeIndex, pgIndex, partition).Ok?
    ensures var m1 := m.(vms := Register(m.vms, ids, m.types[typeIndex - 1], pgIndex, partition, 0));
            var pa := PlaceAll(m1, ids, 0);
            var c := CreateVMs(m, ids, typeIndex, pgIndex, partition).value;
            && c.m == pa.0 && c.placed == pa.1
            && c.out == if pa.1 then Lines(pa.0, ids) else [[-1]]
  {
  }

  /** When the batch was placed, each printed line is the VM's 1-based
      domain, rack and PM position followed by its `t.nodes` node positions,
      1-based; otherwise the only line is `-1`. */
  lemma CreateVMsOutput(m: Manager, ids: seq<int>, typeIndex: int, pgIndex: int, partition: int)
    requires 1 <= typeIndex <= |m.types|
    requires Distinct(ids) && forall k :: 0 <= k < |ids| ==> ids[k] !in m.vms
    requires Invariant(m) && CreateVMs(m, ids, typeIndex, pgIndex, partition).Ok?
    ensures var c := CreateVMs(m, ids, typeIndex, pgIndex, partition).value;
            && (c.placed ==> forall k :: 0 <= k < |ids| ==>
                  && ids[k] in c.m.vms && c.m.vms[ids[k]].host.Some?
                  && var h := c.m.vms[ids[k]].host.value;
                  && |h.nodes| == m.types[typeIndex - 1].nodes
                  && c.out[k] == Printed(h))
            && (!c.placed ==> c.out == [[-1]])
  {
    var c := CreateVMs(m, ids, typeIndex, pgIndex, partition).value;
    CreateVMsParts(m, ids, typeIndex, pgIndex, partition);
    if c.placed {
      CreateVMsTable(m, ids, typeIndex, pgIndex, partition);
      CreateVMsInvariant(m, ids, typeIndex, pgIndex, partition);
      PlacedLines(c.m, c.out, ids, m.types[typeIndex - 1]);
    }
  }

  /** The printed lines of a batch whose VMs all have hosts and type `t`. */
  lemma PlacedLines(m: Manager, out: seq<seq<int>>, ids: seq<int>, t: VMType)
    requires Invariant(m) && out == Lines(m, ids)
    requires forall k :: 0 <= k < |ids| ==> ids[k] in m.vms && m.vms[ids[k]].vtype == t && m.vms[ids[k]].host.Some?
    ensures forall k :: 0 <= k < |ids| ==>
              && ids[k] in m.vms && m.vms[ids[k]].host.Some?
              && var h := m.vms[ids[k]].host.value;
              && |h.nodes| == t.nodes
              && out[k] == Printed(h)
  {
    LinesSpec(m, ids);
  }

  lemma HostOf(m: Manager, id: int)
    requires HostsValid(m) && id in m.vms && m.vms[id].host.Some?
    ensures HostValid(m.domains, m.vms[id].host.value, m.vms[id].vtype)
  {
  }

  /** The printed lines of placed VMs in a numbered hierarchy. */
  lemma LinesSpec(m: Manager, ids: seq<int>)
    requires Invariant(m)
    requires forall k :: 0 <= k < |ids| ==> ids[k] in m.vms && m.vms[ids[k]].host.Some?
    ensures forall k :: 0 <= k < |ids| ==>
              var h := m.vms[ids[k]].host.value;
              && |h.nodes| == m.vms[ids[k]].vtype.nodes
              && Lines(m, ids)[k] == Printed(h)
  {
    forall k | 0 <= k < |ids|
      ensures var h := m.vms[ids[k]].host.value;
              && |h.nodes| == m.vms[ids[k]].vtype.nodes
              && Lines(m, ids)[k] == Printed(h)
    {
      var vm := m.vms[ids[k]];
      HostOf(m, ids[k]);
      LineOfIndexed(m.domains, vm.host.value, vm.vtype);
    }
  }

  /** Deleting a just-created single VM restores the manager exactly. */
  lemma CreateThenDelete(m: Manager, id: int, typeIndex: int, pgIndex: int, partition: int)
    requires 1 <= typeIndex <= |m.types| && id !in m.vms && Absent(m, id)
    requires CreateVMs(m, [id], typeIndex, pgIndex, partition).Ok?
    requires CreateVMs(m, [id], typeIndex, pgIndex, partition).value.placed
    ensures DeleteVMs(CreateVMs(m, [id], typeIndex, pgIndex, partition).value.m, [id]) == Ok(m)
  {
    var t := m.types[typeIndex - 1];
    var m1 := m.(vms := m.vms[id := VM(id, t, pgIndex, PartitionOf(partition, 0), None)]);
    assert Register(m.vms, [id], t, pgIndex, partition, 0) == m1.vms;
    assert PlaceVM(m1, id).Some?;
    var m2 := PlaceVM(m1, id).value;
    assert PlaceAll(m1, [id], 0) == (m2, true);
    DeleteUndoesPlace(m1, id);
    assert m1.(vms := m1.vms - {id}) == m;
    assert [id][1..] == [];
  }

  /** Every VM's type asks for non-negative CPU and memory. */
  ghost predicate DemandsNonNegative(m: Manager)
  {
    forall id :: id in m.vms ==> m.vms[id].vtype.cpu >= 0 && m.vms[id].vtype.memory >= 0
  }

  /** A delete request keeps the invariant. */
  lemma {:induction false} DeleteVMsInvariant(m: Manager, ids: seq<int>)
    requires Invariant(m) && DemandsNonNegative(m) && DeleteVMs(m, ids).Ok?
    ensures Invariant(DeleteVMs(m, ids).value) && DemandsNonNegative(DeleteVMs(m, ids).value)
    decreases |ids|
  {
    if |ids| > 0 {
      DeleteVMInvariant(m, ids[0]);
      DeleteVMsInvariant(DeleteVM(m, ids[0]).value, ids[1..]);
    }
  }
}
