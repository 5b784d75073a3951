/** The v09 solver's capacity hierarchy (src/v09.cpp, `Node`, `PM`, `Rack`,
    `Domain` and `VM::place` / `unplace`): every level keeps its own
    counters, and a VM's placement claims its demand on each chosen node
    and on that node's machine, rack and domain. Pointers between levels
    become positions in nested sequences. */
module Hierarchy {
  import opened Common
  import opened Resources

  datatype Node = Node(index: int, res: Res)

  /** `vmsByPG` counts, per placement group, the VMs whose first node is on
      this machine; a missing key reads as zero. */
  datatype PM = PM(index: int, res: Res, nodes: seq<Node>, vmsByPG: map<int, int>)

  datatype Rack = Rack(index: int, res: Res, pms: seq<PM>)

  datatype Domain = Domain(index: int, res: Res, racks: seq<Rack>)

  /** Where a node sits: 0-based positions of its domain, rack, machine and
      node, standing for the solver's `Node *`. */
  datatype NodeRef = NodeRef(d: nat, r: nat, p: nat, n: nat)

  // ---------------------------------------------------------------- construction

  function NewPM(index: int, cpu: seq<int>, memory: seq<int>): (pm: PM)
    requires |cpu| <= |memory|
    ensures |pm.nodes| == |cpu|
  {
    PM(index, NewRes(Sum(cpu), Sum(memory)),
       seq(|cpu|, i requires 0 <= i < |cpu| => Node(i + 1, NewRes(cpu[i], memory[i]))), map[])
  }

  function NewRack(index: int, noPMs: int, cpu: seq<int>, memory: seq<int>): (rack: Rack)
    requires |cpu| <= |memory|
    ensures |rack.pms| == Max(0, noPMs)
  {
    Rack(index, NewRes(noPMs * Sum(cpu), noPMs * Sum(memory)),
         seq(Max(0, noPMs), p => NewPM(p + 1, cpu, memory)))
  }

  function NewDomain(index: int, noRacks: int, noPMs: int, cpu: seq<int>, memory: seq<int>): (dom: Domain)
    requires |cpu| <= |memory|
    ensures |dom.racks| == Max(0, noRacks)
  {
    Domain(index, NewRes(noRacks * noPMs * Sum(cpu), noRacks * noPMs * Sum(memory)),
           seq(Max(0, noRacks), r => NewRack(r + 1, noPMs, cpu, memory)))
  }

  function NewDomains(noDomains: int, noRacks: int, noPMs: int, cpu: seq<int>, memory: seq<int>): (ds: seq<Domain>)
    requires |cpu| <= |memory|
    ensures |ds| == Max(0, noDomains)
  {
    seq(Max(0, noDomains), d => NewDomain(d + 1, noRacks, noPMs, cpu, memory))
  }

  // ---------------------------------------------------------------- sums over children

  function NodeRes(n: Node): Res { n.res }
  function PMRes(pm: PM): Res { pm.res }
  function RackRes(rack: Rack): Res { rack.res }

  /** One counter of each child, in order. */
  function Vals<T>(xs: seq<T>, res: T -> Res, f: Field): (v: seq<int>)
    ensures |v| == |xs| && forall i :: 0 <= i < |xs| ==> v[i] == Get(res(xs[i]), f)
  {
    seq(|xs|, i requires 0 <= i < |xs| => Get(res(xs[i]), f))
  }

  /** Each counter of a machine is the sum of that counter over its nodes. */
  ghost predicate PMBalanced(pm: PM)
  {
    forall f :: Get(pm.res, f) == Sum(Vals(pm.nodes, NodeRes, f))
  }

  ghost predicate RackBalanced(rack: Rack)
  {
    && (forall f :: Get(rack.res, f) == Sum(Vals(rack.pms, PMRes, f)))
    && forall p :: 0 <= p < |rack.pms| ==> PMBalanced(rack.pms[p])
  }

  ghost predicate DomainBalanced(dom: Domain)
  {
    && (forall f :: Get(dom.res, f) == Sum(Vals(dom.racks, RackRes, f)))
    && forall r :: 0 <= r < |dom.racks| ==> RackBalanced(dom.racks[r])
  }

  /** Every parent's totals and available counters equal the sums over its
      children, at every level. */
  ghost predicate Balanced(ds: seq<Domain>)
  {
    forall d :: 0 <= d < |ds| ==> DomainBalanced(ds[d])
  }

  lemma NewPMBalanced(index: int, cpu: seq<int>, memory: seq<int>)
    requires |cpu| == |memory|
    ensures PMBalanced(NewPM(index, cpu, memory))
    ensures forall f :: Get(NewPM(index, cpu, memory).res, f) == Get(NewRes(Sum(cpu), Sum(memory)), f)
  {
    var pm := NewPM(index, cpu, memory);
    assert Vals(pm.nodes, NodeRes, TotalCPU) == cpu;
    assert Vals(pm.nodes, NodeRes, AvailCPU) == cpu;
    assert Vals(pm.nodes, NodeRes, TotalMemory) == memory;
    assert Vals(pm.nodes, NodeRes, AvailMemory) == memory;
    forall f
      ensures Get(pm.res, f) == Sum(Vals(pm.nodes, NodeRes, f))
    {
    }
  }

  lemma NewRackBalanced(index: int, noPMs: int, cpu: seq<int>, memory: seq<int>)
    requires |cpu| == |memory| && noPMs >= 0
    ensures RackBalanced(NewRack(index, noPMs, cpu, memory))
  {
    var rack := NewRack(index, noPMs, cpu, memory);
    forall p | 0 <= p < |rack.pms|
      ensures PMBalanced(rack.pms[p])
      ensures rack.pms[p].res == NewRes(Sum(cpu), Sum(memory))
    {
      assert rack.pms[p] == NewPM(p + 1, cpu, memory);
      NewPMBalanced(p + 1, cpu, memory);
    }
    forall f
      ensures Get(rack.res, f) == Sum(Vals(rack.pms, PMRes, f))
    {
      SumConstant(Vals(rack.pms, PMRes, f), Get(NewRes(Sum(cpu), Sum(memory)), f));
    }
  }

  lemma NewDomainBalanced(index: int, noRacks: int, noPMs: int, cpu: seq<int>, memory: seq<int>)
    requires |cpu| == |memory| && noRacks >= 0 && noPMs >= 0
    ensures DomainBalanced(NewDomain(index, noRacks, noPMs, cpu, memory))
  {
    var dom := NewDomain(index, noRacks, noPMs, cpu, memory);
    var x := NewRes(noPMs * Sum(cpu), noPMs * Sum(memory));
    forall r | 0 <= r < |dom.racks|
      ensures RackBalanced(dom.racks[r])
      ensures dom.racks[r].res == x
    {
      assert dom.racks[r] == NewRack(r + 1, noPMs, cpu, memory);
      NewRackBalanced(r + 1, noPMs, cpu, memory);
    }
    forall f
      ensures Get(dom.res, f) == Sum(Vals(dom.racks, RackRes, f))
    {
      assert Get(dom.res, f) == noRacks * Get(x, f);
      SumConstant(Vals(dom.racks, RackRes, f), Get(x, f));
    }
  }

  /** The solver's constructors set each level's totals to the sum over its
      children, so a freshly built hierarchy is balanced when the counts are
      not negative. */
  lemma NewDomainsBalanced(noDomains: int, noRacks: int, noPMs: int, cpu: seq<int>, memory: seq<int>)
    requires |cpu| == |memory| && noRacks >= 0 && noPMs >= 0
    ensures Balanced(NewDomains(noDomains, noRacks, noPMs, cpu, memory))
  {
    var ds := NewDomains(noDomains, noRacks, noPMs, cpu, memory);
    forall d | 0 <= d < |ds|
      ensures DomainBalanced(ds[d])
    {
      NewDomainBalanced(d + 1, noRacks, noPMs, cpu, memory);
    }
  }

  /** The fresh hierarchy has `noDomains` domains of `noRacks` racks of
      `noPMs` machines of one node per configured node, every level numbered
      from 1 by position. */
  lemma NewDomainsShape(noDomains: int, noRacks: int, noPMs: int, cpu: seq<int>, memory: seq<int>, y: NodeRef)
    requires |cpu| <= |memory|
    ensures var ds := NewDomains(noDomains, noRacks, noPMs, cpu, memory);
            && (ValidRef(ds, y) <==> y.d < noDomains && y.r < noRacks && y.p < noPMs && y.n < |cpu|)
            && (ValidRef(ds, y) ==>
                  && ds[y.d].index == y.d + 1 && ds[y.d].racks[y.r].index == y.r + 1
                  && ds[y.d].racks[y.r].pms[y.p].index == y.p + 1
                  && ds[y.d].racks[y.r].pms[y.p].nodes[y.n] == Node(y.n + 1, NewRes(cpu[y.n], memory[y.n]))
                  && ds[y.d].racks[y.r].pms[y.p].vmsByPG == map[])
  {
    var ds := NewDomains(noDomains, noRacks, noPMs, cpu, memory);
    if y.d < noDomains {
      var dom := ds[y.d];
      assert dom == NewDomain(y.d + 1, noRacks, noPMs, cpu, memory);
      if y.r < noRacks {
        var rack := dom.racks[y.r];
        assert rack == NewRack(y.r + 1, noPMs, cpu, memory);
        if y.p < noPMs {
          assert rack.pms[y.p] == NewPM(y.p + 1, cpu, memory);
        }
      }
    }
  }

  // ---------------------------------------------------------------- claims along a path

  predicate ValidRef(ds: seq<Domain>, x: NodeRef)
  {
    && x.d < |ds|
    && x.r < |ds[x.d].racks|
    && x.p < |ds[x.d].racks[x.r].pms|
    && x.n < |ds[x.d].racks[x.r].pms[x.p].nodes|
  }

  predicate AllValid(ds: seq<Domain>, xs: seq<NodeRef>)
  {
    forall i :: 0 <= i < |xs| ==> ValidRef(ds, xs[i])
  }

  datatype Op = ClaimOp | ReleaseOp

  function Apply(r: Res, t: VMType, op: Op): Res
  {
    if op == ClaimOp then Claim(r, t) else Release(r, t)
  }

  function PMUpdate(pm: PM, n: nat, t: VMType, op: Op): PM
    requires n < |pm.nodes|
  {
    pm.(res := Apply(pm.res, t, op), nodes := pm.nodes[n := pm.nodes[n].(res := Apply(pm.nodes[n].res, t, op))])
  }

  function RackUpdate(rack: Rack, p: nat, n: nat, t: VMType, op: Op): Rack
    requires p < |rack.pms| && n < |rack.pms[p].nodes|
  {
    rack.(res := Apply(rack.res, t, op), pms := rack.pms[p := PMUpdate(rack.pms[p], n, t, op)])
  }

  function DomainUpdate(dom: Domain, r: nat, p: nat, n: nat, t: VMType, op: Op): Domain
    requires r < |dom.racks| && p < |dom.racks[r].pms| && n < |dom.racks[r].pms[p].nodes|
  {
    dom.(res := Apply(dom.res, t, op), racks := dom.racks[r := RackUpdate(dom.racks[r], p, n, t, op)])
  }

  /** One claim (or release) of `t` on node `x`, as `place` (or `unplace`)
      does it: on the node, its machine, its rack and its domain. */
  function Update(ds: seq<Domain>, x: NodeRef, t: VMType, op: Op): (r: seq<Domain>)
    requires ValidRef(ds, x)
    ensures forall y :: ValidRef(r, y) <==> ValidRef(ds, y)
  {
    ds[x.d := DomainUpdate(ds[x.d], x.r, x.p, x.n, t, op)]
  }

  /** Claims (or releases) `t` on every node of `xs`, in order. */
  function UpdateAll(ds: seq<Domain>, xs: seq<NodeRef>, t: VMType, op: Op): (r: seq<Domain>)
    requires AllValid(ds, xs)
    ensures forall y :: ValidRef(r, y) <==> ValidRef(ds, y)
    decreases |xs|
  {
    if |xs| == 0 then ds else UpdateAll(Update(ds, xs[0], t, op), xs[1..], t, op)
  }

  function PMBump(pm: PM, pg: int, delta: int): PM
  {
    pm.(vmsByPG := Bump(pm.vmsByPG, pg, delta))
  }

  function RackBump(rack: Rack, p: nat, pg: int, delta: int): Rack
    requires p < |rack.pms|
  {
    rack.(pms := rack.pms[p := PMBump(rack.pms[p], pg, delta)])
  }

  function DomainBump(dom: Domain, r: nat, p: nat, pg: int, delta: int): Domain
    requires r < |dom.racks| && p < |dom.racks[r].pms|
  {
    dom.(racks := dom.racks[r := RackBump(dom.racks[r], p, pg, delta)])
  }

  /** Adds `delta` to the count for group `pg` on the machine of node `x`;
      unlike a claim this leaves every cache alone. */
  function BumpAt(ds: seq<Domain>, x: NodeRef, pg: int, delta: int): (r: seq<Domain>)
    requires ValidRef(ds, x)
    ensures forall y :: ValidRef(r, y) <==> ValidRef(ds, y)
  {
    ds[x.d := DomainBump(ds[x.d], x.r, x.p, pg, delta)]
  }

  // ---------------------------------------------------------------- equal up to the cache

  predicate NodeAlike(a: Node, b: Node)
  {
    a.index == b.index && Strip(a.res) == Strip(b.res)
  }

  predicate PMAlike(a: PM, b: PM)
  {
    && a.index == b.index && Strip(a.res) == Strip(b.res) && a.vmsByPG == b.vmsByPG
    && |a.nodes| == |b.nodes|
    && forall i :: 0 <= i < |a.nodes| ==> NodeAlike(a.nodes[i], b.nodes[i])
  }

  predicate RackAlike(a: Rack, b: Rack)
  {
    && a.index == b.index && Strip(a.res) == Strip(b.res)
    && |a.pms| == |b.pms|
    && forall i :: 0 <= i < |a.pms| ==> PMAlike(a.pms[i], b.pms[i])
  }

  predicate DomainAlike(a: Domain, b: Domain)
  {
    && a.index == b.index && Strip(a.res) == Strip(b.res)
    && |a.racks| == |b.racks|
    && forall i :: 0 <= i < |a.racks| ==> RackAlike(a.racks[i], b.racks[i])
  }

  /** Two hierarchies that agree on every index and counter and differ at
      most in their caches of type fits. */
  predicate Alike(a: seq<Domain>, b: seq<Domain>)
  {
    |a| == |b| && forall i :: 0 <= i < |a| ==> DomainAlike(a[i], b[i])
  }

  lemma AlikeValid(a: seq<Domain>, b: seq<Domain>)
    requires Alike(a, b)
    ensures forall y :: ValidRef(a, y) <==> ValidRef(b, y)
  {
    forall y | ValidRef(a, y)
      ensures ValidRef(b, y)
    {
      assert DomainAlike(a[y.d], b[y.d]);
      assert RackAlike(a[y.d].racks[y.r], b[y.d].racks[y.r]);
    }
    forall y | ValidRef(b, y)
      ensures ValidRef(a, y)
    {
      assert DomainAlike(a[y.d], b[y.d]);
      assert RackAlike(a[y.d].racks[y.r], b[y.d].racks[y.r]);
    }
  }

  lemma AlikeTransitive(a: seq<Domain>, b: seq<Domain>, c: seq<Domain>)
    requires Alike(a, b) && Alike(b, c)
    ensures Alike(a, c)
  {
    forall i | 0 <= i < |a|
      ensures DomainAlike(a[i], c[i])
    {
      assert DomainAlike(a[i], b[i]) && DomainAlike(b[i], c[i]);
      forall r | 0 <= r < |a[i].racks|
        ensures RackAlike(a[i].racks[r], c[i].racks[r])
      {
        assert RackAlike(a[i].racks[r], b[i].racks[r]) && RackAlike(b[i].racks[r], c[i].racks[r]);
        forall p | 0 <= p < |a[i].racks[r].pms|
          ensures PMAlike(a[i].racks[r].pms[p], c[i].racks[r].pms[p])
        {
          assert PMAlike(a[i].racks[r].pms[p], b[i].racks[r].pms[p]);
        }
      }
    }
  }

  // ---------------------------------------------------------------- claims commute and cancel

  lemma ApplyCommute(r: Res, t: VMType, o1: Op, o2: Op)
    ensures Apply(Apply(r, t, o1), t, o2) == Apply(Apply(r, t, o2), t, o1)
  {
  }

  lemma PMUpdateCommute(pm: PM, n1: nat, n2: nat, t: VMType, o1: Op, o2: Op)
    requires n1 < |pm.nodes| && n2 < |pm.nodes|
    ensures PMUpdate(PMUpdate(pm, n1, t, o1), n2, t, o2) == PMUpdate(PMUpdate(pm, n2, t, o2), n1, t, o1)
  {
    ApplyCommute(pm.res, t, o1, o2);
    ApplyCommute(pm.nodes[n1].res, t, o1, o2);
  }

  lemma RackUpdateCommute(rack: Rack, p1: nat, n1: nat, p2: nat, n2: nat, t: VMType, o1: Op, o2: Op)
    requires p1 < |rack.pms| && n1 < |rack.pms[p1].nodes|
    requires p2 < |rack.pms| && n2 < |rack.pms[p2].nodes|
    ensures RackUpdate(RackUpdate(rack, p1, n1, t, o1), p2, n2, t, o2)
         == RackUpdate(RackUpdate(rack, p2, n2, t, o2), p1, n1, t, o1)
  {
    ApplyCommute(rack.res, t, o1, o2);
    if p1 == p2 {
      PMUpdateCommute(rack.pms[p1], n1, n2, t, o1, o2);
    }
  }

  lemma DomainUpdateCommute(dom: Domain, x: NodeRef, y: NodeRef, t: VMType, o1: Op, o2: Op)
    requires ValidRef([dom], x.(d := 0)) && ValidRef([dom], y.(d := 0))
    ensures DomainUpdate(DomainUpdate(dom, x.r, x.p, x.n, t, o1), y.r, y.p, y.n, t, o2)
         == DomainUpdate(DomainUpdate(dom, y.r, y.p, y.n, t, o2), x.r, x.p, x.n, t, o1)
  {
    ApplyCommute(dom.res, t, o1, o2);
    if x.r == y.r {
      RackUpdateCommute(dom.racks[x.r], x.p, x.n, y.p, y.n, t, o1, o2);
    }
  }

  /** Claims and releases on any two nodes can be swapped: the hierarchy
      comes out the same. */
  lemma UpdateCommute(ds: seq<Domain>, x: NodeRef, y: NodeRef, t: VMType, o1: Op, o2: Op)
    requires ValidRef(ds, x) && ValidRef(ds, y)
    ensures Update(Update(ds, x, t, o1), y, t, o2) == Update(Update(ds, y, t, o2), x, t, o1)
  {
    if x.d == y.d {
      DomainUpdateCommute(ds[x.d], x, y, t, o1, o2);
    }
  }

  lemma {:induction false} UpdateAllCommute(ds: seq<Domain>, x: NodeRef, xs: seq<NodeRef>, t: VMType, o1: Op, o2: Op)
    requires ValidRef(ds, x) && AllValid(ds, xs)
    ensures UpdateAll(Update(ds, x, t, o1), xs, t, o2) == Update(UpdateAll(ds, xs, t, o2), x, t, o1)
    decreases |xs|
  {
    if |xs| > 0 {
      UpdateCommute(ds, x, xs[0], t, o1, o2);
      UpdateAllCommute(Update(ds, xs[0], t, o2), x, xs[1..], t, o1, o2);
    }
  }

  lemma AlikeReflexive(a: seq<Domain>)
    ensures Alike(a, a)
  {
  }

  /** A release right after a claim on the same node restores every counter. */
  lemma UpdateCancel(ds: seq<Domain>, x: NodeRef, t: VMType)
    requires ValidRef(ds, x)
    ensures Alike(Update(Update(ds, x, t, ClaimOp), x, t, ReleaseOp), ds)
  {
    var e := Update(Update(ds, x, t, ClaimOp), x, t, ReleaseOp);
    var dom := ds[x.d];
    var rack := dom.racks[x.r];
    var pm := rack.pms[x.p];
    ClaimRelease(dom.res, t);
    ClaimRelease(rack.res, t);
    ClaimRelease(pm.res, t);
    ClaimRelease(pm.nodes[x.n].res, t);
    assert PMAlike(e[x.d].racks[x.r].pms[x.p], pm);
    assert RackAlike(e[x.d].racks[x.r], rack);
    assert DomainAlike(e[x.d], dom);
  }

  lemma UpdateAlike(a: seq<Domain>, b: seq<Domain>, x: NodeRef, t: VMType, op: Op)
    requires Alike(a, b) && ValidRef(a, x)
    ensures ValidRef(b, x)
    ensures Alike(Update(a, x, t, op), Update(b, x, t, op))
  {
    AlikeValid(a, b);
    var a' := Update(a, x, t, op);
    var b' := Update(b, x, t, op);
    assert DomainAlike(a[x.d], b[x.d]);
    assert RackAlike(a[x.d].racks[x.r], b[x.d].racks[x.r]);
    assert PMAlike(a[x.d].racks[x.r].pms[x.p], b[x.d].racks[x.r].pms[x.p]);
    assert PMAlike(a'[x.d].racks[x.r].pms[x.p], b'[x.d].racks[x.r].pms[x.p]);
    assert RackAlike(a'[x.d].racks[x.r], b'[x.d].racks[x.r]);
    assert DomainAlike(a'[x.d], b'[x.d]);
  }

  lemma {:induction false} UpdateAllAlike(a: seq<Domain>, b: seq<Domain>, xs: seq<NodeRef>, t: VMType, op: Op)
    requires Alike(a, b) && AllValid(a, xs)
    ensures AllValid(b, xs)
    ensures Alike(UpdateAll(a, xs, t, op), UpdateAll(b, xs, t, op))
    decreases |xs|
  {
    AlikeValid(a, b);
    if |xs| > 0 {
      UpdateAlike(a, b, xs[0], t, op);
      UpdateAllAlike(Update(a, xs[0], t, op), Update(b, xs[0], t, op), xs[1..], t, op);
    }
  }

  /** Releasing a type on a list of nodes after claiming it on the same list
      restores every counter of the hierarchy, whatever the order and even
      when a node repeats. */
  lemma {:induction false} ReleaseAllUndoesClaimAll(ds: seq<Domain>, xs: seq<NodeRef>, t: VMType)
    requires AllValid(ds, xs)
    ensures Alike(UpdateAll(UpdateAll(ds, xs, t, ClaimOp), xs, t, ReleaseOp), ds)
    decreases |xs|
  {
    if |xs| == 0 {
      AlikeReflexive(ds);
    } else {
      var x, rest := xs[0], xs[1..];
      var z := UpdateAll(ds, rest, t, ClaimOp);
      UpdateAllCommute(ds, x, rest, t, ClaimOp, ClaimOp);
      assert UpdateAll(ds, xs, t, ClaimOp) == Update(z, x, t, ClaimOp);
      var back := Update(Update(z, x, t, ClaimOp), x, t, ReleaseOp);
      assert UpdateAll(UpdateAll(ds, xs, t, ClaimOp), xs, t, ReleaseOp) == UpdateAll(back, rest, t, ReleaseOp);
      UpdateCancel(z, x, t);
      UpdateAllAlike(back, z, rest, t, ReleaseOp);
      ReleaseAllUndoesClaimAll(ds, rest, t);
      AlikeTransitive(UpdateAll(back, rest, t, ReleaseOp), UpdateAll(z, rest, t, ReleaseOp), ds);
    }
  }

  // ---------------------------------------------------------------- balance is kept

  /** The change one claim or release makes to a counter. */
  function Delta(t: VMType, op: Op, f: Field): int
  {
    if op == ClaimOp then -Demand(t, f) else Demand(t, f)
  }

  lemma ApplyShift(r: Res, t: VMType, op: Op)
    ensures forall f :: Get(Apply(r, t, op), f) == Get(r, f) + Delta(t, op, f)
  {
    ClaimShift(r, t);
  }

  lemma PMUpdateBalanced(pm: PM, n: nat, t: VMType, op: Op)
    requires n < |pm.nodes| && PMBalanced(pm)
    ensures PMBalanced(PMUpdate(pm, n, t, op))
    ensures forall f :: Get(PMUpdate(pm, n, t, op).res, f) == Get(pm.res, f) + Delta(t, op, f)
  {
    var pm' := PMUpdate(pm, n, t, op);
    ApplyShift(pm.res, t, op);
    ApplyShift(pm.nodes[n].res, t, op);
    forall f
      ensures Get(pm'.res, f) == Sum(Vals(pm'.nodes, NodeRes, f))
    {
      assert Vals(pm'.nodes, NodeRes, f) == Vals(pm.nodes, NodeRes, f)[n := Get(pm'.nodes[n].res, f)];
      SumUpdate(Vals(pm.nodes, NodeRes, f), n, Get(pm'.nodes[n].res, f));
    }
  }

  lemma RackUpdateBalanced(rack: Rack, p: nat, n: nat, t: VMType, op: Op)
    requires p < |rack.pms| && n < |rack.pms[p].nodes| && RackBalanced(rack)
    ensures RackBalanced(RackUpdate(rack, p, n, t, op))
    ensures forall f :: Get(RackUpdate(rack, p, n, t, op).res, f) == Get(rack.res, f) + Delta(t, op, f)
  {
    var rack' := RackUpdate(rack, p, n, t, op);
    ApplyShift(rack.res, t, op);
    PMUpdateBalanced(rack.pms[p], n, t, op);
    forall f
      ensures Get(rack'.res, f) == Sum(Vals(rack'.pms, PMRes, f))
    {
      assert Vals(rack'.pms, PMRes, f) == Vals(rack.pms, PMRes, f)[p := Get(rack'.pms[p].res, f)];
      SumUpdate(Vals(rack.pms, PMRes, f), p, Get(rack'.pms[p].res, f));
    }
  }

  lemma DomainUpdateBalanced(dom: Domain, r: nat, p: nat, n: nat, t: VMType, op: Op)
    requires r < |dom.racks| && p < |dom.racks[r].pms| && n < |dom.racks[r].pms[p].nodes|
    requires DomainBalanced(dom)
    ensures DomainBalanced(DomainUpdate(dom, r, p, n, t, op))
  {
    var dom' := DomainUpdate(dom, r, p, n, t, op);
    ApplyShift(dom.res, t, op);
    RackUpdateBalanced(dom.racks[r], p, n, t, op);
    forall f
      ensures Get(dom'.res, f) == Sum(Vals(dom'.racks, RackRes, f))
    {
      assert Vals(dom'.racks, RackRes, f) == Vals(dom.racks, RackRes, f)[r := Get(dom'.racks[r].res, f)];
      SumUpdate(Vals(dom.racks, RackRes, f), r, Get(dom'.racks[r].res, f));
    }
  }

  /** A claim or release on one node shifts the node and all three of its
      ancestors by the same amount, so every parent still equals the sum of
      its children. */
  lemma UpdateBalanced(ds: seq<Domain>, x: NodeRef, t: VMType, op: Op)
    requires ValidRef(ds, x) && Balanced(ds)
    ensures Balanced(Update(ds, x, t, op))
  {
    DomainUpdateBalanced(ds[x.d], x.r, x.p, x.n, t, op);
  }

  lemma {:induction false} UpdateAllBalanced(ds: seq<Domain>, xs: seq<NodeRef>, t: VMType, op: Op)
    requires AllValid(ds, xs) && Balanced(ds)
    ensures Balanced(UpdateAll(ds, xs, t, op))
    decreases |xs|
  {
    if |xs| > 0 {
      UpdateBalanced(ds, xs[0], t, op);
      UpdateAllBalanced(Update(ds, xs[0], t, op), xs[1..], t, op);
    }
  }

  lemma BumpBalanced(ds: seq<Domain>, x: NodeRef, pg: int, delta: int)
    requires ValidRef(ds, x) && Balanced(ds)
    ensures Balanced(BumpAt(ds, x, pg, delta))
  {
    var dom := ds[x.d];
    var rack := dom.racks[x.r];
    var rack' := RackBump(rack, x.p, pg, delta);
    forall f
      ensures Vals(rack'.pms, PMRes, f) == Vals(rack.pms, PMRes, f)
    {
    }
    assert RackBalanced(rack');
    forall f
      ensures Vals(dom.racks[x.r := rack'], RackRes, f) == Vals(dom.racks, RackRes, f)
    {
    }
  }

  // ---------------------------------------------------------------- group counts

  /** Group `g`'s count on the machine that holds node `x`. */
  function CountAt(ds: seq<Domain>, x: NodeRef, g: int): int
    requires ValidRef(ds, x)
  {
    Count(ds[x.d].racks[x.r].pms[x.p].vmsByPG, g)
  }

  predicate SamePM(x: NodeRef, y: NodeRef)
  {
    x.d == y.d && x.r == y.r && x.p == y.p
  }

  /** Every machine's group counter is kept canonical. */
  ghost predicate CountsCanonical(ds: seq<Domain>)
  {
    forall y :: ValidRef(ds, y) ==> Canonical(ds[y.d].racks[y.r].pms[y.p].vmsByPG)
  }

  lemma UpdateCounts(ds: seq<Domain>, x: NodeRef, t: VMType, op: Op)
    requires ValidRef(ds, x)
    ensures forall y :: ValidRef(ds, y) ==>
              Update(ds, x, t, op)[y.d].racks[y.r].pms[y.p].vmsByPG == ds[y.d].racks[y.r].pms[y.p].vmsByPG
  {
  }

  lemma {:induction false} UpdateAllCounts(ds: seq<Domain>, xs: seq<NodeRef>, t: VMType, op: Op)
    requires AllValid(ds, xs)
    ensures forall y :: ValidRef(ds, y) ==>
              UpdateAll(ds, xs, t, op)[y.d].racks[y.r].pms[y.p].vmsByPG == ds[y.d].racks[y.r].pms[y.p].vmsByPG
    decreases |xs|
  {
    if |xs| > 0 {
      UpdateCounts(ds, xs[0], t, op);
      UpdateAllCounts(Update(ds, xs[0], t, op), xs[1..], t, op);
    }
  }

  /** Bumping raises exactly one count, group `pg`'s on `x`'s machine, by `delta`. */
  lemma BumpCounts(ds: seq<Domain>, x: NodeRef, pg: int, delta: int)
    requires ValidRef(ds, x)
    ensures forall y, g :: ValidRef(ds, y) ==>
              CountAt(BumpAt(ds, x, pg, delta), y, g) == CountAt(ds, y, g) + (if SamePM(x, y) && g == pg then delta else 0)
    ensures CountsCanonical(ds) ==> CountsCanonical(BumpAt(ds, x, pg, delta))
  {
    var ds' := BumpAt(ds, x, pg, delta);
    forall y, g | ValidRef(ds, y)
      ensures CountAt(ds', y, g) == CountAt(ds, y, g) + (if SamePM(x, y) && g == pg then delta else 0)
    {
    }
    if CountsCanonical(ds) {
      forall y | ValidRef(ds', y)
        ensures Canonical(ds'[y.d].racks[y.r].pms[y.p].vmsByPG)
      {
        if SamePM(x, y) {
          BumpCanonical(ds[x.d].racks[x.r].pms[x.p].vmsByPG, pg, delta);
        }
      }
    }
  }

  lemma PMBumpUpdateCommute(pm: PM, n: nat, pg: int, delta: int, t: VMType, op: Op)
    requires n < |pm.nodes|
    ensures PMBump(PMUpdate(pm, n, t, op), pg, delta) == PMUpdate(PMBump(pm, pg, delta), n, t, op)
  {
  }

  lemma RackBumpUpdateCommute(rack: Rack, p1: nat, p2: nat, n: nat, pg: int, delta: int, t: VMType, op: Op)
    requires p1 < |rack.pms| && p2 < |rack.pms| && n < |rack.pms[p2].nodes|
    ensures RackBump(RackUpdate(rack, p2, n, t, op), p1, pg, delta) == RackUpdate(RackBump(rack, p1, pg, delta), p2, n, t, op)
  {
    if p1 == p2 {
      PMBumpUpdateCommute(rack.pms[p1], n, pg, delta, t, op);
    }
  }

  lemma DomainBumpUpdateCommute(dom: Domain, x: NodeRef, y: NodeRef, pg: int, delta: int, t: VMType, op: Op)
    requires ValidRef([dom], x.(d := 0)) && ValidRef([dom], y.(d := 0))
    ensures DomainBump(DomainUpdate(dom, y.r, y.p, y.n, t, op), x.r, x.p, pg, delta)
         == DomainUpdate(DomainBump(dom, x.r, x.p, pg, delta), y.r, y.p, y.n, t, op)
  {
    if x.r == y.r {
      RackBumpUpdateCommute(dom.racks[x.r], x.p, y.p, y.n, pg, delta, t, op);
    }
  }

  lemma BumpUpdateCommute(ds: seq<Domain>, x: NodeRef, y: NodeRef, pg: int, delta: int, t: VMType, op: Op)
    requires ValidRef(ds, x) && ValidRef(ds, y)
    ensures BumpAt(Update(ds, y, t, op), x, pg, delta) == Update(BumpAt(ds, x, pg, delta), y, t, op)
  {
    if x.d == y.d {
      DomainBumpUpdateCommute(ds[x.d], x, y, pg, delta, t, op);
    }
  }

  lemma {:induction false} BumpUpdateAllCommute(ds: seq<Domain>, x: NodeRef, xs: seq<NodeRef>, pg: int, delta: int, t: VMType, op: Op)
    requires ValidRef(ds, x) && AllValid(ds, xs)
    ensures BumpAt(UpdateAll(ds, xs, t, op), x, pg, delta) == UpdateAll(BumpAt(ds, x, pg, delta), xs, t, op)
    decreases |xs|
  {
    if |xs| > 0 {
      BumpUpdateCommute(ds, x, xs[0], pg, delta, t, op);
      BumpUpdateAllCommute(Update(ds, xs[0], t, op), x, xs[1..], pg, delta, t, op);
    }
  }

  lemma BumpUndone(ds: seq<Domain>, x: NodeRef, pg: int, delta: int)
    requires ValidRef(ds, x) && Canonical(ds[x.d].racks[x.r].pms[x.p].vmsByPG)
    ensures BumpAt(BumpAt(ds, x, pg, delta), x, pg, -delta) == ds
  {
    var dom := ds[x.d];
    var rack := dom.racks[x.r];
    var pm := rack.pms[x.p];
    BumpUndo(pm.vmsByPG, pg, delta);
    assert PMBump(PMBump(pm, pg, delta), pg, -delta) == pm;
    assert RackBump(RackBump(rack, x.p, pg, delta), x.p, pg, -delta) == rack;
    assert DomainBump(DomainBump(dom, x.r, x.p, pg, delta), x.r, x.p, pg, -delta) == dom;
  }

  // ---------------------------------------------------------------- what a list of claims does to each level

  datatype Level = NodeLevel | PMLevel | RackLevel | DomainLevel

  /** Node `x` lies in the level-`lv` part of the hierarchy that holds `y`. */
  predicate Within(x: NodeRef, y: NodeRef, lv: Level)
  {
    && x.d == y.d
    && (lv == DomainLevel || x.r == y.r)
    && (lv == DomainLevel || lv == RackLevel || x.p == y.p)
    && (lv != NodeLevel || x.n == y.n)
  }

  /** The counters of the level-`lv` part that holds node `y`. */
  function ResAt(ds: seq<Domain>, y: NodeRef, lv: Level): Res
    requires ValidRef(ds, y)
  {
    match lv
    case DomainLevel => ds[y.d].res
    case RackLevel => ds[y.d].racks[y.r].res
    case PMLevel => ds[y.d].racks[y.r].pms[y.p].res
    case NodeLevel => ds[y.d].racks[y.r].pms[y.p].nodes[y.n].res
  }

  /** How many nodes of `xs` lie in the level-`lv` part holding `y`. */
  function Hits(xs: seq<NodeRef>, y: NodeRef, lv: Level): nat
  {
    if |xs| == 0 then 0 else (if Within(xs[0], y, lv) then 1 else 0) + Hits(xs[1..], y, lv)
  }

  lemma UpdateResAt(ds: seq<Domain>, x: NodeRef, y: NodeRef, t: VMType, op: Op, lv: Level)
    requires ValidRef(ds, x) && ValidRef(ds, y)
    ensures ResAt(Update(ds, x, t, op), y, lv) == if Within(x, y, lv) then Apply(ResAt(ds, y, lv), t, op) else ResAt(ds, y, lv)
  {
  }

  /** Claiming `t` on a list of nodes lowers every available counter of every
      level by the type's demand once per listed node below it (a release
      raises it likewise), and leaves the totals alone. */
  lemma UpdateGetAt(ds: seq<Domain>, x: NodeRef, y: NodeRef, t: VMType, op: Op, lv: Level, f: Field)
    requires ValidRef(ds, x) && ValidRef(ds, y)
    ensures Get(ResAt(Update(ds, x, t, op), y, lv), f) == Get(ResAt(ds, y, lv), f) + (if Within(x, y, lv) then Delta(t, op, f) else 0)
  {
    UpdateResAt(ds, x, y, t, op, lv);
    ApplyShift(ResAt(ds, y, lv), t, op);
  }

  lemma {:induction false} HitsTimes(xs: seq<NodeRef>, y: NodeRef, lv: Level, d: int)
    ensures Hits(xs, y, lv) * d == if |xs| == 0 then 0 else
              (if Within(xs[0], y, lv) then d else 0) + Hits(xs[1..], y, lv) * d
  {
    if |xs| > 0 {
      var h := Hits(xs[1..], y, lv);
      if Within(xs[0], y, lv) {
        assert (1 + h) * d == d + h * d;
      }
    }
  }

  lemma {:induction false} UpdateAllResAt(ds: seq<Domain>, xs: seq<NodeRef>, y: NodeRef, t: VMType, op: Op, lv: Level, f: Field)
    requires AllValid(ds, xs) && ValidRef(ds, y)
    ensures Get(ResAt(UpdateAll(ds, xs, t, op), y, lv), f) == Get(ResAt(ds, y, lv), f) + Hits(xs, y, lv) * Delta(t, op, f)
    decreases |xs|
  {
    var dl := Delta(t, op, f);
    HitsTimes(xs, y, lv, dl);
    if |xs| > 0 {
      var ds1 := Update(ds, xs[0], t, op);
      assert UpdateAll(ds, xs, t, op) == UpdateAll(ds1, xs[1..], t, op);
      UpdateGetAt(ds, xs[0], y, t, op, lv, f);
      UpdateAllResAt(ds1, xs[1..], y, t, op, lv, f);
    }
  }

  lemma BumpResAt(ds: seq<Domain>, x: NodeRef, y: NodeRef, pg: int, delta: int, lv: Level)
    requires ValidRef(ds, x) && ValidRef(ds, y)
    ensures ResAt(BumpAt(ds, x, pg, delta), y, lv) == ResAt(ds, y, lv)
  {
  }

  // ---------------------------------------------------------------- VMs

  /** A VM of the solver: its type, group, partition and the nodes it holds,
      empty while it is not placed. */
  datatype VM = VM(index: int, vtype: VMType, pg: int, partition: int, nodes: seq<NodeRef>)

  predicate IsPlaced(vm: VM)
  {
    |vm.nodes| > 0
  }

  /** `VM::place`: records the nodes, claims the type on each of them (and
      their ancestors) and counts the VM for its group on the machine of its
      first node. The solver reads the first node unconditionally, so the
      placement must not be empty. */
  function Place(ds: seq<Domain>, vm: VM, placement: seq<NodeRef>): (r: (seq<Domain>, VM))
    requires |placement| > 0 && AllValid(ds, placement)
    ensures IsPlaced(r.1) && r.1.nodes == placement
    ensures forall y :: ValidRef(r.0, y) <==> ValidRef(ds, y)
  {
    var ds1 := UpdateAll(ds, placement, vm.vtype, ClaimOp);
    (BumpAt(ds1, placement[0], vm.pg, 1), vm.(nodes := placement))
  }

  /** `VM::unplace`: releases the type on the VM's nodes, uncounts it and
      forgets the nodes. Like the solver, it needs a placed VM. */
  function Unplace(ds: seq<Domain>, vm: VM): (r: (seq<Domain>, VM))
    requires IsPlaced(vm) && AllValid(ds, vm.nodes)
    ensures !IsPlaced(r.1)
    ensures forall y :: ValidRef(r.0, y) <==> ValidRef(ds, y)
  {
    var ds1 := UpdateAll(ds, vm.nodes, vm.vtype, ReleaseOp);
    (BumpAt(ds1, vm.nodes[0], vm.pg, -1), vm.(nodes := []))
  }

  /** Placing claims the VM's demand once per chosen node on every level
      above that node: each available counter drops by the demand times the
      number of chosen nodes below it. */
  lemma PlaceClaims(ds: seq<Domain>, vm: VM, placement: seq<NodeRef>, y: NodeRef, lv: Level, f: Field)
    requires |placement| > 0 && AllValid(ds, placement) && ValidRef(ds, y)
    ensures Get(ResAt(Place(ds, vm, placement).0, y, lv), f)
         == Get(ResAt(ds, y, lv), f) - Hits(placement, y, lv) * Demand(vm.vtype, f)
  {
    var t := vm.vtype;
    var ds1 := UpdateAll(ds, placement, t, ClaimOp);
    var h, dm := Hits(placement, y, lv), Demand(t, f);
    assert Place(ds, vm, placement).0 == BumpAt(ds1, placement[0], vm.pg, 1);
    UpdateAllResAt(ds, placement, y, t, ClaimOp, lv, f);
    BumpResAt(ds1, placement[0], y, vm.pg, 1, lv);
    NegateTimes(h, Delta(t, ClaimOp, f), dm);
  }

  lemma NegateTimes(h: int, dl: int, dm: int)
    requires dl == -dm
    ensures h * dl == -(h * dm)
  {
  }

  /** Placing raises exactly one group count, the VM's group on the machine
      of its first node, and keeps the hierarchy balanced and its counters
      canonical. */
  lemma PlaceKeeps(ds: seq<Domain>, vm: VM, placement: seq<NodeRef>)
    requires |placement| > 0 && AllValid(ds, placement)
    ensures var ds' := Place(ds, vm, placement).0;
            && (forall y, g :: ValidRef(ds, y) ==>
                  CountAt(ds', y, g) == CountAt(ds, y, g) + (if SamePM(placement[0], y) && g == vm.pg then 1 else 0))
            && (Balanced(ds) ==> Balanced(ds'))
            && (CountsCanonical(ds) ==> CountsCanonical(ds'))
            && Place(ds, vm, placement).1 == vm.(nodes := placement)
  {
    var t := vm.vtype;
    var ds1 := UpdateAll(ds, placement, t, ClaimOp);
    UpdateAllCounts(ds, placement, t, ClaimOp);
    BumpCounts(ds1, placement[0], vm.pg, 1);
    if Balanced(ds) {
      UpdateAllBalanced(ds, placement, t, ClaimOp);
      BumpBalanced(ds1, placement[0], vm.pg, 1);
    }
    if CountsCanonical(ds) {
      assert CountsCanonical(ds1);
    }
  }

  /** Unplacing gives back the VM's demand once per node it held. */
  lemma UnplaceReleases(ds: seq<Domain>, vm: VM, y: NodeRef, lv: Level, f: Field)
    requires IsPlaced(vm) && AllValid(ds, vm.nodes) && ValidRef(ds, y)
    ensures Get(ResAt(Unplace(ds, vm).0, y, lv), f)
         == Get(ResAt(ds, y, lv), f) + Hits(vm.nodes, y, lv) * Demand(vm.vtype, f)
  {
    var t := vm.vtype;
    var ds1 := UpdateAll(ds, vm.nodes, t, ReleaseOp);
    assert Unplace(ds, vm).0 == BumpAt(ds1, vm.nodes[0], vm.pg, -1);
    UpdateAllResAt(ds, vm.nodes, y, t, ReleaseOp, lv, f);
    BumpResAt(ds1, vm.nodes[0], y, vm.pg, -1, lv);
  }

  /** Unplacing lowers exactly one group count and keeps balance and
      canonical counters. */
  lemma UnplaceKeeps(ds: seq<Domain>, vm: VM)
    requires IsPlaced(vm) && AllValid(ds, vm.nodes)
    ensures var ds' := Unplace(ds, vm).0;
            && (forall y, g :: ValidRef(ds, y) ==>
                  CountAt(ds', y, g) == CountAt(ds, y, g) - (if SamePM(vm.nodes[0], y) && g == vm.pg then 1 else 0))
            && (Balanced(ds) ==> Balanced(ds'))
            && (CountsCanonical(ds) ==> CountsCanonical(ds'))
            && Unplace(ds, vm).1 == vm.(nodes := [])
  {
    var t := vm.vtype;
    var ds1 := UpdateAll(ds, vm.nodes, t, ReleaseOp);
    UpdateAllCounts(ds, vm.nodes, t, ReleaseOp);
    BumpCounts(ds1, vm.nodes[0], vm.pg, -1);
    if Balanced(ds) {
      UpdateAllBalanced(ds, vm.nodes, t, ReleaseOp);
      BumpBalanced(ds1, vm.nodes[0], vm.pg, -1);
    }
    if CountsCanonical(ds) {
      assert CountsCanonical(ds1);
    }
  }

  /** Unplacing a VM right after placing it restores every counter of the
      hierarchy and every group count; only caches of type fits may differ. */
  lemma UnplaceUndoesPlace(ds: seq<Domain>, vm: VM, placement: seq<NodeRef>)
    requires |placement| > 0 && AllValid(ds, placement) && CountsCanonical(ds)
    ensures var (ds1, vm1) := Place(ds, vm, placement);
            var (ds2, vm2) := Unplace(ds1, vm1);
            Alike(ds2, ds) && vm2 == vm.(nodes := [])
  {
    var t, x0, pg := vm.vtype, placement[0], vm.pg;
    var a := UpdateAll(ds, placement, t, ClaimOp);
    var b := UpdateAll(a, placement, t, ReleaseOp);
    BumpUpdateAllCommute(a, x0, placement, pg, 1, t, ReleaseOp);
    UpdateAllCounts(ds, placement, t, ClaimOp);
    UpdateAllCounts(a, placement, t, ReleaseOp);
    assert b[x0.d].racks[x0.r].pms[x0.p].vmsByPG == ds[x0.d].racks[x0.r].pms[x0.p].vmsByPG;
    BumpUndone(b, x0, pg, 1);
    ReleaseAllUndoesClaimAll(ds, placement, t);
  }
}
