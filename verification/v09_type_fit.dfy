/** How many VMs of a type still fit, per level of the v09 solver's
    hierarchy (src/v09.cpp, `getTypeFit` and the `getTypeFitImpl`
    overrides), and the per-level cache that a claim or release clears. */
module TypeFit {
  import opened Common
  import opened Resources
  import opened Hierarchy

  /** C++ integer division, truncating toward zero for either sign of the
      divisor; dividing by zero is undefined there and excluded here. */
  function CQuot(a: int, b: int): int
    requires b != 0
  {
    if b > 0 then CDiv(a, b) else -CDiv(a, -b)
  }

  /** A type whose fit can be computed: no division by zero, and the
      machine-level stride (`i += type.nodes`) moves forward. */
  predicate Measurable(t: VMType)
  {
    t.cpu != 0 && t.memory != 0 && t.nodes >= 1
  }

  // ---------------------------------------------------------------- one node

  /** A node's fit: how many times the type's per-node demand still fits. */
  function NodeFitImpl(n: Node, t: VMType): int
    requires Measurable(t)
  {
    Min(CQuot(n.res.availCPU, t.cpu), CQuot(n.res.availMemory, t.memory))
  }

  /** With positive demands and nothing overdrawn, a node's fit is exactly
      the number of further claims of the type it can take while both its
      available counters stay non-negative. */
  lemma NodeFitCounts(n: Node, t: VMType)
    requires Measurable(t) && t.cpu > 0 && t.memory > 0
    requires n.res.availCPU >= 0 && n.res.availMemory >= 0
    ensures var k := NodeFitImpl(n, t);
            && k >= 0
            && HasResources(ClaimTimes(n.res, t, k), 0, 0)
            && !HasResources(ClaimTimes(n.res, t, k + 1), 0, 0)
  {
    var k := NodeFitImpl(n, t);
    var a, b := n.res.availCPU, n.res.availMemory;
    ClaimTimesShift(n.res, t, k);
    ClaimTimesShift(n.res, t, k + 1);
    DivBounds(a, t.cpu);
    DivBounds(b, t.memory);
    if a / t.cpu <= b / t.memory {
      MulMonotone(k, b / t.memory, t.memory);
    } else {
      MulMonotone(k, a / t.cpu, t.cpu);
    }
  }

  lemma DivBounds(a: int, b: int)
    requires a >= 0 && b > 0
    ensures (a / b) * b <= a < (a / b + 1) * b
  {
  }

  lemma MulMonotone(x: int, y: int, c: int)
    requires x <= y && c >= 0
    ensures x * c <= y * c
  {
  }

  // ---------------------------------------------------------------- sorting and the stride sum

  predicate Sorted(s: seq<int>)
  {
    forall i, j :: 0 <= i < j < |s| ==> s[i] <= s[j]
  }

  function Insert(x: int, s: seq<int>): (r: seq<int>)
    ensures multiset(r) == multiset(s) + multiset{x}
    ensures |r| == |s| + 1
  {
    if |s| == 0 then [x]
    else if x <= s[0] then [x] + s
    else
      assert s == [s[0]] + s[1..];
      [s[0]] + Insert(x, s[1..])
  }

  /** Every element of `s` comes from the multiset it was built from. */
  lemma MemberOf(s: seq<int>, j: int)
    requires 0 <= j < |s|
    ensures s[j] in multiset(s)
  {
  }

  lemma {:induction false} InsertSorted(x: int, s: seq<int>)
    requires Sorted(s)
    ensures Sorted(Insert(x, s))
    decreases |s|
  {
    if |s| > 0 && x > s[0] {
      var rest := Insert(x, s[1..]);
      InsertSorted(x, s[1..]);
      forall j | 0 <= j < |rest|
        ensures s[0] <= rest[j]
      {
        MemberOf(rest, j);
        if rest[j] != x {
          assert rest[j] in multiset(s[1..]);
          var i :| 0 <= i < |s[1..]| && s[1..][i] == rest[j];
          assert s[i + 1] == rest[j];
        }
      }
      assert Insert(x, s) == [s[0]] + rest;
    }
  }

  /** The ascending order `std::sort` leaves the node fits in
      (`SortAscSpec` and `SortAscUnique` say why it is that order). */
  function SortAsc(s: seq<int>): (r: seq<int>)
    ensures |r| == |s|
  {
    if |s| == 0 then [] else Insert(s[0], SortAsc(s[1..]))
  }

  /** Sorting keeps the elements and puts them in ascending order. */
  lemma {:induction false} SortAscSpec(s: seq<int>)
    ensures multiset(SortAsc(s)) == multiset(s) && Sorted(SortAsc(s))
    decreases |s|
  {
    if |s| > 0 {
      var rest := SortAsc(s[1..]);
      SortAscSpec(s[1..]);
      InsertSorted(s[0], rest);
      assert s == [s[0]] + s[1..];
      assert multiset(s) == multiset(s[1..]) + multiset{s[0]};
      assert SortAsc(s) == Insert(s[0], rest);
    }
  }

  lemma SortedHeads(a: seq<int>, b: seq<int>)
    requires Sorted(a) && Sorted(b) && multiset(a) == multiset(b) && |a| > 0 && |b| > 0
    ensures a[0] == b[0]
  {
    MemberOf(a, 0);
    MemberOf(b, 0);
    var i :| 0 <= i < |a| && a[i] == b[0];
    var j :| 0 <= j < |b| && b[j] == a[0];
    assert a[0] <= a[i] && b[0] <= b[j];
  }

  lemma Tails(a: seq<int>)
    requires |a| > 0
    ensures multiset(a[1..]) == multiset(a) - multiset{a[0]}
  {
    assert a == [a[0]] + a[1..];
  }

  /** A sorted sequence is determined by its elements. */
  lemma {:induction false} SortedUnique(a: seq<int>, b: seq<int>)
    requires Sorted(a) && Sorted(b) && multiset(a) == multiset(b)
    ensures a == b
    decreases |a|
  {
    assert |a| == |multiset(a)| == |multiset(b)| == |b|;
    if |a| > 0 {
      SortedHeads(a, b);
      Tails(a);
      Tails(b);
      SortedUnique(a[1..], b[1..]);
      assert a == [a[0]] + a[1..] && b == [b[0]] + b[1..];
    }
  }

  /** Any ascending arrangement of the node fits is the one `SortAsc`
      gives, so the order the machine sums in does not depend on the
      sorting algorithm. */
  lemma SortAscUnique(s: seq<int>, r: seq<int>)
    requires multiset(r) == multiset(s) && Sorted(r)
    ensures r == SortAsc(s)
  {
    SortAscSpec(s);
    SortedUnique(r, SortAsc(s));
  }

  /** The sum of every `k`-th element starting with the first: the
      machine-level count loop `for (i = 0; i < size; i += k)`. */
  function StrideSum(s: seq<int>, k: int): int
    requires k >= 1
    decreases |s|
  {
    if |s| == 0 then 0 else s[0] + (if k <= |s| then StrideSum(s[k..], k) else 0)
  }

  lemma {:induction false} SumFront(s: seq<int>)
    requires |s| > 0
    ensures Sum(s) == s[0] + Sum(s[1..])
    decreases |s|
  {
    if |s| > 1 {
      SumFront(s[..|s| - 1]);
      assert s[..|s| - 1][1..] == s[1..][..|s| - 2];
    }
  }

  lemma {:induction false} SumSplit(s: seq<int>, k: nat)
    requires k <= |s|
    ensures Sum(s) == Sum(s[..k]) + Sum(s[k..])
    decreases |s|
  {
    if k < |s| {
      SumSplit(s[..|s| - 1], k);
      assert s[..|s| - 1][..k] == s[..k];
      assert s[k..][..|s| - k - 1] == s[..|s| - 1][k..];
    } else {
      assert s[..k] == s;
    }
  }

  /** With a stride of one every element is counted. */
  lemma {:induction false} StrideOne(s: seq<int>)
    ensures StrideSum(s, 1) == Sum(s)
    decreases |s|
  {
    if |s| > 0 {
      SumFront(s);
      StrideOne(s[1..]);
    }
  }

  /** With a stride as long as the sorted sequence, only the smallest
      element is counted. */
  lemma StrideWhole(s: seq<int>)
    requires |s| >= 1 && Sorted(s)
    ensures StrideSum(s, |s|) == s[0]
    ensures forall i :: 0 <= i < |s| ==> StrideSum(s, |s|) <= s[i]
  {
    assert s[|s|..] == [];
  }

  lemma {:induction false} SumAtLeast(s: seq<int>, m: int)
    requires forall i :: 0 <= i < |s| ==> m <= s[i]
    ensures |s| * m <= Sum(s)
    decreases |s|
  {
    if |s| > 0 {
      SumAtLeast(s[..|s| - 1], m);
    }
  }

  /** On a sorted sequence cut into whole groups of `k`, the stride sum
      counts each group's smallest element, so `k` times it never exceeds
      the sum of all elements. */
  lemma StrideBound(s: seq<int>, k: int)
    requires k >= 1 && Sorted(s) && |s| % k == 0
    ensures k * StrideSum(s, k) <= Sum(s)
  {
    StrideGroups(s, k, |s| / k);
  }

  lemma {:induction false} StrideGroups(s: seq<int>, k: int, g: nat)
    requires k >= 1 && Sorted(s) && |s| == g * k
    ensures k * StrideSum(s, k) <= Sum(s)
    decreases g
  {
    if |s| > 0 {
      assert g >= 1;
      assert |s| - k == (g - 1) * k;
      var head, tail := s[..k], s[k..];
      SumSplit(s, k);
      SumAtLeast(head, s[0]);
      assert Sorted(tail);
      StrideGroups(tail, k, g - 1);
      var rest := StrideSum(tail, k);
      assert StrideSum(s, k) == s[0] + rest;
      Distribute(k, s[0], rest);
    }
  }

  lemma Distribute(k: int, a: int, b: int)
    ensures k * (a + b) == k * a + k * b
  {
  }

  // ---------------------------------------------------------------- fits computed afresh

  function FreshNodes(ns: seq<Node>, t: VMType): (v: seq<int>)
    requires Measurable(t)
    ensures |v| == |ns| && forall i :: 0 <= i < |ns| ==> v[i] == NodeFitImpl(ns[i], t)
  {
    seq(|ns|, i requires 0 <= i < |ns| => NodeFitImpl(ns[i], t))
  }

  /** A machine's fit: its node fits in ascending order, summed at every
      `nodes`-th position. */
  function FreshPM(pm: PM, t: VMType): int
    requires Measurable(t)
  {
    StrideSum(SortAsc(FreshNodes(pm.nodes, t)), t.nodes)
  }

  function FreshPMs(ps: seq<PM>, t: VMType): int
    requires Measurable(t)
    decreases |ps|
  {
    if |ps| == 0 then 0 else FreshPM(ps[0], t) + FreshPMs(ps[1..], t)
  }

  /** A rack's fit is the sum of its machines' fits. */
  function FreshRack(rack: Rack, t: VMType): int
    requires Measurable(t)
  {
    FreshPMs(rack.pms, t)
  }

  function FreshRacks(rs: seq<Rack>, t: VMType): int
    requires Measurable(t)
    decreases |rs|
  {
    if |rs| == 0 then 0 else FreshRack(rs[0], t) + FreshRacks(rs[1..], t)
  }

  /** A domain's fit is the sum of its racks' fits. */
  function FreshDomain(dom: Domain, t: VMType): int
    requires Measurable(t)
  {
    FreshRacks(dom.racks, t)
  }

  // ---------------------------------------------------------------- fits through the cache

  /** `Node::getTypeFit`: the cached value for the type's index if there is
      one, otherwise the fit computed now and remembered. */
  function NodeFit(n: Node, t: VMType): (int, Node)
    requires Measurable(t)
  {
    if t.index in n.res.fits then (n.res.fits[t.index], n)
    else
      var v := NodeFitImpl(n, t);
      (v, n.(res := n.res.(fits := n.res.fits[t.index := v])))
  }

  function NodeFits(ns: seq<Node>, t: VMType): (r: (seq<int>, seq<Node>))
    requires Measurable(t)
    ensures |r.0| == |ns| && |r.1| == |ns|
    decreases |ns|
  {
    if |ns| == 0 then ([], [])
    else
      var (v, n') := NodeFit(ns[0], t);
      var (vs, ns') := NodeFits(ns[1..], t);
      ([v] + vs, [n'] + ns')
  }

  /** `PM::getTypeFit`, asking each node through its own cache. */
  function PMFit(pm: PM, t: VMType): (int, PM)
    requires Measurable(t)
  {
    if t.index in pm.res.fits then (pm.res.fits[t.index], pm)
    else
      var (vs, ns') := NodeFits(pm.nodes, t);
      var v := StrideSum(SortAsc(vs), t.nodes);
      (v, pm.(nodes := ns', res := pm.res.(fits := pm.res.fits[t.index := v])))
  }

  function PMFits(ps: seq<PM>, t: VMType): (r: (int, seq<PM>))
    requires Measurable(t)
    ensures |r.1| == |ps|
    decreases |ps|
  {
    if |ps| == 0 then (0, [])
    else
      var (v, p') := PMFit(ps[0], t);
      var (c, ps') := PMFits(ps[1..], t);
      (v + c, [p'] + ps')
  }

  /** `Rack::getTypeFit`. */
  function RackFit(rack: Rack, t: VMType): (int, Rack)
    requires Measurable(t)
  {
    if t.index in rack.res.fits then (rack.res.fits[t.index], rack)
    else
      var (v, ps') := PMFits(rack.pms, t);
      (v, rack.(pms := ps', res := rack.res.(fits := rack.res.fits[t.index := v])))
  }

  function RackFits(rs: seq<Rack>, t: VMType): (r: (int, seq<Rack>))
    requires Measurable(t)
    ensures |r.1| == |rs|
    decreases |rs|
  {
    if |rs| == 0 then (0, [])
    else
      var (v, r') := RackFit(rs[0], t);
      var (c, rs') := RackFits(rs[1..], t);
      (v + c, [r'] + rs')
  }

  /** `Domain::getTypeFit`. */
  function DomainFit(dom: Domain, t: VMType): (int, Domain)
    requires Measurable(t)
  {
    if t.index in dom.res.fits then (dom.res.fits[t.index], dom)
    else
      var (v, rs') := RackFits(dom.racks, t);
      (v, dom.(racks := rs', res := dom.res.(fits := dom.res.fits[t.index := v])))
  }

  // ---------------------------------------------------------------- the cache is never stale

  /** `t` is the type the cache key `t.index` stands for. */
  predicate Known(t: VMType, types: seq<VMType>)
  {
    1 <= t.index <= |types| && types[t.index - 1] == t && Measurable(t)
  }

  /** Every cached entry, keyed by a type's index, holds the fit a fresh
      computation would give now. */
  ghost predicate NodeCoherent(n: Node, types: seq<VMType>)
  {
    forall k :: k in n.res.fits ==>
      1 <= k <= |types| && Measurable(types[k - 1]) && n.res.fits[k] == NodeFitImpl(n, types[k - 1])
  }

  ghost predicate PMCacheFresh(pm: PM, types: seq<VMType>)
  {
    forall k :: k in pm.res.fits ==>
      1 <= k <= |types| && Measurable(types[k - 1]) && pm.res.fits[k] == FreshPM(pm, types[k - 1])
  }

  ghost predicate PMCoherent(pm: PM, types: seq<VMType>)
  {
    && PMCacheFresh(pm, types)
    && forall i :: 0 <= i < |pm.nodes| ==> NodeCoherent(pm.nodes[i], types)
  }

  ghost predicate RackCacheFresh(rack: Rack, types: seq<VMType>)
  {
    forall k :: k in rack.res.fits ==>
      1 <= k <= |types| && Measurable(types[k - 1]) && rack.res.fits[k] == FreshRack(rack, types[k - 1])
  }

  ghost predicate RackCoherent(rack: Rack, types: seq<VMType>)
  {
    && RackCacheFresh(rack, types)
    && forall i :: 0 <= i < |rack.pms| ==> PMCoherent(rack.pms[i], types)
  }

  ghost predicate DomainCacheFresh(dom: Domain, types: seq<VMType>)
  {
    forall k :: k in dom.res.fits ==>
      1 <= k <= |types| && Measurable(types[k - 1]) && dom.res.fits[k] == FreshDomain(dom, types[k - 1])
  }

  ghost predicate DomainCoherent(dom: Domain, types: seq<VMType>)
  {
    && DomainCacheFresh(dom, types)
    && forall i :: 0 <= i < |dom.racks| ==> RackCoherent(dom.racks[i], types)
  }

  ghost predicate Coherent(ds: seq<Domain>, types: seq<VMType>)
  {
    forall d :: 0 <= d < |ds| ==> DomainCoherent(ds[d], types)
  }

  lemma FreshNodesAlike(a: seq<Node>, b: seq<Node>, t: VMType)
    requires Measurable(t) && |a| == |b| && forall i :: 0 <= i < |a| ==> NodeAlike(a[i], b[i])
    ensures FreshNodes(a, t) == FreshNodes(b, t)
  {
    forall i | 0 <= i < |a|
      ensures FreshNodes(a, t)[i] == FreshNodes(b, t)[i]
    {
      assert Strip(a[i].res) == Strip(b[i].res);
    }
  }

  lemma NodeFitSpec(n: Node, t: VMType, types: seq<VMType>)
    requires NodeCoherent(n, types) && Known(t, types)
    ensures NodeFit(n, t).0 == NodeFitImpl(n, t)
    ensures NodeCoherent(NodeFit(n, t).1, types) && NodeAlike(NodeFit(n, t).1, n)
  {
  }

  lemma {:induction false} NodeFitsSpec(ns: seq<Node>, t: VMType, types: seq<VMType>)
    requires Known(t, types) && forall i :: 0 <= i < |ns| ==> NodeCoherent(ns[i], types)
    ensures NodeFits(ns, t).0 == FreshNodes(ns, t)
    ensures forall i :: 0 <= i < |ns| ==> NodeAlike(NodeFits(ns, t).1[i], ns[i]) && NodeCoherent(NodeFits(ns, t).1[i], types)
    decreases |ns|
  {
    if |ns| > 0 {
      NodeFitSpec(ns[0], t, types);
      NodeFitsSpec(ns[1..], t, types);
      var r := NodeFits(ns, t);
      var rest := NodeFits(ns[1..], t);
      assert r.0 == [NodeFit(ns[0], t).0] + rest.0;
      assert r.1 == [NodeFit(ns[0], t).1] + rest.1;
      forall i | 1 <= i < |ns|
        ensures NodeAlike(r.1[i], ns[i]) && NodeCoherent(r.1[i], types)
      {
        assert r.1[i] == rest.1[i - 1] && ns[i] == ns[1..][i - 1];
      }
    }
  }

  lemma FreshPMAlike(a: PM, b: PM, t: VMType)
    requires Measurable(t) && PMAlike(a, b)
    ensures FreshPM(a, t) == FreshPM(b, t)
  {
    FreshNodesAlike(a.nodes, b.nodes, t);
  }

  /** A machine asked for its fit answers what a fresh computation would,
      keeps every cache coherent and changes no counter. */
  lemma PMFitSpec(pm: PM, t: VMType, types: seq<VMType>)
    requires PMCoherent(pm, types) && Known(t, types)
    ensures PMAlike(PMFit(pm, t).1, pm)
    ensures PMFit(pm, t).0 == FreshPM(pm, t)
    ensures PMCoherent(PMFit(pm, t).1, types)
  {
    if t.index !in pm.res.fits {
      var r := NodeFits(pm.nodes, t);
      var v := StrideSum(SortAsc(r.0), t.nodes);
      var pm' := pm.(nodes := r.1, res := pm.res.(fits := pm.res.fits[t.index := v]));
      assert PMFit(pm, t) == (v, pm');
      PMFitMiss(pm, t, types, r.0, r.1);
    } else {
      assert PMFit(pm, t) == (pm.res.fits[t.index], pm);
    }
  }

  lemma PMFitMiss(pm: PM, t: VMType, types: seq<VMType>, vs: seq<int>, ns: seq<Node>)
    requires PMCoherent(pm, types) && Known(t, types)
    requires (vs, ns) == NodeFits(pm.nodes, t)
    ensures StrideSum(SortAsc(vs), t.nodes) == FreshPM(pm, t)
    ensures var pm' := pm.(nodes := ns, res := pm.res.(fits := pm.res.fits[t.index := StrideSum(SortAsc(vs), t.nodes)]));
            PMCoherent(pm', types) && PMAlike(pm', pm)
  {
    NodeFitsSpec(pm.nodes, t, types);
    var pm' := pm.(nodes := ns, res := pm.res.(fits := pm.res.fits[t.index := FreshPM(pm, t)]));
    assert PMAlike(pm', pm);
    PMCacheExtend(pm, pm', t, types);
  }

  /** Storing a freshly computed fit keeps a machine's own cache coherent. */
  lemma PMCacheExtend(pm: PM, pm': PM, t: VMType, types: seq<VMType>)
    requires Known(t, types) && PMAlike(pm', pm)
    requires PMCacheFresh(pm, types)
    requires pm'.res.fits == pm.res.fits[t.index := FreshPM(pm, t)]
    ensures PMCacheFresh(pm', types)
  {
    forall k | k in pm'.res.fits
      ensures 1 <= k <= |types| && Measurable(types[k - 1]) && pm'.res.fits[k] == FreshPM(pm', types[k - 1])
    {
      FreshPMAlike(pm', pm, types[k - 1]);
    }
  }

  lemma {:induction false} FreshPMsPointwise(a: seq<PM>, b: seq<PM>, t: VMType)
    requires Measurable(t) && |a| == |b| && forall i :: 0 <= i < |a| ==> FreshPM(a[i], t) == FreshPM(b[i], t)
    ensures FreshPMs(a, t) == FreshPMs(b, t)
    decreases |a|
  {
    if |a| > 0 {
      FreshPMsPointwise(a[1..], b[1..], t);
    }
  }

  lemma {:induction false} PMFitsSpec(ps: seq<PM>, t: VMType, types: seq<VMType>)
    requires Known(t, types) && forall i :: 0 <= i < |ps| ==> PMCoherent(ps[i], types)
    ensures PMFits(ps, t).0 == FreshPMs(ps, t)
    ensures forall i :: 0 <= i < |ps| ==> PMAlike(PMFits(ps, t).1[i], ps[i]) && PMCoherent(PMFits(ps, t).1[i], types)
    decreases |ps|
  {
    if |ps| > 0 {
      PMFitSpec(ps[0], t, types);
      PMFitsSpec(ps[1..], t, types);
      var r := PMFits(ps, t);
      var rest := PMFits(ps[1..], t);
      assert r.1 == [PMFit(ps[0], t).1] + rest.1;
      forall i | 1 <= i < |ps|
        ensures PMAlike(r.1[i], ps[i]) && PMCoherent(r.1[i], types)
      {
        assert r.1[i] == rest.1[i - 1] && ps[i] == ps[1..][i - 1];
      }
    }
  }

  lemma FreshRackAlike(a: Rack, b: Rack, t: VMType)
    requires Measurable(t) && RackAlike(a, b)
    ensures FreshRack(a, t) == FreshRack(b, t)
  {
    forall i | 0 <= i < |a.pms|
      ensures FreshPM(a.pms[i], t) == FreshPM(b.pms[i], t)
    {
      FreshPMAlike(a.pms[i], b.pms[i], t);
    }
    FreshPMsPointwise(a.pms, b.pms, t);
  }

  /** A rack asked for its fit answers what a fresh computation would. */
  lemma RackFitSpec(rack: Rack, t: VMType, types: seq<VMType>)
    requires RackCoherent(rack, types) && Known(t, types)
    ensures RackAlike(RackFit(rack, t).1, rack)
    ensures RackFit(rack, t).0 == FreshRack(rack, t)
    ensures RackCoherent(RackFit(rack, t).1, types)
  {
    if t.index !in rack.res.fits {
      var r := PMFits(rack.pms, t);
      var rack' := rack.(pms := r.1, res := rack.res.(fits := rack.res.fits[t.index := r.0]));
      assert RackFit(rack, t) == (r.0, rack');
      RackFitMiss(rack, t, types, r.0, r.1);
    }
  }

  lemma RackFitMiss(rack: Rack, t: VMType, types: seq<VMType>, v: int, pms: seq<PM>)
    requires RackCoherent(rack, types) && Known(t, types)
    requires (v, pms) == PMFits(rack.pms, t)
    ensures v == FreshRack(rack, t)
    ensures var rack' := rack.(pms := pms, res := rack.res.(fits := rack.res.fits[t.index := v]));
            RackCoherent(rack', types) && RackAlike(rack', rack)
  {
    PMFitsSpec(rack.pms, t, types);
    var rack' := rack.(pms := pms, res := rack.res.(fits := rack.res.fits[t.index := v]));
    assert RackAlike(rack', rack);
    RackCacheExtend(rack, rack', t, types);
  }

  /** Storing a freshly computed fit keeps the level's own cache coherent. */
  lemma RackCacheExtend(rack: Rack, rack': Rack, t: VMType, types: seq<VMType>)
    requires Known(t, types) && RackAlike(rack', rack)
    requires RackCacheFresh(rack, types)
    requires rack'.res.fits == rack.res.fits[t.index := FreshRack(rack, t)]
    ensures RackCacheFresh(rack', types)
  {
    forall k | k in rack'.res.fits
      ensures 1 <= k <= |types| && Measurable(types[k - 1]) && rack'.res.fits[k] == FreshRack(rack', types[k - 1])
    {
      FreshRackAlike(rack', rack, types[k - 1]);
    }
  }

  lemma {:induction false} FreshRacksPointwise(a: seq<Rack>, b: seq<Rack>, t: VMType)
    requires Measurable(t) && |a| == |b| && forall i :: 0 <= i < |a| ==> FreshRack(a[i], t) == FreshRack(b[i], t)
    ensures FreshRacks(a, t) == FreshRacks(b, t)
    decreases |a|
  {
    if |a| > 0 {
      FreshRacksPointwise(a[1..], b[1..], t);
    }
  }

  lemma {:induction false} RackFitsSpec(rs: seq<Rack>, t: VMType, types: seq<VMType>)
    requires Known(t, types) && forall i :: 0 <= i < |rs| ==> RackCoherent(rs[i], types)
    ensures RackFits(rs, t).0 == FreshRacks(rs, t)
    ensures forall i :: 0 <= i < |rs| ==> RackAlike(RackFits(rs, t).1[i], rs[i]) && RackCoherent(RackFits(rs, t).1[i], types)
    decreases |rs|
  {
    if |rs| > 0 {
      RackFitSpec(rs[0], t, types);
      RackFitsSpec(rs[1..], t, types);
      var r := RackFits(rs, t);
      var rest := RackFits(rs[1..], t);
      assert r.1 == [RackFit(rs[0], t).1] + rest.1;
      forall i | 1 <= i < |rs|
        ensures RackAlike(r.1[i], rs[i]) && RackCoherent(r.1[i], types)
      {
        assert r.1[i] == rest.1[i - 1] && rs[i] == rs[1..][i - 1];
      }
    }
  }

  lemma FreshDomainAlike(a: Domain, b: Domain, t: VMType)
    requires Measurable(t) && DomainAlike(a, b)
    ensures FreshDomain(a, t) == FreshDomain(b, t)
  {
    forall i | 0 <= i < |a.racks|
      ensures FreshRack(a.racks[i], t) == FreshRack(b.racks[i], t)
    {
      FreshRackAlike(a.racks[i], b.racks[i], t);
    }
    FreshRacksPointwise(a.racks, b.racks, t);
  }

  /** A domain asked for its fit answers what a fresh computation would,
      keeps every cache below it coherent and changes no counter. */
  lemma DomainFitSpec(dom: Domain, t: VMType, types: seq<VMType>)
    requires DomainCoherent(dom, types) && Known(t, types)
    ensures DomainAlike(DomainFit(dom, t).1, dom)
    ensures DomainFit(dom, t).0 == FreshDomain(dom, t)
    ensures DomainCoherent(DomainFit(dom, t).1, types)
  {
    if t.index !in dom.res.fits {
      var r := RackFits(dom.racks, t);
      var dom' := dom.(racks := r.1, res := dom.res.(fits := dom.res.fits[t.index := r.0]));
      assert DomainFit(dom, t) == (r.0, dom');
      DomainFitMiss(dom, t, types, r.0, r.1);
    }
  }

  lemma DomainFitMiss(dom: Domain, t: VMType, types: seq<VMType>, v: int, racks: seq<Rack>)
    requires DomainCoherent(dom, types) && Known(t, types)
    requires (v, racks) == RackFits(dom.racks, t)
    ensures v == FreshDomain(dom, t)
    ensures var dom' := dom.(racks := racks, res := dom.res.(fits := dom.res.fits[t.index := v]));
            DomainCoherent(dom', types) && DomainAlike(dom', dom)
  {
    RackFitsSpec(dom.racks, t, types);
    var dom' := dom.(racks := racks, res := dom.res.(fits := dom.res.fits[t.index := v]));
    assert DomainAlike(dom', dom);
    DomainCacheExtend(dom, dom', t, types);
  }

  /** Storing a freshly computed fit keeps the level's own cache coherent. */
  lemma DomainCacheExtend(dom: Domain, dom': Domain, t: VMType, types: seq<VMType>)
    requires Known(t, types) && DomainAlike(dom', dom)
    requires DomainCacheFresh(dom, types)
    requires dom'.res.fits == dom.res.fits[t.index := FreshDomain(dom, t)]
    ensures DomainCacheFresh(dom', types)
  {
    forall k | k in dom'.res.fits
      ensures 1 <= k <= |types| && Measurable(types[k - 1]) && dom'.res.fits[k] == FreshDomain(dom', types[k - 1])
    {
      FreshDomainAlike(dom', dom, types[k - 1]);
    }
  }
}
