/** The judge's placement-group tracker (scripts/local_runner.py, class PG).
    Rules: `rackAA` rack anti-affinity, `hostAA` host anti-affinity threshold,
    `netA` / `rackA` network / rack affinity (1 soft, 2 hard). Counters are
    canonical maps (a missing key reads as zero), which is what the source's
    `defaultdict(int)` yields. */
module JudgeGroup {
  import opened Common
  import opened JudgeTypes

  datatype Rules = Rules(rackAA: int, hostAA: int, netA: int, rackA: int)

  /** Per-rack bookkeeping, keyed by global rack id. */
  datatype RackTally = RackTally(
    // partition that claimed each rack, for rack anti-affinity; never pruned
    partition: map<int, int>,
    // live VMs per rack, shared by rack anti-affinity and rack affinity
    count: map<int, int>,
    // racks touched by the group's live VMs, for rack affinity
    touched: set<int>)

  /** Per-domain bookkeeping for network affinity. */
  datatype NetTally = NetTally(count: map<int, int>, touched: set<int>)

  datatype Group = Group(rules: Rules, rack: RackTally, hostCount: map<int, int>, net: NetTally)

  /** Creating a group fails when it asks for rack anti-affinity and rack
      affinity at once; otherwise it starts with nothing registered. */
  function NewGroup(rackAA: int, hostAA: int, netA: int, rackA: int): (r: Result<Group, Violation>)
    ensures r.Err? <==> rackAA != 0 && rackA != 0
    ensures r.Err? ==> r.error == GroupRulesConflict
    ensures r.Ok? ==> Consistent(r.value)
    ensures r.Ok? ==> r.value.rules == Rules(rackAA, hostAA, netA, rackA)
    ensures r.Ok? ==> r.value.net.touched == {} && r.value.rack.touched == {} && r.value.rack.count == map[]
  {
    if rackAA == 0 || rackA == 0 then
      Ok(Group(Rules(rackAA, hostAA, netA, rackA), RackTally(map[], map[], {}), map[], NetTally(map[], {})))
    else
      Err(GroupRulesConflict)
  }

  predicate HasSoftConstraints(g: Group)
  {
    g.rules.hostAA > 0 || g.rules.netA == 1 || g.rules.rackA == 1
  }

  /** Whether the machine `pm` is within the host anti-affinity threshold. */
  predicate HostOk(g: Group, pm: int)
  {
    g.rules.hostAA == 0 || Count(g.hostCount, pm) <= g.rules.hostAA
  }

  /** The tracker's invariant: counters hold only positive counts, the
      touched sets are exactly the keys with a positive count, and every rack
      holding a VM under rack anti-affinity has a recorded partition. */
  ghost predicate Consistent(g: Group)
  {
    && !(g.rules.rackAA != 0 && g.rules.rackA != 0)
    && RackInv(g.rules, g.rack)
    && HostInv(g.rules, g.hostCount)
    && NetInv(g.rules, g.net)
  }

  ghost predicate RackInv(rules: Rules, t: RackTally)
  {
    && Positive(t.count)
    && t.touched == (if rules.rackA > 0 then t.count.Keys else {})
    && (rules.rackAA <= 0 && rules.rackA <= 0 ==> t.count == map[])
    && (rules.rackAA > 0 ==> t.count.Keys <= t.partition.Keys)
  }

  ghost predicate HostInv(rules: Rules, m: map<int, int>)
  {
    Positive(m) && (rules.hostAA <= 0 ==> m == map[])
  }

  ghost predicate NetInv(rules: Rules, t: NetTally)
  {
    && Positive(t.count)
    && t.touched == t.count.Keys
    && (rules.netA <= 0 ==> t.count == map[])
  }

  /** A placement that is currently registered with the group: each counter
      the group maintains holds at least one VM at the placement's keys. */
  ghost predicate Registered(g: Group, p: Placement)
  {
    && (g.rules.rackAA > 0 || g.rules.rackA > 0 ==> Count(g.rack.count, p.rackGlobal) > 0)
    && (g.rules.hostAA > 0 ==> Count(g.hostCount, p.pmGlobal) > 0)
    && (g.rules.netA > 0 ==> Count(g.net.count, p.net) > 0)
  }

  /** The part of a group that any later decision depends on: everything
      except partitions recorded for racks that are empty again. */
  ghost predicate SameObservable(g: Group, h: Group)
  {
    && g.rules == h.rules
    && g.rack.count == h.rack.count && g.rack.touched == h.rack.touched
    && g.hostCount == h.hostCount
    && g.net == h.net
    && (g.rules.rackAA > 0 ==>
          forall k :: Count(g.rack.count, k) > 0 ==>
            k in g.rack.partition && k in h.rack.partition && g.rack.partition[k] == h.rack.partition[k])
  }

  /** Rack anti-affinity stage: an occupied rack must carry the same
      partition; an empty one is claimed for the placement's partition with
      a count of one. */
  function ClaimRack(rules: Rules, t: RackTally, p: Placement): (r: Result<RackTally, Violation>)
    ensures r.Ok? ==> r.value.touched == t.touched
    ensures r.Ok? ==>
              r.value.count == (if rules.rackAA <= 0 then t.count
                                else if Count(t.count, p.rackGlobal) > 0 then Bump(t.count, p.rackGlobal, 1)
                                else t.count[p.rackGlobal := 1])
  {
    var rg := p.rackGlobal;
    var occupied := rules.rackAA > 0 && Count(t.count, rg) > 0;
    if occupied && rg !in t.partition then Err(KeyError)
    else if occupied && t.partition[rg] != p.partition then Err(RackAntiAffinity)
    else if rules.rackAA <= 0 then Ok(t)
    else if occupied then Ok(t.(count := Bump(t.count, rg, 1)))
    else Ok(RackTally(t.partition[rg := p.partition], t.count[rg := 1], t.touched))
  }

  function TouchNet(t: NetTally, net: int): NetTally
  {
    NetTally(Bump(t.count, net, 1), t.touched + {net})
  }

  function TouchRack(t: RackTally, rack: int): RackTally
  {
    RackTally(t.partition, Bump(t.count, rack, 1), t.touched + {rack})
  }

  /** Registers a placement; the result is the new group and whether the
      placement satisfies the group's soft affinities. Rack anti-affinity is
      checked first, then host, network and rack affinity bookkeeping. */
  function NewPlacement(g: Group, p: Placement): (r: Result<(Group, bool), Violation>)
    ensures r.Ok? ==> r.value.0.rules == g.rules
  {
    match ClaimRack(g.rules, g.rack, p)
    case Err(v) => Err(v)
    case Ok(rack1) => Affinities(g, rack1, p)
  }

  /** The stages after rack anti-affinity, with `rack1` the rack tally that
      stage produced. */
  function Affinities(g: Group, rack1: RackTally, p: Placement): (r: Result<(Group, bool), Violation>)
    ensures r.Ok? ==> r.value.0.rules == g.rules
    ensures r.Ok? ==> r.value.0.rack == (if g.rules.rackA > 0 then TouchRack(rack1, p.rackGlobal) else rack1)
    ensures r.Ok? ==> r.value.0.hostCount == (if g.rules.hostAA > 0 then Bump(g.hostCount, p.pmGlobal, 1) else g.hostCount)
    ensures r.Ok? ==> r.value.0.net == (if g.rules.netA > 0 then TouchNet(g.net, p.net) else g.net)
  {
    var host := if g.rules.hostAA > 0 then Bump(g.hostCount, p.pmGlobal, 1) else g.hostCount;
    var net := if g.rules.netA > 0 then TouchNet(g.net, p.net) else g.net;
    var netBroken := g.rules.netA > 0 && |net.touched| > 1;
    if netBroken && g.rules.netA == 2 then Err(HardNetAffinity)
    else
      var rack := if g.rules.rackA > 0 then TouchRack(rack1, p.rackGlobal) else rack1;
      var rackBroken := g.rules.rackA > 0 && |rack.touched| > 1;
      if rackBroken && g.rules.rackA == 2 then Err(HardRackAffinity)
      else Ok((Group(g.rules, rack, host, net), !netBroken && !rackBroken))
  }

  /** Drops `k` from a touched set once its count reaches zero. Python's
      `set.remove` raises on an absent element; that is the `KeyError`. */
  function Forget(active: bool, count: map<int, int>, touched: set<int>, k: int): (r: Result<set<int>, Violation>)
    ensures r.Ok? ==> r.value == if active && Count(count, k) == 0 then touched - {k} else touched
  {
    if active && Count(count, k) == 0 then
      if k in touched then Ok(touched - {k}) else Err(KeyError)
    else Ok(touched)
  }

  /** Unregisters a placement: every counter the rules maintain loses one
      VM, then the touched domain and rack are dropped when they emptied. */
  function DeletePlacement(g: Group, p: Placement): (r: Result<Group, Violation>)
    ensures r.Ok? ==> r.value.rules == g.rules && r.value.rack.partition == g.rack.partition
  {
    var rules := g.rules;
    var rackCount := if rules.rackAA > 0 || rules.rackA > 0 then Bump(g.rack.count, p.rackGlobal, -1) else g.rack.count;
    var host := if rules.hostAA > 0 then Bump(g.hostCount, p.pmGlobal, -1) else g.hostCount;
    var netCount := if rules.netA > 0 then Bump(g.net.count, p.net, -1) else g.net.count;
    match Forget(rules.netA > 0, netCount, g.net.touched, p.net)
    case Err(v) => Err(v)
    case Ok(nets) =>
      match Forget(rules.rackA > 0, rackCount, g.rack.touched, p.rackGlobal)
      case Err(v) => Err(v)
      case Ok(racks) => Ok(Group(rules, RackTally(g.rack.partition, rackCount, racks), host, NetTally(netCount, nets)))
  }

  // ---------------------------------------------------------------------
  // Properties

  lemma CardinalityAboveOne(s: set<int>, x: int)
    requires x in s
    ensures |s| > 1 <==> s - {x} != {}
  {
    assert |s - {x}| == |s| - 1;
  }

  /** What registering a placement does to each counter and touched set. */
  lemma NewPlacementCounters(g: Group, p: Placement)
    requires Consistent(g)
    requires NewPlacement(g, p).Ok?
    ensures var h := NewPlacement(g, p).value.0;
            && h.rack.count == (if g.rules.rackAA > 0 || g.rules.rackA > 0 then Bump(g.rack.count, p.rackGlobal, 1) else g.rack.count)
            && h.rack.touched == (if g.rules.rackA > 0 then g.rack.touched + {p.rackGlobal} else g.rack.touched)
            && h.hostCount == (if g.rules.hostAA > 0 then Bump(g.hostCount, p.pmGlobal, 1) else g.hostCount)
            && h.net == (if g.rules.netA > 0 then TouchNet(g.net, p.net) else g.net)
  {
  }

  /** Registering a placement records a partition only for a rack that was
      empty, under rack anti-affinity. */
  lemma NewPlacementPartitions(g: Group, p: Placement)
    requires NewPlacement(g, p).Ok?
    ensures var h := NewPlacement(g, p).value.0;
            || h.rack.partition == g.rack.partition
            || (g.rules.rackAA > 0 && Count(g.rack.count, p.rackGlobal) <= 0 &&
                h.rack.partition == g.rack.partition[p.rackGlobal := p.partition])
  {
  }

  /** Registering a placement keeps the tracker's invariant and leaves the
      placement registered. */
  lemma NewPlacementKeepsConsistent(g: Group, p: Placement)
    requires Consistent(g)
    requires NewPlacement(g, p).Ok?
    ensures Consistent(NewPlacement(g, p).value.0)
    ensures Registered(NewPlacement(g, p).value.0, p)
  {
    BumpUp(g.rack.count, p.rackGlobal);
    BumpUp(g.hostCount, p.pmGlobal);
    BumpUp(g.net.count, p.net);
    NewPlacementCounters(g, p);
    NewPlacementPartitions(g, p);
  }

  /** Rack anti-affinity: a VM on an occupied rack is fatal exactly when its
      partition differs from the rack's; a successful placement raises the
      rack's count by one and leaves the rack claimed for its partition. An
      empty rack can be claimed by any partition, whatever held it before. */
  lemma PartitionRule(g: Group, p: Placement)
    requires Consistent(g) && g.rules.rackAA > 0
    ensures var rg := p.rackGlobal;
            && (Count(g.rack.count, rg) > 0 && g.rack.partition[rg] != p.partition <==>
                  NewPlacement(g, p) == Err(RackAntiAffinity))
            && (NewPlacement(g, p).Ok? ==>
                  var h := NewPlacement(g, p).value.0;
                  && Count(h.rack.count, rg) == Count(g.rack.count, rg) + 1
                  && rg in h.rack.partition && h.rack.partition[rg] == p.partition)
            && NewPlacement(g, p) != Err(KeyError)
  {
  }

  /** Network affinity: once the rack anti-affinity stage has passed, the
      placement is fatal exactly when some other domain already holds a live
      VM of the group and the affinity is hard. A placement that goes
      through is flagged as keeping its soft rules exactly when neither the
      network affinity nor a rack affinity of the group is spread out. */
  lemma NetAffinityRule(g: Group, p: Placement)
    requires Consistent(g) && g.rules.netA > 0
    ensures var spread := g.net.count.Keys - {p.net} != {};
            var rackSpread := g.rules.rackA > 0 && g.rack.count.Keys - {p.rackGlobal} != {};
            && (NewPlacement(g, p) == Err(HardNetAffinity) <==>
                  ClaimRack(g.rules, g.rack, p).Ok? && spread && g.rules.netA == 2)
            && (NewPlacement(g, p).Ok? ==> (NewPlacement(g, p).value.1 <==> !spread && !rackSpread))
  {
    var nets := g.net.touched + {p.net};
    CardinalityAboveOne(nets, p.net);
    assert nets - {p.net} == g.net.count.Keys - {p.net};
    var racks := g.rack.touched + {p.rackGlobal};
    CardinalityAboveOne(racks, p.rackGlobal);
    assert g.rules.rackA > 0 ==> racks - {p.rackGlobal} == g.rack.count.Keys - {p.rackGlobal};
  }

  /** Rack affinity: the same rule over global rack ids. It is checked after
      network affinity, so a hard network violation takes precedence. */
  lemma RackAffinityRule(g: Group, p: Placement)
    requires Consistent(g) && g.rules.rackA > 0
    ensures var spread := g.rack.count.Keys - {p.rackGlobal} != {};
            var netSpread := g.rules.netA > 0 && g.net.count.Keys - {p.net} != {};
            && (NewPlacement(g, p) == Err(HardRackAffinity) <==>
                  spread && g.rules.rackA == 2 && !(netSpread && g.rules.netA == 2))
            && (NewPlacement(g, p).Ok? ==> (NewPlacement(g, p).value.1 <==> !spread && !netSpread))
  {
    var racks := g.rack.touched + {p.rackGlobal};
    CardinalityAboveOne(racks, p.rackGlobal);
    assert racks - {p.rackGlobal} == g.rack.count.Keys - {p.rackGlobal};
    var nets := g.net.touched + {p.net};
    CardinalityAboveOne(nets, p.net);
    assert g.rules.netA > 0 ==> nets - {p.net} == g.net.count.Keys - {p.net};
  }

  /** The soft flag is false exactly when a network or rack affinity of the
      group now spans more than one domain or rack. */
  lemma SoftFlagMeaning(g: Group, p: Placement)
    requires NewPlacement(g, p).Ok?
    ensures var h := NewPlacement(g, p).value.0;
            NewPlacement(g, p).value.1 <==>
              !(g.rules.netA > 0 && |h.net.touched| > 1) && !(g.rules.rackA > 0 && |h.rack.touched| > 1)
  {
  }

  /** Host anti-affinity: after registering a placement, its machine is
      within the threshold exactly when it held fewer VMs than the
      threshold; every other machine's status is unchanged. */
  lemma HostRule(g: Group, p: Placement)
    requires g.rules.hostAA > 0
    requires NewPlacement(g, p).Ok?
    ensures HostOk(NewPlacement(g, p).value.0, p.pmGlobal) <==> Count(g.hostCount, p.pmGlobal) < g.rules.hostAA
    ensures forall m :: m != p.pmGlobal ==> (HostOk(NewPlacement(g, p).value.0, m) <==> HostOk(g, m))
  {
  }

  /** What unregistering a placement does to each counter and touched set. */
  lemma DeletePlacementCounters(g: Group, p: Placement)
    requires DeletePlacement(g, p).Ok?
    ensures var h := DeletePlacement(g, p).value;
            && h.rack.count == (if g.rules.rackAA > 0 || g.rules.rackA > 0 then Bump(g.rack.count, p.rackGlobal, -1) else g.rack.count)
            && h.hostCount == (if g.rules.hostAA > 0 then Bump(g.hostCount, p.pmGlobal, -1) else g.hostCount)
            && h.net.count == (if g.rules.netA > 0 then Bump(g.net.count, p.net, -1) else g.net.count)
            && h.net.touched == (if g.rules.netA > 0 && Count(h.net.count, p.net) == 0 then g.net.touched - {p.net} else g.net.touched)
            && h.rack.touched == (if g.rules.rackA > 0 && Count(h.rack.count, p.rackGlobal) == 0 then g.rack.touched - {p.rackGlobal} else g.rack.touched)
  {
  }

  /** Unregistering a registered placement never raises and keeps the
      tracker's invariant, so the touched sets remain exactly the keys with a
      positive count. */
  lemma DeletePlacementKeepsConsistent(g: Group, p: Placement)
    requires Consistent(g) && Registered(g, p)
    ensures DeletePlacement(g, p).Ok?
    ensures Consistent(DeletePlacement(g, p).value)
  {
    var rules := g.rules;
    if rules.rackAA > 0 || rules.rackA > 0 {
      BumpDown(g.rack.count, p.rackGlobal);
    }
    if rules.hostAA > 0 {
      BumpDown(g.hostCount, p.pmGlobal);
    }
    if rules.netA > 0 {
      BumpDown(g.net.count, p.net);
    }
    DeletePlacementCounters(g, p);
  }

  /** Unregistering a placement right after registering it restores every
      counter and touched set; only the partition recorded for a rack that is
      empty again may remain. */
  lemma {:induction false} DeleteUndoesNew(g: Group, p: Placement)
    requires Consistent(g)
    requires NewPlacement(g, p).Ok?
    ensures DeletePlacement(NewPlacement(g, p).value.0, p).Ok?
    ensures SameObservable(g, DeletePlacement(NewPlacement(g, p).value.0, p).value)
  {
    var h := NewPlacement(g, p).value.0;
    NewPlacementCounters(g, p);
    NewPlacementKeepsConsistent(g, p);
    DeletePlacementKeepsConsistent(h, p);
    DeletePlacementCounters(h, p);
    var d := DeletePlacement(h, p).value;
    PositiveCanonical(g.rack.count);
    PositiveCanonical(g.hostCount);
    PositiveCanonical(g.net.count);
    BumpUndo(g.rack.count, p.rackGlobal, 1);
    BumpUndo(g.hostCount, p.pmGlobal, 1);
    BumpUndo(g.net.count, p.net, 1);
    assert d.rack.count == g.rack.count;
    assert d.net.count == g.net.count;
  }

  /** Decisions never read a partition recorded for an empty rack: groups
      that agree on everything observable behave the same on a new placement. */
  lemma NewPlacementObservable(g: Group, h: Group, p: Placement)
    requires Consistent(g) && Consistent(h)
    requires SameObservable(g, h)
    ensures NewPlacement(g, p).Ok? <==> NewPlacement(h, p).Ok?
    ensures NewPlacement(g, p).Err? ==> NewPlacement(h, p) == NewPlacement(g, p)
    ensures NewPlacement(g, p).Ok? ==>
              && NewPlacement(g, p).value.1 == NewPlacement(h, p).value.1
              && SameObservable(NewPlacement(g, p).value.0, NewPlacement(h, p).value.0)
  {
    ClaimRackObservable(g, h, p);
    if ClaimRack(g.rules, g.rack, p).Ok? {
      var r1, r2 := ClaimRack(g.rules, g.rack, p).value, ClaimRack(h.rules, h.rack, p).value;
      AffinitiesObservable(g, h, r1, r2, p);
      if NewPlacement(g, p).Ok? && g.rules.rackAA > 0 {
        var a, b := NewPlacement(g, p).value.0, NewPlacement(h, p).value.0;
        ClaimRackPartition(g.rules, g.rack, p);
        ClaimRackPartition(h.rules, h.rack, p);
        forall k | Count(a.rack.count, k) > 0
          ensures k in a.rack.partition && k in b.rack.partition && a.rack.partition[k] == b.rack.partition[k]
        {
          if k != p.rackGlobal {
            assert Count(g.rack.count, k) > 0;
          }
        }
      }
    }
  }

  /** The stages after rack anti-affinity read the rack tally only through
      its counts and touched set. */
  lemma AffinitiesObservable(g: Group, h: Group, r1: RackTally, r2: RackTally, p: Placement)
    requires g.rules == h.rules && g.hostCount == h.hostCount && g.net == h.net
    requires r1.count == r2.count && r1.touched == r2.touched
    ensures Affinities(g, r1, p).Ok? <==> Affinities(h, r2, p).Ok?
    ensures Affinities(g, r1, p).Err? ==> Affinities(h, r2, p) == Affinities(g, r1, p)
    ensures Affinities(g, r1, p).Ok? ==>
              var (a, sa) := Affinities(g, r1, p).value;
              var (b, sb) := Affinities(h, r2, p).value;
              && sa == sb && a.hostCount == b.hostCount && a.net == b.net
              && a.rack.count == b.rack.count && a.rack.touched == b.rack.touched
  {
  }

  /** Two groups that agree on everything observable pass or fail the rack
      anti-affinity stage alike, and keep agreeing on the counters. */
  lemma ClaimRackObservable(g: Group, h: Group, p: Placement)
    requires SameObservable(g, h)
    ensures ClaimRack(g.rules, g.rack, p).Ok? <==> ClaimRack(h.rules, h.rack, p).Ok?
    ensures ClaimRack(g.rules, g.rack, p).Err? ==> ClaimRack(h.rules, h.rack, p) == ClaimRack(g.rules, g.rack, p)
  {
  }

  /** Under rack anti-affinity a successful claim records the placement's
      partition for its rack and keeps every other rack's entry. */
  lemma ClaimRackPartition(rules: Rules, t: RackTally, p: Placement)
    requires ClaimRack(rules, t, p).Ok? && rules.rackAA > 0
    ensures var r := ClaimRack(rules, t, p).value;
            && p.rackGlobal in r.partition && r.partition[p.rackGlobal] == p.partition
            && forall j :: j != p.rackGlobal && j in t.partition ==> j in r.partition && r.partition[j] == t.partition[j]
  {
  }
}
