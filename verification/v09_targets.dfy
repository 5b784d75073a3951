/** A placement group of src/v09.cpp and `PG::updateTargets`, which
    re-derives from the group's placed VMs where its affinity rules point
    (the domain and rack of its first placed VM), whether they can still be
    honoured, and which racks each anti-affinity partition already uses. */
module Targets {
  import opened Common
  import opened Resources
  import opened Hierarchy

  /** The solver's `Affinity` values. The input is cast to the enum
      unchecked, so any integer can occur; only `NONE` and `SOFT` are ever
      compared against. */
  const NONE := 0
  const SOFT := 1
  const HARD := 2

  /** A rack is identified by its domain's and its own position. */
  type RackId = (nat, nat)

  /** One affinity rule's state: the place the group is held to (the
      solver's null pointer is `None`) and whether the rule can still be met. */
  datatype Track<K> = Track(target: Option<K>, possible: bool)

  datatype Targets = Targets(
    domain: Track<nat>,
    rack: Track<RackId>,
    softPossible: bool,
    partitionRacks: map<int, set<RackId>>)

  /** `PG`: its rules, its VMs (by index, in the order they were created)
      and the targets last derived from them. */
  datatype PG = PG(
    index: int,
    partitions: int,
    softPM: int,
    domainAffinity: int,
    rackAffinity: int,
    vms: seq<int>,
    targets: Targets)

  /** The group as constructed: no VMs, no targets, everything possible. */
  function NewPG(index: int, partitions: int, softPM: int, domainAffinity: int, rackAffinity: int): (pg: PG)
    ensures pg.vms == [] && pg.targets.domain.possible && pg.targets.rack.possible && pg.targets.softPossible
    ensures pg.targets.domain.target.None? && pg.targets.rack.target.None? && pg.targets.partitionRacks == map[]
  {
    PG(index, partitions, softPM, domainAffinity, rackAffinity, [],
       Targets(Track(None, true), Track(None, true), true, map[]))
  }

  function RackOf(vm: VM): RackId
    requires IsPlaced(vm)
  {
    (vm.nodes[0].d, vm.nodes[0].r)
  }

  // ---------------------------------------------------------------- the loop of updateTargets

  /** One VM's effect on one affinity rule: the first place seen becomes
      the target, a different place afterwards makes the rule impossible;
      a rule that is off, or already impossible, ignores the VM. */
  function Follow<K(==)>(affinity: int, tr: Track<K>, k: K): Track<K>
  {
    if affinity != NONE && tr.possible then
      if tr.target.None? then Track(Some(k), true)
      else if tr.target.value != k then tr.(possible := false)
      else tr
    else tr
  }

  /** `partitionRacks[p].insert(rack)`: the map's `operator[]` starts a
      missing partition with the empty set. */
  function AddRack(m: map<int, set<RackId>>, p: int, k: RackId): (r: map<int, set<RackId>>)
    ensures r.Keys == m.Keys + {p} && k in r[p]
    ensures forall q :: q in m ==> m[q] <= r[q]
  {
    m[p := (if p in m then m[p] else {}) + {k}]
  }

  /** The loop body for one VM of the group; VMs that are not placed are skipped. */
  function Visit(pg: PG, acc: Targets, vm: VM): Targets
  {
    if !IsPlaced(vm) then acc
    else
      acc.(domain := Follow(pg.domainAffinity, acc.domain, vm.nodes[0].d),
           rack := Follow(pg.rackAffinity, acc.rack, RackOf(vm)),
           partitionRacks := if pg.partitions > 0 then AddRack(acc.partitionRacks, vm.partition, RackOf(vm))
                             else acc.partitionRacks)
  }

  /** The reset before the loop; the soft flag is not reset, it is always
      overwritten after the loop. */
  function Reset(t: Targets): Targets
  {
    t.(domain := Track(None, true), rack := Track(None, true), partitionRacks := map[])
  }

  /** The loop over the group's VMs, in order. */
  function Scan(pg: PG, vms: seq<VM>): Targets
    decreases |vms|
  {
    if |vms| == 0 then Reset(pg.targets) else Visit(pg, Scan(pg, vms[..|vms| - 1]), vms[|vms| - 1])
  }

  /** After the loop: a broken soft affinity rule gives up on every soft
      goal; otherwise machine anti-affinity is pursued when the group has one. */
  function Finish(pg: PG, acc: Targets): Targets
  {
    if (pg.domainAffinity == SOFT && !acc.domain.possible) || (pg.rackAffinity == SOFT && !acc.rack.possible) then
      acc.(domain := acc.domain.(possible := false), rack := acc.rack.(possible := false), softPossible := false)
    else
      acc.(softPossible := pg.softPM > 0)
  }

  /** `PG::updateTargets`, given the group's VMs in the order of `pg.vms`. */
  function UpdateTargets(pg: PG, vms: seq<VM>): (r: PG)
    ensures r.(targets := pg.targets) == pg
  {
    pg.(targets := Finish(pg, Scan(pg, vms)))
  }

  // ---------------------------------------------------------------- what the loop computes

  /** Where each VM of the group is, at some granularity; `None` for a VM
      that is not placed. */
  function DomainKeys(vms: seq<VM>): (ks: seq<Option<nat>>)
    ensures |ks| == |vms|
    ensures forall i :: 0 <= i < |vms| ==> ks[i] == if IsPlaced(vms[i]) then Some(vms[i].nodes[0].d) else None
  {
    seq(|vms|, i requires 0 <= i < |vms| => if IsPlaced(vms[i]) then Some(vms[i].nodes[0].d) else None)
  }

  function RackKeys(vms: seq<VM>): (ks: seq<Option<RackId>>)
    ensures |ks| == |vms|
    ensures forall i :: 0 <= i < |vms| ==> ks[i] == if IsPlaced(vms[i]) then Some(RackOf(vms[i])) else None
  {
    seq(|vms|, i requires 0 <= i < |vms| => if IsPlaced(vms[i]) then Some(RackOf(vms[i])) else None)
  }

  /** Every placed VM is in the same place. */
  predicate Agree<K(==)>(ks: seq<Option<K>>)
  {
    forall i, j :: 0 <= i < |ks| && 0 <= j < |ks| && ks[i].Some? && ks[j].Some? ==> ks[i].value == ks[j].value
  }

  predicate NoneAt<K>(ks: seq<Option<K>>)
  {
    forall i :: 0 <= i < |ks| ==> ks[i].None?
  }

  /** Position `i` holds the first placed VM. */
  predicate FirstAt<K>(ks: seq<Option<K>>, i: int)
  {
    0 <= i < |ks| && ks[i].Some? && forall j :: 0 <= j < i ==> ks[j].None?
  }

  /** One affinity rule followed over the whole sequence. */
  function FollowAll<K(==)>(affinity: int, ks: seq<Option<K>>): Track<K>
    decreases |ks|
  {
    if |ks| == 0 then Track(None, true)
    else
      var tr := FollowAll(affinity, ks[..|ks| - 1]);
      match ks[|ks| - 1]
      case None => tr
      case Some(k) => Follow(affinity, tr, k)
  }

  lemma {:induction false} FirstExists<K>(ks: seq<Option<K>>) returns (i: nat)
    requires !NoneAt(ks)
    ensures FirstAt(ks, i)
    decreases |ks|
  {
    if ks[0].Some? {
      i := 0;
    } else {
      var j := FirstExists(ks[1..]);
      i := j + 1;
      assert forall m :: 1 <= m < i ==> ks[m] == ks[1..][m - 1];
    }
  }

  /** A rule that is off never sets a target. */
  lemma {:induction false} FollowAllOff<K>(affinity: int, ks: seq<Option<K>>)
    requires affinity == NONE
    ensures FollowAll(affinity, ks) == Track(None, true)
    decreases |ks|
  {
    if |ks| > 0 {
      FollowAllOff(affinity, ks[..|ks| - 1]);
    }
  }

  /** With the rule on, the target is the first placed VM's place, there is
      none exactly when nothing is placed, and the rule stays possible
      exactly when every placed VM is in the same place. */
  lemma {:induction false} FollowAllOn<K>(affinity: int, ks: seq<Option<K>>)
    requires affinity != NONE
    ensures FollowAll(affinity, ks).target.None? <==> NoneAt(ks)
    ensures forall i :: FirstAt(ks, i) ==> FollowAll(affinity, ks).target == ks[i]
    ensures FollowAll(affinity, ks).possible <==> Agree(ks)
    decreases |ks|
  {
    if |ks| > 0 {
      var n := |ks| - 1;
      var pre := ks[..n];
      FollowAllOn(affinity, pre);
      var tr := FollowAll(affinity, pre);
      assert forall i :: 0 <= i < n ==> pre[i] == ks[i];
      match ks[n]
      case None =>
        FollowAllOnSkip(ks, pre);
      case Some(k) =>
        if NoneAt(pre) {
          assert FirstAt(ks, n);
        } else {
          var f := FirstExists(pre);
          assert FirstAt(ks, f);
          assert tr.target == pre[f];
          FollowAllOnStep(affinity, ks, pre, f, tr);
        }
    }
  }

  /** The last position holds nothing: nothing changes. */
  lemma FollowAllOnSkip<K>(ks: seq<Option<K>>, pre: seq<Option<K>>)
    requires |ks| > 0 && pre == ks[..|ks| - 1] && ks[|ks| - 1].None?
    ensures NoneAt(ks) <==> NoneAt(pre)
    ensures forall i :: FirstAt(ks, i) <==> FirstAt(pre, i)
    ensures Agree(ks) <==> Agree(pre)
  {
    assert forall i :: 0 <= i < |pre| ==> pre[i] == ks[i];
  }

  /** The last position holds a place after an earlier placed VM at `f`. */
  lemma FollowAllOnStep<K>(affinity: int, ks: seq<Option<K>>, pre: seq<Option<K>>, f: nat, tr: Track<K>)
    requires affinity != NONE && |ks| > 0 && pre == ks[..|ks| - 1] && ks[|ks| - 1].Some?
    requires FirstAt(pre, f) && tr.target == pre[f] && (tr.possible <==> Agree(pre))
    ensures Follow(affinity, tr, ks[|ks| - 1].value).target == ks[f]
    ensures forall i :: FirstAt(ks, i) ==> i == f
    ensures Follow(affinity, tr, ks[|ks| - 1].value).possible <==> Agree(ks)
  {
    var n := |ks| - 1;
    var k := ks[n].value;
    assert forall i :: 0 <= i < n ==> pre[i] == ks[i];
    if Agree(ks) {
      assert ks[f].value == k;
    } else if tr.possible {
      var i, j :| 0 <= i < |ks| && 0 <= j < |ks| && ks[i].Some? && ks[j].Some? && ks[i].value != ks[j].value;
      assert ks[i].value == ks[f].value || ks[j].value == ks[f].value;
    }
    assert ks[f].Some?;
  }

  /** The loop is three independent computations: one per affinity rule
      and the partition map. */
  function Collect(vms: seq<VM>): map<int, set<RackId>>
    decreases |vms|
  {
    if |vms| == 0 then map[]
    else
      var m := Collect(vms[..|vms| - 1]);
      var vm := vms[|vms| - 1];
      if IsPlaced(vm) then AddRack(m, vm.partition, RackOf(vm)) else m
  }

  lemma {:induction false} ScanParts(pg: PG, vms: seq<VM>)
    ensures Scan(pg, vms).domain == FollowAll(pg.domainAffinity, DomainKeys(vms))
    ensures Scan(pg, vms).rack == FollowAll(pg.rackAffinity, RackKeys(vms))
    ensures Scan(pg, vms).partitionRacks == if pg.partitions > 0 then Collect(vms) else map[]
    ensures Scan(pg, vms).softPossible == pg.targets.softPossible
    decreases |vms|
  {
    if |vms| > 0 {
      var n := |vms| - 1;
      ScanParts(pg, vms[..n]);
      assert DomainKeys(vms[..n]) == DomainKeys(vms)[..n];
      assert RackKeys(vms[..n]) == RackKeys(vms)[..n];
    }
  }

  /** The partitions used by placed VMs, and the racks each of them uses. */
  function Parts(vms: seq<VM>): set<int>
  {
    set i | 0 <= i < |vms| && IsPlaced(vms[i]) :: vms[i].partition
  }

  function RacksIn(vms: seq<VM>, p: int): set<RackId>
  {
    set i | 0 <= i < |vms| && IsPlaced(vms[i]) && vms[i].partition == p :: RackOf(vms[i])
  }

  function PartitionMap(vms: seq<VM>): map<int, set<RackId>>
  {
    map p | p in Parts(vms) :: RacksIn(vms, p)
  }

  lemma PartsSnoc(vms: seq<VM>)
    requires |vms| > 0
    ensures var pre := vms[..|vms| - 1]; var vm := vms[|vms| - 1];
      && Parts(vms) == Parts(pre) + (if IsPlaced(vm) then {vm.partition} else {})
      && forall p :: RacksIn(vms, p) == RacksIn(pre, p) + (if IsPlaced(vm) && vm.partition == p then {RackOf(vm)} else {})
  {
    var n := |vms| - 1;
    var pre := vms[..n];
    assert forall i :: 0 <= i < n ==> pre[i] == vms[i];
    forall p
      ensures RacksIn(vms, p) == RacksIn(pre, p) + (if IsPlaced(vms[n]) && vms[n].partition == p then {RackOf(vms[n])} else {})
    {
    }
  }

  /** A partition with a rack is a partition in use. */
  lemma RacksInParts(vms: seq<VM>, p: int)
    requires RacksIn(vms, p) != {}
    ensures p in Parts(vms)
  {
    var k :| k in RacksIn(vms, p);
    var i :| 0 <= i < |vms| && IsPlaced(vms[i]) && vms[i].partition == p && RackOf(vms[i]) == k;
  }

  /** Adding a placed VM's rack to the map of the VMs before it gives the
      map of all of them. */
  lemma CollectStep(vms: seq<VM>)
    requires |vms| > 0 && IsPlaced(vms[|vms| - 1])
    ensures var vm := vms[|vms| - 1];
      AddRack(PartitionMap(vms[..|vms| - 1]), vm.partition, RackOf(vm)) == PartitionMap(vms)
  {
    var pre := vms[..|vms| - 1];
    var vm := vms[|vms| - 1];
    var q := vm.partition;
    PartsSnoc(vms);
    if q !in Parts(pre) && RacksIn(pre, q) != {} {
      RacksInParts(pre, q);
    }
    var m := AddRack(PartitionMap(pre), q, RackOf(vm));
    var m' := PartitionMap(vms);
    assert m.Keys == m'.Keys;
    forall p | p in m
      ensures m[p] == m'[p]
    {
    }
  }

  /** The loop's partition map holds, for each partition in use, exactly
      the racks of the placed VMs with that partition. */
  lemma {:induction false} CollectSpec(vms: seq<VM>)
    ensures Collect(vms) == PartitionMap(vms)
    decreases |vms|
  {
    if |vms| > 0 {
      var n := |vms| - 1;
      CollectSpec(vms[..n]);
      if IsPlaced(vms[n]) {
        CollectStep(vms);
      } else {
        CollectSkip(vms);
      }
    }
  }

  /** A VM that is not placed adds nothing to the map. */
  lemma CollectSkip(vms: seq<VM>)
    requires |vms| > 0 && !IsPlaced(vms[|vms| - 1])
    ensures PartitionMap(vms[..|vms| - 1]) == PartitionMap(vms)
  {
    var pre := vms[..|vms| - 1];
    PartsSnoc(vms);
    var m := PartitionMap(pre);
    var m' := PartitionMap(vms);
    assert m.Keys == m'.Keys;
    forall p | p in m
      ensures m[p] == m'[p]
    {
    }
  }

  /** Whether a soft affinity rule is broken by the placed VMs. */
  predicate SoftBroken(pg: PG, vms: seq<VM>)
  {
    || (pg.domainAffinity == SOFT && !Agree(DomainKeys(vms)))
    || (pg.rackAffinity == SOFT && !Agree(RackKeys(vms)))
  }

  /** Which goals `updateTargets` leaves open: an affinity rule stays
      possible exactly when it is off or all placed VMs share the place,
      unless a broken soft rule gave up on every soft goal; machine
      anti-affinity is pursued exactly when no soft rule is broken and the
      group asks for it. */
  lemma UpdateTargetsPossible(pg: PG, vms: seq<VM>)
    ensures var t := UpdateTargets(pg, vms).targets;
      && (t.softPossible <==> !SoftBroken(pg, vms) && pg.softPM > 0)
      && (t.domain.possible <==> !SoftBroken(pg, vms) && (pg.domainAffinity == NONE || Agree(DomainKeys(vms))))
      && (t.rack.possible <==> !SoftBroken(pg, vms) && (pg.rackAffinity == NONE || Agree(RackKeys(vms))))
  {
    ScanParts(pg, vms);
    TrackSpec(pg.domainAffinity, DomainKeys(vms));
    TrackSpec(pg.rackAffinity, RackKeys(vms));
  }

  /** The targets are the domain and rack of the group's first placed VM,
      and there are none when its rule is off or nothing is placed. */
  lemma UpdateTargetsTargets(pg: PG, vms: seq<VM>)
    ensures var t := UpdateTargets(pg, vms).targets;
      && (t.domain.target.None? <==> pg.domainAffinity == NONE || NoneAt(DomainKeys(vms)))
      && (t.rack.target.None? <==> pg.rackAffinity == NONE || NoneAt(RackKeys(vms)))
      && (forall i :: pg.domainAffinity != NONE && FirstAt(DomainKeys(vms), i) ==> t.domain.target == Some(vms[i].nodes[0].d))
      && (forall i :: pg.rackAffinity != NONE && FirstAt(RackKeys(vms), i) ==> t.rack.target == Some(RackOf(vms[i])))
  {
    ScanParts(pg, vms);
    TrackSpec(pg.domainAffinity, DomainKeys(vms));
    TrackSpec(pg.rackAffinity, RackKeys(vms));
  }

  /** The partition map lists, per partition in use, the racks its placed
      VMs are on; it stays empty for a group without partitions. */
  lemma UpdateTargetsPartitions(pg: PG, vms: seq<VM>)
    ensures UpdateTargets(pg, vms).targets.partitionRacks == if pg.partitions > 0 then PartitionMap(vms) else map[]
  {
    ScanParts(pg, vms);
    CollectSpec(vms);
  }

  /** The derived targets depend on the group's rules and VMs only, not on
      the targets they replace: refreshing twice changes nothing. */
  lemma UpdateTargetsIdempotent(pg: PG, vms: seq<VM>)
    ensures UpdateTargets(UpdateTargets(pg, vms), vms) == UpdateTargets(pg, vms)
  {
    var pg1 := UpdateTargets(pg, vms);
    ScanParts(pg, vms);
    ScanParts(pg1, vms);
  }

  /** Both cases of one affinity rule at once. */
  lemma TrackSpec<K>(affinity: int, ks: seq<Option<K>>)
    ensures affinity == NONE ==> FollowAll(affinity, ks) == Track(None, true)
    ensures affinity != NONE ==>
      && (FollowAll(affinity, ks).target.None? <==> NoneAt(ks))
      && (forall i :: FirstAt(ks, i) ==> FollowAll(affinity, ks).target == ks[i])
      && (FollowAll(affinity, ks).possible <==> Agree(ks))
  {
    if affinity == NONE {
      FollowAllOff(affinity, ks);
    } else {
      FollowAllOn(affinity, ks);
    }
  }
}
