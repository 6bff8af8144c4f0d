/** Bringing the kernel's bonds in line with the configured ones
    (_SCBondInterfaceUpdateConfiguration). */
module BondReconcile {
  import opened InterfaceLists
  import opened VirtualKernel
  import opened StaleGroups
  import opened BuildGroups

  /** What the second half makes of a configured bond. */
  function BondTarget(c: Conf, active: seq<Conf>): Group {
    Group(BuiltMembers(c, active), c.attr)
  }

  /** A bond is as configured: same mode, same members, same first member. */
  ghost predicate Matches(g: Group, c: Conf) {
    g.attr == c.attr && Arranged(g.members, c.members)
  }

  /** Exactly the configured bonds, each as configured. */
  ghost predicate AsConfigured(config: seq<Conf>, k: Kernel) {
    && Settled(config, k, Everything)
    && forall i :: 0 <= i < |config| ==> k[config[i].name].attr == config[i].attr
  }

  method Build(c: Conf, active: seq<Conf>, ghost k: Kernel) returns (ops: seq<Op>)
    requires NoDup(c.members) && OthersApart(k, c) && Ready(c, active, k)
    ensures LegalRun(k, ops)
    ensures Replay(k, ops) == k[c.name := BondTarget(c, active)]
    ensures Has(active, c.name) && Matches(Group(Get(active, c.name).members, Get(active, c.name).attr), c) ==>
              ops == []
    ensures BuiltOps(ops, c, active) && ModesBuilt(ops, c, active)
  {
    hide LegalRun, Replay, Keep, Drop, NoDup, Within, OthersApart, Disjoint, Index, BuiltOps, ModesBuilt;
    var j := Lookup(active, c.name);
    NothingIssued(k);
    if j < |active| {
      ops := Update(active[j], c, active, k);
    } else {
      ops := Establish(c, active, k);
    }
  }

  /** The mode is set to the configured one, if it is not that already. */
  ghost predicate ModesBuilt(ops: seq<Op>, c: Conf, active: seq<Conf>) {
    forall i :: 0 <= i < |ops| && ops[i].SetAttr? ==>
      && ops[i].name == c.name && ops[i].value == c.attr
      && (Has(active, c.name) ==> Get(active, c.name).attr != c.attr)
  }

  lemma ModesOf(sets: seq<Op>, others: seq<Op>, more: seq<Op>, c: Conf, active: seq<Conf>)
    requires sets == [] ||
             (sets == [SetAttr(c.name, c.attr)] && (Has(active, c.name) ==> Get(active, c.name).attr != c.attr))
    requires others == [] || others == [Create(c.name)] || exists ms :: others == Removals(c.name, ms)
    requires more == [] || exists ms :: more == Additions(c.name, ms)
    ensures ModesBuilt(sets + others + more, c, active) && ModesBuilt(others + sets + more, c, active)
  {
    hide Index;
  }

  /** A bond that exists already. */
  method Update(a: Conf, c: Conf, ghost active: seq<Conf>, ghost k: Kernel) returns (ops: seq<Op>)
    requires Has(active, c.name) && a == Get(active, c.name)
    requires a.name == c.name && c.name in k && k[c.name] == Group(Keep(a.members, c.members), a.attr)
    requires NoDup(a.members) && NoDup(c.members) && OthersApart(k, c)
    ensures LegalRun(k, ops)
    ensures Replay(k, ops) ==
            k[c.name := Group(Rearranged(a.members, c.members), c.attr)]
    ensures Matches(Group(a.members, a.attr), c) ==> ops == []
    ensures BuiltOps(ops, c, active) && ModesBuilt(ops, c, active)
  {
    hide LegalRun, Replay, Keep, Drop, NoDup, Within, OthersApart, Disjoint, Additions, Removals, WithMembers,
      BuiltOps, ModesBuilt, Index;
    ops := SetMode(a, c, k);
    ghost var kern, sets, pre := Replay(k, ops), ops, [];
    if a.members == c.members {
      AllKept(c.members);
      JustMode(ops, a, c, active);
      return;
    }
    var skip, more := a.members, [];
    if Rebuilt(a.members, c.members) {
      more := RemoveKept(a, c, kern);
      pre := more;
      Chain(k, ops, more);
      ops := ops + more;
      kern := EmptiedApart(kern, c);
      skip := [];
    }
    SkipApart(a, c, skip, kern);
    more := AddMissing(c, skip, kern);
    Chain(k, ops, more);
    UpdateOps(c, active, sets, pre, more);
    ModesOf(sets, pre, more, c, active);
    assert ops == sets + pre;
    ops := ops + more;
    MembersOf(kern, c.name, kern[c.name].members + Drop(c.members, skip));
    DropFromNone(c.members);
  }

  /** Another mode is set first. */
  method SetMode(a: Conf, c: Conf, ghost k: Kernel) returns (ops: seq<Op>)
    requires c.name in k && k[c.name].attr == a.attr && OthersApart(k, c)
    ensures LegalRun(k, ops) && Replay(k, ops) == k[c.name := Group(k[c.name].members, c.attr)]
    ensures OthersApart(Replay(k, ops), c)
    ensures ops == if a.attr != c.attr then [SetAttr(c.name, c.attr)] else []
  {
    hide LegalRun, Replay, Disjoint;
    NothingIssued(k);
    ops := [];
    if a.attr != c.attr {
      IssueFirst(k, SetAttr(c.name, c.attr));
      ops := [SetAttr(c.name, c.attr)];
      AttrKeepsApart(k, c);
    }
  }

  lemma JustMode(ops: seq<Op>, a: Conf, c: Conf, active: seq<Conf>)
    requires Has(active, c.name) && a == Get(active, c.name) && a.members == c.members && NoDup(c.members)
    requires ops == if a.attr != c.attr then [SetAttr(c.name, c.attr)] else []
    ensures BuiltOps(ops, c, active) && ModesBuilt(ops, c, active)
  {
    hide Index, BuiltOps, ModesBuilt;
    NothingMissing(c);
    UpdateOps(c, active, ops, [], []);
    ModesOf(ops, [], [], c, active);
    assert ops + [] + [] == ops;
  }

  lemma AttrKeepsApart(k: Kernel, c: Conf)
    requires c.name in k && OthersApart(k, c)
    ensures OthersApart(Apply(k, SetAttr(c.name, c.attr)), c)
  {
  }

  /** A bond that has to be created. */
  method Establish(c: Conf, ghost active: seq<Conf>, ghost k: Kernel) returns (ops: seq<Op>)
    requires NoDup(c.members) && OthersApart(k, c) && c.name !in k && !Has(active, c.name)
    ensures LegalRun(k, ops)
    ensures Replay(k, ops) == k[c.name := Group(c.members, c.attr)]
    ensures BuiltOps(ops, c, active) && ModesBuilt(ops, c, active)
  {
    hide LegalRun, Replay, Keep, Drop, NoDup, Within, OthersApart, Disjoint, Additions, WithMembers,
      BuiltOps, ModesBuilt, Index;
    ops := [];
    NothingIssued(k);
    Issue(k, ops, Create(c.name));
    ops := ops + [Create(c.name)];
    Issue(k, ops, SetAttr(c.name, c.attr));
    ops := ops + [SetAttr(c.name, c.attr)];
    ghost var kern := k[c.name := Group([], c.attr)];
    assert Replay(k, ops) == kern;
    NewApart(k, c, c.attr);
    DropFromNone(c.members);
    var more := AddMissing(c, [], kern);
    Chain(k, ops, more);
    ghost var sets := [SetAttr(c.name, c.attr)];
    EstablishOps(c, active, sets, more);
    ModesOf(sets, [Create(c.name)], more, c, active);
    assert ops == [Create(c.name)] + sets;
    ops := ops + more;
    MembersOf(kern, c.name, [] + Drop(c.members, []));
  }

  // ---- the whole reconciliation ----

  /** From any kernel state: every request is accepted, so an interface is only
      ever added to a bond while it belongs to none; the kernel ends with
      exactly the configured bonds, and fit for the next run; and if it already
      has them, nothing is requested. */
  method UpdateConfiguration(config: seq<Conf>, active: seq<Conf>, ghost k: Kernel) returns (ops: seq<Op>)
    requires GoodConfig(config) && GoodKernel(k) && Snapshot(active, k, Everything)
    ensures LegalRun(k, ops)
    ensures AsConfigured(config, Replay(k, ops)) && GoodKernel(Replay(k, ops))
    ensures AsConfigured(config, k) ==> ops == []
    ensures forall i :: 0 <= i < |ops| ==> Needed(ops[i], config, active) && ModeNeeded(ops[i], config, active)
    ensures forall i, j :: 0 <= i < j < |ops| ==> ops[i] != ops[j]
  {
    hide LegalRun, Replay, Keep, Drop, NoDup, Within, OthersApart, Disjoint, Index, Matches, BondTarget, Settled,
      PartlyBuilt, CleanStart, Modest, Ready, Trimmed, AllCurrent, OnlyRemovals, AsConfigured, UnmanagedKept,
      StaleOps, DoneOps, BuiltOps, ModesBuilt, ModesNeeded, Needed, ModeNeeded, IsStale;
    ghost var target := (c: Conf) => BondTarget(c, active);
    AllManaged(config, k);
    ops := RemoveStale(config, active, k, Everything);
    StaleIsDone(ops, config, active, |active|);
    StaleModes(ops, config, active);
    ConfiguredIsSettled(config, k);
    SettledIsCurrent(config, k, Everything);
    ghost var k1 := Trimmed(config, k, Everything);
    TrimmedIsClean(config, k, Everything);
    TargetMembers(active, target);
    TargetsModest(config, active, target);
    NotBuiltYet(config, k1, target);
    ghost var kern := k1;
    var i := 0;
    while i < |config|
      invariant 0 <= i <= |config|
      invariant LegalRun(k, ops) && Replay(k, ops) == kern
      invariant PartlyBuilt(config, i, k1, kern, target)
      invariant AsConfigured(config, k) ==> ops == []
      invariant DoneOps(ops, config, active, i) && ModesNeeded(ops, config, active)
    {
      StillApart(config, i, k1, kern, target);
      TrimmedIsReady(config, active, i, k, kern, Everything);
      ConfiguredMatches(config, active, i, k);
      var more := Build(config[i], active, kern);
      Chain(k, ops, more);
      BuildStep(config, i, k1, kern, target);
      BuiltMore(ops, more, config, active, i);
      ModesMore(ops, more, config, active, i);
      ops := ops + more;
      kern := kern[config[i].name := BondTarget(config[i], active)];
      i := i + 1;
    }
    BuiltIsSettled(config, active, k, kern, target, Everything);
    BuiltModes(config, active, k1, kern, target);
    OthersKept(config, k, kern, target, Everything);
    SettledIsGood(config, k, kern, Everything);
    DoneNeeded(ops, config, active, |config|);
    ModesAll(ops, config, active);
  }

  /** A mode is set only to the configured one, and only if the bond is not
      reported or has another. */
  predicate ModeNeeded(op: Op, config: seq<Conf>, active: seq<Conf>) {
    op.SetAttr? ==>
      && Has(config, op.name) && op.value == Get(config, op.name).attr
      && (Has(active, op.name) ==> Get(active, op.name).attr != op.value)
  }

  /** The same, entry by entry. */
  lemma ModeNeededMeans(op: Op, config: seq<Conf>, active: seq<Conf>)
    requires DistinctNames(config) && DistinctNames(active) && op.SetAttr? && ModeNeeded(op, config, active)
    ensures exists i :: 0 <= i < |config| && config[i].name == op.name
    ensures forall i :: 0 <= i < |config| && config[i].name == op.name ==> op.value == config[i].attr
    ensures forall j :: 0 <= j < |active| && active[j].name == op.name ==> op.value != active[j].attr
  {
    hide Has, Get;
    HasIs(config, op.name);
    HasIs(active, op.name);
  }

  ghost predicate ModesNeeded(ops: seq<Op>, config: seq<Conf>, active: seq<Conf>) {
    forall i :: 0 <= i < |ops| ==> ModeNeeded(ops[i], config, active)
  }

  lemma StaleModes(ops: seq<Op>, config: seq<Conf>, active: seq<Conf>)
    requires OnlyRemovals(ops, Everything)
    ensures ModesNeeded(ops, config, active)
  {
  }

  lemma ModesMore(ops: seq<Op>, more: seq<Op>, config: seq<Conf>, active: seq<Conf>, i: nat)
    requires i < |config| && DistinctNames(config)
    requires ModesNeeded(ops, config, active) && ModesBuilt(more, config[i], active)
    ensures ModesNeeded(ops + more, config, active)
  {
    Found(config, i);
    hide Index;
  }

  lemma ModesAll(ops: seq<Op>, config: seq<Conf>, active: seq<Conf>)
    requires ModesNeeded(ops, config, active)
    ensures forall i :: 0 <= i < |ops| ==> ModeNeeded(ops[i], config, active)
  {
    hide ModeNeeded;
  }

  /** Run again on what the first run left, and on what the system reports of
      it, it requests nothing. */
  method UpdateTwice(config: seq<Conf>, k: Kernel, report: Kernel -> seq<Conf>) returns (ops: seq<Op>, more: seq<Op>)
    requires GoodConfig(config) && GoodKernel(k) && forall k' :: Snapshot(report(k'), k', Everything)
    ensures LegalRun(k, ops) && AsConfigured(config, Replay(k, ops)) && more == []
  {
    hide LegalRun, Replay, AsConfigured, GoodConfig, GoodKernel, Snapshot;
    ops := UpdateConfiguration(config, report(k), k);
    var settled := Replay(k, ops);
    more := UpdateConfiguration(config, report(settled), settled);
  }

  lemma AllManaged(config: seq<Conf>, k: Kernel)
    ensures Foreign(config, k, Everything)
  {
  }

  lemma ConfiguredIsSettled(config: seq<Conf>, k: Kernel)
    ensures AsConfigured(config, k) ==> Settled(config, k, Everything)
  {
  }

  lemma TargetMembers(active: seq<Conf>, target: Conf -> Group)
    requires forall c :: target(c) == BondTarget(c, active)
    ensures forall c :: target(c).members == BuiltMembers(c, active)
  {
    hide BuiltMembers;
  }

  lemma ConfiguredMatches(config: seq<Conf>, active: seq<Conf>, i: nat, k: Kernel)
    requires i < |config| && GoodKernel(k) && Snapshot(active, k, Everything)
    ensures AsConfigured(config, k) ==>
              var n := config[i].name;
              Has(active, n) && Matches(Group(Get(active, n).members, Get(active, n).attr), config[i])
  {
    hide Arranged, Index, Snapshot, GoodKernel;
    Reported(active, k, config[i].name, Everything);
  }

  lemma BuiltModes(config: seq<Conf>, active: seq<Conf>, k1: Kernel, kern: Kernel, target: Conf -> Group)
    requires DistinctNames(config) && PartlyBuilt(config, |config|, k1, kern, target)
    requires Settled(config, kern, Everything) && forall c :: target(c) == BondTarget(c, active)
    ensures AsConfigured(config, kern)
  {
    hide Arranged, Index, BuiltMembers, PartlyBuilt;
    forall i | 0 <= i < |config|
      ensures kern[config[i].name].attr == config[i].attr
    {
      BuiltAt(config, i, k1, kern, target);
    }
  }
}
