/** Bringing the kernel's bridges in line with the configured ones
    (_SCBridgeInterfaceUpdateConfiguration). The attribute of a group is here
    the hardware address of the bridge. */
module BridgeReconcile {
  import opened InterfaceLists
  import opened VirtualKernel
  import opened StaleGroups
  import opened BuildGroups

  predicate IsDigit(c: char) {
    '0' <= c <= '9'
  }

  /** Bridges whose name ends in three digits belong to others. */
  predicate Managed(n: Name) {
    var s := n.text;
    !(|s| > 3 && IsDigit(s[|s| - 1]) && IsDigit(s[|s| - 2]) && IsDigit(s[|s| - 3]))
  }

  const DIGITS := "0123456789"

  /** Not managed is exactly a name of three digits at the end of something. */
  lemma ManagedIs(n: Name)
    ensures !Managed(n) <==>
            exists p: string, a, b, c ::
              p != [] && n.text == p + [a, b, c] && a in DIGITS && b in DIGITS && c in DIGITS
  {
    var s, k := n.text, |n.text| - 3;
    assert forall c: char :: IsDigit(c) <==> c in DIGITS;
    if !Managed(n) {
      assert s == s[..k] + [s[k], s[k + 1], s[k + 2]];
    }
    if p: string, a, b, c :|
        p != [] && s == p + [a, b, c] && a in DIGITS && b in DIGITS && c in DIGITS {
      assert s[|s| - 1] == c && s[|s| - 2] == b && s[|s| - 3] == a;
    }
  }

  /** The report leaves out the bridges of others. */
  method CopyActive(reported: seq<Conf>, ghost k: Kernel) returns (active: seq<Conf>)
    requires Snapshot(reported, k, Everything)
    ensures Snapshot(active, k, Managed)
    ensures forall c :: c in active <==> c in reported && Managed(c.name)
  {
    hide Managed, Index;
    active := [];
    var i := 0;
    while i < |reported|
      invariant 0 <= i <= |reported|
      invariant DistinctNames(active)
      invariant forall c :: c in active <==> c in reported[..i] && Managed(c.name)
    {
      var c := reported[i];
      var s := c.name.text;
      assert reported[..i + 1] == reported[..i] + [c];
      KeepsDistinct(reported, i, active);
      var skipped := |s| > 3 && IsDigit(s[|s| - 1]) && IsDigit(s[|s| - 2]) && IsDigit(s[|s| - 3]);
      assert skipped <==> !Managed(c.name) by {
        ManagedMeans(c.name);
      }
      if !skipped {
        active := active + [c];
      }
      i := i + 1;
    }
    assert reported[..|reported|] == reported;
    ManagedPart(reported, active, k);
  }

  lemma ManagedMeans(n: Name)
    ensures var s := n.text;
            !Managed(n) <==> |s| > 3 && IsDigit(s[|s| - 1]) && IsDigit(s[|s| - 2]) && IsDigit(s[|s| - 3])
  {
  }

  lemma KeepsDistinct(reported: seq<Conf>, i: nat, active: seq<Conf>)
    requires i < |reported| && DistinctNames(reported) && DistinctNames(active)
    requires forall c :: c in active ==> c in reported[..i]
    ensures DistinctNames(active + [reported[i]])
  {
    forall h | 0 <= h < |active|
      ensures active[h].name != reported[i].name
    {
      assert active[h] in reported[..i];
    }
  }

  lemma ManagedPart(reported: seq<Conf>, active: seq<Conf>, k: Kernel)
    requires Snapshot(reported, k, Everything) && DistinctNames(active)
    requires forall c :: c in active <==> c in reported && Managed(c.name)
    ensures Snapshot(active, k, Managed)
  {
    hide Managed, Index;
    forall i | 0 <= i < |active|
      ensures active[i].name in k && Managed(active[i].name)
      ensures k[active[i].name] == Group(active[i].members, active[i].attr)
    {
      assert active[i] in reported;
    }
    forall n | n in k && Managed(n)
      ensures Has(active, n)
    {
      var c := Get(reported, n);
      assert c in active;
      var i :| 0 <= i < |active| && active[i] == c;
      Found(active, i);
    }
  }

  /** The bridge starts (again) without members, so its address gets set. */
  predicate Anew(a: seq<Name>, c: seq<Name>) {
    a != c && (a == [] || Rebuilt(a, c))
  }

  /** The address a bridge has once members c are added to it from scratch. */
  function Address(c: seq<Name>, before: int, mac: Name -> int): int {
    if c == [] then before else mac(c[0])
  }

  function BridgeTarget(c: Conf, active: seq<Conf>, mac: Name -> int): Group {
    Group(BuiltMembers(c, active),
          if Has(active, c.name) then
            var a := Get(active, c.name);
            if Anew(a.members, c.members) then Address(c.members, a.attr, mac) else a.attr
          else Address(c.members, 0, mac))
  }

  /** The address is that of the first member. */
  ghost predicate Addressed(g: Group, mac: Name -> int) {
    g.members != [] ==> g.attr == mac(g.members[0])
  }

  ghost predicate AllAddressed(k: Kernel, mac: Name -> int, managed: Name -> bool) {
    forall n :: n in k && managed(n) ==> Addressed(k[n], mac)
  }

  /** The bridge keeps a first member, and so its address. */
  ghost predicate KeepsFirst(c: Conf, k: Kernel) {
    c.members != [] && c.name in k && k[c.name].members != [] && k[c.name].members[0] == c.members[0]
  }

  ghost predicate KeptAddressed(c: Conf, k: Kernel, mac: Name -> int) {
    KeepsFirst(c, k) ==> Addressed(k[c.name], mac)
  }

  // ---- which requests are made ----

  /** Every request is about a managed bridge. */
  ghost predicate OnlyManaged(ops: seq<Op>, managed: Name -> bool) {
    forall i :: 0 <= i < |ops| ==> managed(ops[i].name)
  }

  /** No bridge of others is destroyed or loses a member. */
  ghost predicate RemovesManaged(ops: seq<Op>) {
    forall i :: 0 <= i < |ops| && (ops[i].Destroy? || ops[i].Remove?) ==> Managed(ops[i].name)
  }

  /** No address is set twice. */
  ghost predicate SetsOnce(ops: seq<Op>) {
    forall i, j :: 0 <= i < j < |ops| && ops[i].SetAttr? && ops[j].SetAttr? ==> ops[i].name != ops[j].name
  }

  /** Addresses are set only of the first i configured bridges. */
  ghost predicate SetsAmong(ops: seq<Op>, config: seq<Conf>, i: nat) {
    forall h :: 0 <= h < |ops| && ops[h].SetAttr? ==> Index(config, ops[h].name) < i
  }

  ghost predicate About(ops: seq<Op>, n: Name) {
    forall i :: 0 <= i < |ops| ==> ops[i].name == n
  }

  /** An address is set only while the bridge has no members. */
  ghost predicate SetsWhileEmpty(k: Kernel, ops: seq<Op>) {
    ops == [] ||
    (var n := |ops| - 1;
     var now := Replay(k, ops[..n]);
     && SetsWhileEmpty(k, ops[..n])
     && (ops[n].SetAttr? ==> ops[n].name in now && now[ops[n].name].members == []))
  }

  lemma {:induction false} NoSets(k: Kernel, ops: seq<Op>)
    requires forall i :: 0 <= i < |ops| ==> !ops[i].SetAttr?
    ensures SetsWhileEmpty(k, ops)
  {
    if ops != [] {
      NoSets(k, ops[..|ops| - 1]);
    }
  }

  lemma {:induction false} EmptyChain(k: Kernel, a: seq<Op>, b: seq<Op>)
    requires LegalRun(k, a) && LegalRun(Replay(k, a), b)
    requires SetsWhileEmpty(k, a) && SetsWhileEmpty(Replay(k, a), b)
    ensures SetsWhileEmpty(k, a + b)
  {
    if b == [] {
      assert a + b == a;
    } else {
      var n := |b| - 1;
      EmptyChain(k, a, b[..n]);
      Chain(k, a, b[..n]);
      assert (a + b)[..|a + b| - 1] == a + b[..n];
    }
  }

  ghost predicate RemovalsFrom(ops: seq<Op>, n: Name) {
    forall i :: 0 <= i < |ops| ==> ops[i].Remove? && ops[i].name == n
  }

  ghost predicate AddsTo(ops: seq<Op>, n: Name) {
    forall i :: 0 <= i < |ops| ==> ops[i].Add? && ops[i].name == n
  }

  lemma ListKinds(n: Name, ms: seq<Name>)
    ensures RemovalsFrom(Removals(n, ms), n) && AddsTo(Additions(n, ms), n) && RemovalsFrom([], n)
  {
  }

  /** The address is set to that of the first member, and only if the bridge is
      not there or has no members or another first one. */
  predicate AddressNeeded(op: Op, config: seq<Conf>, active: seq<Conf>, mac: Name -> int) {
    op.SetAttr? ==>
      && Has(config, op.name) && Get(config, op.name).members != []
      && op.value == mac(Get(config, op.name).members[0])
      && (Has(active, op.name) ==>
            var a := Get(active, op.name).members;
            a == [] || a[0] != Get(config, op.name).members[0])
  }

  /** The same, entry by entry. */
  lemma AddressNeededMeans(op: Op, config: seq<Conf>, active: seq<Conf>, mac: Name -> int)
    requires DistinctNames(config) && DistinctNames(active) && op.SetAttr? && AddressNeeded(op, config, active, mac)
    ensures exists i :: 0 <= i < |config| && config[i].name == op.name
    ensures forall i :: 0 <= i < |config| && config[i].name == op.name ==>
              config[i].members != [] && op.value == mac(config[i].members[0])
    ensures forall i, j :: 0 <= i < |config| && 0 <= j < |active| && config[i].name == op.name == active[j].name ==>
              active[j].members == [] || active[j].members[0] != config[i].members[0]
  {
    hide Has, Get;
    HasIs(config, op.name);
    HasIs(active, op.name);
  }

  ghost predicate AddressesNeeded(ops: seq<Op>, config: seq<Conf>, active: seq<Conf>, mac: Name -> int) {
    forall i :: 0 <= i < |ops| ==> AddressNeeded(ops[i], config, active, mac)
  }

  ghost predicate AddressesBuilt(ops: seq<Op>, c: Conf, active: seq<Conf>, mac: Name -> int) {
    forall i :: 0 <= i < |ops| && ops[i].SetAttr? ==>
      && ops[i].name == c.name && c.members != [] && ops[i].value == mac(c.members[0])
      && (Has(active, c.name) ==>
            var a := Get(active, c.name).members;
            a == [] || a[0] != c.members[0])
  }

  lemma AddressesOf(pre: seq<Op>, sets: seq<Op>, adds: seq<Op>, c: Conf, active: seq<Conf>, mac: Name -> int)
    requires RemovalsFrom(pre, c.name) || pre == [Create(c.name)]
    requires AddsTo(adds, c.name)
    requires sets == [] || (c.members != [] && sets == [SetAttr(c.name, mac(c.members[0]))])
    requires sets == [] || (Has(active, c.name) ==>
               var a := Get(active, c.name).members;
               a == [] || (c.members != [] && a[0] != c.members[0]))
    ensures AddressesBuilt(pre + sets + adds, c, active, mac)
  {
    hide Index;
  }

  lemma AddressesMore(ops: seq<Op>, more: seq<Op>, config: seq<Conf>, active: seq<Conf>, i: nat, mac: Name -> int)
    requires i < |config| && DistinctNames(config)
    requires AddressesNeeded(ops, config, active, mac) && AddressesBuilt(more, config[i], active, mac)
    ensures AddressesNeeded(ops + more, config, active, mac)
  {
    Found(config, i);
    hide Index;
  }

  lemma AddressesAll(ops: seq<Op>, config: seq<Conf>, active: seq<Conf>, mac: Name -> int)
    requires AddressesNeeded(ops, config, active, mac)
    ensures forall i :: 0 <= i < |ops| ==> AddressNeeded(ops[i], config, active, mac)
  {
    hide AddressNeeded;
  }

  /** A prelude, removals or a creation, then perhaps an address, then additions. */
  lemma OneSetting(pre: seq<Op>, set_: seq<Op>, adds: seq<Op>, n: Name)
    requires RemovalsFrom(pre, n) || pre == [Create(n)]
    requires set_ == [] || (exists v :: set_ == [SetAttr(n, v)])
    requires AddsTo(adds, n)
    ensures About(pre + set_ + adds, n) && SetsOnce(pre + set_ + adds)
  {
  }

  lemma PreludeSetsNothing(k: Kernel, pre: seq<Op>, n: Name)
    requires RemovalsFrom(pre, n) || pre == [Create(n)]
    ensures SetsWhileEmpty(k, pre)
  {
    NoSets(k, pre);
  }

  lemma NoneSet(k: Kernel, n: Name)
    ensures About([], n) && SetsOnce([]) && SetsWhileEmpty(k, [])
  {
  }

  lemma SetsChain(config: seq<Conf>, i: nat, ops: seq<Op>, more: seq<Op>, managed: Name -> bool)
    requires i < |config| && DistinctNames(config) && managed(config[i].name)
    requires OnlyManaged(ops, managed) && SetsOnce(ops) && SetsAmong(ops, config, i)
    requires About(more, config[i].name) && SetsOnce(more)
    ensures OnlyManaged(ops + more, managed) && SetsOnce(ops + more) && SetsAmong(ops + more, config, i + 1)
  {
    Found(config, i);
    hide Index;
    IndexIs(config, config[i].name);
    assert Index(config, config[i].name) == i by {
      SameIndex(config, i);
    }
  }

  lemma SameIndex(config: seq<Conf>, i: nat)
    requires i < |config| && DistinctNames(config)
    ensures Index(config, config[i].name) == i
  {
  }

  // ---- one bridge ----

  /** Gives the bridge the address of its first member. */
  method SetAddress(c: Conf, mac: Name -> int, ghost k: Kernel) returns (ops: seq<Op>)
    requires c.name in k && OthersApart(k, c) && k[c.name].members == []
    ensures LegalRun(k, ops) && SetsWhileEmpty(k, ops)
    ensures Replay(k, ops) == k[c.name := Group(k[c.name].members, Address(c.members, k[c.name].attr, mac))]
    ensures OthersApart(Replay(k, ops), c)
    ensures ops == if c.members != [] then [SetAttr(c.name, mac(c.members[0]))] else []
  {
    hide LegalRun, Replay;
    NothingIssued(k);
    ops := [];
    if c.members != [] {
      Issue(k, [], SetAttr(c.name, mac(c.members[0])));
      ops := [] + [SetAttr(c.name, mac(c.members[0]))];
      assert ops[..0] == [];
    }
  }

  /** Adds what is missing; if the bridge has no members, its address is set
      just before the first is added, which is then the first configured one. */
  method Fill(c: Conf, skip: seq<Name>, setMAC: bool, mac: Name -> int, ghost k: Kernel)
    returns (sets: seq<Op>, adds: seq<Op>)
    requires c.name in k && OthersApart(k, c) && NoDup(c.members)
    requires Disjoint(k[c.name].members, Drop(c.members, skip))
    requires setMAC ==> skip == [] && k[c.name].members == []
    ensures LegalRun(k, sets + adds) && SetsWhileEmpty(k, sets + adds)
    ensures Replay(k, sets + adds) ==
            k[c.name := Group(k[c.name].members + Drop(c.members, skip),
                              if setMAC then Address(c.members, k[c.name].attr, mac) else k[c.name].attr)]
    ensures sets == if setMAC && c.members != [] then [SetAttr(c.name, mac(c.members[0]))] else []
    ensures adds == Additions(c.name, Drop(c.members, skip)) && AddsTo(adds, c.name)
    ensures !setMAC && Within(c.members, skip) ==> sets + adds == []
  {
    hide LegalRun, Replay, Keep, Drop, NoDup, Within, OthersApart, Disjoint, AddsTo, Additions, WithMembers,
      SetsWhileEmpty;
    ListKinds(c.name, Drop(c.members, skip));
    sets := [];
    NothingIssued(k);
    NoneSet(k, c.name);
    ghost var kern := k;
    if setMAC {
      sets := SetAddress(c, mac, k);
      kern := Replay(k, sets);
    }
    adds := AddMissing(c, skip, kern);
    Chain(k, sets, adds);
    AddsSetNothing(kern, adds, c.name);
    EmptyChain(k, sets, adds);
    MembersOf(kern, c.name, kern[c.name].members + Drop(c.members, skip));
  }

  lemma AddsSetNothing(k: Kernel, adds: seq<Op>, n: Name)
    requires AddsTo(adds, n)
    ensures SetsWhileEmpty(k, adds)
  {
    NoSets(k, adds);
  }

  method Build(c: Conf, active: seq<Conf>, mac: Name -> int, ghost k: Kernel) returns (ops: seq<Op>)
    requires NoDup(c.members) && OthersApart(k, c) && Ready(c, active, k)
    ensures LegalRun(k, ops)
    ensures Replay(k, ops) == k[c.name := BridgeTarget(c, active, mac)]
    ensures About(ops, c.name) && SetsOnce(ops) && SetsWhileEmpty(k, ops)
    ensures BuiltOps(ops, c, active) && AddressesBuilt(ops, c, active, mac)
    ensures Has(active, c.name) && Arranged(Get(active, c.name).members, c.members) ==> ops == []
  {
    hide LegalRun, Replay, Rearranged, Arranged, Keep, NoDup, OthersApart, Index, About, SetsOnce, SetsWhileEmpty,
      BuiltOps, AddressesBuilt;
    var j := Lookup(active, c.name);
    if j < |active| {
      ops := Update(active[j], c, mac, active, k);
    } else {
      ops := Establish(c, mac, active, k);
    }
  }

  /** A bridge that exists already. */
  method Update(a: Conf, c: Conf, mac: Name -> int, ghost active: seq<Conf>, ghost k: Kernel) returns (ops: seq<Op>)
    requires Has(active, c.name) && a == Get(active, c.name)
    requires a.name == c.name && c.name in k && k[c.name] == Group(Keep(a.members, c.members), a.attr)
    requires NoDup(a.members) && NoDup(c.members) && OthersApart(k, c)
    ensures LegalRun(k, ops)
    ensures Replay(k, ops) ==
            k[c.name := Group(Rearranged(a.members, c.members),
                              if Anew(a.members, c.members) then Address(c.members, a.attr, mac) else a.attr)]
    ensures About(ops, c.name) && SetsOnce(ops) && SetsWhileEmpty(k, ops)
    ensures BuiltOps(ops, c, active) && AddressesBuilt(ops, c, active, mac)
    ensures Arranged(a.members, c.members) ==> ops == []
  {
    hide LegalRun, Replay, Keep, Drop, NoDup, Within, OthersApart, Disjoint, AddsTo, WithMembers, Additions, Removals,
      RemovalsFrom, About, SetsOnce, SetsWhileEmpty, BuiltOps, AddressesBuilt, Index;
    NothingIssued(k);
    NothingBuilt(c, active);
    ListKinds(c.name, Keep(a.members, c.members));
    ListKinds(c.name, []);
    ghost var kept := Keep(a.members, c.members);
    ops := [];
    if a.members == c.members {
      AllKept(c.members);
      NoneSet(k, c.name);
      NoAddress(c, active, mac);
      assert k[c.name := Group(kept, a.attr)] == k;
      return;
    }
    var skip := a.members;
    ghost var kern := k;
    if Rebuilt(a.members, c.members) {
      ops := RemoveKept(a, c, k);
      kern := EmptiedApart(k, c);
      skip := [];
    }
    SkipApart(a, c, skip, kern);
    NoneKept(c.members);
    PreludeSetsNothing(k, ops, c.name);
    var sets, adds := Fill(c, skip, skip == [], mac, kern);
    Chain(k, ops, sets + adds);
    EmptyChain(k, ops, sets + adds);
    OneSetting(ops, sets, adds, c.name);
    UpdateOps(c, active, sets, ops, adds);
    AddressesOf(ops, sets, adds, c, active, mac);
    GroupOps(ops, sets, adds);
    ops := ops + sets + adds;
    DropFromNone(c.members);
  }

  lemma NoAddress(c: Conf, active: seq<Conf>, mac: Name -> int)
    ensures AddressesBuilt([], c, active, mac)
  {
  }

  lemma NoneKept(s: seq<Name>)
    ensures Keep([], s) == [] && NoDup([])
    ensures Within(s, []) ==> s == []
  {
    assert s != [] ==> s[0] in s;
  }

  /** A bridge that has to be created. */
  method Establish(c: Conf, mac: Name -> int, ghost active: seq<Conf>, ghost k: Kernel) returns (ops: seq<Op>)
    requires NoDup(c.members) && OthersApart(k, c) && c.name !in k && !Has(active, c.name)
    ensures LegalRun(k, ops)
    ensures Replay(k, ops) == k[c.name := Group(c.members, Address(c.members, 0, mac))]
    ensures About(ops, c.name) && SetsOnce(ops) && SetsWhileEmpty(k, ops)
    ensures BuiltOps(ops, c, active) && AddressesBuilt(ops, c, active, mac)
  {
    hide LegalRun, Replay, Drop, NoDup, Within, OthersApart, Disjoint, AddsTo, About, SetsOnce, RemovalsFrom,
      SetsWhileEmpty, BuiltOps, AddressesBuilt, Additions, Index;
    IssueFirst(k, Create(c.name));
    ops := [Create(c.name)];
    ghost var kern := k[c.name := Group([], 0)];
    NewApart(k, c, 0);
    DropFromNone(c.members);
    PreludeSetsNothing(k, ops, c.name);
    var sets, adds := Fill(c, [], true, mac, kern);
    Chain(k, ops, sets + adds);
    EmptyChain(k, ops, sets + adds);
    OneSetting(ops, sets, adds, c.name);
    EstablishOps(c, active, sets, adds);
    AddressesOf(ops, sets, adds, c, active, mac);
    GroupOps(ops, sets, adds);
    ops := ops + sets + adds;
  }

  // ---- the whole reconciliation ----

  /** The core, for any notion of which bridges are managed. */
  method Reconcile(config: seq<Conf>, active: seq<Conf>, mac: Name -> int, ghost k: Kernel,
                   ghost managed: Name -> bool)
    returns (ops: seq<Op>)
    requires GoodConfig(config) && GoodKernel(k) && Snapshot(active, k, managed) && Foreign(config, k, managed)
    ensures LegalRun(k, ops) && OnlyManaged(ops, managed)
    ensures forall i :: 0 <= i < |ops| ==> Needed(ops[i], config, active) && AddressNeeded(ops[i], config, active, mac)
    ensures forall i, j :: 0 <= i < j < |ops| ==> ops[i] != ops[j]
    ensures SetsOnce(ops) && SetsWhileEmpty(k, ops)
    ensures Settled(config, Replay(k, ops), managed) && UnmanagedKept(k, Replay(k, ops), managed)
    ensures GoodKernel(Replay(k, ops)) && Foreign(config, Replay(k, ops), managed)
    ensures Settled(config, k, managed) ==> ops == []
    ensures AllAddressed(Replay(k, ops), mac, managed) <==>
            forall i :: 0 <= i < |config| ==> KeptAddressed(config[i], k, mac)
    ensures AllAddressed(k, mac, managed) ==> AllAddressed(Replay(k, ops), mac, managed)
  {
    hide LegalRun, Replay, Keep, Drop, NoDup, Within, OthersApart, Disjoint, Index, BridgeTarget, Arranged, Settled,
      PartlyBuilt, CleanStart, Modest, Ready, Trimmed, AllCurrent, OnlyRemovals, About, SetsOnce, OnlyManaged,
      SetsAmong, UnmanagedKept, AllAddressed, KeptAddressed, Snapshot, GoodKernel, SetsWhileEmpty,
      StaleOps, DoneOps, BuiltOps, AddressesBuilt, AddressesNeeded, Needed, AddressNeeded, IsStale;
    ghost var target := (c: Conf) => BridgeTarget(c, active, mac);
    ops := RemoveStale(config, active, k, managed);
    StaleIsDone(ops, config, active, |active|);
    StaleAddresses(ops, config, active, mac, managed);
    RemovalsSetNothing(ops, config, k, managed);
    SettledIsCurrent(config, k, managed);
    ghost var k1 := Trimmed(config, k, managed);
    TrimmedIsClean(config, k, managed);
    TargetMembers(active, target, mac);
    TargetsModest(config, active, target);
    NotBuiltYet(config, k1, target);
    ghost var kern := k1;
    var i := 0;
    while i < |config|
      invariant 0 <= i <= |config|
      invariant LegalRun(k, ops) && Replay(k, ops) == kern
      invariant PartlyBuilt(config, i, k1, kern, target)
      invariant OnlyManaged(ops, managed) && SetsOnce(ops) && SetsAmong(ops, config, i)
      invariant SetsWhileEmpty(k, ops)
      invariant DoneOps(ops, config, active, i) && AddressesNeeded(ops, config, active, mac)
      invariant Settled(config, k, managed) ==> ops == []
    {
      StillApart(config, i, k1, kern, target);
      TrimmedIsReady(config, active, i, k, kern, managed);
      SettledMatches(config, active, i, k, managed);
      var more := Build(config[i], active, mac, kern);
      Chain(k, ops, more);
      EmptyChain(k, ops, more);
      BuiltMore(ops, more, config, active, i);
      AddressesMore(ops, more, config, active, i, mac);
      BuildStep(config, i, k1, kern, target);
      SetsChain(config, i, ops, more, managed);
      ops := ops + more;
      kern := kern[config[i].name := BridgeTarget(config[i], active, mac)];
      i := i + 1;
    }
    BuiltIsSettled(config, active, k, kern, target, managed);
    OthersKept(config, k, kern, target, managed);
    SettledIsGood(config, k, kern, managed);
    AddressedWhen(config, active, k, kern, target, mac, managed);
    WereAddressed(config, k, mac, managed);
    DoneNeeded(ops, config, active, |config|);
    AddressesAll(ops, config, active, mac);
  }

  lemma StaleAddresses(ops: seq<Op>, config: seq<Conf>, active: seq<Conf>, mac: Name -> int, managed: Name -> bool)
    requires OnlyRemovals(ops, managed)
    ensures AddressesNeeded(ops, config, active, mac)
  {
  }

  /** The bridges that are reported. */
  ghost function Known(k: Kernel): Kernel {
    map n | n in k && Managed(n) :: k[n]
  }

  /** From any kernel state, whatever is configured: no bridge of others is
      destroyed or loses a member.  If, further, configured bridges are managed
      ones and have no member in a bridge of others: every request is accepted
      and is about a managed bridge; no address is set twice, nor while the
      bridge has members; the bridges of others are as they were; the managed
      bridges end as configured; if they were, nothing is requested; and
      afterwards every managed bridge has the address of its first member
      exactly if those did that kept their first member. */
  method UpdateConfiguration(config: seq<Conf>, active: seq<Conf>, mac: Name -> int, ghost k: Kernel)
    returns (ops: seq<Op>)
    requires GoodConfig(config) && GoodKernel(k) && Snapshot(active, k, Managed)
    ensures RemovesManaged(ops) && SetsOnce(ops)
    ensures forall i :: 0 <= i < |ops| ==> Needed(ops[i], config, active) && AddressNeeded(ops[i], config, active, mac)
    ensures forall i, j :: 0 <= i < j < |ops| ==> ops[i] != ops[j]
    ensures Foreign(config, k, Managed) ==>
              && LegalRun(k, ops) && OnlyManaged(ops, Managed) && SetsWhileEmpty(k, ops)
              && Settled(config, Replay(k, ops), Managed) && UnmanagedKept(k, Replay(k, ops), Managed)
              && GoodKernel(Replay(k, ops)) && Foreign(config, Replay(k, ops), Managed)
              && (Settled(config, k, Managed) ==> ops == [])
              && (AllAddressed(Replay(k, ops), mac, Managed) <==>
                  forall i :: 0 <= i < |config| ==> KeptAddressed(config[i], k, mac))
              && (AllAddressed(k, mac, Managed) ==> AllAddressed(Replay(k, ops), mac, Managed))
  {
    hide LegalRun, Replay, Settled, GoodConfig, Foreign, SetsWhileEmpty, SetsOnce, AllAddressed, UnmanagedKept,
      KeptAddressed, OnlyManaged, Snapshot, GoodKernel, RemovesManaged, Needed, AddressNeeded;
    ghost var sound := Foreign(config, k, Managed);
    KnownPart(config, active, k);
    ops := Reconcile(config, active, mac, if sound then k else Known(k), if sound then Managed else Everything);
    ReportedAreManaged(ops, config, active, k);
  }

  lemma KnownPart(config: seq<Conf>, active: seq<Conf>, k: Kernel)
    requires GoodKernel(k) && Snapshot(active, k, Managed)
    ensures GoodKernel(Known(k)) && Snapshot(active, Known(k), Everything) && Foreign(config, Known(k), Everything)
  {
    hide NoDup, Index, Managed, Disjoint;
  }

  lemma ReportedAreManaged(ops: seq<Op>, config: seq<Conf>, active: seq<Conf>, k: Kernel)
    requires Snapshot(active, k, Managed) && forall i :: 0 <= i < |ops| ==> Needed(ops[i], config, active)
    ensures RemovesManaged(ops)
  {
    hide Index, Managed;
    forall i | 0 <= i < |ops| && (ops[i].Destroy? || ops[i].Remove?)
      ensures Managed(ops[i].name)
    {
      IndexIs(active, ops[i].name);
    }
  }

  lemma RemovalsSetNothing(ops: seq<Op>, config: seq<Conf>, k: Kernel, managed: Name -> bool)
    requires OnlyRemovals(ops, managed)
    ensures OnlyManaged(ops, managed) && SetsOnce(ops) && SetsAmong(ops, config, 0) && SetsWhileEmpty(k, ops)
  {
    NoSets(k, ops);
  }

  lemma TargetMembers(active: seq<Conf>, target: Conf -> Group, mac: Name -> int)
    requires forall c :: target(c) == BridgeTarget(c, active, mac)
    ensures forall c :: target(c).members == BuiltMembers(c, active)
  {
    hide BuiltMembers, Index;
  }

  lemma TargetAddressed(c: Conf, active: seq<Conf>, k: Kernel, mac: Name -> int, managed: Name -> bool)
    requires Snapshot(active, k, managed) && GoodKernel(k) && managed(c.name) && NoDup(c.members)
    ensures Addressed(BridgeTarget(c, active, mac), mac) <==> KeptAddressed(c, k, mac)
  {
    hide Index, NoDup, Rearranged, Snapshot, GoodKernel, Within;
    Reported(active, k, c.name, managed);
    BuiltArranged(c, active);
    if c.members == [] {
      NoneKept(BridgeTarget(c, active, mac).members);
    }
  }

  lemma AddressedWhen(config: seq<Conf>, active: seq<Conf>, k: Kernel, kern: Kernel, target: Conf -> Group,
                      mac: Name -> int, managed: Name -> bool)
    requires GoodConfig(config) && GoodKernel(k) && Snapshot(active, k, managed) && Foreign(config, k, managed)
    requires forall c :: target(c) == BridgeTarget(c, active, mac)
    requires Settled(config, kern, managed)
    requires PartlyBuilt(config, |config|, Trimmed(config, k, managed), kern, target)
    ensures AllAddressed(kern, mac, managed) <==>
            forall i :: 0 <= i < |config| ==> KeptAddressed(config[i], k, mac)
  {
    hide Index, NoDup, Trimmed, Arranged, BridgeTarget, Disjoint, Snapshot, GoodKernel, Addressed, KeptAddressed;
    forall i | 0 <= i < |config|
      ensures config[i].name in kern && managed(config[i].name)
      ensures Addressed(kern[config[i].name], mac) <==> KeptAddressed(config[i], k, mac)
    {
      BuiltAt(config, i, Trimmed(config, k, managed), kern, target);
      TargetAddressed(config[i], active, k, mac, managed);
    }
    forall n | n in kern && managed(n)
      ensures exists i :: 0 <= i < |config| && config[i].name == n
    {
      IndexIs(config, n);
      assert config[Index(config, n)].name == n;
    }
  }

  lemma WereAddressed(config: seq<Conf>, k: Kernel, mac: Name -> int, managed: Name -> bool)
    requires Foreign(config, k, managed)
    ensures AllAddressed(k, mac, managed) ==>
              forall i :: 0 <= i < |config| ==> KeptAddressed(config[i], k, mac)
  {
    hide Addressed, Disjoint;
  }

  /** Run again on what the first run left, and on what the system reports of
      it, it requests nothing. */
  method UpdateTwice(config: seq<Conf>, mac: Name -> int, k: Kernel, report: Kernel -> seq<Conf>)
    returns (ops: seq<Op>, more: seq<Op>)
    requires GoodConfig(config) && GoodKernel(k) && Foreign(config, k, Managed)
    requires forall k' :: Snapshot(report(k'), k', Managed)
    ensures LegalRun(k, ops) && Settled(config, Replay(k, ops), Managed) && more == []
  {
    hide LegalRun, Replay, Settled, GoodConfig, GoodKernel, Snapshot, Foreign, SetsWhileEmpty, AllAddressed;
    ops := UpdateConfiguration(config, report(k), mac, k);
    var settled := Replay(k, ops);
    more := UpdateConfiguration(config, report(settled), mac, settled);
  }

  /** A bridge with the wrong address that keeps its only member: it is as
      configured, so nothing is requested, and the address stays wrong. */
  lemma WrongAddressStays(n: Name, m: Name, wrong: int, mac: Name -> int)
    requires Managed(n) && wrong != mac(m)
    ensures var k: Kernel := map[n := Group([m], wrong)];
            var config := [Conf(n, [m], 0)];
            && GoodConfig(config) && GoodKernel(k) && Snapshot([Conf(n, [m], wrong)], k, Managed)
            && Foreign(config, k, Managed) && Settled(config, k, Managed)
            && !KeptAddressed(config[0], k, mac) && !AllAddressed(k, mac, Managed)
  {
    var k: Kernel := map[n := Group([m], wrong)];
    var config, active := [Conf(n, [m], 0)], [Conf(n, [m], wrong)];
    Found(config, 0);
    Found(active, 0);
    hide Index, Managed;
    assert config[0].members == [m] && k[n].members == [m];
  }
}
