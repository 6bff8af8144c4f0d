/** The first half of both reconcilers: what is no longer configured goes. */
module StaleGroups {
  import opened InterfaceLists
  import opened VirtualKernel

  /** A group after the first half: the members still configured for it. */
  function Trim(config: seq<Conf>, n: Name, g: Group): Group
    requires Has(config, n)
  {
    g.(members := Keep(g.members, Get(config, n).members))
  }

  /** The kernel after the first half. */
  function Trimmed(config: seq<Conf>, k: Kernel, managed: Name -> bool): Kernel {
    map n | n in k && (!managed(n) || Has(config, n)) ::
      if managed(n) then Trim(config, n, k[n]) else k[n]
  }

  /** Nothing is stale. */
  ghost predicate AllCurrent(config: seq<Conf>, k: Kernel, managed: Name -> bool) {
    forall n :: n in k && managed(n) ==>
      Has(config, n) && Within(k[n].members, Get(config, n).members)
  }

  ghost predicate OnlyRemovals(ops: seq<Op>, managed: Name -> bool) {
    forall i :: 0 <= i < |ops| ==> (ops[i].Destroy? || ops[i].Remove?) && managed(ops[i].name)
  }

  /** The kernel when the first i reported groups have been dealt with. */
  ghost predicate PartlyTrimmed(config: seq<Conf>, active: seq<Conf>, i: nat, k0: Kernel, k: Kernel) {
    && i <= |active|
    && (forall n :: n in k ==> n in k0)
    && (forall n :: n in k0 ==>
          if Index(active, n) < i then
            if Has(config, n) then n in k && k[n] == Trim(config, n, k0[n]) else n !in k
          else n in k && k[n] == k0[n])
  }

  /** Removes from one group the reported members that are not configured. */
  method RemoveStaleMembers(a: Conf, c: Conf, ghost k: Kernel) returns (ops: seq<Op>)
    requires a.name in k && k[a.name].members == a.members && NoDup(a.members)
    ensures LegalRun(k, ops)
    ensures Replay(k, ops) == WithMembers(k, a.name, Keep(a.members, c.members))
    ensures ops == Removals(a.name, Drop(a.members, c.members))
    ensures Within(a.members, c.members) ==> ops == []
  {
    hide LegalRun, Replay, Keep, Drop, NoDup, Within, WithMembers, Removals;
    ops := [];
    MoreOps(a.name, [], a.name);
    NothingIssued(k);
    KeepNone(c.members);
    ScanEnds(a.members);
    SameMembers(k, a.name);
    var i := 0;
    while i < |a.members|
      invariant 0 <= i <= |a.members|
      invariant LegalRun(k, ops)
      invariant Replay(k, ops) == WithMembers(k, a.name, Keep(a.members[..i], c.members) + a.members[i..])
      invariant ops == Removals(a.name, Drop(a.members[..i], c.members))
      invariant Within(a.members, c.members) ==> ops == []
    {
      var m := a.members[i];
      ghost var kept, rest := Keep(a.members[..i], c.members), a.members[i + 1..];
      KeepStep(a.members, i, c.members);
      SplitAt(kept, a.members, i);
      if m !in c.members {
        NotWithin(a.members, c.members, m);
        IssueRemove(k, ops, a.name, kept, m, rest);
        MembersTwice(k, a.name, kept + a.members[i..], kept + rest);
        MoreOps(a.name, Drop(a.members[..i], c.members), m);
        ops := ops + [Remove(a.name, m)];
      }
      i := i + 1;
    }
    PlusNothing(Keep(a.members, c.members));
  }

  // ---- which requests these are ----

  /** Requests of the first half about the first i reported groups, each once. */
  ghost predicate StaleOps(ops: seq<Op>, config: seq<Conf>, active: seq<Conf>, i: nat) {
    Once(ops) && Each(ops, (o: Op) => IsStale(o, config, active) && Index(active, o.name) < i)
  }

  ghost predicate StaleOf(ops: seq<Op>, config: seq<Conf>, active: seq<Conf>, i: nat) {
    Once(ops) && Each(ops, (o: Op) => IsStale(o, config, active) && Index(active, o.name) == i)
  }

  lemma NoneStale(config: seq<Conf>, active: seq<Conf>)
    ensures StaleOps([], config, active, 0)
  {
  }

  lemma StaleMore(ops: seq<Op>, more: seq<Op>, config: seq<Conf>, active: seq<Conf>, i: nat)
    requires StaleOps(ops, config, active, i) && StaleOf(more, config, active, i)
    ensures StaleOps(ops + more, config, active, i + 1)
  {
    hide Each, Once, IsStale, Index;
    var p := (o: Op) => IsStale(o, config, active) && Index(active, o.name) < i;
    var q := (o: Op) => IsStale(o, config, active) && Index(active, o.name) == i;
    var r := (o: Op) => IsStale(o, config, active) && Index(active, o.name) < i + 1;
    OnceChain(ops, more, p, q);
    EachWeaker(ops, p, r);
    EachWeaker(more, q, r);
    EachChain(ops, more, r);
  }

  lemma MembersStale(config: seq<Conf>, active: seq<Conf>, i: nat, managed: Name -> bool)
    requires i < |active| && DistinctNames(active) && Has(config, active[i].name) && NoDup(active[i].members)
    requires managed(active[i].name)
    ensures var a := active[i];
            var ops := Removals(a.name, Drop(a.members, Get(config, a.name).members));
            StaleOf(ops, config, active, i) && OnlyRemovals(ops, managed)
  {
    var a, c := active[i], Get(config, active[i].name);
    Found(active, i);
    IndexAt(active, i);
    KeepNoDup(a.members, c.members);
    hide Index, NoDup, Drop;
    ListsOnce(a.name, Drop(a.members, c.members));
    forall m | m in Drop(a.members, c.members)
      ensures IsStale(Remove(a.name, m), config, active)
    {
      KeepIn(a.members, c.members, m);
    }
  }

  lemma GroupStale(config: seq<Conf>, active: seq<Conf>, i: nat)
    requires i < |active| && DistinctNames(active) && !Has(config, active[i].name)
    ensures StaleOf([Destroy(active[i].name)], config, active, i)
  {
    Found(active, i);
    IndexAt(active, i);
  }

  lemma IndexAt(cs: seq<Conf>, i: nat)
    requires i < |cs| && DistinctNames(cs)
    ensures Index(cs, cs[i].name) == i
  {
  }

  /** Destroys the groups that are no longer configured, and takes from the
      others the members that are not. */
  method RemoveStale(config: seq<Conf>, active: seq<Conf>, ghost k: Kernel, ghost managed: Name -> bool)
    returns (ops: seq<Op>)
    requires Snapshot(active, k, managed) && GoodKernel(k)
    ensures LegalRun(k, ops) && Replay(k, ops) == Trimmed(config, k, managed)
    ensures OnlyRemovals(ops, managed) && StaleOps(ops, config, active, |active|)
    ensures AllCurrent(config, k, managed) ==> ops == []
  {
    hide LegalRun, Replay, Trim, PartlyTrimmed, NoDup, Index, Has, StaleOps, StaleOf;
    ops := [];
    ghost var kern := k;
    NothingIssued(k);
    NotTrimmedYet(config, active, k);
    NoneStale(config, active);
    var i := 0;
    while i < |active|
      invariant 0 <= i <= |active|
      invariant LegalRun(k, ops) && Replay(k, ops) == kern
      invariant PartlyTrimmed(config, active, i, k, kern)
      invariant OnlyRemovals(ops, managed) && StaleOps(ops, config, active, i)
      invariant AllCurrent(config, k, managed) ==> ops == []
    {
      var more;
      more, kern := RemoveStaleGroup(config, active, i, k, kern, managed);
      Chain(k, ops, more);
      StaleMore(ops, more, config, active, i);
      ops, i := ops + more, i + 1;
    }
    AllTrimmed(config, active, k, kern, managed);
  }

  method RemoveStaleGroup(config: seq<Conf>, active: seq<Conf>, i: nat, ghost k0: Kernel, ghost k: Kernel,
                          ghost managed: Name -> bool)
    returns (ops: seq<Op>, ghost next: Kernel)
    requires i < |active| && Snapshot(active, k0, managed) && GoodKernel(k0)
    requires PartlyTrimmed(config, active, i, k0, k)
    ensures LegalRun(k, ops) && Replay(k, ops) == next
    ensures PartlyTrimmed(config, active, i + 1, k0, next)
    ensures OnlyRemovals(ops, managed) && StaleOf(ops, config, active, i)
    ensures AllCurrent(config, k0, managed) ==> ops == []
  {
    hide Keep, Drop, NoDup, Within, LegalRun, Replay, PartlyTrimmed, StaleOf, Removals;
    var a := active[i];
    Found(active, i);
    StillThere(config, active, i, k0, k);
    var j := Lookup(config, a.name);
    if j < |config| {
      ops := RemoveStaleMembers(a, config[j], k);
      next := WithMembers(k, a.name, Keep(a.members, config[j].members));
      MembersStale(config, active, i, managed);
    } else {
      ops := [Destroy(a.name)];
      next := k - {a.name};
      IssueFirst(k, Destroy(a.name));
      GroupStale(config, active, i);
    }
    TrimStep(config, active, i, k0, k, next);
  }

  lemma StillThere(config: seq<Conf>, active: seq<Conf>, i: nat, k0: Kernel, k: Kernel)
    requires PartlyTrimmed(config, active, i, k0, k) && DistinctNames(active)
    requires i < |active| && active[i].name in k0
    ensures active[i].name in k && k[active[i].name] == k0[active[i].name]
  {
    Found(active, i);
  }

  lemma NotTrimmedYet(config: seq<Conf>, active: seq<Conf>, k: Kernel)
    ensures PartlyTrimmed(config, active, 0, k, k)
  {
  }

  lemma TrimStep(config: seq<Conf>, active: seq<Conf>, i: nat, k0: Kernel, k: Kernel, next: Kernel)
    requires i < |active| && DistinctNames(active)
    requires PartlyTrimmed(config, active, i, k0, k)
    requires active[i].name in k0
    requires var n := active[i].name;
             next == if Has(config, n) then k[n := Trim(config, n, k0[n])] else k - {n}
    ensures PartlyTrimmed(config, active, i + 1, k0, next)
  {
    hide Trim, Index;
    Found(active, i);
    forall n | n in k0
      ensures if Index(active, n) < i + 1 then
                if Has(config, n) then n in next && next[n] == Trim(config, n, k0[n]) else n !in next
              else n in next && next[n] == k0[n]
    {
      IndexStep(active, i, n);
    }
  }

  lemma AllTrimmed(config: seq<Conf>, active: seq<Conf>, k0: Kernel, k: Kernel, managed: Name -> bool)
    requires Snapshot(active, k0, managed)
    requires PartlyTrimmed(config, active, |active|, k0, k)
    ensures k == Trimmed(config, k0, managed)
  {
    forall n | n in k0
      ensures managed(n) <==> Has(active, n)
    {
    }
  }
}
