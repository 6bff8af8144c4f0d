/** The second half of both reconcilers: what is configured comes. */
module BuildGroups {
  import opened InterfaceLists
  import opened VirtualKernel
  import opened StaleGroups

  /** No group other than c's own has a member that c is configured with. */
  ghost predicate OthersApart(k: Kernel, c: Conf) {
    forall n :: n in k && n != c.name ==> Disjoint(k[n].members, c.members)
  }

  /** Adds, in order, the configured members that are not among skip. */
  method AddMissing(c: Conf, skip: seq<Name>, ghost k: Kernel) returns (ops: seq<Op>)
    requires c.name in k && OthersApart(k, c) && NoDup(c.members)
    requires Disjoint(k[c.name].members, Drop(c.members, skip))
    ensures LegalRun(k, ops)
    ensures Replay(k, ops) == WithMembers(k, c.name, k[c.name].members + Drop(c.members, skip))
    ensures ops == Additions(c.name, Drop(c.members, skip))
    ensures Within(c.members, skip) ==> ops == []
  {
    hide LegalRun, Replay, Keep, Drop, NoDup, Within, WithMembers, OthersApart, Disjoint, Additions;
    ops := [];
    MoreOps(c.name, [], c.name);
    NothingIssued(k);
    KeepNone(skip);
    ScanEnds(c.members);
    ghost var base := k[c.name].members;
    PlusNothing(base);
    SameMembers(k, c.name);
    var i := 0;
    while i < |c.members|
      invariant 0 <= i <= |c.members|
      invariant LegalRun(k, ops)
      invariant Replay(k, ops) == WithMembers(k, c.name, base + Drop(c.members[..i], skip))
      invariant ops == Additions(c.name, Drop(c.members[..i], skip))
      invariant Within(c.members, skip) ==> ops == []
    {
      var m := c.members[i];
      ghost var added := Drop(c.members[..i], skip);
      KeepStep(c.members, i, skip);
      if m !in skip {
        NotWithin(c.members, skip, m);
        Unowned(c, skip, k, i);
        IssueAdd(k, ops, c.name, m);
        MembersTwice(k, c.name, base + added, base + added + [m]);
        Assoc(base, added, m);
        MoreOps(c.name, added, m);
        ops := ops + [Add(c.name, m)];
      }
      i := i + 1;
    }
  }

  /** The interface about to be added belongs to no group. */
  lemma Unowned(c: Conf, skip: seq<Name>, k: Kernel, i: nat)
    requires c.name in k && OthersApart(k, c) && NoDup(c.members)
    requires Disjoint(k[c.name].members, Drop(c.members, skip))
    requires i < |c.members| && c.members[i] !in skip
    ensures !Owned(WithMembers(k, c.name, k[c.name].members + Drop(c.members[..i], skip)), c.members[i])
  {
    hide Drop;
    var m := c.members[i];
    KeepIn(c.members, skip, m);
    KeepStep(c.members, i, skip);
  }

  lemma Assoc(a: seq<Name>, b: seq<Name>, x: Name)
    ensures a + b + [x] == a + (b + [x])
  {
  }

  /** Empties a group of the reported members that survived the first half. */
  method RemoveKept(a: Conf, c: Conf, ghost k: Kernel) returns (ops: seq<Op>)
    requires a.name in k && k[a.name].members == Keep(a.members, c.members)
    ensures LegalRun(k, ops)
    ensures Replay(k, ops) == WithMembers(k, a.name, [])
    ensures ops == Removals(a.name, Keep(a.members, c.members))
  {
    hide LegalRun, Replay, Keep, Drop, NoDup, WithMembers, Removals;
    ops := [];
    MoreOps(a.name, [], a.name);
    NothingIssued(k);
    KeepNone(c.members);
    ScanEnds(a.members);
    SameMembers(k, a.name);
    assert a.members[0..] == a.members;
    var i := 0;
    while i < |a.members|
      invariant 0 <= i <= |a.members|
      invariant LegalRun(k, ops)
      invariant Replay(k, ops) == WithMembers(k, a.name, Keep(a.members[i..], c.members))
      invariant ops == Removals(a.name, Keep(a.members[..i], c.members))
    {
      var m := a.members[i];
      ghost var rest := Keep(a.members[i + 1..], c.members);
      KeepHead(a.members[i..], c.members);
      KeepStep(a.members, i, c.members);
      assert a.members[i..][1..] == a.members[i + 1..];
      if m in c.members {
        Around(m, rest);
        IssueRemove(k, ops, a.name, [], m, rest);
        MembersTwice(k, a.name, [m] + rest, rest);
        MoreOps(a.name, Keep(a.members[..i], c.members), m);
        ops := ops + [Remove(a.name, m)];
      }
      i := i + 1;
    }
  }

  lemma Around(m: Name, rest: seq<Name>)
    ensures [] + [m] + rest == [m] + rest && [] + rest == rest
  {
  }

  // ---- one group ----

  /** The first members differ: the group is emptied and rebuilt in order. */
  predicate Rebuilt(a: seq<Name>, c: seq<Name>) {
    a != [] && c != [] && a[0] != c[0]
  }

  /** What becomes of the members a of a group configured with c. */
  function Rearranged(a: seq<Name>, c: seq<Name>): seq<Name> {
    if Rebuilt(a, c) then c else Keep(a, c) + Drop(c, a)
  }

  /** The configured members, each once, and the configured first one first. */
  ghost predicate Arranged(g: seq<Name>, c: seq<Name>) {
    && NoDup(g) && Within(g, c) && Within(c, g)
    && (c != [] ==> g != [] && g[0] == c[0])
  }

  lemma RearrangedIsArranged(a: seq<Name>, c: seq<Name>)
    requires NoDup(a) && NoDup(c)
    ensures Arranged(Rearranged(a, c), c)
  {
    Complete(a, c);
    if a != [] && c != [] && a[0] == c[0] {
      KeepFirst(a, c);
    } else if a == [] {
      DropFromNone(c);
    }
  }

  lemma RearrangedWithin(a: seq<Name>, c: seq<Name>)
    ensures Within(Rearranged(a, c), c)
  {
    hide Keep, Drop;
    forall x | x in Keep(a, c) + Drop(c, a)
      ensures x in c
    {
      KeepIn(a, c, x);
      KeepIn(c, a, x);
    }
  }

  lemma EmptiedApart(k: Kernel, c: Conf) returns (next: Kernel)
    requires c.name in k && OthersApart(k, c)
    ensures next == WithMembers(k, c.name, []) == k[c.name := k[c.name].(members := [])]
    ensures OthersApart(next, c)
  {
    next := WithMembers(k, c.name, []);
  }

  lemma AllKept(s: seq<Name>)
    ensures Keep(s, s) == s && Keep(s, s) + Drop(s, s) == s
  {
    KeepAll(s, s);
  }

  lemma MembersOf(k: Kernel, n: Name, ms: seq<Name>)
    requires n in k
    ensures WithMembers(k, n, ms) == k[n := Group(ms, k[n].attr)]
  {
  }

  lemma DropFromNone(s: seq<Name>)
    ensures Drop(s, []) == s && [] + Drop(s, []) == s
  {
    NothingDropped(s);
  }

  lemma {:induction false} NothingDropped(s: seq<Name>)
    ensures Drop(s, []) == s
  {
    if s != [] {
      NothingDropped(s[..|s| - 1]);
    }
  }

  /** What is still to be added is not there yet. */
  lemma SkipApart(a: Conf, c: Conf, skip: seq<Name>, k: Kernel)
    requires c.name in k
    requires if skip == [] && Rebuilt(a.members, c.members) then k[c.name].members == []
             else skip == a.members && k[c.name].members == Keep(a.members, c.members)
    ensures Disjoint(k[c.name].members, Drop(c.members, skip))
  {
    forall x
      ensures !(x in k[c.name].members && x in Drop(c.members, skip))
    {
      KeepIn(a.members, c.members, x);
      KeepIn(c.members, skip, x);
    }
  }

  /** What the first half leaves of a configured group. */
  ghost predicate Ready(c: Conf, active: seq<Conf>, k: Kernel) {
    if Has(active, c.name) then
      var a := Get(active, c.name);
      c.name in k && k[c.name] == Group(Keep(a.members, c.members), a.attr) && NoDup(a.members)
    else c.name !in k
  }

  // ---- which requests these are ----

  /** A request for one configured group that has a reason. */
  predicate BuildOp(op: Op, c: Conf, active: seq<Conf>) {
    && op.name == c.name
    && match op
       case Create(_) => !Has(active, c.name)
       case Destroy(_) => false
       case Remove(_, m) =>
         && Has(active, c.name)
         && var a := Get(active, c.name).members;
            m in a && m in c.members && a[0] != c.members[0]
       case Add(_, m) =>
         && m in c.members
         && (Has(active, c.name) ==>
               var a := Get(active, c.name).members;
               m !in a || (a != [] && a[0] != c.members[0]))
       case SetAttr(_, _) => true
  }

  ghost predicate BuiltOps(ops: seq<Op>, c: Conf, active: seq<Conf>) {
    Once(ops) && Each(ops, (o: Op) => BuildOp(o, c, active))
  }

  lemma NothingBuilt(c: Conf, active: seq<Conf>)
    ensures BuiltOps([], c, active)
  {
  }

  ghost predicate Setting(sets: seq<Op>, n: Name) {
    sets == [] || exists v :: sets == [SetAttr(n, v)]
  }

  predicate IsKind(op: Op, kind: int) {
    match op
    case SetAttr(_, _) => kind == 0
    case Remove(_, _) => kind == 1
    case Add(_, _) => kind == 2
    case Create(_) => kind == 3
    case Destroy(_) => kind == 4
  }

  /** Requests of four kinds, each once, are each made once in any grouping. */
  lemma KindsOnce(a: seq<Op>, b: seq<Op>, c: seq<Op>, i: int, j: int, l: int)
    requires Once(a) && Once(b) && Once(c) && i != j && j != l && i != l
    requires Each(a, (o: Op) => IsKind(o, i)) && Each(b, (o: Op) => IsKind(o, j)) && Each(c, (o: Op) => IsKind(o, l))
    ensures Once(a + b + c)
  {
    hide Once, Each;
    var p, q, r := (o: Op) => IsKind(o, i), (o: Op) => IsKind(o, j), (o: Op) => IsKind(o, l);
    OnceChain(a, b, p, q);
    var pq := (o: Op) => IsKind(o, i) || IsKind(o, j);
    EachWeaker(a, p, pq);
    EachWeaker(b, q, pq);
    EachChain(a, b, pq);
    OnceChain(a + b, c, pq, r);
  }

  /** The requests for a group that is there, in the order of either reconciler. */
  lemma UpdateOps(c: Conf, active: seq<Conf>, sets: seq<Op>, pre: seq<Op>, adds: seq<Op>)
    requires Has(active, c.name) && NoDup(Get(active, c.name).members) && NoDup(c.members) && Setting(sets, c.name)
    requires var a := Get(active, c.name).members;
             var anew := Rebuilt(a, c.members);
             && pre == (if anew then Removals(c.name, Keep(a, c.members)) else [])
             && adds == Additions(c.name, Drop(c.members, if anew then [] else a))
    ensures BuiltOps(sets + pre + adds, c, active) && BuiltOps(pre + sets + adds, c, active)
  {
    hide NoDup, Keep, Drop, Index;
    var a, p := Get(active, c.name).members, (o: Op) => BuildOp(o, c, active);
    var anew := Rebuilt(a, c.members);
    var skip := if anew then [] else a;
    KeepNoDup(a, c.members);
    KeepNoDup(c.members, skip);
    forall m | m in Keep(a, c.members)
      ensures m in a && m in c.members
    {
      KeepIn(a, c.members, m);
    }
    forall m | m in Drop(c.members, skip)
      ensures m in c.members && m !in skip
    {
      KeepIn(c.members, skip, m);
    }
    ListsOnce(c.name, Keep(a, c.members));
    ListsOnce(c.name, Drop(c.members, skip));
    KindsOnce(sets, pre, adds, 0, 1, 2);
    KindsOnce(pre, sets, adds, 1, 0, 2);
    assert Each(sets, p) && Each(pre, p) && Each(adds, p);
    hide Each, Once, BuildOp;
    EachChain(sets, pre, p);
    EachChain(sets + pre, adds, p);
    EachChain(pre, sets, p);
    EachChain(pre + sets, adds, p);
  }

  lemma NothingMissing(c: Conf)
    ensures Additions(c.name, Drop(c.members, c.members)) == []
  {
    KeepAll(c.members, c.members);
  }

  lemma EstablishOps(c: Conf, active: seq<Conf>, sets: seq<Op>, adds: seq<Op>)
    requires !Has(active, c.name) && NoDup(c.members) && Setting(sets, c.name)
    requires adds == Additions(c.name, c.members)
    ensures BuiltOps([Create(c.name)] + sets + adds, c, active)
  {
    hide NoDup, Index;
    var p, pre := (o: Op) => BuildOp(o, c, active), [Create(c.name)];
    ListsOnce(c.name, c.members);
    KindsOnce(pre, sets, adds, 3, 0, 2);
    assert Each(pre, p) && Each(sets, p) && Each(adds, p);
    EachChain(pre, sets, p);
    EachChain(pre + sets, adds, p);
  }

  /** The requests made so far have a reason, each was made once, and those of
      the second half are about the first i configured groups. */
  ghost predicate DoneOps(ops: seq<Op>, config: seq<Conf>, active: seq<Conf>, i: nat) {
    && Once(ops)
    && Each(ops, (o: Op) => Needed(o, config, active) && (IsStale(o, config, active) || Index(config, o.name) < i))
  }

  lemma StaleIsDone(ops: seq<Op>, config: seq<Conf>, active: seq<Conf>, n: nat)
    requires StaleOps(ops, config, active, n)
    ensures DoneOps(ops, config, active, 0)
  {
    hide Index;
  }

  lemma BuildOpNeeded(config: seq<Conf>, active: seq<Conf>, i: nat, op: Op)
    requires i < |config| && DistinctNames(config)
    ensures BuildOp(op, config[i], active) ==>
              && Needed(op, config, active) && !IsStale(op, config, active) && Index(config, op.name) == i
  {
    Found(config, i);
    IndexAt(config, i);
    hide Index;
  }

  lemma BuiltMore(ops: seq<Op>, more: seq<Op>, config: seq<Conf>, active: seq<Conf>, i: nat)
    requires i < |config| && DistinctNames(config)
    requires DoneOps(ops, config, active, i) && BuiltOps(more, config[i], active)
    ensures DoneOps(ops + more, config, active, i + 1)
  {
    hide Each, Once, Index, Needed, IsStale, BuildOp;
    var p := (o: Op) => Needed(o, config, active) && (IsStale(o, config, active) || Index(config, o.name) < i);
    var q := (o: Op) => BuildOp(o, config[i], active);
    var r := (o: Op) => Needed(o, config, active) && (IsStale(o, config, active) || Index(config, o.name) < i + 1);
    forall o: Op
      ensures q(o) ==> r(o) && !p(o)
    {
      BuildOpNeeded(config, active, i, o);
    }
    OnceChain(ops, more, p, q);
    EachWeaker(ops, p, r);
    EachWeaker(more, q, r);
    EachChain(ops, more, r);
  }

  lemma DoneNeeded(ops: seq<Op>, config: seq<Conf>, active: seq<Conf>, i: nat)
    requires DoneOps(ops, config, active, i)
    ensures forall h :: 0 <= h < |ops| ==> Needed(ops[h], config, active)
    ensures forall h, j :: 0 <= h < j < |ops| ==> ops[h] != ops[j]
  {
    hide Needed, IsStale, Index;
  }

  // ---- progress over the configuration ----

  /** Groups that are not managed are left alone: they are not configured, and
      hold no configured member. */
  ghost predicate Foreign(config: seq<Conf>, k: Kernel, managed: Name -> bool) {
    && (forall j :: 0 <= j < |config| ==> managed(config[j].name))
    && (forall n, j :: n in k && !managed(n) && 0 <= j < |config| ==> Disjoint(k[n].members, config[j].members))
  }

  /** After the first half only configured groups are left, with configured members. */
  lemma TrimmedIsClean(config: seq<Conf>, k: Kernel, managed: Name -> bool)
    requires GoodConfig(config) && Foreign(config, k, managed)
    ensures CleanStart(config, Trimmed(config, k, managed))
    ensures forall n :: n in Trimmed(config, k, managed) && managed(n) ==> Has(config, n)
  {
    hide NoDup, Index;
    var k1 := Trimmed(config, k, managed);
    forall n, j | n in k1 && 0 <= j < |config|
      ensures if n == config[j].name then Within(k1[n].members, config[j].members)
              else Disjoint(k1[n].members, config[j].members)
    {
      Found(config, j);
      if managed(n) {
        var c := Get(config, n);
        var h := Index(config, n);
        IndexIs(config, n);
        forall x | x in k1[n].members
          ensures x in c.members
        {
          KeepIn(k[n].members, c.members, x);
        }
        if n != config[j].name {
          DisjointConfs(config, j, h);
        }
      }
    }
  }

  /** The first i configured groups are as they should be, the others as they were. */
  ghost predicate PartlyBuilt(config: seq<Conf>, i: nat, k1: Kernel, k: Kernel, target: Conf -> Group) {
    && i <= |config|
    && (forall n :: n in k <==> n in k1 || Index(config, n) < i)
    && (forall n :: n in k ==> k[n] == if Index(config, n) < i then target(Get(config, n)) else k1[n])
  }

  /** Each group has only members configured for it, and the other groups none
      that are configured at all. */
  ghost predicate CleanStart(config: seq<Conf>, k1: Kernel) {
    forall n, j :: n in k1 && 0 <= j < |config| ==>
      if n == config[j].name then Within(k1[n].members, config[j].members)
      else Disjoint(k1[n].members, config[j].members)
  }

  ghost predicate Modest(config: seq<Conf>, target: Conf -> Group) {
    forall j :: 0 <= j < |config| ==> Within(target(config[j]).members, config[j].members)
  }

  lemma NotBuiltYet(config: seq<Conf>, k1: Kernel, target: Conf -> Group)
    ensures PartlyBuilt(config, 0, k1, k1, target)
  {
  }

  lemma BuildStep(config: seq<Conf>, i: nat, k1: Kernel, k: Kernel, target: Conf -> Group)
    requires i < |config| && DistinctNames(config)
    requires PartlyBuilt(config, i, k1, k, target)
    ensures PartlyBuilt(config, i + 1, k1, k[config[i].name := target(config[i])], target)
  {
    Found(config, i);
    var next := k[config[i].name := target(config[i])];
    hide Index;
    forall n
      ensures n in next <==> n in k1 || Index(config, n) < i + 1
      ensures n in next ==> next[n] == if Index(config, n) < i + 1 then target(Get(config, n)) else k1[n]
    {
      IndexStep(config, i, n);
    }
  }

  lemma StillApart(config: seq<Conf>, i: nat, k1: Kernel, k: Kernel, target: Conf -> Group)
    requires i < |config| && GoodConfig(config)
    requires PartlyBuilt(config, i, k1, k, target)
    requires CleanStart(config, k1) && Modest(config, target)
    ensures OthersApart(k, config[i])
    ensures config[i].name in k <==> config[i].name in k1
    ensures config[i].name in k ==> k[config[i].name] == k1[config[i].name]
  {
    Found(config, i);
    var c := config[i];
    hide NoDup, Index;
    forall n | n in k && n != c.name
      ensures Disjoint(k[n].members, c.members)
    {
      var j := Index(config, n);
      if j < i {
        IndexIs(config, n);
        assert Within(target(config[j]).members, config[j].members);
        DisjointConfs(config, i, j);
      }
    }
  }

  lemma IndexIs(config: seq<Conf>, n: Name)
    ensures Index(config, n) <= |config|
    ensures Has(config, n) ==> Get(config, n) == config[Index(config, n)]
  {
  }

  lemma DisjointConfs(config: seq<Conf>, i: nat, j: nat)
    requires GoodConfig(config) && i < |config| && j < |config| && i != j
    ensures Disjoint(config[j].members, config[i].members)
  {
  }

  lemma TrimmedIsReady(config: seq<Conf>, active: seq<Conf>, i: nat, k: Kernel, kern: Kernel,
                       managed: Name -> bool)
    requires i < |config| && GoodConfig(config) && GoodKernel(k) && Foreign(config, k, managed)
    requires Snapshot(active, k, managed)
    requires var k1 := Trimmed(config, k, managed);
             var n := config[i].name;
             (n in kern <==> n in k1) && (n in kern ==> kern[n] == k1[n])
    ensures Ready(config[i], active, kern) && NoDup(config[i].members)
  {
    hide NoDup, Index, Keep;
    var n := config[i].name;
    Found(config, i);
    if Has(active, n) {
      IndexIs(active, n);
      assert k[n] == Group(Get(active, n).members, Get(active, n).attr);
    }
  }

  // ---- configured and built ----

  /** Every group is managed. */
  predicate Everything(n: Name) {
    true
  }

  /** Among the managed groups exactly the configured ones, each with its members. */
  ghost predicate Settled(config: seq<Conf>, k: Kernel, managed: Name -> bool) {
    && (forall n :: n in k && managed(n) ==> Has(config, n))
    && (forall i :: 0 <= i < |config| ==>
          config[i].name in k && Arranged(k[config[i].name].members, config[i].members))
  }

  ghost predicate UnmanagedKept(k: Kernel, k': Kernel, managed: Name -> bool) {
    forall n :: !managed(n) ==> (n in k <==> n in k') && (n in k ==> k'[n] == k[n])
  }

  /** The members that a configured group ends with. */
  function BuiltMembers(c: Conf, active: seq<Conf>): seq<Name> {
    if Has(active, c.name) then Rearranged(Get(active, c.name).members, c.members) else c.members
  }

  lemma NewApart(k: Kernel, c: Conf, attr: int)
    requires OthersApart(k, c)
    ensures OthersApart(k[c.name := Group([], attr)], c) && Disjoint([], Drop(c.members, []))
  {
  }

  lemma SettledIsCurrent(config: seq<Conf>, k: Kernel, managed: Name -> bool)
    ensures Settled(config, k, managed) && DistinctNames(config) ==> AllCurrent(config, k, managed)
  {
    hide NoDup, Within, Index;
    if Settled(config, k, managed) && DistinctNames(config) {
      forall n | n in k && managed(n)
        ensures Has(config, n) && Within(k[n].members, Get(config, n).members)
      {
        IndexIs(config, n);
        assert Arranged(k[n].members, config[Index(config, n)].members);
      }
    }
  }

  lemma TargetsModest(config: seq<Conf>, active: seq<Conf>, target: Conf -> Group)
    requires forall c :: target(c).members == BuiltMembers(c, active)
    ensures Modest(config, target)
  {
    hide Index, Rearranged;
    forall j | 0 <= j < |config|
      ensures Within(target(config[j]).members, config[j].members)
    {
      var c := config[j];
      if Has(active, c.name) {
        RearrangedWithin(Get(active, c.name).members, c.members);
      }
    }
  }

  lemma SettledMatches(config: seq<Conf>, active: seq<Conf>, i: nat, k: Kernel, managed: Name -> bool)
    requires i < |config| && Snapshot(active, k, managed) && Foreign(config, k, managed)
    ensures Settled(config, k, managed) ==>
              var n := config[i].name;
              Has(active, n) && Arranged(Get(active, n).members, config[i].members)
  {
    hide NoDup, Index, Within, Disjoint;
    if Settled(config, k, managed) {
      IndexIs(active, config[i].name);
    }
  }

  /** What the report says of a configured group. */
  lemma Reported(active: seq<Conf>, k: Kernel, n: Name, managed: Name -> bool)
    requires Snapshot(active, k, managed) && GoodKernel(k) && managed(n)
    ensures Has(active, n) <==> n in k
    ensures n in k ==> k[n] == Group(Get(active, n).members, Get(active, n).attr) && NoDup(Get(active, n).members)
  {
    hide NoDup, Index;
    IndexIs(active, n);
  }

  lemma BuiltArranged(c: Conf, active: seq<Conf>)
    requires NoDup(c.members)
    requires Has(active, c.name) ==> NoDup(Get(active, c.name).members)
    ensures Arranged(BuiltMembers(c, active), c.members)
  {
    hide Index, Rearranged;
    if Has(active, c.name) {
      RearrangedIsArranged(Get(active, c.name).members, c.members);
    }
  }

  lemma BuiltAt(config: seq<Conf>, i: nat, k1: Kernel, kern: Kernel, target: Conf -> Group)
    requires PartlyBuilt(config, |config|, k1, kern, target) && DistinctNames(config) && i < |config|
    ensures config[i].name in kern && kern[config[i].name] == target(config[i])
  {
    Found(config, i);
  }

  lemma BuiltIsSettled(config: seq<Conf>, active: seq<Conf>, k: Kernel, kern: Kernel, target: Conf -> Group,
                       managed: Name -> bool)
    requires GoodConfig(config) && GoodKernel(k) && Snapshot(active, k, managed) && Foreign(config, k, managed)
    requires forall c :: target(c).members == BuiltMembers(c, active)
    requires forall n :: n in Trimmed(config, k, managed) && managed(n) ==> Has(config, n)
    requires PartlyBuilt(config, |config|, Trimmed(config, k, managed), kern, target)
    ensures Settled(config, kern, managed)
  {
    hide Index, NoDup, Trimmed, Arranged, BuiltMembers, Disjoint, Snapshot, GoodKernel;
    forall i | 0 <= i < |config|
      ensures config[i].name in kern && Arranged(kern[config[i].name].members, config[i].members)
    {
      BuiltAt(config, i, Trimmed(config, k, managed), kern, target);
      Reported(active, k, config[i].name, managed);
      BuiltArranged(config[i], active);
    }
  }

  lemma OthersKept(config: seq<Conf>, k: Kernel, kern: Kernel, target: Conf -> Group,
                   managed: Name -> bool)
    requires Foreign(config, k, managed)
    requires PartlyBuilt(config, |config|, Trimmed(config, k, managed), kern, target)
    ensures UnmanagedKept(k, kern, managed)
  {
    hide Index, Disjoint, Trim;
    forall n | !managed(n)
      ensures (n in k <==> n in kern) && (n in k ==> kern[n] == k[n])
    {
      IndexIs(config, n);
    }
  }

  /** A settled kernel whose other groups are those of a good one is good
      itself, so the next reconciliation can start from it. */
  lemma SettledIsGood(config: seq<Conf>, k0: Kernel, k: Kernel, managed: Name -> bool)
    requires GoodConfig(config) && GoodKernel(k0) && Foreign(config, k0, managed)
    requires Settled(config, k, managed) && UnmanagedKept(k0, k, managed)
    ensures GoodKernel(k) && Foreign(config, k, managed)
  {
    hide NoDup, Index, Within, Arranged, DistinctNames;
    forall n | n in k && managed(n)
      ensures Has(config, n) && Arranged(k[n].members, config[Index(config, n)].members)
      ensures config[Index(config, n)].name == n
    {
      IndexIs(config, n);
    }
    forall n | n in k
      ensures NoDup(k[n].members)
    {
      if managed(n) {
        ArrangedIs(k[n].members, config[Index(config, n)].members);
      }
    }
    forall n, n', x | n in k && n' in k && x in k[n].members && x in k[n'].members
      ensures n == n'
    {
      var i, j := Index(config, n), Index(config, n');
      if managed(n) {
        ArrangedIs(k[n].members, config[i].members);
      }
      if managed(n') {
        ArrangedIs(k[n'].members, config[j].members);
      }
    }
  }

  lemma ArrangedIs(g: seq<Name>, c: seq<Name>)
    requires Arranged(g, c)
    ensures NoDup(g) && forall x :: x in g <==> x in c
  {
  }
}
