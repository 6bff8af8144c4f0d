/** The kernel's view of virtual interfaces that group others: bonds (with a
    mode) and bridges (with a hardware address), and the requests that change
    them. */
module VirtualKernel {
  import opened InterfaceLists

  /** A group interface: its members in order of addition, and its mode or address. */
  datatype Group = Group(members: seq<Name>, attr: int)

  type Kernel = map<Name, Group>

  /** A configured or reported group. */
  datatype Conf = Conf(name: Name, members: seq<Name>, attr: int)

  datatype Op =
    | Create(name: Name)
    | Destroy(name: Name)
    | Add(name: Name, member: Name)
    | Remove(name: Name, member: Name)
    | SetAttr(name: Name, value: int)

  /** m belongs to some group. */
  ghost predicate Owned(k: Kernel, m: Name) {
    exists n :: n in k && m in k[n].members
  }

  /** The kernel accepts the request; in particular an interface can be added
      only while it belongs to no group. */
  ghost predicate Legal(k: Kernel, op: Op) {
    match op
    case Create(n) => n !in k
    case Destroy(n) => n in k
    case Add(n, m) => n in k && !Owned(k, m)
    case Remove(n, m) => n in k && m in k[n].members
    case SetAttr(n, _) => n in k
  }

  function Apply(k: Kernel, op: Op): Kernel {
    match op
    case Create(n) => k[n := Group([], 0)]
    case Destroy(n) => k - {n}
    case Add(n, m) => if n in k then k[n := k[n].(members := k[n].members + [m])] else k
    case Remove(n, m) => if n in k then k[n := k[n].(members := Without(k[n].members, m))] else k
    case SetAttr(n, v) => if n in k then k[n := k[n].(attr := v)] else k
  }

  function Replay(k: Kernel, ops: seq<Op>): Kernel {
    if ops == [] then k else Apply(Replay(k, ops[..|ops| - 1]), ops[|ops| - 1])
  }

  /** Every request is accepted in the state that those before it leave. */
  ghost predicate LegalRun(k: Kernel, ops: seq<Op>) {
    ops == [] || (LegalRun(k, ops[..|ops| - 1]) && Legal(Replay(k, ops[..|ops| - 1]), ops[|ops| - 1]))
  }

  lemma Issue(k: Kernel, ops: seq<Op>, op: Op)
    requires LegalRun(k, ops) && Legal(Replay(k, ops), op)
    ensures LegalRun(k, ops + [op])
    ensures Replay(k, ops + [op]) == Apply(Replay(k, ops), op)
  {
    assert (ops + [op])[..|ops|] == ops;
  }

  lemma IssueFirst(k: Kernel, op: Op)
    requires Legal(k, op)
    ensures LegalRun(k, [op]) && Replay(k, [op]) == Apply(k, op)
  {
    assert [op][..0] == [];
    assert Replay(k, []) == k && LegalRun(k, []);
  }

  lemma GroupOps(a: seq<Op>, b: seq<Op>, c: seq<Op>)
    ensures a + b + c == a + (b + c)
  {
  }

  lemma {:induction false} Chain(k: Kernel, a: seq<Op>, b: seq<Op>)
    requires LegalRun(k, a) && LegalRun(Replay(k, a), b)
    ensures LegalRun(k, a + b)
    ensures Replay(k, a + b) == Replay(Replay(k, a), b)
  {
    if b == [] {
      assert a + b == a;
    } else {
      var n := |b| - 1;
      Chain(k, a, b[..n]);
      assert (a + b)[..|a + b| - 1] == a + b[..n];
    }
  }

  /** k with the members of group n replaced. */
  function WithMembers(k: Kernel, n: Name, ms: seq<Name>): (r: Kernel)
    requires n in k
    ensures n in r && r[n] == Group(ms, k[n].attr)
  {
    k[n := k[n].(members := ms)]
  }

  lemma SameMembers(k: Kernel, n: Name)
    requires n in k
    ensures WithMembers(k, n, k[n].members) == k
  {
  }

  lemma MembersTwice(k: Kernel, n: Name, a: seq<Name>, b: seq<Name>)
    requires n in k
    ensures WithMembers(WithMembers(k, n, a), n, b) == WithMembers(k, n, b)
  {
  }

  lemma IssueRemove(k: Kernel, ops: seq<Op>, n: Name, a: seq<Name>, m: Name, b: seq<Name>)
    requires LegalRun(k, ops)
    requires var k' := Replay(k, ops); n in k' && k'[n].members == a + [m] + b && m !in a
    ensures LegalRun(k, ops + [Remove(n, m)])
    ensures Replay(k, ops + [Remove(n, m)]) == WithMembers(Replay(k, ops), n, a + b)
  {
    WithoutAt(a, m, b);
    assert (a + [m] + b)[|a|] == m;
    Issue(k, ops, Remove(n, m));
  }

  lemma IssueAdd(k: Kernel, ops: seq<Op>, n: Name, m: Name)
    requires LegalRun(k, ops)
    requires var k' := Replay(k, ops); n in k' && !Owned(k', m)
    ensures LegalRun(k, ops + [Add(n, m)])
    ensures var k' := Replay(k, ops);
            Replay(k, ops + [Add(n, m)]) == WithMembers(k', n, k'[n].members + [m])
  {
    Issue(k, ops, Add(n, m));
  }

  lemma NothingIssued(k: Kernel)
    ensures LegalRun(k, []) && Replay(k, []) == k
  {
  }

  // ---- lists of requests ----

  function Removals(n: Name, ms: seq<Name>): seq<Op> {
    seq(|ms|, i requires 0 <= i < |ms| => Remove(n, ms[i]))
  }

  function Additions(n: Name, ms: seq<Name>): seq<Op> {
    seq(|ms|, i requires 0 <= i < |ms| => Add(n, ms[i]))
  }

  lemma MoreOps(n: Name, ms: seq<Name>, m: Name)
    ensures Removals(n, ms + [m]) == Removals(n, ms) + [Remove(n, m)]
    ensures Additions(n, ms + [m]) == Additions(n, ms) + [Add(n, m)]
    ensures Removals(n, []) == [] && Additions(n, []) == []
  {
  }

  ghost predicate Each(ops: seq<Op>, p: Op -> bool) {
    forall i :: 0 <= i < |ops| ==> p(ops[i])
  }

  /** No request is made twice. */
  ghost predicate Once(ops: seq<Op>) {
    forall i, j :: 0 <= i < j < |ops| ==> ops[i] != ops[j]
  }

  lemma EachChain(a: seq<Op>, b: seq<Op>, p: Op -> bool)
    requires Each(a, p) && Each(b, p)
    ensures Each(a + b, p)
  {
  }

  lemma EachWeaker(ops: seq<Op>, p: Op -> bool, q: Op -> bool)
    requires Each(ops, p) && forall o :: p(o) ==> q(o)
    ensures Each(ops, q)
  {
  }

  /** Requests of different kinds differ. */
  lemma OnceChain(a: seq<Op>, b: seq<Op>, p: Op -> bool, q: Op -> bool)
    requires Once(a) && Once(b) && Each(a, p) && Each(b, q) && forall o :: !(p(o) && q(o))
    ensures Once(a + b)
  {
    var ops := a + b;
    forall i, j | 0 <= i < j < |ops|
      ensures ops[i] != ops[j]
    {
      if i < |a| <= j {
        assert p(ops[i]) && q(ops[j]);
      }
    }
  }

  lemma ListsOnce(n: Name, ms: seq<Name>)
    requires NoDup(ms)
    ensures Once(Removals(n, ms)) && Once(Additions(n, ms))
  {
  }

  // ---- configuration and snapshot ----

  /** The entry for a name, or the number of entries. */
  function Index(cs: seq<Conf>, name: Name): (j: nat)
    ensures j <= |cs|
    ensures j < |cs| ==> cs[j].name == name
    ensures forall i :: 0 <= i < j ==> cs[i].name != name
  {
    if cs == [] then 0
    else
      var j := Index(cs[..|cs| - 1], name);
      if j < |cs| - 1 || cs[j].name == name then j else |cs|
  }

  predicate Has(cs: seq<Conf>, name: Name) {
    Index(cs, name) < |cs|
  }

  function Get(cs: seq<Conf>, name: Name): (c: Conf)
    requires Has(cs, name)
    ensures c in cs && c.name == name
  {
    cs[Index(cs, name)]
  }

  ghost predicate DistinctNames(cs: seq<Conf>) {
    forall i, j :: 0 <= i < j < |cs| ==> cs[i].name != cs[j].name
  }

  /** With distinct names an entry is found under its own name. */
  lemma Found(cs: seq<Conf>, i: nat)
    requires DistinctNames(cs) && i < |cs|
    ensures Has(cs, cs[i].name) && Get(cs, cs[i].name) == cs[i]
  {
    var j := Index(cs, cs[i].name);
  }

  lemma IndexStep(cs: seq<Conf>, i: nat, n: Name)
    requires i < |cs| && DistinctNames(cs)
    ensures Index(cs, n) < i + 1 <==> Index(cs, n) < i || n == cs[i].name
  {
    Found(cs, i);
  }

  /** Member lists without duplicates, no interface in two of them. */
  ghost predicate GoodConfig(cs: seq<Conf>) {
    && DistinctNames(cs)
    && (forall i :: 0 <= i < |cs| ==> NoDup(cs[i].members))
    && (forall i, j, x :: 0 <= i < |cs| && 0 <= j < |cs| && x in cs[i].members && x in cs[j].members ==> i == j)
  }

  ghost predicate GoodKernel(k: Kernel) {
    && (forall n :: n in k ==> NoDup(k[n].members))
    && (forall n, n', x :: n in k && n' in k && x in k[n].members && x in k[n'].members ==> n == n')
  }

  /** active reports exactly the managed groups of the kernel, in any order. */
  ghost predicate Snapshot(active: seq<Conf>, k: Kernel, managed: Name -> bool) {
    && DistinctNames(active)
    && (forall i :: 0 <= i < |active| ==>
          && active[i].name in k && managed(active[i].name)
          && k[active[i].name] == Group(active[i].members, active[i].attr))
    && (forall n :: n in k && managed(n) ==> Has(active, n))
  }

  // ---- which requests are needed ----

  /** A request that has a reason in what is configured and what is reported:
      only configured groups that are not there are created, only groups that
      are not configured are destroyed, and members leave only if they are not
      configured, and come only if they are not there, unless the first
      configured member has to be another than it is. */
  predicate Needed(op: Op, config: seq<Conf>, active: seq<Conf>) {
    match op
    case Create(n) => Has(config, n) && !Has(active, n)
    case Destroy(n) => Has(active, n) && !Has(config, n)
    case Remove(n, m) =>
      && Has(active, n) && Has(config, n)
      && var a, c := Get(active, n).members, Get(config, n).members;
         m in a && (m !in c || (c != [] && a[0] != c[0]))
    case Add(n, m) =>
      && Has(config, n) && m in Get(config, n).members
      && (Has(active, n) ==>
            var a, c := Get(active, n).members, Get(config, n).members;
            m !in a || (a != [] && a[0] != c[0]))
    case SetAttr(n, _) => Has(config, n)
  }

  /** Where a name is found, and that it is found if it is there. */
  lemma HasIs(cs: seq<Conf>, n: Name)
    requires DistinctNames(cs)
    ensures Has(cs, n) <==> exists i :: 0 <= i < |cs| && cs[i].name == n
    ensures forall i :: 0 <= i < |cs| && cs[i].name == n ==> Has(cs, n) && Get(cs, n) == cs[i]
  {
    hide Index;
    forall i | 0 <= i < |cs| && cs[i].name == n
      ensures Has(cs, n) && Get(cs, n) == cs[i]
    {
      Found(cs, i);
    }
    if Has(cs, n) {
      assert cs[Index(cs, n)].name == n;
    }
  }

  /** The same, entry by entry of what is configured and reported. */
  lemma NeededMeans(op: Op, config: seq<Conf>, active: seq<Conf>)
    requires DistinctNames(config) && DistinctNames(active) && Needed(op, config, active)
    ensures op.Destroy? ==> forall i :: 0 <= i < |config| ==> config[i].name != op.name
    ensures !op.Destroy? ==> exists i :: 0 <= i < |config| && config[i].name == op.name
    ensures op.Create? ==> forall j :: 0 <= j < |active| ==> active[j].name != op.name
    ensures op.Destroy? || op.Remove? ==> exists j :: 0 <= j < |active| && active[j].name == op.name
    ensures op.Remove? ==>
              forall i, j :: 0 <= i < |config| && 0 <= j < |active| && config[i].name == op.name == active[j].name ==>
                var a, c := active[j].members, config[i].members;
                op.member in a && (op.member !in c || (c != [] && a[0] != c[0]))
    ensures op.Add? ==>
              && (forall i :: 0 <= i < |config| && config[i].name == op.name ==> op.member in config[i].members)
              && forall i, j ::
                   0 <= i < |config| && 0 <= j < |active| && config[i].name == op.name == active[j].name ==>
                   var a, c := active[j].members, config[i].members;
                   op.member !in a || (a != [] && a[0] != c[0])
  {
    hide Has, Get, Index;
    HasIs(config, op.name);
    HasIs(active, op.name);
  }

  /** What the first half requests: a group or a member that is not configured goes. */
  predicate IsStale(op: Op, config: seq<Conf>, active: seq<Conf>) {
    match op
    case Destroy(n) => Has(active, n) && !Has(config, n)
    case Remove(n, m) =>
      && Has(active, n) && Has(config, n)
      && m in Get(active, n).members && m !in Get(config, n).members
    case _ => false
  }

  method Lookup(cs: seq<Conf>, name: Name) returns (j: nat)
    ensures j == Index(cs, name)
  {
    j := 0;
    while j < |cs|
      invariant j <= |cs|
      invariant forall i :: 0 <= i < j ==> cs[i].name != name
    {
      if cs[j].name == name {
        break;
      }
      j := j + 1;
    }
  }
}
