/** Editing which interfaces belong to the stored bonds and bridges, through
    handles that cache the member list of one of them. */
module MembershipEdits {
  import opened InterfaceLists
  import VirtualKernel

  datatype Kind = Bond | Bridge

  /** A stored bond or bridge. */
  datatype Id = Id(kind: Kind, name: Name)

  datatype Status = Fine | KeyExists | InvalidArgument | Failed

  type Groups = map<Id, seq<Name>>

  /** The rest of what the checks look at. */
  datatype Surroundings = Surroundings(
    hardware: seq<Name>,
    supports: set<(Kind, Name)>,
    vlans: seq<Name>,
    inService: set<Name>)

  /** x is in a stored list other than that of id. */
  ghost predicate Elsewhere(g: Groups, id: Id, x: Name) {
    exists o :: o in g && o != id && x in g[o]
  }

  ghost predicate Anywhere(g: Groups, x: Name) {
    exists o :: o in g && x in g[o]
  }

  /** No interface is in two bonds, two bridges, or one of each. */
  ghost predicate Apart(g: Groups) {
    forall a, b, x :: a in g && b in g && x in g[a] && x in g[b] ==> a == b
  }

  ghost predicate Available(g: Groups, env: Surroundings, kind: Kind, x: Name) {
    x in env.hardware && (kind, x) in env.supports && !Anywhere(g, x) && x !in env.vlans
  }

  /** What is wrong with one wanted member. */
  ghost function Fault(g: Groups, env: Surroundings, kind: Kind, cached: seq<Name>, x: Name): Status {
    if x in cached then Fine
    else if !Available(g, env, kind, x) then InvalidArgument
    else if x in env.inService then KeyExists
    else Fine
  }

  /** The first member with a fault decides; then the bond or bridge has to be stored. */
  ghost function Verdict(g: Groups, env: Surroundings, id: Id, cached: seq<Name>, members: seq<Name>): Status {
    if members == [] then if id in g then Fine else Failed
    else if Fault(g, env, id.kind, cached, members[0]) != Fine then Fault(g, env, id.kind, cached, members[0])
    else Verdict(g, env, id, cached, members[1..])
  }

  class Preferences {
    var groups: Groups
    var env: Surroundings

    constructor (env: Surroundings)
      ensures groups == map[] && this.env == env
    {
      groups := map[];
      this.env := env;
    }

    /** The members of the stored bonds or bridges. */
    method CollectMembers(kind: Kind, set_: set<Name>) returns (r: set<Name>)
      ensures r == set_ + set o, x | o in groups && o.kind == kind && x in groups[o] :: x
    {
      r := set_;
      var todo := set o | o in groups && o.kind == kind;
      while todo != {}
        invariant todo <= set o | o in groups && o.kind == kind
        invariant r == set_ + set o, x | o in groups && o.kind == kind && o !in todo && x in groups[o] :: x
      {
        var o :| o in todo;
        ghost var before, left := r, todo;
        var j := 0;
        while j < |groups[o]|
          invariant 0 <= j <= |groups[o]|
          invariant r == before + set x | x in groups[o][..j]
        {
          r := r + {groups[o][j]};
          j := j + 1;
        }
        assert groups[o][..|groups[o]|] == groups[o];
        todo := todo - {o};
      }
    }

    method CopyAvailable(kind: Kind) returns (available: seq<Name>)
      ensures forall x :: x in available <==> Available(groups, env, kind, x)
      ensures forall x :: x in available <==>
                && x in env.hardware && (kind, x) in env.supports && x !in env.vlans
                && forall o :: o in groups ==> x !in groups[o]
    {
      var excluded := CollectMembers(Bond, {});
      excluded := CollectMembers(Bridge, excluded);
      var i := 0;
      ghost var taken := excluded;
      forall x
        ensures x in taken <==> Anywhere(groups, x)
      {
      }
      while i < |env.vlans|
        invariant 0 <= i <= |env.vlans|
        invariant excluded == taken + set x | x in env.vlans[..i]
      {
        excluded := excluded + {env.vlans[i]};
        i := i + 1;
      }
      assert env.vlans[..|env.vlans|] == env.vlans;
      available := [];
      i := 0;
      while i < |env.hardware|
        invariant 0 <= i <= |env.hardware|
        invariant forall x :: x in available <==>
                    x in env.hardware[..i] && (kind, x) in env.supports && x !in excluded
      {
        var x := env.hardware[i];
        assert env.hardware[..i + 1] == env.hardware[..i] + [x];
        if (kind, x) in env.supports && x !in excluded {
          available := available + [x];
        }
        i := i + 1;
      }
      assert env.hardware[..|env.hardware|] == env.hardware;
    }

    method Check(id: Id, cached: seq<Name>, members: seq<Name>) returns (status: Status)
      ensures status == Verdict(groups, env, id, cached, members)
    {
      var available := CopyAvailable(id.kind);
      var i := 0;
      while i < |members|
        invariant 0 <= i <= |members|
        invariant Verdict(groups, env, id, cached, members) == Verdict(groups, env, id, cached, members[i..])
      {
        var x := members[i];
        assert members[i..][0] == x && members[i..][1..] == members[i + 1..];
        if x !in cached {
          if x !in available {
            return InvalidArgument;
          }
          if x in env.inService {
            return KeyExists;
          }
        }
        i := i + 1;
      }
      return if id in groups then Fine else Failed;
    }
  }

  /** A handle of a stored bond or bridge, or, without preferences, of one that
      the system reports. */
  class Handle {
    const id: Id
    const prefs: Preferences?
    var cached: seq<Name>

    constructor (prefs: Preferences, id: Id)
      requires id in prefs.groups
      ensures this.prefs == prefs && this.id == id && cached == prefs.groups[id]
    {
      this.prefs := prefs;
      this.id := id;
      cached := prefs.groups[id];
    }

    constructor Reported(id: Id, members: seq<Name>)
      ensures this.prefs == null && this.id == id && cached == members
    {
      this.prefs := null;
      this.id := id;
      cached := members;
    }

    /** A rejected edit changes nothing; an accepted one replaces the stored and
        the cached list and no other.  Without preferences nothing is checked. */
    method SetMembers(members: seq<Name>) returns (status: Status)
      modifies this
      modifies if prefs == null then {} else {prefs}
      ensures prefs == null ==> status == Fine
      ensures prefs != null ==>
                && prefs.env == old(prefs.env)
                && status == Verdict(old(prefs.groups), prefs.env, id, old(cached), members)
                && prefs.groups == if status == Fine then old(prefs.groups)[id := members] else old(prefs.groups)
      ensures cached == if status == Fine then members else old(cached)
    {
      status := Fine;
      if prefs != null {
        status := prefs.Check(id, cached, members);
        if status == Fine {
          prefs.groups := prefs.groups[id := members];
        }
      }
      if status == Fine {
        cached := members;
      }
    }
  }

  // ---- one edit ----

  /** The verdict in terms of the wanted members: one that the handle does not
      hold yet has to be available and out of service, and the first that is
      not decides, unavailable before in service. */
  lemma {:induction false} VerdictIs(g: Groups, env: Surroundings, id: Id, cached: seq<Name>, members: seq<Name>)
    ensures var v := Verdict(g, env, id, cached, members);
            var at := FirstNew(g, env, id.kind, cached, members);
            && at <= |members|
            && (forall j :: 0 <= j < at ==>
                  members[j] in cached
                  || (Available(g, env, id.kind, members[j]) && members[j] !in env.inService))
            && (at == |members| ==> v == if id in g then Fine else Failed)
            && (at < |members| ==>
                  && members[at] !in cached
                  && (v == InvalidArgument <==> !Available(g, env, id.kind, members[at]))
                  && (v == KeyExists <==> Available(g, env, id.kind, members[at]) && members[at] in env.inService)
                  && (v == InvalidArgument || v == KeyExists))
  {
    if members != [] && Fault(g, env, id.kind, cached, members[0]) == Fine {
      VerdictIs(g, env, id, cached, members[1..]);
      var at := FirstNew(g, env, id.kind, cached, members);
      forall j | 0 <= j < at
        ensures members[j] in cached
                || (Available(g, env, id.kind, members[j]) && members[j] !in env.inService)
      {
        if j > 0 {
          assert members[j] == members[1..][j - 1];
        }
      }
    }
  }

  /** Where the first faulty member is. */
  ghost function FirstNew(g: Groups, env: Surroundings, kind: Kind, cached: seq<Name>, members: seq<Name>): nat {
    if members == [] || Fault(g, env, kind, cached, members[0]) != Fine then 0
    else 1 + FirstNew(g, env, kind, cached, members[1..])
  }

  lemma {:induction false} AcceptedIff(g: Groups, env: Surroundings, id: Id, cached: seq<Name>, members: seq<Name>)
    ensures Verdict(g, env, id, cached, members) == Fine <==>
            id in g && forall x :: x in members ==> Fault(g, env, id.kind, cached, x) == Fine
  {
    hide Fault;
    if members != [] {
      AcceptedIff(g, env, id, cached, members[1..]);
      assert forall x :: x in members <==> x == members[0] || x in members[1..];
    }
  }

  /** An accepted edit keeps the lists apart exactly if none of the wanted
      members that the handle believes to hold is stored elsewhere. */
  lemma EditApart(g: Groups, env: Surroundings, id: Id, cached: seq<Name>, members: seq<Name>)
    requires Apart(g) && Verdict(g, env, id, cached, members) == Fine
    ensures Apart(g[id := members]) <==>
            forall x :: x in members && x in cached ==> !Elsewhere(g, id, x)
  {
    hide Verdict;
    AcceptedIff(g, env, id, cached, members);
    var g' := g[id := members];
    if x, o :| x in members && o in g && o != id && x in g[o] {
      assert x in g'[id] && x in g'[o];
    }
  }

  // ---- runs ----

  /** A handle, as a value. */
  datatype View = View(id: Id, cached: seq<Name>)

  datatype State = State(groups: Groups, handles: seq<View>, env: Surroundings)

  datatype Event =
    | Create(id: Id)
    | Delete(id: Id)
    | Open(id: Id)
    | Edit(handle: nat, members: seq<Name>)
    | Change(env: Surroundings)

  ghost function Step(s: State, e: Event): State {
    match e
    case Create(id) => if id in s.groups then s else s.(groups := s.groups[id := []])
    case Delete(id) => s.(groups := s.groups - {id})
    case Open(id) => if id in s.groups then s.(handles := s.handles + [View(id, s.groups[id])]) else s
    case Edit(h, members) =>
      if h < |s.handles| && Verdict(s.groups, s.env, s.handles[h].id, s.handles[h].cached, members) == Fine then
        s.(groups := s.groups[s.handles[h].id := members],
           handles := s.handles[h := s.handles[h].(cached := members)])
      else s
    case Change(env) => s.(env := env)
  }

  ghost function Run(s: State, es: seq<Event>): State
    decreases |es|
  {
    if es == [] then s else Run(Step(s, es[0]), es[1..])
  }

  ghost predicate HasHandle(s: State, id: Id) {
    exists h :: 0 <= h < |s.handles| && s.handles[h].id == id
  }

  /** At most one handle is opened for what is stored under a name. */
  ghost predicate OneHandleEach(s: State, es: seq<Event>)
    decreases |es|
  {
    es == [] ||
    (((es[0].Open? || es[0].Create?) ==> !HasHandle(s, es[0].id)) && OneHandleEach(Step(s, es[0]), es[1..]))
  }

  /** Handles are of different lists, and each caches what is stored. */
  ghost predicate Coherent(s: State) {
    && (forall h, h' :: 0 <= h < h' < |s.handles| ==> s.handles[h].id != s.handles[h'].id)
    && (forall h :: 0 <= h < |s.handles| && s.handles[h].id in s.groups ==>
          s.groups[s.handles[h].id] == s.handles[h].cached)
  }

  lemma StepKeepsApart(s: State, e: Event)
    requires Apart(s.groups) && Coherent(s)
    requires e.Open? || e.Create? ==> !HasHandle(s, e.id)
    ensures Apart(Step(s, e).groups) && Coherent(Step(s, e))
  {
    hide Verdict;
    if e.Edit? && e.handle < |s.handles| {
      var v := s.handles[e.handle];
      if Verdict(s.groups, s.env, v.id, v.cached, e.members) == Fine {
        AcceptedIff(s.groups, s.env, v.id, v.cached, e.members);
        EditApart(s.groups, s.env, v.id, v.cached, e.members);
      }
    }
  }

  /** Over every run of creations, deletions, member edits and changes of the
      surroundings, with one handle for each bond and bridge, no interface is
      ever in two of them. */
  lemma {:induction false} RunKeepsApart(s: State, es: seq<Event>)
    requires Apart(s.groups) && Coherent(s) && OneHandleEach(s, es)
    ensures Apart(Run(s, es).groups) && Coherent(Run(s, es))
    decreases |es|
  {
    if es != [] {
      StepKeepsApart(s, es[0]);
      RunKeepsApart(Step(s, es[0]), es[1..]);
    }
  }

  // ---- what the reconcilers can rely on ----

  ghost predicate NoDuplicates(g: Groups) {
    forall id :: id in g ==> NoDup(g[id])
  }

  /** The stored bonds, or the stored bridges, as a configuration. */
  ghost predicate Listed(cs: seq<VirtualKernel.Conf>, g: Groups, kind: Kind) {
    && VirtualKernel.DistinctNames(cs)
    && forall i :: 0 <= i < |cs| ==> Id(kind, cs[i].name) in g && g[Id(kind, cs[i].name)] == cs[i].members
  }

  /** Lists that are kept apart make a configuration that the reconcilers can
      work with exactly if none has a duplicate. */
  lemma GoodConfigIff(cs: seq<VirtualKernel.Conf>, g: Groups, kind: Kind)
    requires Apart(g) && Listed(cs, g, kind)
    ensures VirtualKernel.GoodConfig(cs) <==> forall i :: 0 <= i < |cs| ==> NoDup(cs[i].members)
  {
    hide NoDup;
    forall i, j, x | 0 <= i < |cs| && 0 <= j < |cs| && x in cs[i].members && x in cs[j].members
      ensures i == j
    {
      assert Id(kind, cs[i].name) == Id(kind, cs[j].name);
    }
  }

  /** The checks let a member be named twice. */
  lemma DuplicateAccepted(g: Groups, env: Surroundings, id: Id, x: Name)
    requires id in g && Available(g, env, id.kind, x) && x !in env.inService
    ensures Verdict(g, env, id, [], [x, x]) == Fine && !NoDup([x, x])
  {
    hide Verdict;
    AcceptedIff(g, env, id, [], [x, x]);
    assert [x, x][0] == [x, x][1];
  }

  /** So if no edit names a member twice, any run of edits leaves a good
      configuration of bonds and one of bridges. */
  lemma {:induction false} RunGivesGoodConfig(s: State, es: seq<Event>, kind: Kind, cs: seq<VirtualKernel.Conf>)
    requires Apart(s.groups) && Coherent(s) && OneHandleEach(s, es) && NoDuplicates(s.groups)
    requires forall i :: 0 <= i < |es| && es[i].Edit? ==> NoDup(es[i].members)
    requires Listed(cs, Run(s, es).groups, kind)
    ensures VirtualKernel.GoodConfig(cs)
  {
    hide Run, NoDup, Apart, Listed;
    RunKeepsApart(s, es);
    RunKeepsNoDuplicates(s, es);
    GoodConfigIff(cs, Run(s, es).groups, kind);
    ListedNoDuplicates(cs, Run(s, es).groups, kind);
  }

  lemma ListedNoDuplicates(cs: seq<VirtualKernel.Conf>, g: Groups, kind: Kind)
    requires Listed(cs, g, kind) && NoDuplicates(g)
    ensures forall i :: 0 <= i < |cs| ==> NoDup(cs[i].members)
  {
    hide NoDup;
  }

  lemma {:induction false} RunKeepsNoDuplicates(s: State, es: seq<Event>)
    requires NoDuplicates(s.groups) && forall i :: 0 <= i < |es| && es[i].Edit? ==> NoDup(es[i].members)
    ensures NoDuplicates(Run(s, es).groups)
    decreases |es|
  {
    if es != [] {
      assert es[0].Edit? ==> NoDup(es[0].members);
      assert NoDuplicates(Step(s, es[0]).groups);
      hide Step, NoDup;
      RunKeepsNoDuplicates(Step(s, es[0]), es[1..]);
    }
  }

  /** With two handles of one bond the check can be passed on a stale cache,
      and an interface ends up in two bonds. */
  lemma StaleHandle(b0: Id, b1: Id, x: Name, env: Surroundings)
    requires b0 != b1 && b0.kind == b1.kind
    requires x in env.hardware && x !in env.vlans && x !in env.inService && (b0.kind, x) in env.supports
    ensures var s := State(map[b0 := [], b1 := []], [View(b0, []), View(b0, []), View(b1, [])], env);
            var s' := Step(Step(Step(Step(s, Edit(0, [x])), Edit(1, [])), Edit(2, [x])), Edit(0, [x]));
            Apart(s.groups) && s'.groups == map[b0 := [x], b1 := [x]] && !Apart(s'.groups)
  {
    hide Verdict;
    var s := State(map[b0 := [], b1 := []], [View(b0, []), View(b0, []), View(b1, [])], env);
    AcceptedIff(s.groups, env, b0, [], [x]);
    var s1 := Step(s, Edit(0, [x]));
    AcceptedIff(s1.groups, env, b0, [], []);
    var s2 := Step(s1, Edit(1, []));
    AcceptedIff(s2.groups, env, b1, [], [x]);
    var s3 := Step(s2, Edit(2, [x]));
    AcceptedIff(s3.groups, env, b0, [x], [x]);
    var s4 := Step(s3, Edit(0, [x]));
    assert x in s4.groups[b0] && x in s4.groups[b1];
  }
}
