/** The linked lists of children (SCDPlugin.c), relinked in place. */
module ChildLists {
  import opened ChildReaper

  class ChildInfo {
    const id: nat
    const pid: nat
    var status: int
    var next: ChildInfo?

    constructor (id: nat, pid: nat)
      ensures this.id == id && this.pid == pid && next == null
    {
      this.id, this.pid, status, next := id, pid, 0, null;
    }
  }

  ghost function At(nodes: seq<ChildInfo>, i: nat): ChildInfo? {
    if i < |nodes| then nodes[i] else null
  }

  ghost predicate NoRepeat(nodes: seq<ChildInfo>) {
    forall i, j :: 0 <= i < j < |nodes| ==> nodes[i] != nodes[j]
  }

  /** head leads through these nodes, and no node comes twice. */
  ghost predicate Chained(head: ChildInfo?, nodes: seq<ChildInfo>)
    reads nodes
  {
    && head == At(nodes, 0) && NoRepeat(nodes)
    && (forall i :: 0 <= i < |nodes| ==> nodes[i].next == At(nodes, i + 1))
  }

  ghost function EntryOf(n: ChildInfo): Entry {
    Entry(n.id, n.pid)
  }

  ghost function Entries(nodes: seq<ChildInfo>): seq<Entry> {
    seq(|nodes|, i requires 0 <= i < |nodes| => EntryOf(nodes[i]))
  }

  ghost function ReapedOf(nodes: seq<ChildInfo>): seq<Reaped>
    reads nodes
  {
    seq(|nodes|, i requires 0 <= i < |nodes| reads nodes => Reaped(nodes[i].id, nodes[i].pid, nodes[i].status))
  }

  lemma FirstIs(active: seq<Entry>, pid: nat, k: nat)
    requires k <= |active| && (forall j :: 0 <= j < k ==> active[j].pid != pid)
    requires k < |active| ==> active[k].pid == pid
    ensures First(active, pid) == k
  {
  }

  class Lists {
    var activeChildren: ChildInfo?
    var reapedChildren: ChildInfo?
    ghost var active: seq<ChildInfo>
    ghost var reaped: seq<ChildInfo>

    ghost predicate Valid()
      reads this, active, reaped
    {
      && Chained(activeChildren, active) && Chained(reapedChildren, reaped)
      && (forall n :: n in active ==> n !in reaped)
    }

    constructor ()
      ensures Valid() && active == [] && reaped == []
    {
      activeChildren, reapedChildren, active, reaped := null, null, [], [];
    }

    /** A new child comes first. */
    method Register(id: nat, pid: nat)
      requires Valid()
      modifies this`activeChildren, this`active
      ensures Valid() && |active| > 0 && fresh(active[0]) && active == [active[0]] + old(active)
      ensures Entries(active) == [Entry(id, pid)] + old(Entries(active))
      ensures ReapedOf(reaped) == old(ReapedOf(reaped))
    {
      var child := new ChildInfo(id, pid);
      child.next := activeChildren;
      activeChildren := child;
      active := [child] + active;
    }

    /** Moves the first entry with this pid, if there is one, from the active
        to the reaped children. */
    method Reap(pid: nat, status: int)
      requires Valid()
      modifies this, active
      ensures Valid() && multiset(active) + multiset(reaped) == old(multiset(active) + multiset(reaped))
      ensures Entries(active) == Unlinked(old(Entries(active)), pid)
      ensures ReapedOf(reaped) == Linked(old(Entries(active)), old(ReapedOf(reaped)), pid, status)
    {
      hide NoRepeat, Entries, ReapedOf, First;
      var last, child;
      ghost var k;
      last, child, k := Find(pid);
      EntriesAt(active);
      FirstIs(Entries(active), pid, k);
      if child != null {
        Transfer(last, child, k, status);
      }
    }

    /** The first active child with this pid, and the one before it. */
    method Find(pid: nat) returns (last: ChildInfo?, child: ChildInfo?, ghost k: nat)
      requires Valid()
      ensures k <= |active| && child == At(active, k)
      ensures last == if k == 0 then null else active[k - 1]
      ensures forall j :: 0 <= j < k ==> active[j].pid != pid
      ensures child != null ==> child.pid == pid
    {
      last, child, k := null, activeChildren, 0;
      while child != null
        invariant k <= |active| && child == At(active, k)
        invariant last == if k == 0 then null else active[k - 1]
        invariant forall j :: 0 <= j < k ==> active[j].pid != pid
        decreases |active| - k
      {
        if child.pid == pid {
          return;
        }
        last, child, k := child, child.next, k + 1;
      }
    }

    method Transfer(last: ChildInfo?, child: ChildInfo, ghost k: nat, status: int)
      requires Valid() && k < |active| && child == active[k]
      requires last == if k == 0 then null else active[k - 1]
      modifies this, active
      ensures Valid() && multiset(active) + multiset(reaped) == old(multiset(active) + multiset(reaped))
      ensures Entries(active) == old(Entries(active))[..k] + old(Entries(active))[k + 1..]
      ensures ReapedOf(reaped) == [Reaped(child.id, child.pid, status)] + old(ReapedOf(reaped))
    {
      hide NoRepeat, Entries, ReapedOf;
      Regroup(active, reaped, k);
      EntriesAt(active);
      EntriesWithout(active, k);
      ReapedAt(reaped);
      ghost var others, was := reaped, ReapedOf(reaped);
      Unlink(last, child, k);
      Push(child, status);
      ReapedMore(child, others, was);
    }

    method Unlink(last: ChildInfo?, child: ChildInfo, ghost k: nat)
      requires Valid() && k < |active| && child == active[k]
      requires last == if k == 0 then null else active[k - 1]
      modifies this`activeChildren, this`active
      modifies active`next
      ensures Valid() && child !in active && child !in reaped
      ensures active == old(active)[..k] + old(active)[k + 1..]
    {
      hide NoRepeat;
      ghost var was := active;
      if last != null {
        last.next := child.next;
      } else {
        activeChildren := child.next;
      }
      active := was[..k] + was[k + 1..];
      assert Chained(reapedChildren, reaped) by {
        assert last != null ==> last in was;
      }
      forall i | 0 <= i < |was| && i != k - 1
        ensures was[i].next == At(was, i + 1)
      {
        if k > 0 {
          DifferentNodes(was, i, k - 1);
        }
      }
      Relinked(was, k);
      NoRepeatWithout(was, k);
      assert child in was;
    }

    method Push(child: ChildInfo, status: int)
      requires Valid() && child !in active && child !in reaped
      modifies this`reapedChildren, this`reaped, child
      ensures Valid() && reaped == [child] + old(reaped)
      ensures child.status == status
    {
      hide NoRepeat;
      child.status := status;
      child.next := reapedChildren;
      reapedChildren := child;
      ghost var was := reaped;
      reaped := [child] + reaped;
      forall i | 0 <= i < |was|
        ensures was[i].next == At(reaped, i + 2)
      {
        assert was[i] in was;
      }
      NoRepeatMore(child, was);
    }

    /** Takes the next child to call out. */
    method Take() returns (r: Reaped)
      requires Valid() && reapedChildren != null
      modifies this`reapedChildren, this`reaped
      ensures Valid() && Entries(active) == old(Entries(active))
      ensures [r] + ReapedOf(reaped) == old(ReapedOf(reaped))
    {
      var child := reapedChildren;
      reapedChildren := reapedChildren.next;
      reaped := reaped[1..];
      r := Reaped(child.id, child.pid, child.status);
    }
  }

  lemma DifferentNodes(nodes: seq<ChildInfo>, i: nat, j: nat)
    requires NoRepeat(nodes) && i < |nodes| && j < |nodes| && i != j
    ensures nodes[i] != nodes[j]
  {
  }

  lemma NoRepeatWithout(nodes: seq<ChildInfo>, k: nat)
    requires NoRepeat(nodes) && k < |nodes|
    ensures NoRepeat(nodes[..k] + nodes[k + 1..])
  {
  }

  /** Bypassing the node at k leaves a chain of the others. */
  lemma Relinked(was: seq<ChildInfo>, k: nat)
    requires NoRepeat(was) && k < |was|
    requires forall i :: 0 <= i < |was| && i != k - 1 ==> was[i].next == At(was, i + 1)
    requires k > 0 ==> was[k - 1].next == At(was, k + 1)
    ensures var rest := was[..k] + was[k + 1..];
            && (forall i :: 0 <= i < |rest| ==> rest[i].next == At(rest, i + 1))
            && (forall n :: n in rest ==> n in was && n != was[k])
  {
    var rest := was[..k] + was[k + 1..];
    forall i | 0 <= i < |rest|
      ensures rest[i].next == At(rest, i + 1)
    {
      var h := if i < k then i else i + 1;
      assert rest[i] == was[h];
    }
  }

  lemma NoRepeatMore(n: ChildInfo, nodes: seq<ChildInfo>)
    requires NoRepeat(nodes) && n !in nodes
    ensures NoRepeat([n] + nodes)
  {
  }

  lemma ReapedAt(nodes: seq<ChildInfo>)
    ensures |ReapedOf(nodes)| == |nodes|
    ensures forall i :: 0 <= i < |nodes| ==> ReapedOf(nodes)[i] == Reaped(nodes[i].id, nodes[i].pid, nodes[i].status)
  {
  }

  /** Pushing a child leaves what is known of the others. */
  lemma ReapedMore(n: ChildInfo, nodes: seq<ChildInfo>, was: seq<Reaped>)
    requires |was| == |nodes|
    requires forall i :: 0 <= i < |nodes| ==> was[i] == Reaped(nodes[i].id, nodes[i].pid, nodes[i].status)
    ensures ReapedOf([n] + nodes) == [Reaped(n.id, n.pid, n.status)] + was
  {
  }

  lemma EntriesAt(nodes: seq<ChildInfo>)
    ensures |Entries(nodes)| == |nodes|
    ensures forall i :: 0 <= i < |nodes| ==> Entries(nodes)[i] == Entry(nodes[i].id, nodes[i].pid)
  {
  }

  lemma EntriesWithout(nodes: seq<ChildInfo>, k: nat)
    requires k < |nodes|
    ensures Entries(nodes[..k] + nodes[k + 1..]) == Entries(nodes)[..k] + Entries(nodes)[k + 1..]
  {
  }

  lemma Regroup(active: seq<ChildInfo>, reaped: seq<ChildInfo>, k: nat)
    requires k < |active|
    ensures multiset(active[..k] + active[k + 1..]) + multiset([active[k]] + reaped) ==
            multiset(active) + multiset(reaped)
  {
    assert active == active[..k] + [active[k]] + active[k + 1..];
  }
}
