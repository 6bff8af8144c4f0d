/** A client of the IPMonitor control server (IPMonitorControl.c): it keeps a
    mirror of what it asserted, and replays it when the server has restarted. */
module IPMonitorClient {
  import opened Wrappers
  import opened Bytes
  import opened InterfaceLists
  import opened RankLedger
  import opened IPMonitorServer

  const NO_TABLES := Tables(map[], map[])

  // ---- one connection among many ----

  predicate Concerns(e: Event, c: Conn) {
    !e.Snapshot? && e.c == c
  }

  /** The events of one connection. */
  function Mine(es: seq<Event>, c: Conn): seq<Event> {
    if es == [] then []
    else
      var n := |es| - 1;
      if Concerns(es[n], c) then Mine(es[..n], c) + [es[n]] else Mine(es[..n], c)
  }

  /** What the events of one connection make of its tables. */
  function Fold(t: Tables, es: seq<Event>): Tables {
    if es == [] then t
    else
      var n := |es| - 1;
      var u := Fold(t, es[..n]);
      match es[n]
      case Rank(_, i, r) => u.(ranks := Put(u.ranks, i, r))
      case Advisory(_, i, a) => u.(advisories := Put(u.advisories, i, a))
      case Disconnect(_) => NO_TABLES
      case Snapshot => u
  }

  lemma StepProjects(s: State, e: Event, c: Conn)
    ensures Of(Step(s, e).sessions, c) ==
            if Concerns(e, c) then Fold(Of(s.sessions, c), [e]) else Of(s.sessions, c)
  {
    hide Reported, Current;
    assert [e][..0] == [];
    assert Fold(Of(s.sessions, c), []) == Of(s.sessions, c);
  }

  /** What a session asserts depends on the events of its own connection only,
      however those of the others come in between. */
  lemma {:induction false} RunProjects(s: State, es: seq<Event>, c: Conn)
    ensures Of(Run(s, es).sessions, c) == Fold(Of(s.sessions, c), Mine(es, c))
  {
    if es != [] {
      var n := |es| - 1;
      RunProjects(s, es[..n], c);
      StepProjects(Run(s, es[..n]), es[n], c);
      if Concerns(es[n], c) {
        var ms := Mine(es[..n], c);
        assert (ms + [es[n]])[..|ms|] == ms;
        hide Run, Mine, Step;
        FoldLast(Of(s.sessions, c), ms, es[n]);
      }
    }
  }

  lemma FoldLast(t: Tables, es: seq<Event>, e: Event)
    ensures Fold(t, es + [e]) == Fold(Fold(t, es), [e])
  {
    assert (es + [e])[..|es|] == es;
    assert [e][..0] == [];
  }

  lemma {:induction false} FoldFirst(t: Tables, es: seq<Event>)
    requires es != []
    ensures Fold(t, es) == Fold(Fold(t, [es[0]]), es[1..])
  {
    var n := |es| - 1;
    if n == 0 {
      assert es == [es[0]] && es[1..] == [];
      assert Fold(Fold(t, [es[0]]), []) == Fold(t, [es[0]]);
    } else {
      FoldFirst(t, es[..n]);
      assert es[..n][1..] == es[1..][..n - 1];
    }
  }

  ghost predicate NoZero(t: Tables) {
    && (forall i :: i in t.ranks ==> t.ranks[i] != 0)
    && (forall i :: i in t.advisories ==> t.advisories[i] != 0)
  }

  lemma {:induction false} FoldNoZero(t: Tables, es: seq<Event>)
    requires NoZero(t)
    ensures NoZero(Fold(t, es))
  {
    if es != [] {
      FoldNoZero(t, es[..|es| - 1]);
    }
  }

  // ---- replay ----

  /** e asserts again something that is in t. */
  ghost predicate Repeats(e: Event, t: Tables) {
    match e
    case Rank(_, i, r) => i in t.ranks && t.ranks[i] == r
    case Advisory(_, i, a) => i in t.advisories && t.advisories[i] == a
    case Disconnect(_) => false
    case Snapshot => false
  }

  /** The events assert all that is in t, in any order, and nothing else. */
  ghost predicate IsReplay(es: seq<Event>, c: Conn, t: Tables) {
    && (forall e :: e in es ==> Repeats(e, t))
    && (forall i :: i in t.ranks ==> Rank(c, i, t.ranks[i]) in es)
    && (forall i :: i in t.advisories ==> Advisory(c, i, t.advisories[i]) in es)
  }

  /** m is what was there first, with the entries of t for the names of w put over it. */
  ghost predicate PutOver(m: map<Name, nat>, first: map<Name, nat>, t: map<Name, nat>, w: set<Name>) {
    && (forall i :: i in m ==> (i in t && m[i] == t[i]) || (i in first && m[i] == first[i]))
    && (forall i :: i in first ==> i in m)
    && (forall i :: i in t && i in w ==> i in m && m[i] == t[i])
  }

  ghost function RankedIn(es: seq<Event>, c: Conn): set<Name> {
    set e | e in es && e.Rank? && e.c == c :: e.i
  }

  ghost function AdvisedIn(es: seq<Event>, c: Conn): set<Name> {
    set e | e in es && e.Advisory? && e.c == c :: e.i
  }

  lemma {:induction false} ReplayFold(first: Tables, es: seq<Event>, c: Conn, t: Tables)
    requires NoZero(t) && forall e :: e in es ==> Repeats(e, t)
    ensures PutOver(Fold(first, es).ranks, first.ranks, t.ranks, RankedIn(es, c))
    ensures PutOver(Fold(first, es).advisories, first.advisories, t.advisories, AdvisedIn(es, c))
  {
    if es != [] {
      var n := |es| - 1;
      ReplayFold(first, es[..n], c, t);
      assert Repeats(es[n], t);
      assert es == es[..n] + [es[n]];
      assert forall i :: i in RankedIn(es, c) ==> i in RankedIn(es[..n], c) || (es[n].Rank? && es[n].i == i);
      assert forall i :: i in AdvisedIn(es, c) ==> i in AdvisedIn(es[..n], c) || (es[n].Advisory? && es[n].i == i);
    }
  }

  /** A replay in any order puts all that is in t over what was there first. */
  lemma ReplayOver(first: Tables, es: seq<Event>, c: Conn, t: Tables)
    requires NoZero(t) && IsReplay(es, c, t)
    ensures Fold(first, es) == Tables(first.ranks + t.ranks, first.advisories + t.advisories)
  {
    hide Fold, NoZero;
    assert NoZero(t);
    ReplayFold(first, es, c, t);
    forall i | i in t.ranks
      ensures i in RankedIn(es, c)
    {
      assert Rank(c, i, t.ranks[i]) in es;
    }
    forall i | i in t.advisories
      ensures i in AdvisedIn(es, c)
    {
      assert Advisory(c, i, t.advisories[i]) in es;
    }
    var u := Fold(first, es);
    assert u.ranks == first.ranks + t.ranks;
    assert u.advisories == first.advisories + t.advisories;
  }

  lemma ReplayRebuilds(es: seq<Event>, c: Conn, t: Tables)
    requires NoZero(t) && IsReplay(es, c, t)
    ensures Fold(NO_TABLES, es) == t
  {
    hide Fold, IsReplay;
    ReplayOver(NO_TABLES, es, c, t);
    assert map[] + t.ranks == t.ranks && map[] + t.advisories == t.advisories;
  }

  // ---- a request that was under way ----

  /** The mirror has another value for what e sets. */
  ghost predicate Overridden(e: Event, t: Tables) {
    match e
    case Rank(_, i, r) => i in t.ranks && t.ranks[i] != r
    case Advisory(_, i, a) => i in t.advisories && t.advisories[i] != a
    case _ => false
  }

  /** A request that was interrupted is sent again. If it reaches the new server
      after the replay, the session ends as the client will mirror it. */
  lemma RetryAfterReplay(e: Event, es: seq<Event>, c: Conn, t: Tables)
    requires NoZero(t) && IsReplay(es, c, t)
    ensures Fold(NO_TABLES, es + [e]) == Fold(t, [e])
  {
    hide Fold, IsReplay;
    FoldLast(NO_TABLES, es, e);
    ReplayRebuilds(es, c, t);
  }

  /** If it gets there first, it does so exactly if the mirror had no other value
      for that interface: otherwise the replay brings the old one back. */
  lemma RetryBeforeReplay(e: Event, es: seq<Event>, c: Conn, t: Tables)
    requires NoZero(t) && IsReplay(es, c, t) && (e.Rank? || e.Advisory?)
    ensures Fold(NO_TABLES, [e] + es) == Fold(t, [e]) <==> !Overridden(e, t)
  {
    hide Fold, IsReplay;
    FoldFirst(NO_TABLES, [e] + es);
    assert ([e] + es)[1..] == es;
    FoldOne(NO_TABLES, e);
    FoldOne(t, e);
    ReplayOver(Fold(NO_TABLES, [e]), es, c, t);
    var m := Fold(NO_TABLES, [e] + es);
    if e.Rank? {
      PutUnder(t.ranks, e.i, e.r);
      assert map[] + t.advisories == t.advisories;
    } else {
      PutUnder(t.advisories, e.i, e.a);
      assert map[] + t.ranks == t.ranks;
    }
  }

  /** A client that had ranked an interface First sets it Last while the server
      goes away: the new server can end with First. */
  lemma RetryLost(i: Name, c: Conn)
    ensures var t := Tables(map[i := RANK_FIRST], map[]);
            var e, es := Rank(c, i, RANK_LAST), [Rank(c, i, RANK_FIRST)];
            NoZero(t) && IsReplay(es, c, t) && Fold(NO_TABLES, [e] + es) == t && Fold(t, [e]) != t
  {
    hide Fold;
    var t := Tables(map[i := RANK_FIRST], map[]);
    var e, es := Rank(c, i, RANK_LAST), [Rank(c, i, RANK_FIRST)];
    FoldFirst(NO_TABLES, [e] + es);
    assert ([e] + es)[1..] == es;
    FoldOne(NO_TABLES, e);
    FoldOne(Fold(NO_TABLES, [e]), es[0]);
    FoldOne(t, e);
    assert Fold(t, [e]).ranks[i] == RANK_LAST;
  }

  lemma PutUnder(m: map<Name, nat>, i: Name, v: nat)
    requires forall j :: j in m ==> m[j] != 0
    ensures Put(map[], i, v) + m == Put(m, i, v) <==> !(i in m && m[i] != v)
  {
    var l, r := Put(map[], i, v) + m, Put(m, i, v);
    if i in m && m[i] != v {
      assert i in l && l[i] == m[i];
    } else {
      assert l == r;
    }
  }

  /** After any run, a restarted server that gets the client's mirror replayed,
      among the events of any others, holds for that client exactly what the
      server held before. */
  lemma RestartRebuilds(before: seq<Event>, after: seq<Event>, c: Conn)
    requires IsReplay(Mine(after, c), c, Fold(NO_TABLES, Mine(before, c)))
    ensures Of(Run(EMPTY, after).sessions, c) == Of(Run(EMPTY, before).sessions, c)
  {
    hide Run, Fold, Mine, IsReplay;
    RunProjects(EMPTY, before, c);
    RunProjects(EMPTY, after, c);
    FoldNoZero(NO_TABLES, Mine(before, c));
    ReplayRebuilds(Mine(after, c), c, Fold(NO_TABLES, Mine(before, c)));
  }

  // ---- the client ----

  /** Room for an interface name, with its terminator. */
  const IF_NAMESIZE := 16

  predicate NameFits(i: Name) {
    |i.text| < IF_NAMESIZE
  }

  ghost predicate NamesFit(d: Dict) {
    forall i :: i in Entries(d) ==> NameFits(i)
  }

  class Client {
    const conn: Conn
    const root: bool
    const entitled: bool
    var assertions: Dict
    var advisories: Dict

    /** Updates of the mirror that wait on the client's queue. */
    var queue: seq<Event>

    constructor (conn: Conn, root: bool, entitled: bool)
      ensures Valid() && Mirror() == NO_TABLES && queue == []
      ensures this.conn == conn && this.root == root && this.entitled == entitled
    {
      this.conn, this.root, this.entitled := conn, root, entitled;
      assertions, advisories, queue := None, None, [];
    }

    function Mirror(): Tables
      reads this
    {
      Tables(Entries(assertions), Entries(advisories))
    }

    /** What is mirrored has passed the server's checks, and never a default. */
    ghost predicate Valid()
      reads this
    {
      && GoodDict(assertions, RANK_SCOPED) && NamesFit(assertions) && (assertions.Some? ==> root)
      && GoodDict(advisories, ADVISORY_UPLINK) && NamesFit(advisories) && (advisories.Some? ==> root || entitled)
      && forall k :: 0 <= k < |queue| ==> Passed(queue[k])
    }

    /** An update that the server accepted. */
    ghost predicate Passed(e: Event) {
      match e
      case Rank(_, i, r) => root && NameFits(i) && r <= RANK_SCOPED
      case Advisory(_, i, a) => (root || entitled) && NameFits(i) && a <= ADVISORY_UPLINK
      case _ => false
    }

    /** The server holds what is mirrored, with the updates that wait. */
    ghost predicate Synced(server: Server)
      reads this, server
      requires server.Valid()
    {
      Of(server.View().sessions, conn) == Fold(Mirror(), queue)
    }

    /** What the server accepts is put on the queue for the mirror. */
    method SetPrimaryRank(server: Server, i: Name, rank: nat) returns (ok: bool)
      requires Valid() && server.Valid() && Synced(server) && rank < U32_LIMIT
      modifies this`queue, server
      ensures Valid() && server.Valid() && Synced(server)
      ensures ok <==> NameFits(i) && root && rank <= RANK_SCOPED
      ensures queue == if ok then old(queue) + [Rank(conn, i, rank)] else old(queue)
      ensures server.View() == if ok then RankLedger.SetRank(old(server.View()), conn, i, rank) else old(server.View())
    {
      hide Ledger, LastReports, AllGood, GoodDict, NamesFit, Fold;
      if !NameFits(i) {
        return false;
      }
      var error := server.HandleSetRank(conn, root, Some(i), rank);
      if error != Done {
        return false;
      }
      StepProjects(old(server.View()), Rank(conn, i, rank), conn);
      FoldLast(Mirror(), queue, Rank(conn, i, rank));
      queue := queue + [Rank(conn, i, rank)];
      return true;
    }

    method SetAdvisory(server: Server, i: Name, advisory: nat) returns (ok: bool)
      requires Valid() && server.Valid() && Synced(server) && advisory < U32_LIMIT
      modifies this`queue, server
      ensures Valid() && server.Valid() && Synced(server)
      ensures ok <==> NameFits(i) && (root || entitled) && advisory <= ADVISORY_UPLINK
      ensures queue == if ok then old(queue) + [Advisory(conn, i, advisory)] else old(queue)
      ensures server.View() == if ok then RankLedger.SetAdvisory(old(server.View()), conn, i, advisory)
                               else old(server.View())
    {
      hide Ledger, LastReports, AllGood, GoodDict, Current, Reported, NamesFit, Fold;
      if !NameFits(i) {
        return false;
      }
      var error := server.HandleSetAdvisory(conn, root, entitled, Some(i), advisory);
      if error != Done {
        return false;
      }
      StepProjects(old(server.View()), Advisory(conn, i, advisory), conn);
      FoldLast(Mirror(), queue, Advisory(conn, i, advisory));
      queue := queue + [Advisory(conn, i, advisory)];
      return true;
    }

    /** The queue comes to the next update of the mirror. */
    method UpdateMirror()
      requires Valid() && queue != []
      modifies this`assertions, this`advisories, this`queue
      ensures Valid() && queue == old(queue)[1..]
      ensures Mirror() == Fold(old(Mirror()), [old(queue)[0]])
      ensures Fold(Mirror(), queue) == old(Fold(Mirror(), queue))
    {
      hide GoodDict, Fold;
      var e := queue[0];
      FoldFirst(Mirror(), queue);
      FoldOne(Mirror(), e);
      NoneIsEmpty(assertions, RANK_SCOPED);
      NoneIsEmpty(advisories, ADVISORY_UPLINK);
      if e.Rank? && !(assertions.None? && e.r == RANK_DEFAULT) {
        assertions := PutDict(assertions, e.i, e.r, RANK_SCOPED);
      }
      if e.Advisory? && !(advisories.None? && e.a == ADVISORY_NONE) {
        advisories := PutDict(advisories, e.i, e.a, ADVISORY_UPLINK);
      }
      queue := queue[1..];
    }

    /** The connection was interrupted: the mirror goes to the new server. */
    method Replay(server: Server)
      requires Valid() && server.Valid() && Of(server.View().sessions, conn) == NO_TABLES
      modifies server
      ensures server.Valid() && Of(server.View().sessions, conn) == Mirror()
      ensures Synced(server) <==> Fold(Mirror(), queue) == Mirror()
      ensures forall c :: c != conn ==> Of(server.View().sessions, c) == old(Of(server.View().sessions, c))
    {
      hide Ledger, LastReports, AllGood, Fold;
      ReplayRanks(server);
      ReplayAdvisories(server);
    }

    method ReplayRanks(server: Server)
      requires Valid() && server.Valid() && Of(server.View().sessions, conn) == NO_TABLES
      modifies server
      ensures server.Valid()
      ensures Of(server.View().sessions, conn) == Tables(Entries(assertions), map[])
      ensures forall c :: c != conn ==> Of(server.View().sessions, c) == old(Of(server.View().sessions, c))
    {
      hide Ledger, LastReports, AllGood, NamesFit, GoodDict, NoDup, Pick, Put, Of, Current, Reported,
        RankLedger.SetRank, RankLedger.SetAdvisory, Close;
      if assertions.None? {
        return;
      }
      var m, todo := assertions.value, assertions.value.Keys;
      PickNone(m);
      while todo != {}
        invariant todo <= m.Keys && server.Valid()
        invariant Of(server.View().sessions, conn) == Tables(Pick(m, m.Keys - todo), map[])
        invariant forall c :: c != conn ==> Of(server.View().sessions, c) == old(Of(server.View().sessions, c))
      {
        var i :| i in todo;
        assert NameFits(i) && 1 <= m[i] <= RANK_SCOPED by {
          Stored(assertions, RANK_SCOPED, i);
        }
        ghost var v := server.View();
        var error := server.HandleSetRank(conn, root, Some(i), m[i]);
        assert error == Done;
        OneStep(v, Rank(conn, i, m[i]), conn);
        PickMore(m, m.Keys - todo, i);
        assert m.Keys - (todo - {i}) == m.Keys - todo + {i};
        todo := todo - {i};
      }
      PickAll(m);
      assert m.Keys - todo == m.Keys;
    }

    method ReplayAdvisories(server: Server)
      requires Valid() && server.Valid() && Of(server.View().sessions, conn).advisories == map[]
      modifies server
      ensures server.Valid()
      ensures Of(server.View().sessions, conn) ==
              old(Of(server.View().sessions, conn)).(advisories := Entries(advisories))
      ensures forall c :: c != conn ==> Of(server.View().sessions, c) == old(Of(server.View().sessions, c))
    {
      hide Ledger, LastReports, AllGood, NamesFit, GoodDict, NoDup, Pick, Put, Of, Current, Reported,
        RankLedger.SetRank, RankLedger.SetAdvisory, Close;
      if advisories.None? {
        return;
      }
      var m, todo := advisories.value, advisories.value.Keys;
      ghost var ranks := Of(server.View().sessions, conn).ranks;
      PickNone(m);
      while todo != {}
        invariant todo <= m.Keys && server.Valid()
        invariant Of(server.View().sessions, conn) == Tables(ranks, Pick(m, m.Keys - todo))
        invariant forall c :: c != conn ==> Of(server.View().sessions, c) == old(Of(server.View().sessions, c))
      {
        var i :| i in todo;
        assert NameFits(i) && 1 <= m[i] <= ADVISORY_UPLINK by {
          Stored(advisories, ADVISORY_UPLINK, i);
        }
        ghost var v := server.View();
        var error := server.HandleSetAdvisory(conn, root, entitled, Some(i), m[i]);
        assert error == Done;
        OneStep(v, Advisory(conn, i, m[i]), conn);
        PickMore(m, m.Keys - todo, i);
        assert m.Keys - (todo - {i}) == m.Keys - todo + {i};
        todo := todo - {i};
      }
      PickAll(m);
      assert m.Keys - todo == m.Keys;
    }
  }

  lemma FoldOne(t: Tables, e: Event)
    ensures e.Rank? ==> Fold(t, [e]) == t.(ranks := Put(t.ranks, e.i, e.r))
    ensures e.Advisory? ==> Fold(t, [e]) == t.(advisories := Put(t.advisories, e.i, e.a))
  {
    assert [e][..0] == [];
    assert Fold(t, []) == t;
  }

  lemma OneStep(s: State, e: Event, c: Conn)
    requires Concerns(e, c)
    ensures var t := Of(s.sessions, c);
            var t' := Of(Step(s, e).sessions, c);
            && (e.Rank? ==> t' == t.(ranks := Put(t.ranks, e.i, e.r)))
            && (e.Advisory? ==> t' == t.(advisories := Put(t.advisories, e.i, e.a)))
    ensures forall d :: d != c ==> Of(Step(s, e).sessions, d) == Of(s.sessions, d)
  {
    hide Step;
    StepProjects(s, e, c);
    FoldOne(Of(s.sessions, c), e);
    forall d | d != c
      ensures Of(Step(s, e).sessions, d) == Of(s.sessions, d)
    {
      StepProjects(s, e, d);
    }
  }

  lemma Stored(d: Dict, limit: nat, i: Name)
    requires GoodDict(d, limit) && NamesFit(d) && i in Entries(d)
    ensures NameFits(i) && 1 <= Entries(d)[i] <= limit
  {
  }

  /** The part of m that is about the interfaces of w. */
  ghost function Pick(m: map<Name, nat>, w: set<Name>): map<Name, nat> {
    map i | i in m && i in w :: m[i]
  }

  lemma PickNone(m: map<Name, nat>)
    ensures Pick(m, m.Keys - m.Keys) == map[]
  {
  }

  lemma PickMore(m: map<Name, nat>, w: set<Name>, i: Name)
    requires i in m && m[i] != 0
    ensures Pick(m, w + {i}) == Put(Pick(m, w), i, m[i])
  {
  }

  lemma PickAll(m: map<Name, nat>)
    ensures Pick(m, m.Keys) == m
  {
  }
}
