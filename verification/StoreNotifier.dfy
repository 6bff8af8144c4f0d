/** How a dynamic store session is told of changes: the notify port and its
    inner source, where that source is attached, the dispatch queue used
    instead, and what is rebuilt when the server has died
    (SCDNotifierInformViaCallback.c, SCDNotifierCancel.c, SCDOpen.c). */
module StoreNotifier {
  import opened Wrappers
  import opened TripleList

  datatype Status = NotRegistered | ViaRunLoop | ViaDispatch | Otherwise

  /** What becomes of a request to cancel: it is answered; it fails but a new
      session is set up; or it fails and the session has no server any more. */
  datatype Reply = Answered | Reconnected | Lost

  /** Whether a notify port can be had; the attempt may lose the server. */
  datatype Port = Granted | Denied | ServerGone

  /** How the calls made during a reconnect go: the cancel, the request for keys
      and patterns, the creation of the run-loop source and of the dispatch
      source, and the number of attempts to get a port that fail first. */
  datatype Fates = Fates(cancel: Reply, keysOk: bool, created: bool, sourceOk: bool, failures: nat)

  /** A run loop and one of its modes. */
  type Spot = (nat, nat)

  function Exactly(t: Triple): Pattern {
    Pattern(Some(t.0), Some(t.1), Some(t.2))
  }

  ghost function Spots(ts: seq<Triple>): set<Spot> {
    set k | 0 <= k < |ts| :: (ts[k].1, ts[k].2)
  }

  ghost predicate AllOf(ts: seq<Triple>, me: nat) {
    forall k :: 0 <= k < |ts| ==> ts[k].0 == me
  }

  /** The schedules that a cancel leaves: one less, or none at all if there was
      none to cancel. */
  function Cancelled(ts: seq<Triple>, t: Triple): seq<Triple> {
    if t in ts then WithoutFirst(ts, Exactly(t)) else []
  }

  lemma OccursIn(ts: seq<Triple>, t: Triple)
    ensures Occurs(ts, Exactly(t)) <==> t in ts
  {
    if t in ts {
      var k :| 0 <= k < |ts| && ts[k] == t;
      assert Matches(Exactly(t), ts[k]);
    }
  }

  lemma {:induction false} WithoutFirstCounts(ts: seq<Triple>, t: Triple)
    ensures multiset(WithoutFirst(ts, Exactly(t))) == if t in ts then multiset(ts) - multiset{t} else multiset(ts)
  {
    if ts != [] {
      assert ts == [ts[0]] + ts[1..];
      if ts[0] != t {
        WithoutFirstCounts(ts[1..], t);
      }
    }
  }

  lemma {:induction false} WithoutFirstOf(ts: seq<Triple>, t: Triple, me: nat)
    requires AllOf(ts, me)
    ensures AllOf(WithoutFirst(ts, Exactly(t)), me)
  {
    if ts != [] && ts[0] != t {
      WithoutFirstOf(ts[1..], t, me);
      hide WithoutFirst;
      FrontOfAll(ts[0], WithoutFirst(ts[1..], Exactly(t)), me);
    }
  }

  lemma WithoutFirstIs(ts: seq<Triple>, t: Triple, me: nat)
    ensures multiset(WithoutFirst(ts, Exactly(t))) == if t in ts then multiset(ts) - multiset{t} else multiset(ts)
    ensures AllOf(ts, me) ==> AllOf(WithoutFirst(ts, Exactly(t)), me)
    ensures t in ts ==> |WithoutFirst(ts, Exactly(t))| == |ts| - 1
  {
    hide WithoutFirst;
    WithoutFirstCounts(ts, t);
    if AllOf(ts, me) {
      WithoutFirstOf(ts, t, me);
    }
    var ts' := WithoutFirst(ts, Exactly(t));
    assert |multiset(ts')| == |ts'| && |multiset(ts)| == |ts|;
    assert t in ts ==> t in multiset(ts);
  }

  lemma FrontOfAll(t: Triple, ts: seq<Triple>, me: nat)
    ensures t.0 == me && AllOf(ts, me) ==> AllOf([t] + ts, me)
    ensures AllOf(ts, me) && t.0 == me ==> AllOf(ts + [t], me)
  {
  }

  lemma SpotsIn(ts: seq<Triple>, me: nat, s: Spot)
    requires AllOf(ts, me)
    ensures s in Spots(ts) <==> (me, s.0, s.1) in ts
  {
    if (me, s.0, s.1) in ts {
      var k :| 0 <= k < |ts| && ts[k] == (me, s.0, s.1);
      assert (ts[k].1, ts[k].2) == s;
    }
  }

  lemma SpotsMore(ts: seq<Triple>, t: Triple, me: nat)
    requires AllOf(ts, me) && t.0 == me
    ensures Spots(ts + [t]) == Spots(ts) + {(t.1, t.2)}
  {
    var ts' := ts + [t];
    FrontOfAll(t, ts, me);
    forall s: Spot
      ensures s in Spots(ts') <==> s in Spots(ts) || s == (t.1, t.2)
    {
      SpotsIn(ts, me, s);
      SpotsIn(ts', me, s);
    }
  }

  /** After a matched cancel the source stays where another schedule remains. */
  lemma SpotsLess(ts: seq<Triple>, t: Triple, me: nat)
    requires AllOf(ts, me) && t.0 == me && t in ts
    ensures var ts' := WithoutFirst(ts, Exactly(t));
            Spots(ts') == if t in ts' then Spots(ts) else Spots(ts) - {(t.1, t.2)}
  {
    var ts' := WithoutFirst(ts, Exactly(t));
    WithoutFirstIs(ts, t, me);
    forall s: Spot
      ensures s in Spots(ts') <==> s in Spots(ts) && (t in ts' || s != (t.1, t.2))
    {
      SpotsIn(ts, me, s);
      SpotsIn(ts', me, s);
      var u := (me, s.0, s.1);
      assert u in ts <==> u in multiset(ts);
      assert u in ts' <==> u in multiset(ts');
      if u == t {
      } else {
        assert multiset(ts')[u] == multiset(ts)[u];
      }
    }
  }

  /** What is left of a list when so many attempts at its front failed. */
  function Tail(ts: seq<Triple>, failures: nat): seq<Triple> {
    if failures < |ts| then ts[failures..] else []
  }

  lemma NoSpots(me: nat)
    ensures Spots([]) == {} && Triples([]) == [] && AllOf([], me)
  {
  }

  class Store {
    const me: nat
    var server: bool
    var status: Status
    var rls: bool
    var notifyPort: bool
    var notifyRLS: bool
    var rlList: Option<seq<nat>>
    var queue: Option<nat>
    var source: bool
    var keys: Option<seq<string>>
    var patterns: Option<seq<string>>
    var disconnectFunction: bool
    var forceCallBack: bool

    // What the rest of the system sees.
    var attached: set<Spot>
    var serverKeys: Option<seq<string>>
    var serverPatterns: Option<seq<string>>
    var disconnects: nat
    var signalled: bool

    constructor (me: nat, keys: Option<seq<string>>, patterns: Option<seq<string>>, disconnectFunction: bool)
      ensures Valid() && Linked() && Outstanding() == [] && status == NotRegistered
      ensures this.me == me && server && !rls && attached == {} && disconnects == 0 && !forceCallBack && !signalled
      ensures this.keys == keys && this.patterns == patterns && this.disconnectFunction == disconnectFunction
    {
      this.me, server, status, rls, notifyPort, notifyRLS := me, true, NotRegistered, false, false, false;
      rlList, queue, source := None, None, false;
      this.keys, this.patterns, this.disconnectFunction, forceCallBack := keys, patterns, disconnectFunction, false;
      attached, serverKeys, serverPatterns, disconnects, signalled := {}, keys, patterns, 0, false;
      new;
      NoSpots(me);
    }

    /** The schedules not yet cancelled. */
    ghost function Outstanding(): seq<Triple>
      reads this`rlList
    {
      if rlList.None? then [] else Triples(rlList.value)
    }

    /** The inner source is attached to exactly the spots with an outstanding
        schedule, and the port exists exactly while there is one. */
    ghost predicate Valid()
      reads this
    {
      && (notifyPort <==> Outstanding() != []) && (notifyRLS <==> notifyPort) && (rlList.Some? <==> notifyPort)
      && (rlList.Some? ==> |rlList.value| % 3 == 0)
      && AllOf(Outstanding(), me)
      && attached == Spots(Outstanding())
    }

    /** What is scheduled is the session's own source, and a dispatch queue is
        set exactly while the session is in dispatch mode. */
    ghost predicate Linked()
      reads this
    {
      && (Outstanding() != [] ==> rls && status == ViaRunLoop)
      && (status == ViaDispatch <==> queue.Some?) && (source <==> queue.Some?)
      && (status == ViaDispatch ==> !rls)
    }

    method Schedule(loop: nat, mode: nat, port: Port)
      requires Valid()
      modifies this`notifyPort, this`notifyRLS, this`rlList, this`status, this`attached, this`server
      ensures Valid()
      ensures port == Granted || old(notifyPort) ==>
                && Outstanding() == old(Outstanding()) + [(me, loop, mode)] && status == ViaRunLoop
                && server == old(server)
      ensures port != Granted && !old(notifyPort) ==>
                && Outstanding() == old(Outstanding()) && status == old(status)
                && server == (old(server) && port != ServerGone)
    {
      hide Triples, Spots, AllOf, Occurs;
      ghost var was := Outstanding();
      if !notifyPort {
        if port != Granted {
          server := server && port != ServerGone;
          return;
        }
        notifyPort, notifyRLS, rlList := true, true, Some([]);
        NoSpots(me);
      }
      status := ViaRunLoop;
      var already := IsScheduled(Exactly((me, loop, mode)), rlList.value);
      OccursIn(was, (me, loop, mode));
      SpotsIn(was, me, (loop, mode));
      SpotsMore(was, (me, loop, mode), me);
      FrontOfAll((me, loop, mode), was, me);
      if !already {
        attached := attached + {(loop, mode)};
      }
      var list := TripleList.Schedule(me, loop, mode, rlList.value);
      rlList := Some(list);
    }

    /** A cancel that matches a schedule undoes it; any other one ends all. */
    method Cancel(loop: nat, mode: nat, reply: Reply)
      requires Valid()
      modifies this`notifyPort, this`notifyRLS, this`rlList, this`status, this`attached, this`rls, this`server
      ensures Valid() && Outstanding() == Cancelled(old(Outstanding()), (me, loop, mode))
      ensures Outstanding() != [] ==> rls == old(rls) && status == old(status) && server == old(server)
      ensures Outstanding() == [] ==>
                && !rls && server == (old(server) && reply != Lost)
                && status == if old(server) && reply != Answered then old(status) else NotRegistered
    {
      hide Triples, Spots, AllOf, Occurs, WithoutFirst;
      ghost var t, was := (me, loop, mode), Outstanding();
      var n := 0;
      if notifyRLS {
        var found, list := Unschedule(Exactly((me, loop, mode)), rlList.value, false);
        rlList := Some(list);
        OccursIn(was, t);
        WithoutFirstIs(was, t, me);
        Count(list);
        if found {
          n := |list|;
          SpotsLess(was, t, me);
          var still := IsScheduled(Exactly((me, loop, mode)), list);
          OccursIn(WithoutFirst(was, Exactly(t)), t);
          if n == 0 || !still {
            attached := attached - {(loop, mode)};
          }
        }
      }
      if n == 0 {
        rls, rlList := false, None;
        NoSpots(me);
        if notifyRLS {
          attached, notifyRLS := {}, false;
        }
        notifyPort := false;
        if server {
          server := reply != Lost;
          if reply != Answered {
            return;
          }
        }
        status := NotRegistered;
      }
    }

    method CreateRunLoopSource(created: bool) returns (ok: bool)
      modifies this`rls
      ensures ok <==> server && (status == NotRegistered || status == ViaRunLoop) && (old(rls) || created)
      ensures rls == (ok || old(rls))
    {
      if !server {
        return false;
      }
      if status != NotRegistered && status != ViaRunLoop {
        return false;
      }
      if !rls {
        rls := created;
      }
      return rls;
    }

    method SetDispatchQueue(q: Option<nat>, port: Port, sourceOk: bool) returns (ok: bool)
      modifies this`status, this`queue, this`source, this`server
      ensures q.None? ==> server == old(server)
      ensures q.None? ==> ok == old(queue).Some?
      ensures q.None? && !ok ==> status == old(status) && queue == None && source == old(source)
      ensures q.None? && ok ==> status == NotRegistered && queue == None && !source
      ensures q.Some? ==>
                var free := old(server) && old(queue).None? && !rls && old(status) == NotRegistered;
                && ok == (free && port == Granted && sourceOk)
                && server == (old(server) && !(free && port == ServerGone))
                && (ok ==> status == ViaDispatch && queue == q && source)
                && (free && !ok ==> status == NotRegistered && queue == None && !source)
                && (!free ==> status == old(status) && queue == old(queue) && source == old(source))
    {
      if q.None? {
        if queue.None? {
          return false;
        }
        source, queue, status := false, None, NotRegistered;
        return true;
      }
      if !server || queue.Some? || rls || status != NotRegistered {
        return false;
      }
      status := ViaDispatch;
      if port != Granted {
        server := port != ServerGone;
        source, queue, status := false, None, NotRegistered;
        return false;
      }
      queue := q;
      if !sourceOk {
        source, queue, status := false, None, NotRegistered;
        return false;
      }
      source := true;
      return true;
    }

    /** Invalidating the session's source cancels it everywhere, in any order. */
    method Invalidate(reply: Reply)
      requires Valid()
      modifies this`notifyPort, this`notifyRLS, this`rlList, this`status, this`attached, this`rls, this`server
      ensures Valid() && Outstanding() == []
      ensures old(Outstanding()) == [] ==> status == old(status) && rls == old(rls) && server == old(server)
      ensures old(Outstanding()) != [] ==>
                && !rls && server == (old(server) && reply != Lost)
                && status == if old(server) && reply != Answered then old(status) else NotRegistered
    {
      hide Triples, Spots, AllOf, WithoutFirst;
      while rlList.Some?
        invariant Valid()
        invariant Outstanding() == old(Outstanding()) || Outstanding() != [] ==>
                    rls == old(rls) && status == old(status) && server == old(server)
        invariant Outstanding() == [] != old(Outstanding()) ==>
                    && !rls && server == (old(server) && reply != Lost)
                    && status == if old(server) && reply != Answered then old(status) else NotRegistered
        decreases |Outstanding()|
      {
        var ts := Triples(rlList.value);
        assert ts[0] in ts;
        var t :| t in ts;
        assert t.0 == me by {
          OfMe(ts, me, t);
        }
        WithoutFirstIs(ts, t, me);
        Cancel(t.1, t.2, reply);
      }
    }

    method NotifyCancel(reply: Reply) returns (ok: bool)
      requires Valid() && Linked()
      modifies this`notifyPort, this`notifyRLS, this`rlList, this`status, this`attached, this`rls
      modifies this`queue, this`source, this`server
      ensures Valid() && Outstanding() == []
      ensures old(status) == ViaRunLoop ==>
                !rls && status in {NotRegistered, ViaRunLoop} && queue == old(queue) && source == old(source)
      ensures old(status) == ViaDispatch ==> status == NotRegistered && queue == None && !source && !rls
      ensures old(status) == NotRegistered || old(status) == Otherwise ==>
                status == old(status) && queue == old(queue) && source == old(source) && rls == old(rls)
      ensures server == (old(server) && !((old(Outstanding()) != [] || old(status) == Otherwise) && reply == Lost))
    {
      hide Triples, Spots, AllOf;
      match status
      case NotRegistered => return true;
      case ViaRunLoop =>
        if rls {
          rls := false;
          Invalidate(reply);
        }
        return true;
      case ViaDispatch =>
        var done := SetDispatchQueue(None, Granted, true);
        return true;
      case Otherwise =>
        ok := server && reply != Lost;
        server := server && reply != Lost;
    }

    /** Adds the source wherever it was, as far as a port can be had. */
    method Reschedule(list: seq<nat>, failures: nat)
      requires Valid() && |list| % 3 == 0 && AllOf(Triples(list), me) && Outstanding() == []
      modifies this`notifyPort, this`notifyRLS, this`rlList, this`status, this`attached, this`server
      ensures server == old(server)
      ensures Valid() && Outstanding() == Tail(Triples(list), failures)
      ensures status == if Outstanding() != [] then ViaRunLoop else old(status)
    {
      hide Triples, Spots, AllOf, Tail;
      var i, attempts := 0, 0;
      NoSpots(me);
      TailOfNone(failures);
      assert list[..0] == [];
      while i < |list|
        invariant 0 <= i <= |list| && i % 3 == 0 && Valid()
        invariant |Triples(list[..i])| == attempts && server == old(server)
        invariant Outstanding() == Tail(Triples(list[..i]), failures)
        invariant status == if Outstanding() != [] then ViaRunLoop else old(status)
      {
        Advance(list, i);
        AllAt(list, i, me);
        TailMore(Triples(list[..i]), (list[i], list[i + 1], list[i + 2]), failures);
        Schedule(list[i + 1], list[i + 2], if attempts < failures then Denied else Granted);
        i, attempts := i + 3, attempts + 1;
      }
      assert list[..|list|] == list;
    }

    /** A reconnect can go through. */
    ghost predicate CanRestore(f: Fates)
      reads this
    {
      && ((keys.None? && patterns.None?) || f.keysOk)
      && server && !(Outstanding() != [] && f.cancel == Lost)
      && ((status == ViaRunLoop && f.created) || (status == ViaDispatch && f.failures == 0 && f.sourceOk))
    }

    /** The server died: what was registered is saved, torn down and set up
        again with the new one, and the client is informed. */
    method Reconnect(f: Fates) returns (ok: bool)
      requires Valid() && Linked()
      modifies this
      ensures Valid() && Linked()
      ensures keys == old(keys) && patterns == old(patterns) && disconnectFunction == old(disconnectFunction)
      ensures ok <==>
                && ((keys.None? && patterns.None?) || f.keysOk)
                && old(server) && !(old(Outstanding()) != [] && f.cancel == Lost)
                && ((old(status) == ViaRunLoop && f.created)
                    || (old(status) == ViaDispatch && f.failures == 0 && f.sourceOk))
      ensures ok && !(keys.None? && patterns.None?) ==> serverKeys == keys && serverPatterns == patterns
      ensures ok && old(status) == ViaRunLoop && f.failures < |old(Outstanding())| ==>
                rls && queue == None && Outstanding() == old(Outstanding())[f.failures..]
      ensures ok && old(status) == ViaRunLoop && f.failures >= |old(Outstanding())| ==>
                rls && queue == None && Outstanding() == []
      ensures ok && old(status) == ViaRunLoop && f.failures == 0 ==> attached == old(attached)
      ensures ok && old(status) == ViaRunLoop && f.failures >= |old(Outstanding())| ==> attached == {}
      ensures ok && old(status) == ViaDispatch ==>
                status == ViaDispatch && queue == old(queue) && source && Outstanding() == []
      ensures if disconnectFunction then disconnects == old(disconnects) + 1 && forceCallBack == old(forceCallBack)
              else disconnects == old(disconnects) && forceCallBack
    {
      hide Triples, Spots, AllOf;
      ok := Rebuild(f);
      NoSpots(me);
      PushDisconnect();
    }

    method Rebuild(f: Fates) returns (ok: bool)
      requires Valid() && Linked()
      modifies this`notifyPort, this`notifyRLS, this`rlList, this`status, this`attached, this`rls
      modifies this`queue, this`source, this`server, this`serverKeys, this`serverPatterns
      ensures Valid() && Linked()
      ensures ok == old(CanRestore(f))
      ensures ok && !(keys.None? && patterns.None?) ==> serverKeys == keys && serverPatterns == patterns
      ensures ok && old(status) == ViaRunLoop ==>
                rls && queue == None && Outstanding() == Tail(old(Outstanding()), f.failures)
      ensures ok && old(status) == ViaDispatch ==>
                status == ViaDispatch && queue == old(queue) && source && Outstanding() == []
    {
      hide Triples, Spots, AllOf, Tail;
      var saved, list, q := status, rlList, queue;
      TailOfNone(f.failures);
      var cancelled := NotifyCancel(f.cancel);
      ok := SetNotificationKeys(f.keysOk);
      if ok {
        ok := Restore(saved, list, q, f);
      }
    }

    /** Asks the server for the session's keys and patterns, if it has any. */
    method SetNotificationKeys(keysOk: bool) returns (ok: bool)
      modifies this`serverKeys, this`serverPatterns
      ensures ok == ((keys.None? && patterns.None?) || keysOk)
      ensures ok && !(keys.None? && patterns.None?) ==> serverKeys == keys && serverPatterns == patterns
    {
      ok := true;
      if keys.Some? || patterns.Some? {
        ok := keysOk;
        if ok {
          serverKeys, serverPatterns := keys, patterns;
        }
      }
    }

    /** Sets up again what was saved. */
    method Restore(saved: Status, list: Option<seq<nat>>, q: Option<nat>, f: Fates)
      returns (ok: bool)
      requires Valid() && Outstanding() == [] && queue == None && !source && status != ViaDispatch
      requires saved == ViaRunLoop || saved == ViaDispatch ==> !rls
      requires saved == ViaRunLoop ==> status == NotRegistered || status == ViaRunLoop
      requires saved == ViaDispatch ==> status == NotRegistered && q.Some?
      requires list.Some? ==> |list.value| % 3 == 0 && AllOf(Triples(list.value), me)
      modifies this`notifyPort, this`notifyRLS, this`rlList, this`status, this`attached, this`rls
      modifies this`queue, this`source, this`server
      ensures server == old(server)
      ensures Valid() && Linked()
      ensures ok == (server && ((saved == ViaRunLoop && f.created) ||
                                (saved == ViaDispatch && f.failures == 0 && f.sourceOk)))
      ensures ok && saved == ViaRunLoop ==>
                rls && queue == None &&
                Outstanding() == if list.Some? then Tail(Triples(list.value), f.failures) else []
      ensures ok && saved == ViaDispatch ==> status == ViaDispatch && queue == q && source && Outstanding() == []
    {
      hide Triples, Spots, AllOf;
      NoSpots(me);
      match saved
      case ViaRunLoop =>
        ok := CreateRunLoopSource(f.created);
        if ok && list.Some? {
          Reschedule(list.value, f.failures);
        }
      case ViaDispatch =>
        ok := SetDispatchQueue(q, if f.failures == 0 then Granted else Denied, f.sourceOk);
      case _ =>
        ok := false;
    }

    method PushDisconnect()
      modifies this`disconnects, this`forceCallBack
      ensures if disconnectFunction then disconnects == old(disconnects) + 1 && forceCallBack == old(forceCallBack)
              else disconnects == old(disconnects) && forceCallBack
    {
      if disconnectFunction {
        disconnects := disconnects + 1;
      } else {
        forceCallBack := true;
      }
    }

    /** A callout is made for changes, or once after a disconnect. */
    method Perform(changed: Option<seq<string>>) returns (callout: Option<seq<string>>)
      modifies this`forceCallBack
      ensures !forceCallBack
      ensures callout ==
              if changed.Some? && changed.value != [] then changed
              else if old(forceCallBack) then Some([]) else None
    {
      callout := changed;
      if forceCallBack {
        forceCallBack := false;
        if callout.None? {
          callout := Some([]);
        }
      } else if callout.None? || callout.value == [] {
        callout := None;
      }
    }

    /** In run-loop mode, after a successful reconnect, the client has been told
        through its disconnect function, or its source is signalled and the next
        perform calls out, whatever has changed. */
    method NoSendersOnRunLoop(f: Fates) returns (ok: bool)
      requires Valid() && Linked() && status == ViaRunLoop
      modifies this
      ensures Valid() && Linked()
      ensures ok ==> rls && signalled && Outstanding() == Tail(old(Outstanding()), f.failures)
      ensures if disconnectFunction then disconnects == old(disconnects) + 1 else forceCallBack
    {
      hide Triples, Spots, AllOf;
      ok := Reconnect(f);
      if rls {
        signalled := true;
      }
    }

    /** In dispatch mode the client is told at once. */
    method NoSendersOnQueue(f: Fates, changed: Option<seq<string>>) returns (ok: bool, callout: Option<seq<string>>)
      requires Valid() && Linked() && status == ViaDispatch
      modifies this
      ensures Valid() && Linked()
      ensures ok ==> status == ViaDispatch && queue == old(queue)
      ensures if disconnectFunction then disconnects == old(disconnects) + 1 else callout.Some?
    {
      hide Triples, Spots, AllOf, Tail;
      ok := Reconnect(f);
      callout := Perform(changed);
    }
  }

  /** A schedule that failed for want of a port is not recorded, so when its
      source is removed the cancel matches nothing and ends the schedule of a
      second run loop. */
  method CancelEndsOther(keys: Option<seq<string>>) returns (s: Store)
    ensures fresh(s) && s.Valid() && s.Outstanding() == [] && s.attached == {} && !s.rls
  {
    hide Triples, Spots, AllOf, WithoutFirst;
    s := new Store(0, keys, None, false);
    var ok := s.CreateRunLoopSource(true);
    s.Schedule(1, 1, Denied);
    s.Schedule(2, 2, Granted);
    assert s.Outstanding() == [(0, 2, 2)];
    s.Cancel(1, 1, Answered);
    NoSpots(0);
  }

  /** A session attached to one spot: when no port can be had, the reconnect
      succeeds and the source is attached nowhere. */
  method ReconnectedUnattached(keys: Option<seq<string>>) returns (s: Store, ok: bool, before: set<Spot>)
    ensures fresh(s) && s.Valid() && before == {(1, 1)} && ok && s.attached == {}
  {
    hide Triples, AllOf, Spots;
    s := new Store(0, keys, None, false);
    ok := s.CreateRunLoopSource(true);
    NoSpots(0);
    SpotsMore([], (0, 1, 1), 0);
    s.Schedule(1, 1, Granted);
    assert s.Outstanding() == [(0, 1, 1)];
    before := s.attached;
    ok := s.Reconnect(Fates(Reconnected, true, true, true, 1));
  }

  lemma TailOfNone(failures: nat)
    ensures Tail([], failures) == []
  {
  }

  lemma TailMore(ts: seq<Triple>, t: Triple, failures: nat)
    ensures Tail(ts + [t], failures) == if |ts| >= failures then Tail(ts, failures) + [t] else []
    ensures |ts| < failures ==> Tail(ts, failures) == []
    ensures |ts| > failures ==> Tail(ts, failures) != []
  {
  }

  lemma OfMe(ts: seq<Triple>, me: nat, t: Triple)
    requires AllOf(ts, me) && t in ts
    ensures t.0 == me
  {
  }

  lemma AllAt(list: seq<nat>, i: nat, me: nat)
    requires AllOf(Triples(list), me) && |list| % 3 == 0 && i % 3 == 0 && i + 3 <= |list|
    ensures list[i] == me
  {
    var rest := list[i..];
    assert list == list[..i] + rest;
    Concat(list[..i], rest);
    assert Triples(rest)[0].0 == list[i];
    var k := |Triples(list[..i])|;
    assert Triples(list)[k] == Triples(rest)[0];
  }

  // ---- runs of schedules and cancels ----

  datatype Event = Scheduled(t: Triple) | Cancel(t: Triple)

  function After(ts: seq<Triple>, e: Event): seq<Triple> {
    match e
    case Scheduled(t) => ts + [t]
    case Cancel(t) => Cancelled(ts, t)
  }

  function Run(es: seq<Event>): seq<Triple> {
    if es == [] then [] else After(Run(es[..|es| - 1]), es[|es| - 1])
  }

  /** How many more schedules than cancels there were. */
  function Balance(es: seq<Event>, t: Triple): int {
    if es == [] then 0
    else
      var n := |es| - 1;
      Balance(es[..n], t) + if es[n] == Scheduled(t) then 1 else if es[n] == Cancel(t) then -1 else 0
  }

  /** Every cancel comes after a schedule that it can match. */
  ghost predicate Matched(es: seq<Event>) {
    es == [] ||
    (var n := |es| - 1;
     Matched(es[..n]) && (es[n].Cancel? ==> Balance(es[..n], es[n].t) > 0))
  }

  /** While every cancel matches, what is outstanding is what was scheduled and
      not cancelled, counted for each spot. */
  lemma {:induction false} MatchedRun(es: seq<Event>, t: Triple)
    requires Matched(es)
    ensures multiset(Run(es))[t] == Balance(es, t)
  {
    if es != [] {
      var n := |es| - 1;
      var ts := Run(es[..n]);
      MatchedRun(es[..n], t);
      if es[n].Cancel? {
        MatchedRun(es[..n], es[n].t);
        assert es[n].t in multiset(ts);
        WithoutFirstIs(ts, es[n].t, 0);
      }
    }
  }

  /** A cancel keeps the count exactly if it matches, or if nothing is
      outstanding: an unmatched cancel ends the schedules of all others. */
  lemma CancelKeepsCount(es: seq<Event>, t: Triple)
    requires Matched(es)
    ensures (forall u :: u != t ==> multiset(After(Run(es), Cancel(t)))[u] == Balance(es, u)) <==>
            Balance(es, t) > 0 || Run(es) == []
  {
    var ts := Run(es);
    MatchedRun(es, t);
    if Balance(es, t) > 0 {
      assert t in multiset(ts);
      WithoutFirstIs(ts, t, 0);
      forall u | u != t
        ensures multiset(After(ts, Cancel(t)))[u] == Balance(es, u)
      {
        MatchedRun(es, u);
      }
    } else if ts == [] {
      forall u | u != t
        ensures multiset(After(ts, Cancel(t)))[u] == Balance(es, u)
      {
        MatchedRun(es, u);
      }
    } else {
      var u := ts[0];
      assert u in multiset(ts);
      MatchedRun(es, u);
      assert t !in multiset(ts);
      assert multiset(After(ts, Cancel(t)))[u] == 0;
    }
  }
}
