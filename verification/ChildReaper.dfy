/** Spawning children and reaping them (SCDPlugin.c) as interleaved steps of
    any number of spawning threads, the children, and the one reaper. */
module ChildReaper {

  /** An entry of the list of active children. The id tells apart children
      that had the same pid at different times; the program does not see it. */
  datatype Entry = Entry(id: nat, pid: nat)

  /** A reaped child: what its callout is given. */
  datatype Reaped = Reaped(id: nat, pid: nat, status: int)

  datatype Process = Running(id: nat) | Zombie(id: nat, status: int)

  /** Who has the mutex, and how far it is. */
  datatype Holder =
    | Nobody
    | Spawning(thread: nat)
    | Forked(thread: nat, id: nat, pid: nat, wanted: bool)
    | Inserted(thread: nat)
    | Mover

  datatype Reaper =
    | Away
    | Waiting
    | Holding(pid: nat, status: int, id: nat)
    | Moving(pid: nat, status: int, id: nat)
    | Moved
    | Leaving
    | Calling

  /** A child that was forked, and whether a callout was asked for. */
  datatype Child = Child(pid: nat, wanted: bool)

  /** signal: SIGCHLD is pending; blocked: it is blocked; message: the port that
      wakes the reaper, which holds one message, has it. */
  datatype State = State(
    kernel: map<nat, Process>,
    holder: Holder,
    active: seq<Entry>,
    reaper: Reaper,
    reaped: seq<Reaped>,
    called: seq<Reaped>,
    children: seq<Child>,
    registered: set<nat>,
    exits: map<nat, int>,
    signal: bool,
    blocked: bool,
    message: bool)

  const START := State(map[], Nobody, [], Away, [], [], [], {}, map[], false, false, false)

  datatype Step =
    | Lock(thread: nat)
    | Fork(pid: nat, wanted: bool)
    | ForkFails
    | Insert
    | Unlock
    | Exit(pid: nat, status: int)
    | Signal(staysBlocked: bool)
    | Wake
    | Wait(pid: nat)
    | LockToMove
    | Move
    | UnlockMoved
    | NoMore
    | Unblock
    | CallOut
    | Return

  predicate HasZombie(s: State) {
    exists p :: p in s.kernel && s.kernel[p].Zombie?
  }

  /** The handler of the signal sends a message and blocks the signal, which may
      or may not outlast the handler. The reaper leaves its loop only when no
      child is left to wait for, and then unblocks the signal. */
  predicate Enabled(s: State, step: Step) {
    match step
    case Lock(_) => s.holder == Nobody
    case Fork(pid, _) => s.holder.Spawning? && pid !in s.kernel
    case ForkFails => s.holder.Spawning?
    case Insert => s.holder.Forked?
    case Unlock => s.holder.Inserted?
    case Exit(pid, _) => pid in s.kernel && s.kernel[pid].Running?
    case Signal(_) => s.signal && !s.blocked
    case Wake => s.reaper == Away && s.message
    case Wait(pid) => s.reaper == Waiting && pid in s.kernel && s.kernel[pid].Zombie?
    case LockToMove => s.reaper.Holding? && s.holder == Nobody
    case Move => s.reaper.Moving?
    case UnlockMoved => s.reaper == Moved
    case NoMore => s.reaper == Waiting && !HasZombie(s)
    case Unblock => s.reaper == Leaving
    case CallOut => s.reaper == Calling && s.reaped != []
    case Return => s.reaper == Calling && s.reaped == []
  }

  /** The first entry for a pid, or the length of the list. */
  function First(active: seq<Entry>, pid: nat): (k: nat)
    ensures k <= |active|
    ensures k < |active| ==> active[k].pid == pid
    ensures forall j :: 0 <= j < k ==> active[j].pid != pid
  {
    if active == [] then 0
    else if active[0].pid == pid then 0
    else 1 + First(active[1..], pid)
  }

  /** The lists after a child was waited for. */
  function Unlinked(active: seq<Entry>, pid: nat): seq<Entry> {
    var k := First(active, pid);
    if k < |active| then active[..k] + active[k + 1..] else active
  }

  function Linked(active: seq<Entry>, reaped: seq<Reaped>, pid: nat, status: int): seq<Reaped> {
    var k := First(active, pid);
    if k < |active| then [Reaped(active[k].id, active[k].pid, status)] + reaped else reaped
  }

  function Next(s: State, step: Step): State
    requires Enabled(s, step)
  {
    match step
    case Lock(t) => s.(holder := Spawning(t))
    case Fork(pid, wanted) =>
      var id := |s.children|;
      s.(kernel := s.kernel[pid := Running(id)], children := s.children + [Child(pid, wanted)],
         holder := Forked(s.holder.thread, id, pid, wanted))
    case ForkFails => s.(holder := Inserted(s.holder.thread))
    case Insert =>
      var h := s.holder;
      if h.wanted then
        s.(active := [Entry(h.id, h.pid)] + s.active, registered := s.registered + {h.id},
           holder := Inserted(h.thread))
      else s.(holder := Inserted(h.thread))
    case Unlock => s.(holder := Nobody)
    case Exit(pid, status) =>
      var id := s.kernel[pid].id;
      s.(kernel := s.kernel[pid := Zombie(id, status)], exits := s.exits[id := status], signal := true)
    case Signal(stays) => s.(signal := false, message := true, blocked := stays)
    case Wake => s.(reaper := Waiting, message := false)
    case Wait(pid) =>
      s.(kernel := s.kernel - {pid}, reaper := Holding(pid, s.kernel[pid].status, s.kernel[pid].id))
    case LockToMove => s.(holder := Mover, reaper := Moving(s.reaper.pid, s.reaper.status, s.reaper.id))
    case Move =>
      var r := s.reaper;
      s.(active := Unlinked(s.active, r.pid), reaped := Linked(s.active, s.reaped, r.pid, r.status),
         reaper := Moved)
    case UnlockMoved => s.(holder := Nobody, reaper := Waiting)
    case NoMore => s.(reaper := Leaving)
    case Unblock => s.(reaper := Calling, blocked := false)
    case CallOut => s.(reaped := s.reaped[1..], called := s.called + [s.reaped[0]])
    case Return => s.(reaper := Away)
  }

  /** The reaper has waited for a child and not yet looked it up. */
  predicate Held(s: State) {
    s.reaper.Holding? || s.reaper.Moving?
  }

  /** No new child with a callout gets the pid that the reaper holds. */
  predicate NoReuse(s: State, step: Step) {
    step.Fork? && step.wanted && Held(s) ==> step.pid != s.reaper.pid
  }

  // ---- counting ----

  ghost function ActiveIds(active: seq<Entry>): multiset<nat> {
    if active == [] then multiset{} else multiset{active[0].id} + ActiveIds(active[1..])
  }

  ghost function ReapedIds(rs: seq<Reaped>): multiset<nat> {
    if rs == [] then multiset{} else multiset{rs[0].id} + ReapedIds(rs[1..])
  }

  lemma ActiveFront(active: seq<Entry>)
    requires active != []
    ensures ActiveIds(active) == multiset{active[0].id} + ActiveIds(active[1..])
  {
  }

  lemma {:induction false} ActiveRemoved(active: seq<Entry>, k: nat)
    requires k < |active|
    ensures ActiveIds(active) == ActiveIds(active[..k] + active[k + 1..]) + multiset{active[k].id}
  {
    hide ActiveIds;
    ActiveFront(active);
    var rest := active[..k] + active[k + 1..];
    if k == 0 {
      assert rest == active[1..];
    } else {
      ActiveRemoved(active[1..], k - 1);
      assert rest[0] == active[0] && rest[1..] == active[1..][..k - 1] + active[1..][k..];
      ActiveFront(rest);
    }
  }

  lemma {:induction false} ActiveMember(active: seq<Entry>, k: nat)
    requires k < |active|
    ensures active[k].id in ActiveIds(active)
  {
    ActiveRemoved(active, k);
  }

  lemma {:induction false} ReapedAppend(rs: seq<Reaped>, r: Reaped)
    ensures ReapedIds(rs + [r]) == ReapedIds(rs) + multiset{r.id}
  {
    if rs == [] {
      assert [r][1..] == [] && rs + [r] == [r];
    } else {
      assert (rs + [r])[1..] == rs[1..] + [r];
      ReapedAppend(rs[1..], r);
    }
  }

  lemma {:induction false} ReapedMember(rs: seq<Reaped>, k: nat)
    requires k < |rs|
    ensures rs[k].id in ReapedIds(rs)
  {
    if k > 0 {
      ReapedMember(rs[1..], k - 1);
    }
  }

  lemma {:induction false} ReapedFrom(rs: seq<Reaped>, id: nat)
    requires id in ReapedIds(rs)
    ensures exists k :: 0 <= k < |rs| && rs[k].id == id
  {
    if rs[0].id != id {
      ReapedFrom(rs[1..], id);
      var k :| 0 <= k < |rs[1..]| && rs[1..][k].id == id;
      assert rs[k + 1].id == id;
    }
  }

  lemma {:induction false} ActiveFrom(active: seq<Entry>, id: nat)
    requires id in ActiveIds(active)
    ensures exists k :: 0 <= k < |active| && active[k].id == id
  {
    if active[0].id != id {
      ActiveFrom(active[1..], id);
      var k :| 0 <= k < |active[1..]| && active[1..][k].id == id;
      assert active[k + 1].id == id;
    }
  }

  lemma {:induction false} ReapedTwice(rs: seq<Reaped>, j: nat, k: nat)
    requires j < k < |rs| && rs[j].id == rs[k].id
    ensures ReapedIds(rs)[rs[j].id] >= 2
  {
    if j == 0 {
      ReapedMember(rs[1..], k - 1);
    } else {
      ReapedTwice(rs[1..], j - 1, k - 1);
    }
  }

  lemma OnceEach(ids: set<nat>, id: nat)
    ensures multiset(ids)[id] <= 1
  {
  }

  // ---- the invariant ----

  /** The child has not been waited for, or not been looked up yet. */
  ghost predicate Live(s: State, id: nat)
    requires id < |s.children|
  {
    var p := s.children[id].pid;
    (p in s.kernel && s.kernel[p].id == id) || (Held(s) && s.reaper.id == id)
  }

  /** Every registered child is in exactly one list, once. */
  ghost predicate Partition(s: State) {
    ActiveIds(s.active) + ReapedIds(s.reaped) + ReapedIds(s.called) == multiset(s.registered)
  }

  ghost predicate Pending(s: State, id: nat) {
    s.holder.Forked? && s.holder.id == id
  }

  ghost predicate RegisteredWanted(s: State) {
    forall id :: id in s.registered <==> 0 <= id < |s.children| && s.children[id].wanted && !Pending(s, id)
  }

  ghost predicate KernelKnown(s: State) {
    forall p :: p in s.kernel ==>
      var q := s.kernel[p];
      && q.id < |s.children| && s.children[q.id].pid == p
      && (if q.Zombie? then q.id in s.exits && s.exits[q.id] == q.status else q.id !in s.exits)
  }

  ghost predicate HeldKnown(s: State) {
    Held(s) ==>
      && s.reaper.id < |s.children| && s.children[s.reaper.id].pid == s.reaper.pid
      && s.reaper.id in s.exits && s.exits[s.reaper.id] == s.reaper.status
      && (s.reaper.pid in s.kernel ==>
            var q := s.kernel[s.reaper.pid].id;
            q != s.reaper.id && q < |s.children| && !s.children[q].wanted)
  }

  ghost predicate ActiveKnown(s: State) {
    forall k :: 0 <= k < |s.active| ==>
      var e := s.active[k];
      e.id < |s.children| && s.children[e.id].pid == e.pid && Live(s, e.id)
  }

  /** r has its own pid and its own exit status. */
  ghost predicate Truthful(s: State, r: Reaped) {
    && r.id < |s.children| && s.children[r.id].pid == r.pid
    && r.id in s.exits && s.exits[r.id] == r.status
  }

  ghost predicate GoneKnown(s: State, rs: seq<Reaped>) {
    forall k :: 0 <= k < |rs| ==> Truthful(s, rs[k]) && !Live(s, rs[k].id)
  }

  ghost predicate Phases(s: State) {
    && ((s.reaper.Moving? || s.reaper == Moved) <==> s.holder == Mover)
    && (s.reaper == Away ==> s.reaped == [])
    && (s.holder.Forked? ==>
          && s.holder.id < |s.children| && s.children[s.holder.id] == Child(s.holder.pid, s.holder.wanted)
          && Live(s, s.holder.id))
    && (forall id :: id in s.exits ==> id < |s.children|)
  }

  ghost predicate Inv(s: State) {
    && Partition(s) && RegisteredWanted(s) && KernelKnown(s) && HeldKnown(s)
    && ActiveKnown(s) && GoneKnown(s, s.reaped) && GoneKnown(s, s.called) && Phases(s)
  }

  lemma StartInv()
    ensures Inv(START)
  {
  }

  /** A step that leaves the lists and the registration alone, and every known
      child as live as it was. */
  lemma Quiet(s: State, s': State)
    requires Inv(s)
    requires s'.active == s.active && s'.reaped == s.reaped && s'.called == s.called && s'.registered == s.registered
    requires s.children <= s'.children
    requires forall id :: 0 <= id < |s.children| ==> (Live(s, id) <==> Live(s', id))
    requires forall id :: id in s.exits ==> id in s'.exits && s'.exits[id] == s.exits[id]
    ensures Partition(s') && ActiveKnown(s') && GoneKnown(s', s'.reaped) && GoneKnown(s', s'.called)
  {
    hide Live, ActiveIds, ReapedIds, RegisteredWanted, KernelKnown, HeldKnown, Phases;
  }

  lemma SameLive(s: State, s': State)
    requires s'.kernel == s.kernel && s'.children == s.children
    requires Held(s) == Held(s') && (Held(s) ==> s.reaper.id == s'.reaper.id)
    ensures forall id :: 0 <= id < |s.children| ==> (Live(s, id) <==> Live(s', id))
  {
  }

  lemma LockSteps(s: State, step: Step)
    requires Inv(s) && Enabled(s, step)
    requires step.Lock? || step.ForkFails? || step.Unlock? || step.LockToMove? || step.UnlockMoved?
    ensures Inv(Next(s, step))
  {
    hide Live, ActiveIds, ReapedIds, ActiveKnown, GoneKnown, Partition, HasZombie;
    var s' := Next(s, step);
    SameLive(s, s');
    Quiet(s, s');
    assert KernelKnown(s') && HeldKnown(s');
    hide KernelKnown, HeldKnown;
    assert RegisteredWanted(s');
  }

  lemma ReaperSteps(s: State, step: Step)
    requires Inv(s) && Enabled(s, step)
    requires step.Signal? || step.Wake? || step.NoMore? || step.Unblock? || step.Return?
    ensures Inv(Next(s, step))
  {
    hide Live, ActiveIds, ReapedIds, ActiveKnown, GoneKnown, Partition, HasZombie;
    var s' := Next(s, step);
    SameLive(s, s');
    Quiet(s, s');
    assert KernelKnown(s') && HeldKnown(s');
    hide KernelKnown, HeldKnown;
    assert RegisteredWanted(s');
  }

  lemma ForkKeeps(s: State, step: Step)
    requires Inv(s) && Enabled(s, step) && step.Fork? && NoReuse(s, step)
    ensures Inv(Next(s, step))
  {
    hide ActiveIds, ReapedIds, ActiveKnown, GoneKnown, Partition;
    var s' := Next(s, step);
    forall id | 0 <= id < |s.children|
      ensures Live(s, id) <==> Live(s', id)
    {
    }
    Quiet(s, s');
  }

  lemma InsertKeeps(s: State)
    requires Inv(s) && s.holder.Forked?
    ensures Inv(Next(s, Insert))
  {
    hide ReapedIds, ActiveIds, Live, ActiveKnown, GoneKnown, HasZombie;
    var s' := Next(s, Insert);
    SameLive(s, s');
    if s.holder.wanted {
      InsertCounts(s);
      InsertKnown(s);
    } else {
      Quiet(s, s');
    }
  }

  lemma InsertKnown(s: State)
    requires s.holder.Forked? && s.holder.wanted && Phases(s)
    requires ActiveKnown(s) && GoneKnown(s, s.reaped) && GoneKnown(s, s.called)
    ensures var s' := Next(s, Insert);
            ActiveKnown(s') && GoneKnown(s', s'.reaped) && GoneKnown(s', s'.called)
  {
    hide Live, HasZombie;
    var s' := Next(s, Insert);
    SameLive(s, s');
    forall k | 0 <= k < |s'.active|
      ensures var e := s'.active[k];
              e.id < |s'.children| && s'.children[e.id].pid == e.pid && Live(s', e.id)
    {
      assert k > 0 ==> s'.active[k] == s.active[k - 1];
    }
  }

  lemma InsertCounts(s: State)
    requires Partition(s) && s.holder.Forked? && s.holder.id !in s.registered
    ensures var id := s.holder.id;
            ActiveIds([Entry(id, s.holder.pid)] + s.active) + ReapedIds(s.reaped) + ReapedIds(s.called) ==
            multiset(s.registered + {id})
  {
    hide ReapedIds;
    var id := s.holder.id;
    assert ([Entry(id, s.holder.pid)] + s.active)[1..] == s.active;
    assert multiset(s.registered + {id}) == multiset(s.registered) + multiset{id};
  }

  lemma ExitKeeps(s: State, step: Step)
    requires Inv(s) && Enabled(s, step) && step.Exit?
    ensures Inv(Next(s, step))
  {
    hide ActiveIds, ReapedIds, ActiveKnown, GoneKnown, Partition;
    var s' := Next(s, step);
    forall id | 0 <= id < |s.children|
      ensures Live(s, id) <==> Live(s', id)
    {
    }
    Quiet(s, s');
  }

  lemma WaitKeeps(s: State, step: Step)
    requires Inv(s) && Enabled(s, step) && step.Wait?
    ensures Inv(Next(s, step))
  {
    hide ActiveIds, ReapedIds, ActiveKnown, GoneKnown, Partition;
    var s' := Next(s, step);
    forall id | 0 <= id < |s.children|
      ensures Live(s, id) <==> Live(s', id)
    {
    }
    Quiet(s, s');
  }

  lemma CallOutKeeps(s: State)
    requires Inv(s) && Enabled(s, CallOut)
    ensures Inv(Next(s, CallOut))
  {
    hide ActiveIds, ReapedIds, Live;
    var s' := Next(s, CallOut);
    SameLive(s, s');
    CallOutCounts(s);
    GoneMoves(s, s');
    assert Partition(s') by {
      assert ActiveIds(s.active) + (ReapedIds(s.reaped) + ReapedIds(s.called)) == multiset(s.registered);
    }
    assert RegisteredWanted(s') && KernelKnown(s') && HeldKnown(s');
    assert ActiveKnown(s') && Phases(s');
  }

  lemma CallOutCounts(s: State)
    requires s.reaped != []
    ensures ReapedIds(s.reaped) + ReapedIds(s.called) == ReapedIds(s.reaped[1..]) + ReapedIds(s.called + [s.reaped[0]])
  {
    ReapedAppend(s.called, s.reaped[0]);
  }

  lemma GoneMoves(s: State, s': State)
    requires s.reaped != [] && s' == s.(reaped := s.reaped[1..], called := s.called + [s.reaped[0]])
    requires GoneKnown(s, s.reaped) && GoneKnown(s, s.called)
    ensures GoneKnown(s', s'.reaped) && GoneKnown(s', s'.called)
  {
    SameLive(s, s');
    hide Live;
    forall k | 0 <= k < |s'.reaped|
      ensures Truthful(s', s'.reaped[k]) && !Live(s', s'.reaped[k].id)
    {
      assert s'.reaped[k] == s.reaped[k + 1];
    }
  }

  /** The entry found is that of the child waited for. */
  lemma FoundIsOwn(s: State, k: nat)
    requires Inv(s) && s.reaper.Moving? && k < |s.active| && s.active[k].pid == s.reaper.pid
    ensures s.active[k].id == s.reaper.id
  {
    hide ActiveIds, ReapedIds;
    ActiveMember(s.active, k);
    assert s.active[k].id in multiset(s.registered);
  }

  /** An id is in the list once. */
  lemma ActiveOnce(s: State, j: nat, k: nat)
    requires Inv(s) && j < |s.active| && k < |s.active| && s.active[j].id == s.active[k].id
    ensures j == k
  {
    if j != k {
      var rest := s.active[..k] + s.active[k + 1..];
      var h := if j < k then j else j - 1;
      assert rest[h] == s.active[j];
      ActiveRemoved(s.active, k);
      ActiveMember(rest, h);
      OnceEach(s.registered, s.active[k].id);
    }
  }

  lemma MoveKeeps(s: State)
    requires Inv(s) && s.reaper.Moving?
    ensures Inv(Next(s, Move))
  {
    hide ActiveIds, ReapedIds, HasZombie, First;
    var s' := Next(s, Move);
    var k := First(s.active, s.reaper.pid);
    forall id | 0 <= id < |s.children| && id != s.reaper.id
      ensures Live(s, id) <==> Live(s', id)
    {
    }
    assert !Live(s', s.reaper.id);
    if k < |s.active| {
      MoveFound(s, s', k);
    } else {
      forall j | 0 <= j < |s.active|
        ensures s.active[j].id != s.reaper.id
      {
      }
      hide Live;
    }
  }

  lemma MoveFound(s: State, s': State, k: nat)
    requires Inv(s) && s.reaper.Moving? && s' == Next(s, Move)
    requires k == First(s.active, s.reaper.pid) < |s.active|
    requires !Live(s', s.reaper.id)
    requires forall id :: 0 <= id < |s.children| && id != s.reaper.id ==> (Live(s, id) <==> Live(s', id))
    ensures Inv(s')
  {
    hide Live, ActiveIds, ReapedIds, First;
    FoundIsOwn(s, k);
    MoveCounts(s, k);
    forall j | 0 <= j < |s'.active|
      ensures s'.active[j].id != s.reaper.id && s'.active[j] in s.active
    {
      var h := if j < k then j else j + 1;
      if s.active[h].id == s.reaper.id {
        ActiveOnce(s, h, k);
      }
    }
  }

  lemma MoveCounts(s: State, k: nat)
    requires s.reaper.Moving? && k == First(s.active, s.reaper.pid) < |s.active|
    ensures var s' := Next(s, Move);
            ActiveIds(s.active) + ReapedIds(s.reaped) == ActiveIds(s'.active) + ReapedIds(s'.reaped)
  {
    hide ActiveIds;
    var s' := Next(s, Move);
    ActiveRemoved(s.active, k);
    assert s'.reaped[1..] == s.reaped;
  }

  lemma StepKeeps(s: State, step: Step)
    requires Inv(s) && Enabled(s, step) && NoReuse(s, step)
    ensures Inv(Next(s, step))
  {
    hide Inv;
    match step
    case Fork(_, _) => ForkKeeps(s, step);
    case Insert => InsertKeeps(s);
    case Exit(_, _) => ExitKeeps(s, step);
    case Wait(_) => WaitKeeps(s, step);
    case Move => MoveKeeps(s);
    case CallOut => CallOutKeeps(s);
    case Signal(_) => ReaperSteps(s, step);
    case Wake => ReaperSteps(s, step);
    case NoMore => ReaperSteps(s, step);
    case Unblock => ReaperSteps(s, step);
    case Return => ReaperSteps(s, step);
    case _ => LockSteps(s, step);
  }

  // ---- no child is forgotten ----

  /** The reaper is in its loop, and will look again. */
  predicate Looking(s: State) {
    s.reaper in {Waiting, Moved} || Held(s)
  }

  /** While a child waits to be reaped, the reaper is looking, or the signal or
      the message that it causes is under way; and the signal is not left blocked. */
  ghost predicate Awake(s: State) {
    && (HasZombie(s) && !Looking(s) ==> s.signal || s.message)
    && (s.blocked ==> s.message || Looking(s) || s.reaper == Leaving)
  }

  lemma StepKeepsAwake(s: State, step: Step)
    requires Awake(s) && Enabled(s, step)
    ensures Awake(Next(s, step))
  {
    var s' := Next(s, step);
    if HasZombie(s') && !step.Exit? {
      var p :| p in s'.kernel && s'.kernel[p].Zombie?;
      assert p in s.kernel && s.kernel[p].Zombie?;
    }
  }

  // ---- whole runs ----

  /** Each step is enabled and gives no child with a callout a pid that the reaper holds. */
  ghost predicate Run(s: State, steps: seq<Step>, t: State)
    decreases |steps|
  {
    if steps == [] then s == t
    else Enabled(s, steps[0]) && NoReuse(s, steps[0]) && Run(Next(s, steps[0]), steps[1..], t)
  }

  lemma {:induction false} RunKeeps(s: State, steps: seq<Step>, t: State)
    requires Inv(s) && Run(s, steps, t)
    ensures Inv(t)
    decreases |steps|
  {
    hide Inv, Next, Enabled;
    if steps != [] {
      StepKeeps(s, steps[0]);
      RunKeeps(Next(s, steps[0]), steps[1..], t);
    }
  }

  lemma {:induction false} RunKeepsAwake(s: State, steps: seq<Step>, t: State)
    requires Awake(s) && Run(s, steps, t)
    ensures Awake(t)
    decreases |steps|
  {
    hide Awake, Next, Enabled;
    if steps != [] {
      StepKeepsAwake(s, steps[0]);
      RunKeepsAwake(Next(s, steps[0]), steps[1..], t);
    }
  }

  /** Under any interleaving, whenever a child waits to be reaped and the reaper
      is away, it can be woken, or the signal that leads to it delivered. */
  lemma NoneForgotten(steps: seq<Step>, s: State)
    requires Run(START, steps, s) && s.reaper == Away && HasZombie(s)
    ensures Enabled(s, Wake) || Enabled(s, Signal(true))
  {
    hide Run;
    assert Awake(START);
    RunKeepsAwake(START, steps, s);
  }

  /** Under any interleaving: the active, the reaped and the called-out children
      partition the registered ones; no child is called out twice, and each
      callout gets the child's own pid and exit status; and whenever the reaper
      is done, the registered children called out are exactly those that have
      been waited for. */
  lemma ReapedOnce(steps: seq<Step>, s: State)
    requires Run(START, steps, s)
    ensures Partition(s)
    ensures forall j, k :: 0 <= j < k < |s.called| ==> s.called[j].id != s.called[k].id
    ensures forall k :: 0 <= k < |s.called| ==> s.called[k].id in s.registered && Truthful(s, s.called[k])
    ensures s.reaper == Away ==>
              forall id :: id in s.registered ==>
                id < |s.children| && (Live(s, id) <==> !exists k :: 0 <= k < |s.called| && s.called[k].id == id)
  {
    hide ActiveIds, ReapedIds;
    StartInv();
    RunKeeps(START, steps, s);
    forall j, k | 0 <= j < k < |s.called|
      ensures s.called[j].id != s.called[k].id
    {
      if s.called[j].id == s.called[k].id {
        ReapedTwice(s.called, j, k);
        OnceEach(s.registered, s.called[j].id);
      }
    }
    forall k | 0 <= k < |s.called|
      ensures s.called[k].id in s.registered
    {
      ReapedMember(s.called, k);
      assert s.called[k].id in multiset(s.registered);
    }
    if s.reaper == Away {
      forall id | id in s.registered
        ensures id < |s.children| && (Live(s, id) <==> !exists k :: 0 <= k < |s.called| && s.called[k].id == id)
      {
        WhenAway(s, id);
      }
    }
  }

  lemma WhenAway(s: State, id: nat)
    requires Inv(s) && s.reaper == Away && id in s.registered
    ensures id < |s.children| && (Live(s, id) <==> !exists k :: 0 <= k < |s.called| && s.called[k].id == id)
  {
    assert ReapedIds(s.reaped) == multiset{};
    hide ReapedIds, ActiveIds, Live;
    assert id in multiset(s.registered);
    if id in ActiveIds(s.active) {
      ActiveFrom(s.active, id);
    } else {
      ReapedFrom(s.called, id);
    }
  }

  /** Without that proviso it goes wrong, in every state in which it can: if a
      child with a callout gets the pid that the reaper holds, the reaper then
      takes it for the child waited for. */
  lemma ReuseMisleads(s: State, thread: nat)
    requires Inv(s) && s.reaper.Holding? && s.holder == Nobody && s.reaper.pid !in s.kernel
    ensures var pid := s.reaper.pid;
            && Enabled(s, Lock(thread)) && Enabled(Next(s, Lock(thread)), Fork(pid, true))
            && var s2 := Next(Next(s, Lock(thread)), Fork(pid, true));
            && var s3 := Next(s2, Insert);
            && var s4 := Next(s3, Unlock);
            && Enabled(s4, LockToMove)
            && var s5 := Next(Next(s4, LockToMove), Move);
            && s5.reaped == [Reaped(|s.children|, pid, s.reaper.status)] + s.reaped
            && |s.children| != s.reaper.id && |s.children| !in s5.exits
  {
  }
}
