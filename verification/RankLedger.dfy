/** What the clients of the IPMonitor control server assert about interfaces:
    the server's state without its representation, and whole runs of it. */
module RankLedger {
  import opened InterfaceLists

  // Primary ranks; zero, the default, is never stored.
  const RANK_DEFAULT := 0
  const RANK_FIRST := 1
  const RANK_LAST := 2
  const RANK_NEVER := 3
  const RANK_SCOPED := 4

  // Advisories; zero, none, is never stored.
  const ADVISORY_NONE := 0
  const ADVISORY_LINK_LAYER := 1
  const ADVISORY_UPLINK := 2

  /** A connection. */
  type Conn = nat

  /** What one session asserts. */
  datatype Tables = Tables(ranks: map<Name, nat>, advisories: map<Name, nat>)

  /** The flags of an advisory report. */
  datatype Flags = Flags(linkLayer: bool, uplink: bool)

  /** An advisory report: the flags raised and the number of advising sessions. */
  datatype Metric = Metric(flags: Flags, count: nat)

  const NO_FLAGS := Flags(false, false)

  type Sessions = map<Conn, Tables>

  /** The sessions, the interfaces changed since the last snapshot, and the last
      report submitted for each interface. */
  datatype State = State(sessions: Sessions, changed: set<Name>, last: map<Name, Metric>)

  const EMPTY := State(map[], {}, map[])

  function Put(m: map<Name, nat>, i: Name, v: nat): map<Name, nat> {
    if v == 0 then m - {i} else m[i := v]
  }

  function Of(ss: Sessions, c: Conn): Tables {
    if c in ss then ss[c] else Tables(map[], map[])
  }

  // ---- reports ----

  ghost function Advisers(ss: Sessions, i: Name): set<Conn> {
    set c | c in ss && i in ss[c].advisories
  }

  ghost predicate Advised(ss: Sessions, i: Name, a: nat) {
    exists c :: c in ss && i in ss[c].advisories && ss[c].advisories[i] == a
  }

  /** The report that describes the sessions as they are. */
  ghost function Current(ss: Sessions, i: Name): Metric {
    Metric(Flags(Advised(ss, i, ADVISORY_LINK_LAYER), Advised(ss, i, ADVISORY_UPLINK)), |Advisers(ss, i)|)
  }

  function LastOf(last: map<Name, Metric>, i: Name): Metric {
    if i in last then last[i] else Metric(NO_FLAGS, 0)
  }

  /** Reports for the interfaces of w whose report has changed. */
  ghost function Reported(last: map<Name, Metric>, w: set<Name>, before: Sessions, after: Sessions): map<Name, Metric> {
    last + map i | i in w && Current(before, i) != Current(after, i) :: Current(after, i)
  }

  // ---- steps ----

  function Connected(ss: Sessions, c: Conn): Sessions {
    ss[c := Of(ss, c)]
  }

  function WithRank(ss: Sessions, c: Conn, i: Name, r: nat): Sessions {
    ss[c := Of(ss, c).(ranks := Put(Of(ss, c).ranks, i, r))]
  }

  function WithAdvisory(ss: Sessions, c: Conn, i: Name, a: nat): Sessions {
    ss[c := Of(ss, c).(advisories := Put(Of(ss, c).advisories, i, a))]
  }

  ghost function SetRank(s: State, c: Conn, i: Name, r: nat): State {
    if r == RANK_DEFAULT && Of(s.sessions, c).ranks == map[] then s.(sessions := Connected(s.sessions, c))
    else s.(sessions := WithRank(s.sessions, c, i, r), changed := s.changed + {i})
  }

  ghost function SetAdvisory(s: State, c: Conn, i: Name, a: nat): State {
    if a == ADVISORY_NONE && Of(s.sessions, c).advisories == map[] then
      s.(sessions := Connected(s.sessions, c))
    else
      var after := WithAdvisory(s.sessions, c, i, a);
      State(after, s.changed + {i}, Reported(s.last, {i}, s.sessions, after))
  }

  ghost function Close(s: State, c: Conn): State {
    var t := Of(s.sessions, c);
    State(s.sessions - {c}, s.changed + t.advisories.Keys + t.ranks.Keys,
          Reported(s.last, t.advisories.Keys, s.sessions, s.sessions - {c}))
  }

  datatype Event =
    | Rank(c: Conn, i: Name, r: nat)
    | Advisory(c: Conn, i: Name, a: nat)
    | Disconnect(c: Conn)
    | Snapshot

  ghost function Step(s: State, e: Event): State {
    match e
    case Rank(c, i, r) => SetRank(s, c, i, r)
    case Advisory(c, i, a) => SetAdvisory(s, c, i, a)
    case Disconnect(c) => Close(s, c)
    case Snapshot => s.(changed := {})
  }

  ghost function Run(s: State, es: seq<Event>): State {
    if es == [] then s else Step(Run(s, es[..|es| - 1]), es[|es| - 1])
  }

  // ---- the aggregate rank ----

  /** What one session asks for: its rank, or Last if it advises against. */
  function Claim(t: Tables, i: Name): nat {
    var r := if i in t.ranks then t.ranks[i] else RANK_DEFAULT;
    if i in t.advisories && r < RANK_LAST then RANK_LAST else r
  }

  /** r is the highest claim of any session. */
  ghost predicate IsAggregate(ss: Sessions, i: Name, r: nat) {
    && (forall c :: c in ss ==> Claim(ss[c], i) <= r)
    && (r == RANK_DEFAULT || exists c :: c in ss && Claim(ss[c], i) == r)
  }

  lemma AggregateUnique(ss: Sessions, i: Name, r: nat, r': nat)
    requires IsAggregate(ss, i, r) && IsAggregate(ss, i, r')
    ensures r == r'
  {
  }

  /** No session says anything else about i. */
  ghost predicate SameFor(ss: Sessions, ss': Sessions, i: Name) {
    forall c :: Claim(Of(ss, c), i) == Claim(Of(ss', c), i)
  }

  lemma SameClaims(ss: Sessions, ss': Sessions, i: Name, r: nat)
    requires SameFor(ss, ss', i) && IsAggregate(ss, i, r)
    ensures IsAggregate(ss', i, r)
  {
    forall c | c in ss'
      ensures Claim(ss'[c], i) <= r
    {
      assert Claim(Of(ss, c), i) == Claim(Of(ss', c), i);
    }
    if r != RANK_DEFAULT {
      var c :| c in ss && Claim(ss[c], i) == r;
      assert Claim(Of(ss, c), i) == Claim(Of(ss', c), i);
    }
  }

  lemma StepTouches(s: State, e: Event, i: Name)
    requires i !in Step(s, e).changed && e != Snapshot
    ensures i !in s.changed && SameFor(s.sessions, Step(s, e).sessions, i)
  {
    hide Current, Reported;
  }

  lemma {:induction false} RunTouches(s: State, es: seq<Event>, i: Name)
    requires i !in Run(s, es).changed && Snapshot !in es
    ensures SameFor(s.sessions, Run(s, es).sessions, i)
  {
    if es != [] {
      var mid := Run(s, es[..|es| - 1]);
      StepTouches(mid, es[|es| - 1], i);
      RunTouches(s, es[..|es| - 1], i);
      var end := Run(s, es);
      forall c
        ensures Claim(Of(s.sessions, c), i) == Claim(Of(end.sessions, c), i)
      {
        assert Claim(Of(s.sessions, c), i) == Claim(Of(mid.sessions, c), i);
      }
    }
  }

  /** Whatever happens between two snapshots, an interface whose aggregate rank
      is another afterwards is among the changed ones. */
  lemma ChangesCovered(s: State, es: seq<Event>, i: Name, r: nat, r': nat)
    requires Snapshot !in es
    requires IsAggregate(s.sessions, i, r) && IsAggregate(Run(s, es).sessions, i, r') && r != r'
    ensures i in Run(s, es).changed
  {
    if i !in Run(s, es).changed {
      RunTouches(s, es, i);
      SameClaims(s.sessions, Run(s, es).sessions, i, r);
      AggregateUnique(Run(s, es).sessions, i, r, r');
    }
  }

  // ---- reports follow the sessions ----

  ghost predicate ReportsCurrent(s: State) {
    forall i :: LastOf(s.last, i) == Current(s.sessions, i)
  }

  lemma SameAdvisories(ss: Sessions, ss': Sessions, i: Name)
    requires forall c :: i in Of(ss, c).advisories <==> i in Of(ss', c).advisories
    requires forall c :: i in Of(ss, c).advisories ==> Of(ss, c).advisories[i] == Of(ss', c).advisories[i]
    ensures Current(ss, i) == Current(ss', i)
  {
    assert Advisers(ss, i) == Advisers(ss', i) by {
      forall c
        ensures c in Advisers(ss, i) <==> c in Advisers(ss', i)
      {
        assert i in Of(ss, c).advisories <==> i in Of(ss', c).advisories;
      }
    }
    forall a
      ensures Advised(ss, i, a) <==> Advised(ss', i, a)
    {
      if Advised(ss, i, a) {
        var c :| c in ss && i in ss[c].advisories && ss[c].advisories[i] == a;
        assert i in Of(ss, c).advisories;
      }
      if Advised(ss', i, a) {
        var c :| c in ss' && i in ss'[c].advisories && ss'[c].advisories[i] == a;
        assert i in Of(ss', c).advisories;
      }
    }
  }

  lemma ReportedCurrent(last: map<Name, Metric>, w: set<Name>, before: Sessions, after: Sessions)
    requires forall i :: LastOf(last, i) == Current(before, i)
    requires forall i :: i !in w ==> Current(before, i) == Current(after, i)
    ensures forall i :: LastOf(Reported(last, w, before, after), i) == Current(after, i)
  {
    hide Current;
  }

  /** A step that keeps the advisories, and the reports. */
  lemma SilentStep(s: State, s': State)
    requires ReportsCurrent(s) && s'.last == s.last
    requires forall c :: Of(s.sessions, c).advisories == Of(s'.sessions, c).advisories
    ensures ReportsCurrent(s')
  {
    hide Current, LastOf, Of;
    forall i
      ensures LastOf(s'.last, i) == Current(s'.sessions, i)
    {
      SameAdvisories(s.sessions, s'.sessions, i);
    }
  }

  /** A step that changes advisories for the interfaces of w, and reports on them. */
  lemma ReportingStep(s: State, s': State, w: set<Name>)
    requires ReportsCurrent(s) && s'.last == Reported(s.last, w, s.sessions, s'.sessions)
    requires forall c, i :: i !in w ==>
               var m, m' := Of(s.sessions, c).advisories, Of(s'.sessions, c).advisories;
               (i in m <==> i in m') && (i in m ==> m[i] == m'[i])
    ensures ReportsCurrent(s')
  {
    hide Current, LastOf, Of, Reported;
    forall i | i !in w
      ensures Current(s.sessions, i) == Current(s'.sessions, i)
    {
      SameAdvisories(s.sessions, s'.sessions, i);
    }
    ReportedCurrent(s.last, w, s.sessions, s'.sessions);
  }

  lemma StepReports(s: State, e: Event)
    requires ReportsCurrent(s)
    ensures ReportsCurrent(Step(s, e))
  {
    hide Current, Reported, LastOf, ReportsCurrent;
    match e
    case Rank(c, i, r) => SilentStep(s, Step(s, e));
    case Advisory(c, i, a) =>
      if a == ADVISORY_NONE && Of(s.sessions, c).advisories == map[] {
        SilentStep(s, Step(s, e));
      } else {
        ReportingStep(s, Step(s, e), {i});
      }
    case Disconnect(c) => ReportingStep(s, Step(s, e), Of(s.sessions, c).advisories.Keys);
    case Snapshot => SilentStep(s, Step(s, e));
  }

  lemma StartReports()
    ensures ReportsCurrent(EMPTY)
  {
    forall i
      ensures LastOf(EMPTY.last, i) == Current(EMPTY.sessions, i)
    {
      assert Advisers(EMPTY.sessions, i) == {};
    }
  }

  /** In every reachable state the last report submitted for an interface is
      the one that describes the sessions. */
  lemma {:induction false} RunReports(es: seq<Event>)
    ensures ReportsCurrent(Run(EMPTY, es))
  {
    if es == [] {
      StartReports();
    } else {
      RunReports(es[..|es| - 1]);
      StepReports(Run(EMPTY, es[..|es| - 1]), es[|es| - 1]);
    }
  }

  /** What the last report says, interface by interface: a flag if some session
      gives that advisory, and how many sessions give one; with no report, none
      does. */
  lemma ReportsSay(es: seq<Event>, i: Name)
    ensures var s := Run(EMPTY, es);
            && (i !in s.last ==> forall c :: c in s.sessions ==> i !in s.sessions[c].advisories)
            && (i in s.last ==>
                  && s.last[i].count == |set c | c in s.sessions && i in s.sessions[c].advisories|
                  && (s.last[i].flags.linkLayer <==>
                        exists c :: c in s.sessions && i in s.sessions[c].advisories
                                    && s.sessions[c].advisories[i] == 1)
                  && (s.last[i].flags.uplink <==>
                        exists c :: c in s.sessions && i in s.sessions[c].advisories
                                    && s.sessions[c].advisories[i] == 2))
  {
    hide Run, Current;
    RunReports(es);
    var s := Run(EMPTY, es);
    assert LastOf(s.last, i) == Current(s.sessions, i);
    CurrentIs(s.sessions, i);
  }

  lemma CurrentIs(ss: Sessions, i: Name)
    ensures var m := Current(ss, i);
            && m.count == |set c | c in ss && i in ss[c].advisories|
            && (m.count == 0 ==> forall c :: c in ss ==> i !in ss[c].advisories)
            && (m.flags.linkLayer <==> exists c :: c in ss && i in ss[c].advisories && ss[c].advisories[i] == 1)
            && (m.flags.uplink <==> exists c :: c in ss && i in ss[c].advisories && ss[c].advisories[i] == 2)
  {
    assert Advisers(ss, i) == set c | c in ss && i in ss[c].advisories;
    if |Advisers(ss, i)| == 0 {
      forall c | c in ss
        ensures i !in ss[c].advisories
      {
        assert c !in Advisers(ss, i);
      }
    }
  }

  /** An event changes what its own connection says about its own interface, and
      nothing else; zero takes an entry away. */
  lemma StepSays(s: State, e: Event, c: Conn, i: Name)
    ensures var t, t' := Of(s.sessions, c), Of(Step(s, e).sessions, c);
            && (e == Disconnect(c) ==> t' == Tables(map[], map[]) && c !in Step(s, e).sessions)
            && (e != Disconnect(c) && !(e.Rank? && e.c == c && e.i == i) ==>
                  (i in t'.ranks <==> i in t.ranks) && (i in t.ranks ==> t'.ranks[i] == t.ranks[i]))
            && (e != Disconnect(c) && !(e.Advisory? && e.c == c && e.i == i) ==>
                  (i in t'.advisories <==> i in t.advisories)
                  && (i in t.advisories ==> t'.advisories[i] == t.advisories[i]))
            && (e.Rank? && e.c == c && e.i == i ==>
                  (i in t'.ranks <==> e.r != 0) && (e.r != 0 ==> t'.ranks[i] == e.r))
            && (e.Advisory? && e.c == c && e.i == i ==>
                  (i in t'.advisories <==> e.a != 0) && (e.a != 0 ==> t'.advisories[i] == e.a))
  {
    hide Reported;
  }

  /** An interface is newly among the changed ones only if the event is about it. */
  lemma ChangedOnly(s: State, e: Event, i: Name)
    requires i in Step(s, e).changed && i !in s.changed
    ensures match e
            case Rank(_, j, _) => j == i
            case Advisory(_, j, _) => j == i
            case Disconnect(c) => i in Of(s.sessions, c).ranks || i in Of(s.sessions, c).advisories
            case Snapshot => false
  {
    hide Reported;
  }
}
