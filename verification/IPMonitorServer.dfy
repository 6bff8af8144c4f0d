/** The IPMonitor control server (IPMonitorControlServer.c): a list of sessions
    with dictionaries that exist only while they hold something, the pending
    list of changed interfaces, and the advisory reports submitted. */
module IPMonitorServer {
  import opened Wrappers
  import opened Bytes
  import opened InterfaceLists
  import opened RankLedger

  type Dict = Option<map<Name, nat>>

  datatype Session = Session(conn: Conn, assertions: Dict, advisories: Dict)

  datatype Error = Done | NotPermitted | Invalid

  function Entries(d: Dict): map<Name, nat> {
    if d.None? then map[] else d.value
  }

  /** A dictionary is never empty and never holds the default value. */
  ghost predicate GoodDict(d: Dict, limit: nat) {
    d.Some? ==> d.value != map[] && forall i :: i in d.value ==> 1 <= d.value[i] <= limit
  }

  ghost predicate GoodSession(s: Session) {
    GoodDict(s.assertions, RANK_SCOPED) && GoodDict(s.advisories, ADVISORY_UPLINK)
  }

  ghost predicate Distinct(ss: seq<Session>) {
    forall j, k :: 0 <= j < k < |ss| ==> ss[j].conn != ss[k].conn
  }

  ghost predicate AllGood(ss: seq<Session>) {
    Distinct(ss) && forall k :: 0 <= k < |ss| ==> GoodSession(ss[k])
  }

  function TablesOf(s: Session): Tables {
    Tables(Entries(s.assertions), Entries(s.advisories))
  }

  /** The sessions as a map. */
  ghost function Ledger(ss: seq<Session>): Sessions {
    if ss == [] then map[]
    else Ledger(ss[..|ss| - 1])[ss[|ss| - 1].conn := TablesOf(ss[|ss| - 1])]
  }

  lemma {:induction false} LedgerKeys(ss: seq<Session>, c: Conn)
    ensures c in Ledger(ss) <==> exists j :: 0 <= j < |ss| && ss[j].conn == c
  {
    if ss != [] {
      LedgerKeys(ss[..|ss| - 1], c);
      assert ss[|ss| - 1].conn == c ==> exists j :: 0 <= j < |ss| && ss[j].conn == c;
    }
  }

  lemma {:induction false} LedgerAt(ss: seq<Session>, k: nat)
    requires Distinct(ss) && k < |ss|
    ensures ss[k].conn in Ledger(ss) && Ledger(ss)[ss[k].conn] == TablesOf(ss[k])
    ensures Of(Ledger(ss), ss[k].conn) == TablesOf(ss[k])
  {
    if k < |ss| - 1 {
      LedgerAt(ss[..|ss| - 1], k);
    }
  }

  lemma LedgerNone(c: Conn)
    ensures Ledger([]) == map[] && Distinct([])
    ensures Ledger([]) - {c} == map[]
  {
  }

  lemma {:induction false} LedgerUpdate(ss: seq<Session>, k: nat, s: Session)
    requires Distinct(ss) && k < |ss| && s.conn == ss[k].conn
    ensures Distinct(ss[k := s]) && Ledger(ss[k := s]) == Ledger(ss)[s.conn := TablesOf(s)]
  {
    var n := |ss| - 1;
    if k < n {
      LedgerUpdate(ss[..n], k, s);
      assert ss[k := s][..n] == ss[..n][k := s];
    } else {
      assert ss[k := s][..n] == ss[..n];
    }
  }

  lemma {:induction false} LedgerInsert(ss: seq<Session>, s: Session)
    requires Distinct(ss) && s.conn !in Ledger(ss)
    ensures Distinct([s] + ss) && Ledger([s] + ss) == Ledger(ss)[s.conn := TablesOf(s)]
  {
    var n := |ss| - 1;
    if ss == [] {
      assert [s] + ss == [s] && [s][..0] == [];
    } else {
      LedgerInsert(ss[..n], s);
      assert ([s] + ss)[..n + 1] == [s] + ss[..n];
      Swapped(Ledger(ss[..n]), s.conn, TablesOf(s), ss[n].conn, TablesOf(ss[n]));
    }
  }

  lemma Swapped(m: Sessions, c: Conn, t: Tables, d: Conn, u: Tables)
    requires c != d
    ensures m[c := t][d := u] == m[d := u][c := t]
  {
  }

  lemma LedgerPrefix(ss: seq<Session>, k: nat)
    requires Distinct(ss) && k < |ss|
    ensures Distinct(ss[..k]) && Distinct(ss[..k + 1]) && ss[k].conn !in Ledger(ss[..k])
    ensures Ledger(ss[..k + 1]) == Ledger(ss[..k])[ss[k].conn := TablesOf(ss[k])]
  {
    assert ss[..k + 1][..k] == ss[..k];
    LedgerKeys(ss[..k], ss[k].conn);
  }

  lemma DistinctRemove(ss: seq<Session>, k: nat)
    requires Distinct(ss) && k < |ss|
    ensures Distinct(ss[..k] + ss[k + 1..])
  {
  }

  lemma RemovedFrom(ss: Sessions, c: Conn, t: Tables, d: Conn)
    ensures c == d ==> ss[c := t] - {d} == ss - {d}
    ensures c != d ==> ss[c := t] - {d} == (ss - {d})[c := t]
    ensures c !in ss ==> c !in ss - {d} && ss - {c} == ss
  {
  }

  lemma {:induction false} LedgerRemove(ss: seq<Session>, k: nat)
    requires Distinct(ss) && k < |ss|
    ensures Distinct(ss[..k] + ss[k + 1..])
    ensures Ledger(ss[..k] + ss[k + 1..]) == Ledger(ss) - {ss[k].conn}
  {
    hide Ledger;
    var n := |ss| - 1;
    var rest := ss[..k] + ss[k + 1..];
    DistinctRemove(ss, k);
    LedgerPrefix(ss, n);
    assert ss[..n + 1] == ss;
    RemovedFrom(Ledger(ss[..n]), ss[n].conn, TablesOf(ss[n]), ss[k].conn);
    if k < n {
      LedgerRemove(ss[..n], k);
      assert rest[..n - 1] == ss[..n][..k] + ss[..n][k + 1..];
      LedgerPrefix(rest, n - 1);
      assert rest[..n] == rest && rest[n - 1] == ss[n];
    } else {
      assert rest == ss[..n];
    }
  }

  // ---- reports ----

  function ToFlags(a: nat): Flags {
    Flags(a == ADVISORY_LINK_LAYER, a == ADVISORY_UPLINK)
  }

  function Or(f: Flags, g: Flags): Flags {
    Flags(f.linkLayer || g.linkLayer, f.uplink || g.uplink)
  }

  lemma AdvisersAdd(ss: Sessions, c: Conn, t: Tables, i: Name)
    requires c !in ss
    ensures Advisers(ss[c := t], i) == if i in t.advisories then Advisers(ss, i) + {c} else Advisers(ss, i)
    ensures c !in Advisers(ss, i)
  {
  }

  lemma AdvisedAdd(ss: Sessions, c: Conn, t: Tables, i: Name, a: nat)
    requires c !in ss
    ensures Advised(ss[c := t], i, a) <==> Advised(ss, i, a) || (i in t.advisories && t.advisories[i] == a)
  {
    var ss' := ss[c := t];
    if Advised(ss, i, a) {
      var d :| d in ss && i in ss[d].advisories && ss[d].advisories[i] == a;
      assert d in ss' && ss'[d] == ss[d];
    }
    if i in t.advisories && t.advisories[i] == a {
      assert c in ss' && ss'[c] == t;
    }
  }

  /** One more session. */
  lemma CurrentAdd(ss: Sessions, c: Conn, t: Tables, i: Name)
    requires c !in ss
    ensures var m := Current(ss, i);
            Current(ss[c := t], i) ==
            if i in t.advisories then Metric(Or(m.flags, ToFlags(t.advisories[i])), m.count + 1) else m
  {
    hide Advisers, Advised;
    AdvisersAdd(ss, c, t, i);
    AdvisedAdd(ss, c, t, i, ADVISORY_LINK_LAYER);
    AdvisedAdd(ss, c, t, i, ADVISORY_UPLINK);
  }

  lemma CurrentNone(i: Name)
    ensures Current(map[], i) == Metric(NO_FLAGS, 0)
  {
    assert Advisers(map[], i) == {};
  }

  /** Where the sessions are that advise on i. */
  ghost function Advising(ss: seq<Session>, out: set<Conn>, i: Name): set<int> {
    set j | 0 <= j < |ss| && ss[j].conn !in out && ss[j].advisories.Some? && i in ss[j].advisories.value
  }

  lemma AdvisingMore(ss: seq<Session>, out: set<Conn>, i: Name)
    requires ss != []
    ensures var n := |ss| - 1;
            var init := Advising(ss[..n], out, i);
            && n !in init
            && Advising(ss, out, i) ==
               if ss[n].conn !in out && i in TablesOf(ss[n]).advisories then init + {n} else init
  {
  }

  lemma LedgerLess(m: Sessions, c: Conn, t: Tables, out: set<Conn>)
    requires c !in m
    ensures c in out ==> m[c := t] - out == m - out
    ensures c !in out ==> c !in m - out && m[c := t] - out == (m - out)[c := t]
  {
  }

  lemma {:induction false} CountAt(ss: seq<Session>, out: set<Conn>, i: Name)
    requires Distinct(ss)
    ensures |Advising(ss, out, i)| == |Advisers(Ledger(ss) - out, i)|
  {
    hide Ledger, Advisers, Advising, TablesOf, Distinct;
    if ss == [] {
      NoneAdvises(out, i);
    } else {
      var n := |ss| - 1;
      assert ss[..n + 1] == ss;
      LedgerPrefix(ss, n);
      CountAt(ss[..n], out, i);
      AdvisingMore(ss, out, i);
      LedgerLess(Ledger(ss[..n]), ss[n].conn, TablesOf(ss[n]), out);
      if ss[n].conn !in out {
        AdvisersAdd(Ledger(ss[..n]) - out, ss[n].conn, TablesOf(ss[n]), i);
      }
    }
  }

  lemma NoneAdvises(out: set<Conn>, i: Name)
    ensures Advising([], out, i) == {} && Advisers(Ledger([]) - out, i) == {}
  {
  }

  lemma AdvisedAt(ss: seq<Session>, out: set<Conn>, i: Name, a: nat)
    requires Distinct(ss)
    ensures Advised(Ledger(ss) - out, i, a) <==>
            exists j :: 0 <= j < |ss| && ss[j].conn !in out && ss[j].advisories.Some? &&
                        i in ss[j].advisories.value && ss[j].advisories.value[i] == a
  {
    hide Ledger, Distinct;
    var m := Ledger(ss) - out;
    if Advised(m, i, a) {
      var c :| c in m && i in m[c].advisories && m[c].advisories[i] == a;
      LedgerKeys(ss, c);
      var j :| 0 <= j < |ss| && ss[j].conn == c;
      LedgerAt(ss, j);
      assert i in ss[j].advisories.value;
    }
    if j :| 0 <= j < |ss| && ss[j].conn !in out && ss[j].advisories.Some? &&
            i in ss[j].advisories.value && ss[j].advisories.value[i] == a {
      LedgerAt(ss, j);
      assert ss[j].conn in m;
    }
  }

  /** A report in terms of the sessions' own dictionaries. */
  lemma CurrentAt(ss: seq<Session>, exclude: Option<Conn>, i: Name)
    requires Distinct(ss)
    ensures var m := Current(if exclude.Some? then Ledger(ss) - {exclude.value} else Ledger(ss), i);
            && (m.flags.linkLayer <==> exists j ::
                  0 <= j < |ss| && exclude != Some(ss[j].conn) && ss[j].advisories.Some? &&
                  i in ss[j].advisories.value && ss[j].advisories.value[i] == ADVISORY_LINK_LAYER)
            && (m.flags.uplink <==> exists j ::
                  0 <= j < |ss| && exclude != Some(ss[j].conn) && ss[j].advisories.Some? &&
                  i in ss[j].advisories.value && ss[j].advisories.value[i] == ADVISORY_UPLINK)
            && m.count == |set j | 0 <= j < |ss| && exclude != Some(ss[j].conn) &&
                                   ss[j].advisories.Some? && i in ss[j].advisories.value|
  {
    hide Ledger, Distinct, Advised, Advisers;
    var out := if exclude.Some? then {exclude.value} else {};
    NothingRemoved(Ledger(ss));
    AdvisedAt(ss, out, i, ADVISORY_LINK_LAYER);
    AdvisedAt(ss, out, i, ADVISORY_UPLINK);
    CountAt(ss, out, i);
    assert Advising(ss, out, i) ==
           set j | 0 <= j < |ss| && exclude != Some(ss[j].conn) &&
                   ss[j].advisories.Some? && i in ss[j].advisories.value;
  }

  function LastReports(rs: seq<(Name, Metric)>): map<Name, Metric> {
    if rs == [] then map[]
    else LastReports(rs[..|rs| - 1])[rs[|rs| - 1].0 := rs[|rs| - 1].1]
  }

  lemma OneMoreReport(rs: seq<(Name, Metric)>, i: Name, m: Metric)
    ensures LastReports(rs + [(i, m)]) == LastReports(rs)[i := m]
  {
    assert (rs + [(i, m)])[..|rs|] == rs;
  }

  lemma ReportedOne(last: map<Name, Metric>, i: Name, before: Sessions, after: Sessions)
    ensures Reported(last, {i}, before, after) ==
            if Current(before, i) != Current(after, i) then last[i := Current(after, i)] else last
  {
    hide Current;
  }

  lemma ReportedNone(last: map<Name, Metric>, before: Sessions, after: Sessions)
    ensures Reported(last, {}, before, after) == last
  {
  }

  lemma ReportedMore(last: map<Name, Metric>, w: set<Name>, i: Name, before: Sessions, after: Sessions)
    ensures Reported(last, w + {i}, before, after) ==
            if Current(before, i) != Current(after, i) then Reported(last, w, before, after)[i := Current(after, i)]
            else Reported(last, w, before, after)
  {
    hide Current;
    var r, r' := Reported(last, w, before, after), Reported(last, w + {i}, before, after);
    assert r'.Keys == if Current(before, i) != Current(after, i) then r.Keys + {i} else r.Keys;
  }

  // ---- the aggregate ----

  function Get(d: Dict, i: Name): nat {
    if d.Some? && i in d.value then d.value[i] else RANK_DEFAULT
  }

  function Max(a: nat, b: nat): nat {
    if a < b then b else a
  }

  /** Enters a rank unless a higher one is there. */
  method Raise(d: Dict, i: Name, r: nat) returns (d': Dict)
    requires GoodDict(d, RANK_SCOPED) && 1 <= r <= RANK_SCOPED
    ensures GoodDict(d', RANK_SCOPED)
    ensures forall j :: Get(d', j) == if j == i then Max(Get(d, i), r) else Get(d, j)
    ensures d'.Some?
  {
    if d.None? {
      d' := Some(map[i := r]);
      assert i in d'.value;
      return;
    }
    if i !in d.value || r > d.value[i] {
      d' := Some(d.value[i := r]);
      assert i in d'.value;
    } else {
      d' := d;
    }
  }

  /** One more session's claims. */
  method RaiseAll(d: Dict, s: Session) returns (d': Dict)
    requires GoodDict(d, RANK_SCOPED) && GoodSession(s)
    ensures GoodDict(d', RANK_SCOPED)
    ensures forall j :: Get(d', j) == Max(Get(d, j), Claim(TablesOf(s), j))
  {
    hide GoodDict;
    d' := d;
    if s.advisories.Some? {
      d' := RaiseAdvised(d', s.advisories.value);
    }
    ghost var mid := d';
    assert forall j :: Get(mid, j) == if j in Entries(s.advisories) then Max(Get(d, j), RANK_LAST) else Get(d, j);
    if s.assertions.Some? {
      d' := RaiseRanked(d', s.assertions);
    }
    assert forall j :: Get(d', j) == Max(Get(mid, j), Get(s.assertions, j));
  }

  method RaiseAdvised(d: Dict, advisories: map<Name, nat>) returns (d': Dict)
    requires GoodDict(d, RANK_SCOPED)
    ensures GoodDict(d', RANK_SCOPED)
    ensures forall j :: Get(d', j) == if j in advisories then Max(Get(d, j), RANK_LAST) else Get(d, j)
  {
    hide GoodDict;
    d' := d;
    var todo := advisories.Keys;
    while todo != {}
      invariant todo <= advisories.Keys && GoodDict(d', RANK_SCOPED)
      invariant forall j :: Get(d', j) == if j in advisories && j !in todo then Max(Get(d, j), RANK_LAST) else Get(d, j)
    {
      var i :| i in todo;
      d' := Raise(d', i, RANK_LAST);
      todo := todo - {i};
    }
  }

  method RaiseRanked(d: Dict, ranks: Dict) returns (d': Dict)
    requires GoodDict(d, RANK_SCOPED) && ranks.Some? && GoodDict(ranks, RANK_SCOPED)
    ensures GoodDict(d', RANK_SCOPED)
    ensures forall j :: Get(d', j) == Max(Get(d, j), Get(ranks, j))
  {
    d' := d;
    var todo := ranks.value.Keys;
    while todo != {}
      invariant todo <= ranks.value.Keys && GoodDict(d', RANK_SCOPED)
      invariant forall j :: Get(d', j) == if j in todo then Get(d, j) else Max(Get(d, j), Get(ranks, j))
    {
      var i :| i in todo;
      d' := Raise(d', i, ranks.value[i]);
      todo := todo - {i};
    }
  }

  lemma AggregateAdd(ss: Sessions, c: Conn, t: Tables, i: Name, r: nat)
    requires c !in ss && IsAggregate(ss, i, r)
    ensures IsAggregate(ss[c := t], i, Max(r, Claim(t, i)))
  {
    var ss' := ss[c := t];
    if r != RANK_DEFAULT {
      var d :| d in ss && Claim(ss[d], i) == r;
      assert d in ss' && ss'[d] == ss[d];
    }
    assert c in ss' && ss'[c] == t;
  }

  lemma ClaimIs(s: Session, i: Name)
    requires GoodSession(s)
    ensures s.assertions.Some? && i in s.assertions.value ==> 1 <= s.assertions.value[i] <= Claim(TablesOf(s), i)
    ensures s.advisories.Some? && i in s.advisories.value ==> RANK_LAST <= Claim(TablesOf(s), i)
    ensures var r := Claim(TablesOf(s), i);
            || r == RANK_DEFAULT
            || (s.assertions.Some? && i in s.assertions.value && s.assertions.value[i] == r)
            || (r == RANK_LAST && s.advisories.Some? && i in s.advisories.value)
  {
  }

  /** The aggregate in terms of the sessions' own dictionaries. */
  lemma Highest(ss: seq<Session>, i: Name, r: nat)
    requires AllGood(ss) && IsAggregate(Ledger(ss), i, r)
    ensures forall k :: 0 <= k < |ss| && ss[k].assertions.Some? && i in ss[k].assertions.value ==>
              1 <= ss[k].assertions.value[i] <= r
    ensures forall k :: 0 <= k < |ss| && ss[k].advisories.Some? && i in ss[k].advisories.value ==> RANK_LAST <= r
    ensures || r == RANK_DEFAULT
            || (exists k ::
                 0 <= k < |ss| && ss[k].assertions.Some? &&
                 i in ss[k].assertions.value && ss[k].assertions.value[i] == r)
            || (r == RANK_LAST && exists k :: 0 <= k < |ss| && ss[k].advisories.Some? && i in ss[k].advisories.value)
  {
    hide Ledger, Claim, GoodSession, Distinct;
    forall k | 0 <= k < |ss|
      ensures Claim(TablesOf(ss[k]), i) <= r && GoodSession(ss[k])
    {
      LedgerAt(ss, k);
    }
    forall k | 0 <= k < |ss|
      ensures ss[k].assertions.Some? && i in ss[k].assertions.value ==> 1 <= ss[k].assertions.value[i] <= r
      ensures ss[k].advisories.Some? && i in ss[k].advisories.value ==> RANK_LAST <= r
    {
      ClaimIs(ss[k], i);
    }
    if r != RANK_DEFAULT {
      var c :| c in Ledger(ss) && Claim(Ledger(ss)[c], i) == r;
      LedgerKeys(ss, c);
      var k :| 0 <= k < |ss| && ss[k].conn == c;
      LedgerAt(ss, k);
      ClaimIs(ss[k], i);
    }
  }

  lemma HighestAll(ss: seq<Session>, info: Dict)
    requires AllGood(ss) && GoodDict(info, RANK_SCOPED)
    requires forall i :: IsAggregate(Ledger(ss), i, Get(info, i))
    ensures forall k :: 0 <= k < |ss| && ss[k].assertions.Some? ==>
              forall i :: i in ss[k].assertions.value ==>
                info.Some? && i in info.value && ss[k].assertions.value[i] <= info.value[i]
    ensures forall k :: 0 <= k < |ss| && ss[k].advisories.Some? ==>
              forall i :: i in ss[k].advisories.value ==>
                info.Some? && i in info.value && RANK_LAST <= info.value[i]
    ensures info.Some? ==> forall i :: i in info.value ==>
              || (exists k ::
                   0 <= k < |ss| && ss[k].assertions.Some? &&
                   i in ss[k].assertions.value && ss[k].assertions.value[i] == info.value[i])
              || (info.value[i] == RANK_LAST && exists k ::
                  0 <= k < |ss| && ss[k].advisories.Some? && i in ss[k].advisories.value)
  {
    hide Ledger, AllGood, IsAggregate;
    forall k | 0 <= k < |ss|
      ensures ss[k].assertions.Some? ==>
                forall i :: i in ss[k].assertions.value ==>
                  info.Some? && i in info.value && ss[k].assertions.value[i] <= info.value[i]
      ensures ss[k].advisories.Some? ==>
                forall i :: i in ss[k].advisories.value ==>
                  info.Some? && i in info.value && RANK_LAST <= info.value[i]
    {
      forall i
        ensures ss[k].assertions.Some? && i in ss[k].assertions.value ==>
                  info.Some? && i in info.value && ss[k].assertions.value[i] <= info.value[i]
        ensures ss[k].advisories.Some? && i in ss[k].advisories.value ==>
                  info.Some? && i in info.value && RANK_LAST <= info.value[i]
      {
        Highest(ss, i, Get(info, i));
      }
    }
    if info.Some? {
      forall i | i in info.value
        ensures || (exists k ::
                     0 <= k < |ss| && ss[k].assertions.Some? &&
                     i in ss[k].assertions.value && ss[k].assertions.value[i] == info.value[i])
                || (info.value[i] == RANK_LAST && exists k ::
                    0 <= k < |ss| && ss[k].advisories.Some? && i in ss[k].advisories.value)
      {
        Highest(ss, i, Get(info, i));
      }
    }
  }

  /** What becomes of a session's dictionary. */
  method PutDict(d: Dict, i: Name, v: nat, ghost limit: nat) returns (d': Dict)
    requires GoodDict(d, limit) && v <= limit && (v == 0 ==> d.Some?)
    ensures GoodDict(d', limit) && Entries(d') == Put(Entries(d), i, v)
  {
    var m := if d.None? then map[] else d.value;
    if v == 0 {
      m := m - {i};
      if |m| == 0 {
        d' := None;
      } else {
        d' := Some(m);
      }
    } else {
      d' := Some(m[i := v]);
      assert i in d'.value;
    }
  }

  class Server {
    var sessions: seq<Session>
    var changes: Option<seq<Name>>
    var reports: seq<(Name, Metric)>

    ghost predicate Valid()
      reads this
    {
      AllGood(sessions) && (changes.Some? ==> NoDup(changes.value))
    }

    ghost function Changed(): set<Name>
      reads this
    {
      if changes.None? then {} else set i | i in changes.value
    }

    ghost function View(): State
      reads this
      requires Valid()
    {
      State(Ledger(sessions), Changed(), LastReports(reports))
    }

    constructor ()
      ensures Valid() && View() == EMPTY
    {
      sessions, changes, reports := [], None, [];
      new;
      LedgerNone(0);
    }

    method AddChange(i: Name)
      requires changes.Some? ==> NoDup(changes.value)
      modifies this`changes
      ensures changes.Some? && NoDup(changes.value)
      ensures Changed() == old(Changed()) + {i}
    {
      if changes.None? {
        changes := Some([i]);
      } else if i !in changes.value {
        changes := Some(changes.value + [i]);
      }
    }

    /** The flags and count over all sessions, or over all but one. */
    method AdvisoryFlags(i: Name, exclude: Option<Conn>) returns (flags: Flags, count: nat)
      requires AllGood(sessions)
      ensures Metric(flags, count) ==
              Current(if exclude.Some? then Ledger(sessions) - {exclude.value} else Ledger(sessions), i)
      ensures flags.linkLayer <==> exists j ::
                0 <= j < |sessions| && exclude != Some(sessions[j].conn) && sessions[j].advisories.Some? &&
                i in sessions[j].advisories.value && sessions[j].advisories.value[i] == ADVISORY_LINK_LAYER
      ensures flags.uplink <==> exists j ::
                0 <= j < |sessions| && exclude != Some(sessions[j].conn) && sessions[j].advisories.Some? &&
                i in sessions[j].advisories.value && sessions[j].advisories.value[i] == ADVISORY_UPLINK
      ensures count == |set j | 0 <= j < |sessions| && exclude != Some(sessions[j].conn) &&
                                sessions[j].advisories.Some? && i in sessions[j].advisories.value|
    {
      hide Current, Ledger, Distinct, GoodSession;
      flags, count := NO_FLAGS, 0;
      ghost var out := if exclude.Some? then {exclude.value} else {};
      CurrentNone(i);
      LedgerNone(if exclude.Some? then exclude.value else 0);
      assert sessions[..0] == [];
      assert Ledger(sessions[..0]) - out == map[];
      var k := 0;
      while k < |sessions|
        invariant 0 <= k <= |sessions| && Distinct(sessions[..k])
        invariant Metric(flags, count) == Current(Ledger(sessions[..k]) - out, i)
      {
        var s := sessions[k];
        LedgerPrefix(sessions, k);
        ghost var before := Ledger(sessions[..k]);
        if exclude.Some? {
          RemovedFrom(before, s.conn, TablesOf(s), exclude.value);
        } else {
          NothingRemoved(before);
          NothingRemoved(before[s.conn := TablesOf(s)]);
        }
        if s.advisories.Some? && exclude != Some(s.conn) {
          CurrentAdd(before - out, s.conn, TablesOf(s), i);
          if i in s.advisories.value {
            flags := Or(flags, ToFlags(s.advisories.value[i]));
            count := count + 1;
          }
        } else if exclude != Some(s.conn) {
          CurrentAdd(before - out, s.conn, TablesOf(s), i);
        }
        k := k + 1;
      }
      assert sessions[..|sessions|] == sessions;
      NothingRemoved(Ledger(sessions));
      CurrentAt(sessions, exclude, i);
    }

    method Find(c: Conn) returns (k: nat)
      requires Distinct(sessions)
      ensures k <= |sessions|
      ensures k < |sessions| ==> sessions[k].conn == c
      ensures k < |sessions| <==> c in Ledger(sessions)
    {
      k := 0;
      while k < |sessions|
        invariant k <= |sessions|
        invariant forall j :: 0 <= j < k ==> sessions[j].conn != c
      {
        if sessions[k].conn == c {
          LedgerAt(sessions, k);
          return;
        }
        k := k + 1;
      }
      LedgerKeys(sessions, c);
    }

    /** The session of a connection, made when there is none. */
    method SessionFor(c: Conn) returns (k: nat)
      requires Valid()
      modifies this`sessions
      ensures Valid() && k < |sessions| && sessions[k].conn == c
      ensures Ledger(sessions) == Connected(old(Ledger(sessions)), c)
    {
      hide Ledger;
      k := Find(c);
      if k < |sessions| {
        LedgerAt(sessions, k);
        assert Connected(Ledger(sessions), c) == Ledger(sessions);
      } else {
        LedgerInsert(sessions, Session(c, None, None));
        sessions := [Session(c, None, None)] + sessions;
        k := 0;
      }
    }

    method SetRank(k: nat, i: Name, r: nat)
      requires Valid() && k < |sessions| && r <= RANK_SCOPED
      modifies this
      ensures Valid() && View() == RankLedger.SetRank(old(View()), old(sessions[k].conn), i, r)
    {
      hide Ledger, LastReports, NoDup, GoodDict, Distinct;
      LedgerAt(sessions, k);
      var s := sessions[k];
      NoneIsEmpty(s.assertions, RANK_SCOPED);
      if s.assertions.None? && r == RANK_DEFAULT {
        assert Connected(Ledger(sessions), s.conn) == Ledger(sessions);
        return;
      }
      var d := PutDict(s.assertions, i, r, RANK_SCOPED);
      LedgerUpdate(sessions, k, s.(assertions := d));
      sessions := sessions[k := s.(assertions := d)];
      AddChange(i);
    }

    method SetAdvisory(k: nat, i: Name, a: nat)
      requires Valid() && k < |sessions| && a <= ADVISORY_UPLINK
      modifies this
      ensures Valid() && View() == RankLedger.SetAdvisory(old(View()), old(sessions[k].conn), i, a)
    {
      hide Ledger, LastReports, NoDup, GoodDict, Distinct, Current, Reported;
      LedgerAt(sessions, k);
      var s := sessions[k];
      NoneIsEmpty(s.advisories, ADVISORY_UPLINK);
      if s.advisories.None? && a == ADVISORY_NONE {
        assert Connected(Ledger(sessions), s.conn) == Ledger(sessions);
        return;
      }
      var flagsBefore, countBefore := AdvisoryFlags(i, None);
      ghost var before := Ledger(sessions);
      var d := PutDict(s.advisories, i, a, ADVISORY_UPLINK);
      LedgerUpdate(sessions, k, s.(advisories := d));
      sessions := sessions[k := s.(advisories := d)];
      var flagsAfter, countAfter := AdvisoryFlags(i, None);
      ReportedOne(LastReports(reports), i, before, Ledger(sessions));
      if flagsBefore != flagsAfter || countBefore != countAfter {
        OneMoreReport(reports, i, Metric(flagsAfter, countAfter));
        reports := reports + [(i, Metric(flagsAfter, countAfter))];
      }
      AddChange(i);
    }

    method ReportAtClose(k: nat)
      requires Valid() && k < |sessions|
      modifies this`reports
      ensures LastReports(reports) ==
              Reported(LastReports(old(reports)), Entries(sessions[k].advisories).Keys, Ledger(sessions),
                       Ledger(sessions) - {sessions[k].conn})
    {
      hide Ledger, LastReports, NoDup, GoodDict, Distinct, Current, Reported;
      var s := sessions[k];
      ghost var before, after := Ledger(sessions), Ledger(sessions) - {s.conn};
      ghost var last := LastReports(reports);
      ghost var done: set<Name> := {};
      ReportedNone(last, before, after);
      if s.advisories.None? {
        assert Entries(s.advisories).Keys == {};
        return;
      }
      var todo := s.advisories.value.Keys;
      while todo != {}
        invariant todo <= s.advisories.value.Keys && done == s.advisories.value.Keys - todo
        invariant LastReports(reports) == Reported(last, done, before, after)
      {
        var i :| i in todo;
        var flagsBefore, countBefore := AdvisoryFlags(i, None);
        var flagsAfter, countAfter := AdvisoryFlags(i, Some(s.conn));
        ReportedMore(last, done, i, before, after);
        if flagsBefore != flagsAfter || countBefore != countAfter {
          OneMoreReport(reports, i, Metric(flagsAfter, countAfter));
          reports := reports + [(i, Metric(flagsAfter, countAfter))];
        }
        todo, done := todo - {i}, done + {i};
      }
      assert done == Entries(s.advisories).Keys;
    }

    method AddChanges(d: Dict)
      requires changes.Some? ==> NoDup(changes.value)
      modifies this`changes
      ensures changes.Some? ==> NoDup(changes.value)
      ensures Changed() == old(Changed()) + Entries(d).Keys
    {
      if d.Some? {
        var todo := d.value.Keys;
        while todo != {}
          invariant todo <= d.value.Keys && (changes.Some? ==> NoDup(changes.value))
          invariant Changed() == old(Changed()) + (d.value.Keys - todo)
        {
          var i :| i in todo;
          AddChange(i);
          todo := todo - {i};
        }
      }
    }

    method Invalidate(k: nat)
      requires Valid() && k < |sessions|
      modifies this
      ensures Valid() && View() == Close(old(View()), old(sessions[k].conn))
    {
      hide Ledger, LastReports, NoDup, GoodDict, Distinct, Current, Reported;
      var s := sessions[k];
      LedgerAt(sessions, k);
      ReportAtClose(k);
      LedgerRemove(sessions, k);
      sessions := sessions[..k] + sessions[k + 1..];
      AddChanges(s.advisories);
      AddChanges(s.assertions);
    }

    /** An event that is refused changes nothing. */
    method HandleSetRank(c: Conn, root: bool, ifname: Option<Name>, raw: nat) returns (error: Error)
      requires Valid()
      modifies this
      ensures error == if !root then NotPermitted
                       else if ifname.None? || raw % U32_LIMIT > RANK_SCOPED then Invalid else Done
      ensures Valid()
      ensures View() == if error == Done then RankLedger.SetRank(old(View()), c, ifname.value, raw % U32_LIMIT)
                        else old(View())
    {
      hide Ledger, LastReports, AllGood, NoDup;
      if !root {
        return NotPermitted;
      }
      if ifname.None? {
        return Invalid;
      }
      var rank := raw % U32_LIMIT;
      if rank > RANK_SCOPED {
        return Invalid;
      }
      var k := SessionFor(c);
      SetRank(k, ifname.value, rank);
      return Done;
    }

    method HandleSetAdvisory(c: Conn, root: bool, entitled: bool, ifname: Option<Name>, raw: nat) returns (error: Error)
      requires Valid()
      modifies this
      ensures error == if !root && !entitled then NotPermitted
                       else if ifname.None? || raw % U32_LIMIT > ADVISORY_UPLINK then Invalid else Done
      ensures Valid()
      ensures View() == if error == Done then RankLedger.SetAdvisory(old(View()), c, ifname.value, raw % U32_LIMIT)
                        else old(View())
    {
      hide Ledger, LastReports, AllGood, NoDup, Reported, Current;
      if !root && !entitled {
        return NotPermitted;
      }
      if ifname.None? {
        return Invalid;
      }
      var advisory := raw % U32_LIMIT;
      if advisory > ADVISORY_UPLINK {
        return Invalid;
      }
      ghost var v := View();
      var k := SessionFor(c);
      AlreadyConnected(v, c, ifname.value, advisory);
      SetAdvisory(k, ifname.value, advisory);
      return Done;
    }

    method HandleDisconnect(c: Conn)
      requires Valid()
      modifies this
      ensures Valid() && View() == Close(old(View()), c)
    {
      hide LastReports, NoDup, Reported, Current, GoodSession, Ledger;
      var k := Find(c);
      if k == |sessions| {
        CloseNothing(View(), c);
        return;
      }
      Invalidate(k);
    }

    /** The aggregate ranks, and the interfaces changed since the last call. */
    method CopyRankInformation() returns (changed: Option<seq<Name>>, info: Dict)
      requires Valid()
      modifies this`changes
      ensures Valid() && View() == Step(old(View()), Snapshot)
      ensures changed.Some? ==> NoDup(changed.value)
      ensures old(View()).changed == if changed.None? then {} else set i | i in changed.value
      ensures GoodDict(info, RANK_SCOPED)
      ensures forall i :: IsAggregate(Ledger(sessions), i, Get(info, i))
      ensures forall k :: 0 <= k < |sessions| && sessions[k].assertions.Some? ==>
                forall i :: i in sessions[k].assertions.value ==>
                  info.Some? && i in info.value && sessions[k].assertions.value[i] <= info.value[i]
      ensures forall k :: 0 <= k < |sessions| && sessions[k].advisories.Some? ==>
                forall i :: i in sessions[k].advisories.value ==>
                  info.Some? && i in info.value && RANK_LAST <= info.value[i]
      ensures info.Some? ==> forall i :: i in info.value ==>
                || (exists k ::
                     0 <= k < |sessions| && sessions[k].assertions.Some? &&
                     i in sessions[k].assertions.value && sessions[k].assertions.value[i] == info.value[i])
                || (info.value[i] == RANK_LAST && exists k ::
                    0 <= k < |sessions| && sessions[k].advisories.Some? && i in sessions[k].advisories.value)
      ensures RANK_FIRST < RANK_LAST < RANK_NEVER
    {
      info := AggregateRanks();
      changed := changes;
      changes := None;
    }

    method AggregateRanks() returns (info: Dict)
      requires Valid()
      ensures GoodDict(info, RANK_SCOPED)
      ensures forall i :: IsAggregate(Ledger(sessions), i, Get(info, i))
      ensures forall k :: 0 <= k < |sessions| && sessions[k].assertions.Some? ==>
                forall i :: i in sessions[k].assertions.value ==>
                  info.Some? && i in info.value && sessions[k].assertions.value[i] <= info.value[i]
      ensures forall k :: 0 <= k < |sessions| && sessions[k].advisories.Some? ==>
                forall i :: i in sessions[k].advisories.value ==>
                  info.Some? && i in info.value && RANK_LAST <= info.value[i]
      ensures info.Some? ==> forall i :: i in info.value ==>
                || (exists k ::
                     0 <= k < |sessions| && sessions[k].assertions.Some? &&
                     i in sessions[k].assertions.value && sessions[k].assertions.value[i] == info.value[i])
                || (info.value[i] == RANK_LAST && exists k ::
                    0 <= k < |sessions| && sessions[k].advisories.Some? && i in sessions[k].advisories.value)
      ensures RANK_FIRST < RANK_LAST < RANK_NEVER
    {
      hide Ledger, NoDup, GoodDict, IsAggregate, Claim, Distinct;
      info := None;
      assert GoodDict(info, RANK_SCOPED) by {
        NoneIsEmpty(None, RANK_SCOPED);
      }
      LedgerNone(0);
      assert sessions[..0] == [];
      NothingAsked();
      var k := 0;
      while k < |sessions|
        invariant 0 <= k <= |sessions| && Distinct(sessions[..k])
        invariant GoodDict(info, RANK_SCOPED)
        invariant forall i :: IsAggregate(Ledger(sessions[..k]), i, Get(info, i))
      {
        ghost var was := info;
        ghost var t := TablesOf(sessions[k]);
        info := RaiseAll(info, sessions[k]);
        LedgerPrefix(sessions, k);
        forall i
          ensures IsAggregate(Ledger(sessions[..k + 1]), i, Get(info, i))
        {
          AggregateAdd(Ledger(sessions[..k]), sessions[k].conn, t, i, Get(was, i));
        }
        k := k + 1;
      }
      assert sessions[..|sessions|] == sessions;
      HighestAll(sessions, info);
    }

    method HasAdvisories(i: Name) returns (r: bool)
      requires Valid()
      ensures r <==> Advisers(Ledger(sessions), i) != {}
      ensures r <==> exists k ::
                0 <= k < |sessions| && sessions[k].advisories.Some? && i in sessions[k].advisories.value
    {
      var k := 0;
      while k < |sessions|
        invariant 0 <= k <= |sessions|
        invariant forall j :: 0 <= j < k ==> i !in Entries(sessions[j].advisories)
      {
        if sessions[k].advisories.Some? && i in sessions[k].advisories.value {
          LedgerAt(sessions, k);
          assert sessions[k].conn in Advisers(Ledger(sessions), i);
          return true;
        }
        k := k + 1;
      }
      LedgerAdvisers(sessions, i);
      return false;
    }

    /** Since dictionaries are never empty, one that exists is enough. */
    method AnyHasAdvisories() returns (r: bool)
      requires Valid()
      ensures r <==> exists i :: Advisers(Ledger(sessions), i) != {}
      ensures r <==> exists k, i ::
                0 <= k < |sessions| && sessions[k].advisories.Some? && i in sessions[k].advisories.value
    {
      var k := 0;
      while k < |sessions|
        invariant 0 <= k <= |sessions|
        invariant forall j :: 0 <= j < k ==> sessions[j].advisories.None?
      {
        if sessions[k].advisories.Some? {
          assert GoodSession(sessions[k]);
          ghost var i :| i in sessions[k].advisories.value;
          LedgerAt(sessions, k);
          assert sessions[k].conn in Advisers(Ledger(sessions), i);
          return true;
        }
        k := k + 1;
      }
      forall i
        ensures Advisers(Ledger(sessions), i) == {}
      {
        LedgerAdvisers(sessions, i);
      }
      return false;
    }
  }

  lemma LedgerAdvisers(ss: seq<Session>, i: Name)
    requires Distinct(ss) && forall j :: 0 <= j < |ss| ==> i !in Entries(ss[j].advisories)
    ensures Advisers(Ledger(ss), i) == {}
  {
    hide Ledger;
    forall c | c in Ledger(ss)
      ensures i !in Ledger(ss)[c].advisories
    {
      LedgerKeys(ss, c);
      var j :| 0 <= j < |ss| && ss[j].conn == c;
      LedgerAt(ss, j);
    }
  }

  lemma NothingRemoved(ss: Sessions)
    ensures ss - {} == ss
  {
  }

  lemma NothingAsked()
    ensures forall i :: IsAggregate(map[], i, RANK_DEFAULT)
  {
  }

  lemma NoneIsEmpty(d: Dict, limit: nat)
    ensures d.None? ==> GoodDict(d, limit)
    ensures GoodDict(d, limit) ==> (d.None? <==> Entries(d) == map[])
  {
  }

  /** Being connected first makes no difference to an advisory. */
  lemma AlreadyConnected(s: State, c: Conn, i: Name, a: nat)
    ensures RankLedger.SetAdvisory(s.(sessions := Connected(s.sessions, c)), c, i, a) ==
            RankLedger.SetAdvisory(s, c, i, a)
  {
    hide Current, Reported;
    var ss := Connected(s.sessions, c);
    assert Connected(ss, c) == ss;
    var after := WithAdvisory(s.sessions, c, i, a);
    assert WithAdvisory(ss, c, i, a) == after;
    SameAdvisories(ss, s.sessions, i);
    ReportedOne(s.last, i, ss, after);
    ReportedOne(s.last, i, s.sessions, after);
  }

  lemma CloseNothing(s: State, c: Conn)
    requires c !in s.sessions
    ensures Close(s, c) == s
  {
    hide Current;
    assert s.sessions - {c} == s.sessions;
  }
}
