/** Runs of a liblaunch connection: one sender, the socket, one receiver. */
module LaunchRuns {
  import opened Bytes
  import opened LaunchData
  import opened LaunchWire
  import opened LaunchStream

  /** pending is the sender's unsent tail and kept the descriptors that wait for
      the next send, wire the socket, buf and fds the receiver's buffers; sent,
      frames and got record the history, and due the trees sent with their
      descriptors under the numbers that the receiver gets them by.  headless
      tells that pending is a message whose header was lost; lost is the first
      such message, astray what was sent since bytes of it went out, and before
      the number of messages sent until then. */
  datatype Link = Link(
    pending: seq<byte>,
    kept: seq<int64>,
    headless: bool,
    wire: seq<Cell>,
    buf: seq<byte>,
    fds: seq<int64>,
    sent: seq<Data>,
    due: seq<Data>,
    frames: seq<seq<byte>>,
    got: seq<Data>,
    lost: seq<byte>,
    before: nat,
    astray: seq<Cell>)

  const IDLE := Link([], [], false, [], [], [], [], [], [], [], [], 0, [])

  datatype Event =
    | Send(t: Data, u: Data, frame: seq<byte>, accepted: nat)
    | Refuse(t: Data, u: Data, frame: seq<byte>)
    | Resume(taken: nat)
    | Receive(cells: nat)

  /** When an event can happen.  A new message needs an empty send buffer, and
      its first sendmsg takes at least the header or is refused. */
  ghost predicate Enabled(l: Link, e: Event) {
    match e
    case Send(t, u, f, n) => l.pending == [] && IsFrame(f, t) && Renumbered(t, u) && HEADER <= n <= |f|
    case Refuse(t, u, f) => l.pending == [] && IsFrame(f, t) && Renumbered(t, u)
    case Resume(n) => 0 < n <= |l.pending|
    case Receive(n) => 0 < n <= |l.wire|
  }

  function Received(l: Link, n: nat): Drained
    requires n <= |l.wire|
  {
    Drain(l.buf + Octets(l.wire[..n]), l.fds + CellFds(l.wire[..n]))
  }

  /** The cells go onto the socket; they are astray if the stream is, or if
      headless bytes are among them. */
  function Put(l: Link, cells: seq<Cell>, headless: bool): Link {
    l.(wire := l.wire + cells,
       astray := if headless || l.astray != [] then l.astray + cells else [],
       before := if headless && l.astray == [] then |l.due| else l.before)
  }

  ghost function Next(l: Link, e: Event): Link
    requires Enabled(l, e)
  {
    match e
    case Send(t, u, f, n) =>
      Put(l, Attach(f[..n], Fds(u)), false)
        .(pending := f[n..], kept := [], headless := false,
          sent := l.sent + [t], due := l.due + [u], frames := l.frames + [f])
    case Refuse(t, u, f) =>
      l.(pending := f[HEADER..], kept := Fds(u), headless := true,
         lost := if l.astray == [] then f[HEADER..] else l.lost)
    case Resume(n) =>
      Put(l, Attach(l.pending[..n], l.kept), l.headless).(pending := l.pending[n..], kept := [])
    case Receive(n) =>
      var d := Received(l, n);
      l.(wire := l.wire[n..], buf := d.buf, fds := d.fds, got := l.got + d.got)
  }

  /** The messages sent and not yet delivered, as cells. */
  ghost function Outstanding(l: Link): seq<Cell>
    requires |l.got| <= |l.due| == |l.frames|
  {
    StreamOf(l.due[|l.got|..], l.frames[|l.got|..])
  }

  /** The part of the send buffer that belongs to a message sent. */
  function Unsent(l: Link): seq<byte> {
    if l.headless then [] else l.pending
  }

  ghost predicate IsPacked(s: seq<byte>) {
    exists t :: Encodes(s, t)
  }

  /** Everything delivered is what was sent, in order, and the receive buffer,
      the socket and the send buffer hold exactly the rest of the stream. */
  ghost predicate Faithful(l: Link) {
    && l.astray == []
    && AllFrames(l.frames, l.due) && RenumberedAll(l.sent, l.due)
    && |l.got| <= |l.due| && SameAll(l.due[..|l.got|], l.got)
    && (if l.headless then IsPacked(l.pending) && l.lost == l.pending else l.kept == [])
    && var s := Outstanding(l);
       var m := |l.buf|;
       && m <= |s|
       && l.buf == Octets(s[..m]) && l.fds == CellFds(s[..m])
       && l.wire + Attach(Unsent(l), []) == s[m..]
       && (if |l.got| < |l.due| then m < |l.frames[|l.got|]| else m == 0)
  }

  lemma {:induction false} StreamSnoc(ts: seq<Data>, frames: seq<seq<byte>>, t: Data, f: seq<byte>)
    requires |ts| == |frames|
    ensures StreamOf(ts + [t], frames + [f]) == StreamOf(ts, frames) + Attach(f, Fds(t))
    decreases |ts|
  {
    if ts != [] {
      StreamSnoc(ts[1..], frames[1..], t, f);
      assert (ts + [t])[1..] == ts[1..] + [t] && (frames + [f])[1..] == frames[1..] + [f];
    } else {
      assert (ts + [t])[1..] == [] && (frames + [f])[1..] == [];
    }
  }

  lemma SendKeeps(l: Link, e: Event)
    requires Faithful(l) && Enabled(l, e) && e.Send?
    ensures Faithful(Next(l, e))
  {
    hide IsFrame, Carries, Same, Renumbered, IsPacked, CellFds, Octets, Attach, StreamOf;
    var k := |l.got|;
    var l' := Next(l, e);
    FrameCarries(e.frame, e.t, e.u);
    StreamSnoc(l.due[k..], l.frames[k..], e.u, e.frame);
    assert l'.due[k..] == l.due[k..] + [e.u] && l'.frames[k..] == l.frames[k..] + [e.frame];
    assert l'.due[..k] == l.due[..k];
    var s, a := Outstanding(l), Attach(e.frame, Fds(e.u));
    FrameLength(e.frame, e.t);
    AttachSplit(e.frame, e.accepted, Fds(e.u));
    AttachNothing();
    assert (s + a)[..|l.buf|] == s[..|l.buf|];
  }

  lemma FrameLength(f: seq<byte>, t: Data)
    requires IsFrame(f, t)
    ensures |f| >= HEADER + NODE && Encodes(f[HEADER..], t)
  {
  }

  /** A refused message stays with the sender: the stream is as it was. */
  lemma RefuseKeeps(l: Link, e: Event)
    requires Faithful(l) && Enabled(l, e) && e.Refuse?
    ensures Faithful(Next(l, e))
  {
    hide IsFrame, Carries, Same, Renumbered, CellFds, Octets, Attach, StreamOf;
    FrameLength(e.frame, e.t);
  }

  /** The descriptors travel with the first byte. */
  lemma AttachSplit(f: seq<byte>, n: nat, fds: seq<int64>)
    requires 0 < n <= |f|
    ensures Attach(f, fds) == Attach(f[..n], fds) + Attach(f[n..], [])
  {
  }

  lemma AttachNothing()
    ensures Attach([], []) == []
  {
  }

  lemma ResumeKeeps(l: Link, e: Event)
    requires Faithful(l) && Enabled(l, e) && e.Resume? && !l.headless
    ensures Faithful(Next(l, e))
  {
    hide IsFrame, Carries, Same, Renumbered, CellFds, Octets, Attach, StreamOf, IsPacked;
    AttachSplit(l.pending, e.taken, []);
  }

  /** The receiver drains a prefix of the outstanding stream. */
  lemma ReceiveDrains(l: Link, n: nat)
    requires Faithful(l) && n <= |l.wire|
    ensures |l.buf| + n <= |Outstanding(l)|
    ensures DrainsWell(l.due[|l.got|..], l.frames[|l.got|..], |l.buf| + n, Received(l, n))
  {
    hide Carries, IsPacked, Renumbered, Same, CellFds, Drain, DrainsWell, StreamOf;
    var k, m := |l.got|, |l.buf|;
    var s := Outstanding(l);
    assert s[m..][..n] == l.wire[..n];
    assert s[..m + n] == s[..m] + l.wire[..n];
    CellFdsConcat(s[..m], l.wire[..n]);
    assert Octets(s[..m + n]) == l.buf + Octets(l.wire[..n]);
    DrainStream(l.due[k..], l.frames[k..], m + n);
  }

  /** A receive of any size finds a clean stream and delivers what is complete. */
  lemma ReceiveKeeps(l: Link, e: Event)
    requires Faithful(l) && Enabled(l, e) && e.Receive?
    ensures Faithful(Next(l, e))
    ensures Received(l, e.cells).status in {Done, NeedMore}
  {
    hide IsFrame, Carries, IsPacked, Renumbered, RenumberedAll, Same, SameAll, CellFds, Drain, Octets, Attach,
      StreamOf, Received;
    var k, m, n := |l.got|, |l.buf|, e.cells;
    ReceiveDrains(l, n);
    SameConcat(l.due, k, l.got, Received(l, n).got);
    var ts, fs := l.due[k..], l.frames[k..];
    var d := Received(l, n);
    var j := |d.got|;
    assert ts[j..] == l.due[k + j..] && fs[j..] == l.frames[k + j..];
    TailOfStream(ts, fs, j, m + n, |d.buf|);
    assert Outstanding(l)[m..][n..] == Outstanding(l)[m + n..];
    assert l.wire[n..] + Attach(Unsent(l), []) == (l.wire + Attach(Unsent(l), []))[n..];
  }

  lemma SameConcat(due: seq<Data>, k: nat, got: seq<Data>, more: seq<Data>)
    requires k + |more| <= |due| && SameAll(due[..k], got) && SameAll(due[k..][..|more|], more)
    ensures SameAll(due[..k + |more|], got + more)
  {
    hide Same;
    assert due[..k + |more|] == due[..k] + due[k..][..|more|];
  }

  /** What remains after the delivered messages is the tail of the stream. */
  lemma {:induction false} TailOfStream(ts: seq<Data>, fs: seq<seq<byte>>, j: nat, n: nat, m: nat)
    requires |ts| == |fs| && j <= |ts|
    requires m <= |StreamOf(ts[j..], fs[j..])| && n <= |StreamOf(ts, fs)|
    requires n + |StreamOf(ts[j..], fs[j..])| == |StreamOf(ts, fs)| + m
    ensures StreamOf(ts, fs)[n..] == StreamOf(ts[j..], fs[j..])[m..]
    decreases j
  {
    if j == 0 {
      assert ts[0..] == ts && fs[0..] == fs;
    } else {
      assert ts[1..][j - 1..] == ts[j..] && fs[1..][j - 1..] == fs[j..];
      var a := |fs[0]|;
      StreamShrinks(ts[1..], fs[1..], j - 1);
      TailOfStream(ts[1..], fs[1..], j - 1, n - a, m);
    }
  }

  lemma {:induction false} StreamShrinks(ts: seq<Data>, fs: seq<seq<byte>>, j: nat)
    requires |ts| == |fs| && j <= |ts|
    ensures |StreamOf(ts[j..], fs[j..])| <= |StreamOf(ts, fs)|
    decreases j
  {
    if j == 0 {
      assert ts[0..] == ts && fs[0..] == fs;
    } else {
      assert ts[1..][j - 1..] == ts[j..] && fs[1..][j - 1..] == fs[j..];
      StreamShrinks(ts[1..], fs[1..], j - 1);
    }
  }

  /** A run: every event happens in the state the one before it left. */
  ghost predicate IsRun(l: Link, events: seq<Event>, l': Link)
    decreases |events|
  {
    if events == [] then l' == l
    else Enabled(l, events[0]) && IsRun(Next(l, events[0]), events[1..], l')
  }

  lemma StepKeeps(l: Link, e: Event)
    requires Faithful(l) && Enabled(l, e) && !(e.Resume? && l.headless)
    ensures Faithful(Next(l, e))
  {
    hide Faithful, Next;
    match e
    case Send(_, _, _, _) => SendKeeps(l, e);
    case Refuse(_, _, _) => RefuseKeeps(l, e);
    case Resume(_) => ResumeKeeps(l, e);
    case Receive(_) => ReceiveKeeps(l, e);
  }

  // ---- after headless bytes ----

  /** The messages sent until then. */
  function Early(l: Link): seq<Data>
    requires l.before <= |l.due|
  {
    l.due[..l.before]
  }

  function EarlyFrames(l: Link): seq<seq<byte>>
    requires l.before <= |l.frames|
  {
    l.frames[..l.before]
  }

  /** What the receiver has before it: those of them that it does not have yet,
      and what went astray. */
  ghost function Ahead(l: Link): seq<Cell>
    requires |l.got| <= l.before <= |l.due| == |l.frames|
  {
    StreamOf(Early(l)[|l.got|..], EarlyFrames(l)[|l.got|..]) + l.astray
  }

  /** What went astray starts with the message that lost its header. */
  ghost predicate StartsHeadless(l: Link) {
    var o := Octets(l.astray);
    && IsPacked(l.lost)
    && (if |o| < |l.lost| then l.lost == o + l.pending else l.lost <= o)
  }

  /** The first cells of s are in the receive buffer, the others on the socket. */
  ghost predicate Splits(s: seq<Cell>, buf: seq<byte>, fds: seq<int64>, wire: seq<Cell>) {
    var m := |buf|;
    m <= |s| && buf == Octets(s[..m]) && fds == CellFds(s[..m]) && wire == s[m..]
  }

  /** What was delivered are messages sent until then. */
  ghost predicate EarlyGood(l: Link) {
    && l.before <= |l.due| == |l.frames| && AllFrames(EarlyFrames(l), Early(l))
    && |l.got| <= l.before && SameAll(Early(l)[..|l.got|], l.got)
  }

  ghost predicate Strayed(l: Link) {
    && l.astray != [] && StartsHeadless(l) && EarlyGood(l)
    && Splits(Ahead(l), l.buf, l.fds, l.wire)
    && (|l.got| < l.before ==> |l.buf| < |EarlyFrames(l)[|l.got|]|)
  }

  /** The first headless bytes go out. */
  lemma ResumeStrays(l: Link, e: Event)
    requires Faithful(l) && Enabled(l, e) && e.Resume? && l.headless
    ensures Strayed(Next(l, e))
  {
    hide Carries, Same, Renumbered, CellFds, Attach, StreamOf, IsPacked;
    var l' := Next(l, e);
    AttachNothing();
    OctetsAttach(l.pending[..e.taken], l.kept);
    assert Early(l') == l.due && EarlyFrames(l') == l.frames;
    var s, a := Outstanding(l), l'.astray;
    assert Ahead(l') == s + a;
    assert (s + a)[..|l.buf|] == s[..|l.buf|];
    assert (s + a)[|l.buf|..] == s[|l.buf|..] + a;
  }

  /** More goes out after them. */
  lemma PutStrays(l: Link, e: Event)
    requires Strayed(l) && Enabled(l, e) && (e.Send? || e.Resume?)
    ensures Strayed(Next(l, e))
  {
    hide IsFrame, Carries, Same, SameAll, AllFrames, Renumbered, CellFds, Attach, StreamOf, IsPacked, Octets;
    var l' := Next(l, e);
    var a := if e.Send? then Attach(e.frame[..e.accepted], Fds(e.u)) else Attach(l.pending[..e.taken], l.kept);
    assert l'.astray == l.astray + a && l'.wire == l.wire + a;
    assert Early(l') == Early(l) && EarlyFrames(l') == EarlyFrames(l);
    OctetsConcat(l.astray, a);
    if e.Resume? {
      OctetsAttach(l.pending[..e.taken], l.kept);
      assert l.pending == l.pending[..e.taken] + l.pending[e.taken..];
    }
    assert StartsHeadless(l');
    var s, m := Ahead(l), |l.buf|;
    assert Ahead(l') == s + a;
    assert (s + a)[..m] == s[..m] && (s + a)[m..] == s[m..] + a;
  }

  lemma RefuseStrays(l: Link, e: Event)
    requires Strayed(l) && Enabled(l, e) && e.Refuse?
    ensures Strayed(Next(l, e))
  {
    hide IsFrame, Carries, Same, SameAll, AllFrames, Renumbered, CellFds, Attach, StreamOf, IsPacked, Octets;
  }

  /** A receive delivers no more than the messages sent before. */
  lemma ReceiveStrays(l: Link, e: Event)
    requires Strayed(l) && Enabled(l, e) && e.Receive?
    ensures Strayed(Next(l, e))
  {
    hide Carries, Same, SameAll, CellFds, Octets, StreamOf, Drain, DrainsWell, StartsHeadless, Received, IsFrame,
      Renumbered;
    var k, m, n := |l.got|, |l.buf|, e.cells;
    var ts, fs := Early(l)[k..], EarlyFrames(l)[k..];
    var good := StreamOf(ts, fs);
    ReceivedIs(l, n);
    if m + n <= |good| {
      DrainStream(ts, fs, m + n);
      assert Ahead(l)[..m + n] == good[..m + n];
      ReceiveGood(l, n);
    } else {
      ReceiveRest(l, n);
    }
  }

  /** All good messages have come, and bytes behind them. */
  lemma ReceiveRest(l: Link, n: nat)
    requires Strayed(l) && 0 < n <= |l.wire|
    requires |l.buf| + n > |StreamOf(Early(l)[|l.got|..], EarlyFrames(l)[|l.got|..])|
    ensures Strayed(Next(l, Receive(n)))
  {
    hide Carries, Same, SameAll, CellFds, Octets, StreamOf, Drain, StartsHeadless, Received, IsFrame, Renumbered;
    var k, m := |l.got|, |l.buf|;
    var ts, fs := Early(l)[k..], EarlyFrames(l)[k..];
    var good := StreamOf(ts, fs);
    var j := m + n - |good|;
    var a := l.astray[..j];
    ReceivedIs(l, n);
    assert Ahead(l)[..m + n] == good + a;
    OctetsConcat(good, a);
    CellFdsConcat(good, a);
    AstrayStops(l, j);
    var us := DrainThenStop(ts, fs, Octets(a), CellFds(a), if j < HEADER then NeedMore else Bad);
    SameLength(ts, us);
    assert ts[..|us|] == ts;
    SameConcat(Early(l), k, l.got, us);
    AtTheEnd(l, Next(l, Receive(n)), n, us, j);
  }

  lemma AtTheEnd(l: Link, l': Link, n: nat, us: seq<Data>, j: nat)
    requires Strayed(l) && n <= |l.wire| && j <= |l.astray|
    requires var a := l.astray[..j];
             l' == l.(wire := l.wire[n..], buf := Octets(a), fds := CellFds(a), got := l.got + us)
    requires |l.got| + |us| == l.before && SameAll(Early(l)[..l.before], l.got + us)
    requires |l.buf| + n == |Ahead(l)| - |l.astray| + j
    ensures Strayed(l')
  {
    hide SameAll, AllFrames, CellFds, Octets, StreamOf, StartsHeadless, Ahead, Splits;
    SameStart(l, l');
    NothingEarly(l');
    AheadIs(l, n, j);
    SplitsAgain(Ahead(l), l.buf, l.fds, l.wire, n, l.astray, j);
  }

  lemma SplitsAgain(s: seq<Cell>, buf: seq<byte>, fds: seq<int64>, wire: seq<Cell>, n: nat, r: seq<Cell>, j: nat)
    requires Splits(s, buf, fds, wire) && n <= |wire| && j <= |r| && s[|buf|..][n..] == r[j..]
    ensures Splits(r, Octets(r[..j]), CellFds(r[..j]), wire[n..])
  {
    hide CellFds;
  }

  lemma AheadIs(l: Link, n: nat, j: nat)
    requires |l.got| <= l.before <= |l.due| == |l.frames| && |l.buf| <= |Ahead(l)| && j <= |l.astray|
    requires |l.buf| + n == |Ahead(l)| - |l.astray| + j
    ensures Ahead(l)[|l.buf|..][n..] == l.astray[j..]
  {
    hide StreamOf;
    AheadEnd(StreamOf(Early(l)[|l.got|..], EarlyFrames(l)[|l.got|..]), l.astray, |l.buf|, n, j);
  }

  lemma SameStart(l: Link, l': Link)
    requires StartsHeadless(l) && l'.lost == l.lost && l'.astray == l.astray && l'.pending == l.pending
    ensures StartsHeadless(l')
  {
  }

  lemma AheadEnd(good: seq<Cell>, a: seq<Cell>, m: nat, n: nat, j: nat)
    requires m + n == |good| + j && j <= |a| && m <= |good + a|
    ensures (good + a)[m..][n..] == a[j..]
  {
  }

  lemma SameLength(ts: seq<Data>, us: seq<Data>)
    requires SameAll(ts, us)
    ensures |ts| == |us|
  {
  }

  lemma NothingEarly(l: Link)
    requires |l.got| == l.before <= |l.due| == |l.frames|
    ensures Ahead(l) == l.astray
  {
    hide Attach;
    assert Early(l)[|l.got|..] == [];
    assert [] + l.astray == l.astray;
  }

  lemma ReceivedIs(l: Link, n: nat)
    requires Strayed(l) && n <= |l.wire|
    ensures |l.buf| + n <= |Ahead(l)|
    ensures var p := Ahead(l)[..|l.buf| + n];
            Received(l, n) == Drain(Octets(p), CellFds(p))
  {
    hide Carries, Same, CellFds, StreamOf, Drain, StartsHeadless;
    var s, m := Ahead(l), |l.buf|;
    assert s[m..][..n] == l.wire[..n];
    assert s[..m + n] == s[..m] + l.wire[..n];
    CellFdsConcat(s[..m], l.wire[..n]);
    assert Octets(s[..m + n]) == l.buf + Octets(l.wire[..n]);
  }

  /** While the good messages last, it is as if nothing else followed. */
  lemma ReceiveGood(l: Link, n: nat)
    requires Strayed(l) && 0 < n <= |l.wire|
    requires var ts, fs := Early(l)[|l.got|..], EarlyFrames(l)[|l.got|..];
             && |l.buf| + n <= |StreamOf(ts, fs)|
             && DrainsWell(ts, fs, |l.buf| + n, Received(l, n))
    ensures Strayed(Next(l, Receive(n)))
  {
    hide Carries, Same, SameAll, CellFds, Octets, StreamOf, Drain, Received, IsFrame, Renumbered, IsPacked;
    var d := Received(l, n);
    var k, m, j := |l.got|, |l.buf|, |d.got|;
    var ts, fs := Early(l)[k..], EarlyFrames(l)[k..];
    var l' := Next(l, Receive(n));
    assert ts[j..] == Early(l)[k + j..] && fs[j..] == EarlyFrames(l)[k + j..];
    TailOfStream(ts, fs, j, m + n, |d.buf|);
    SameConcat(Early(l), k, l.got, d.got);
    AheadSplit(StreamOf(ts, fs), l.astray, m, n, StreamOf(ts[j..], fs[j..]), |d.buf|);
  }

  lemma AheadSplit(good: seq<Cell>, a: seq<Cell>, m: nat, n: nat, left: seq<Cell>, b: nat)
    requires m + n <= |good| && b <= |left| && good[m + n..] == left[b..]
    ensures (left + a)[..b] == left[..b] && (left + a)[b..] == (good + a)[m..][n..]
  {
    assert (good + a)[m..][n..] == good[m + n..] + a;
  }

  /** The loop stops at what went astray. */
  lemma AstrayStops(l: Link, j: nat)
    requires StartsHeadless(l) && 0 < j <= |l.astray|
    ensures var a := l.astray[..j];
            Drain(Octets(a), CellFds(a)) ==
            Drained([], Octets(a), CellFds(a), if j < HEADER then NeedMore else Bad)
  {
    hide Drain, CellFds, Encodes;
    var a, o := l.astray[..j], Octets(l.astray);
    assert Octets(a) == o[..j];
    var t :| Encodes(l.lost, t);
    assert |o| < |l.lost| ==> o == l.lost[..|o|];
    HeadlessIsBad(Octets(a), l.lost, t, CellFds(a));
  }

  lemma {:induction false} StrayedStays(l: Link, events: seq<Event>, l': Link)
    requires Strayed(l) && IsRun(l, events, l')
    ensures Strayed(l')
    decreases |events|
  {
    hide Strayed, Next, Enabled;
    if events != [] {
      if events[0].Receive? {
        ReceiveStrays(l, events[0]);
      } else if events[0].Refuse? {
        RefuseStrays(l, events[0]);
      } else {
        PutStrays(l, events[0]);
      }
      StrayedStays(Next(l, events[0]), events[1..], l');
    }
  }

  lemma OneOnly(l: Link)
    ensures !(Faithful(l) && Strayed(l))
  {
  }

  /** Every run keeps the stream faithful until headless bytes go out, and
      leaves it strayed from then on. */
  lemma {:induction false} RunKeeps(l: Link, events: seq<Event>, l': Link)
    requires Faithful(l) && IsRun(l, events, l')
    ensures Faithful(l') || Strayed(l')
    ensures Faithful(l') <==> l'.astray == []
    decreases |events|
  {
    if events == [] {
      OneOnly(l);
    } else {
      hide Faithful, Strayed, Next, Enabled;
      if events[0].Resume? && l.headless {
        ResumeStrays(l, events[0]);
        StrayedStays(Next(l, events[0]), events[1..], l');
        StrayedAstray(l');
      } else {
        StepKeeps(l, events[0]);
        RunKeeps(Next(l, events[0]), events[1..], l');
      }
    }
  }

  lemma StrayedAstray(l: Link)
    requires Strayed(l)
    ensures l.astray != [] && !Faithful(l)
  {
  }

  function Concat(frames: seq<seq<byte>>): seq<byte> {
    if frames == [] then [] else frames[0] + Concat(frames[1..])
  }

  lemma {:induction false} OctetsOfStream(ts: seq<Data>, frames: seq<seq<byte>>)
    requires |ts| == |frames|
    ensures Octets(StreamOf(ts, frames)) == Concat(frames)
    decreases |ts|
  {
    if ts != [] {
      OctetsOfStream(ts[1..], frames[1..]);
      assert Octets(Attach(frames[0], Fds(ts[0]))) == frames[0];
    }
  }

  /** Every run from an idle connection, whatever the pattern of partial and
      refused sends and of receives, as long as no message that lost its header
      is sent on: the trees delivered are those sent, in order, each with its
      own descriptors under the receiver's numbers; the bytes in the receive
      buffer, on the socket and in the send buffer are the unread tail of the
      stream; once nothing is in flight everything has been delivered; and the
      receiver never gives up. */
  lemma Delivery(events: seq<Event>, l: Link)
    requires IsRun(IDLE, events, l) && l.astray == []
    ensures |l.got| <= |l.sent| == |l.due| == |l.frames| && RenumberedAll(l.sent, l.due)
    ensures SameAll(l.due[..|l.got|], l.got)
    ensures l.buf + Octets(l.wire) + Unsent(l) == Concat(l.frames[|l.got|..])
    ensures l.wire == [] && Unsent(l) == [] ==> |l.got| == |l.sent| && l.buf == [] && l.fds == []
    ensures forall n :: 0 < n <= |l.wire| ==> Received(l, n).status in {Done, NeedMore}
  {
    hide IsFrame, Same, Drain, Faithful, IsRun, Received, Octets, StreamOf, Renumbered;
    IdleFaithful();
    RunKeeps(IDLE, events, l);
    InFlight(l);
    forall n | 0 < n <= |l.wire|
      ensures Received(l, n).status in {Done, NeedMore}
    {
      ReceiveKeeps(l, Receive(n));
    }
  }

  lemma IdleFaithful()
    ensures Faithful(IDLE)
  {
  }

  /** What a faithful state says of the bytes on their way. */
  lemma InFlight(l: Link)
    requires Faithful(l)
    ensures |l.got| <= |l.sent| == |l.due| == |l.frames| && RenumberedAll(l.sent, l.due)
    ensures SameAll(l.due[..|l.got|], l.got)
    ensures l.buf + Octets(l.wire) + Unsent(l) == Concat(l.frames[|l.got|..])
    ensures l.wire == [] && Unsent(l) == [] ==> |l.got| == |l.sent| && l.buf == [] && l.fds == []
  {
    hide Carries, Same, Drain, Renumbered, IsPacked;
    var k, m := |l.got|, |l.buf|;
    var s := Outstanding(l);
    OctetsOfStream(l.due[k..], l.frames[k..]);
    assert s == s[..m] + (l.wire + Attach(Unsent(l), []));
    assert Octets(s) == l.buf + Octets(l.wire) + Unsent(l);
  }

  /** The proviso is needed: in every run in which bytes of a message without
      its header were sent, the receiver never gets more than the messages sent
      before; and as soon as a header's worth of them was sent, all that is on
      its way delivers the rest of those and is then given up. */
  lemma HeadlessBreaks(events: seq<Event>, l: Link) returns (us: seq<Data>)
    requires IsRun(IDLE, events, l) && l.astray != []
    ensures |l.got| <= l.before <= |l.due| == |l.frames| && SameAll(Early(l)[..|l.got|], l.got)
    ensures |l.astray| >= HEADER ==>
              var d := Received(l, |l.wire|);
              d.status == Bad && d.got == us && SameAll(Early(l)[|l.got|..], us)
  {
    hide Faithful, IsRun, Strayed, Received, Drain, Same, SameAll;
    IdleFaithful();
    RunKeeps(IDLE, events, l);
    us := StrayedIsBad(l);
  }

  lemma StrayedIsBad(l: Link) returns (us: seq<Data>)
    requires Strayed(l)
    ensures |l.got| <= l.before <= |l.due| == |l.frames| && SameAll(Early(l)[..|l.got|], l.got)
    ensures |l.astray| >= HEADER ==>
              var d := Received(l, |l.wire|);
              d.status == Bad && d.got == us && SameAll(Early(l)[|l.got|..], us)
  {
    hide Carries, Same, SameAll, CellFds, Octets, StreamOf, Drain, StartsHeadless, Received, IsFrame, Renumbered;
    us := [];
    if |l.astray| >= HEADER {
      var ts, fs := Early(l)[|l.got|..], EarlyFrames(l)[|l.got|..];
      var good, a := StreamOf(ts, fs), l.astray;
      ReceivedIs(l, |l.wire|);
      assert a[..|a|] == a && Ahead(l)[..|l.buf| + |l.wire|] == good + a;
      OctetsConcat(good, a);
      CellFdsConcat(good, a);
      AstrayStops(l, |a|);
      assert AllFrames(fs, ts);
      us := DrainThenStop(ts, fs, Octets(a), CellFds(a), Bad);
    }
  }

  lemma OctetsConcat(a: seq<Cell>, b: seq<Cell>)
    ensures Octets(a + b) == Octets(a) + Octets(b)
  {
  }

  lemma OctetsAttach(s: seq<byte>, fds: seq<int64>)
    ensures Octets(Attach(s, fds)) == s
  {
  }
}
