/** Framed messages over a stream socket: what the receiver makes of the bytes
    it has, and what every run of sends and receives delivers. */
module LaunchStream {
  import opened Bytes
  import opened LaunchData
  import opened LaunchWire
  import opened LaunchWalk

  const MAGIC: uint64 := 0xD2FE_A023_66B3_9A41
  const HEADER: nat := 16

  /** Magic, total length, packed tree. */
  ghost predicate IsFrame(f: seq<byte>, t: Data) {
    && |f| == HEADER + Size(t)
    && Word(f, 0) == MAGIC
    && Word(f, 8) == |f|
    && Encodes(f[HEADER..], t)
  }

  /** A frame of the tree u, up to the numbers that the sender knew its
      descriptors by. */
  ghost predicate Carries(f: seq<byte>, u: Data) {
    && |f| == HEADER + Size(u)
    && Word(f, 0) == MAGIC
    && Word(f, 8) == |f|
    && exists t :: Encodes(f[HEADER..], t) && Renumbered(t, u)
  }

  lemma FrameCarries(f: seq<byte>, t: Data, u: Data)
    requires IsFrame(f, t) && Renumbered(t, u)
    ensures Carries(f, u)
  {
    hide Word, Encodes;
    RenumberedSize(t, u);
  }

  datatype Status = Done | NeedMore | Bad | Overran

  /** Messages delivered, then the bytes and descriptors left over. */
  datatype Drained = Drained(got: seq<Data>, buf: seq<byte>, fds: seq<int64>, status: Status)

  /** One message delivered ahead of those of d. */
  function Before(t: Data, d: Drained): Drained {
    d.(got := [t] + d.got)
  }

  /** The receive loop: deliver every complete message at the front. */
  function Drain(buf: seq<byte>, fds: seq<int64>): Drained
    decreases |buf|
  {
    if buf == [] then Drained([], buf, fds, Done)
    else if |buf| < HEADER then Drained([], buf, fds, NeedMore)
    else if Word(buf, 0) != MAGIC || Word(buf, 8) <= HEADER then Drained([], buf, fds, Bad)
    else if |buf| < Word(buf, 8) then Drained([], buf, fds, NeedMore)
    else
      match Decode(buf[HEADER..], fds)
      case Rejected => Drained([], buf, fds, Bad)
      case Overrun => Drained([], buf, fds, Overran)
      case Parsed(t, used, k) =>
        Before(t, Drain(buf[HEADER + used..], fds[k..]))
  }

  /** One turn of the loop on a buffer that starts with a complete message. */
  lemma {:induction false} DrainStep(buf: seq<byte>, fds: seq<int64>)
    requires HEADER <= |buf| && Word(buf, 0) == MAGIC && HEADER < Word(buf, 8) <= |buf|
    ensures Drain(buf, fds) ==
            match Decode(buf[HEADER..], fds)
            case Rejected => Drained([], buf, fds, Bad)
            case Overrun => Drained([], buf, fds, Overran)
            case Parsed(t, used, k) =>
              Before(t, Drain(buf[HEADER + used..], fds[k..]))
  {
    hide Word, Decode;
  }

  /** One turn of the loop on a buffer that does not. */
  lemma {:induction false} DrainStop(buf: seq<byte>, fds: seq<int64>)
    requires buf != []
    requires |buf| < HEADER || Word(buf, 0) != MAGIC || Word(buf, 8) <= HEADER || |buf| < Word(buf, 8)
    ensures Drain(buf, fds) ==
            Drained([], buf, fds,
                    if HEADER <= |buf| && (Word(buf, 0) != MAGIC || Word(buf, 8) <= HEADER)
                    then Bad else NeedMore)
  {
    hide Word, Decode;
  }

  // ---- buffers that the loop runs past ----

  /** On a buffer of whole words the loop stays inside, whatever the bytes are. */
  lemma {:induction false} AlignedDrain(buf: seq<byte>, fds: seq<int64>)
    requires |buf| % 8 == 0
    ensures Drain(buf, fds).status != Overran
    decreases |buf|
  {
    hide Word, Decode;
    if |buf| >= HEADER {
      AlignedDecode(buf[HEADER..], fds);
      match Decode(buf[HEADER..], fds)
      case Parsed(_, used, k) => AlignedDrain(buf[HEADER + used..], fds[k..]);
      case _ =>
    }
  }

  /** The loop reaches a complete message whose nodes lead past the buffer. */
  predicate LeadsPast(buf: seq<byte>)
    decreases |buf|
  {
    && |buf| > HEADER && Word(buf, 0) == MAGIC && HEADER < Word(buf, 8) <= |buf|
    && match Walk(buf[HEADER..], 0, 1)
       case Refused => false
       case Past(_) => true
       case Behind(used) => used <= |buf| - HEADER && LeadsPast(buf[HEADER + used..])
  }

  /** The loop runs past its buffer exactly if a walk over type and length words
      does; the descriptors play no part in it. */
  lemma {:induction false} OverranIff(buf: seq<byte>, fds: seq<int64>)
    ensures Drain(buf, fds).status == Overran <==> LeadsPast(buf)
    decreases |buf|
  {
    hide Word, Decode, Walk;
    if |buf| >= HEADER {
      OverrunIff(buf[HEADER..], fds);
      match Decode(buf[HEADER..], fds)
      case Parsed(_, used, k) => OverranIff(buf[HEADER + used..], fds[k..]);
      case _ =>
    }
  }

  /** A message of 41 bytes, whose only node is a string with one byte: the loop
      would go on 7 bytes behind its buffer. */
  lemma OverranAt41(buf: seq<byte>, fds: seq<int64>)
    requires |buf| == 41 && Word(buf, 0) == MAGIC && Word(buf, 8) == 41
    requires Word(buf, 16) == 7 && Word(buf, 32) == 0
    ensures Drain(buf, fds).status == Overran
  {
    hide Word;
    NodeWords(buf, HEADER);
  }

  // ---- the socket ----

  /** A byte in flight, with the descriptors that travel with it. */
  datatype Cell = Cell(octet: byte, fds: seq<int64>)

  /** What one sendmsg puts on the socket: descriptors ride on the first byte. */
  function Attach(s: seq<byte>, fds: seq<int64>): (c: seq<Cell>)
    ensures |c| == |s|
  {
    seq(|s|, i requires 0 <= i < |s| => Cell(s[i], if i == 0 then fds else []))
  }

  function Octets(c: seq<Cell>): (s: seq<byte>)
    ensures |s| == |c|
  {
    seq(|c|, i requires 0 <= i < |c| => c[i].octet)
  }

  function CellFds(c: seq<Cell>): seq<int64> {
    if c == [] then [] else c[0].fds + CellFds(c[1..])
  }

  lemma {:induction false} CellFdsConcat(a: seq<Cell>, b: seq<Cell>)
    ensures CellFds(a + b) == CellFds(a) + CellFds(b)
  {
    if a == [] {
      assert a + b == b;
    } else {
      assert (a + b)[1..] == a[1..] + b;
      CellFdsConcat(a[1..], b);
    }
  }

  lemma {:induction false} CellFdsPlain(c: seq<Cell>)
    requires forall i :: 0 <= i < |c| ==> c[i].fds == []
    ensures CellFds(c) == []
  {
    if c != [] {
      CellFdsPlain(c[1..]);
    }
  }

  lemma CellFdsAttach(s: seq<byte>, fds: seq<int64>)
    ensures CellFds(Attach(s, fds)) == if s == [] then [] else fds
  {
    if s != [] {
      CellFdsPlain(Attach(s, fds)[1..]);
    }
  }

  /** The cells of a sequence of frames sent for a sequence of trees. */
  function StreamOf(ts: seq<Data>, frames: seq<seq<byte>>): seq<Cell>
    requires |ts| == |frames|
  {
    if ts == [] then [] else Attach(frames[0], Fds(ts[0])) + StreamOf(ts[1..], frames[1..])
  }

  ghost predicate AllFrames(frames: seq<seq<byte>>, ts: seq<Data>) {
    |frames| == |ts| && forall i :: 0 <= i < |ts| ==> Carries(frames[i], ts[i])
  }

  /** What draining a prefix of a well-formed stream has to give: some complete
      messages, and the rest of the prefix as it stands in the rest of the stream. */
  ghost predicate DrainsWell(ts: seq<Data>, frames: seq<seq<byte>>, n: nat, d: Drained)
    requires |ts| == |frames|
  {
    var k := |d.got|;
    && k <= |ts| && SameAll(ts[..k], d.got)
    && (d.status == Done || d.status == NeedMore)
    && var s := StreamOf(ts[k..], frames[k..]);
       var m := |d.buf|;
       && n + |s| == |StreamOf(ts, frames)| + m
       && m <= |s| && d.buf == Octets(s[..m]) && d.fds == CellFds(s[..m])
       && (if k < |ts| then m < |frames[k]| else m == 0)
  }

  /** Less than one frame is buffered: the loop waits and changes nothing. */
  lemma DrainPartial(f: seq<byte>, t: Data, n: nat, fds: seq<int64>)
    requires Carries(f, t) && n < |f|
    ensures var d := Drain(f[..n], fds);
            d == Drained([], f[..n], fds, if n == 0 then Done else NeedMore)
  {
    if n >= HEADER {
      WordSlice(f, 0, n, 0);
      WordSlice(f, 0, n, 8);
      assert f[0..n] == f[..n];
    }
  }

  /** A whole frame is buffered: its tree is delivered with its own descriptors. */
  lemma DrainWhole(f: seq<byte>, t: Data, rest: seq<byte>, moreFds: seq<int64>) returns (u: Data)
    requires Carries(f, t)
    ensures Same(t, u)
    ensures Drain(f + rest, Fds(t) + moreFds) == Before(u, Drain(rest, moreFds))
  {
    hide Word, Decode, Encodes;
    var b, fds := f + rest, Fds(t) + moreFds;
    WordOfPrefix(f, rest, 0);
    WordOfPrefix(f, rest, 8);
    var packed :| Encodes(f[HEADER..], packed) && Renumbered(packed, t);
    RenumberedSize(packed, t);
    RoundTrip(f[HEADER..], packed, t, rest, moreFds);
    assert b[HEADER..] == f[HEADER..] + rest;
    u := Decode(b[HEADER..], fds).value;
    assert b[|f|..] == rest;
    assert fds[|Fds(t)|..] == moreFds;
  }

  lemma DrainsWellCons(ts: seq<Data>, frames: seq<seq<byte>>, n: nat, u: Data, d: Drained)
    requires |ts| == |frames| > 0 && Same(ts[0], u)
    requires DrainsWell(ts[1..], frames[1..], n, d)
    ensures DrainsWell(ts, frames, n + |frames[0]|, Before(u, d))
  {
    hide Same;
    var k := |d.got|;
    assert ts[k + 1..] == ts[1..][k..] && frames[k + 1..] == frames[1..][k..];
    assert ts[..k + 1] == [ts[0]] + ts[1..][..k];
  }

  lemma StreamLength(ts: seq<Data>, frames: seq<seq<byte>>)
    requires |ts| == |frames| > 0
    ensures |StreamOf(ts, frames)| == |frames[0]| + |StreamOf(ts[1..], frames[1..])|
  {
  }

  /** A prefix of the stream that reaches past the first frame. */
  lemma StreamPrefix(ts: seq<Data>, frames: seq<seq<byte>>, n: nat)
    requires |ts| == |frames| > 0 && frames[0] != []
    requires |frames[0]| <= n <= |StreamOf(ts, frames)|
    ensures var p := StreamOf(ts, frames)[..n];
            var p1 := StreamOf(ts[1..], frames[1..])[..n - |frames[0]|];
            Octets(p) == frames[0] + Octets(p1) && CellFds(p) == Fds(ts[0]) + CellFds(p1)
  {
    var p := StreamOf(ts, frames)[..n];
    var p1 := StreamOf(ts[1..], frames[1..])[..n - |frames[0]|];
    var a := Attach(frames[0], Fds(ts[0]));
    hide CellFds, Fds;
    assert StreamOf(ts, frames) == a + StreamOf(ts[1..], frames[1..]);
    hide StreamOf;
    assert p == a + p1;
    assert Octets(p) == Octets(a) + Octets(p1) && Octets(a) == frames[0];
    CellFdsConcat(a, p1);
    CellFdsAttach(frames[0], Fds(ts[0]));
  }

  lemma DrainStreamShort(ts: seq<Data>, frames: seq<seq<byte>>, n: nat)
    requires AllFrames(frames, ts) && ts != []
    requires n < |frames[0]| && n <= |StreamOf(ts, frames)|
    ensures var p := StreamOf(ts, frames)[..n];
            DrainsWell(ts, frames, n, Drain(Octets(p), CellFds(p)))
  {
    hide Drain, Carries, Same;
    var p := StreamOf(ts, frames)[..n];
    assert Octets(p) == frames[0][..n];
    DrainPartial(frames[0], ts[0], n, CellFds(p));
    assert ts[0..] == ts && frames[0..] == frames;
  }

  lemma DrainNothing()
    ensures StreamOf([], []) == []
    ensures DrainsWell([], [], 0, Drain(Octets([]), CellFds([])))
  {
  }

  /** Draining any prefix of a well-formed stream delivers the complete
      messages in it and keeps the rest. */
  lemma {:induction false} DrainStream(ts: seq<Data>, frames: seq<seq<byte>>, n: nat)
    requires AllFrames(frames, ts) && n <= |StreamOf(ts, frames)|
    ensures var p := StreamOf(ts, frames)[..n];
            DrainsWell(ts, frames, n, Drain(Octets(p), CellFds(p)))
    decreases |ts|
  {
    hide Drain, Carries, Same, DrainsWell, CellFds, Octets, StreamOf, Fds;
    if ts == [] {
      DrainNothing();
      assert ts == [] && frames == [];
    } else {
      StreamLength(ts, frames);
      FrameNotEmpty(frames[0], ts[0]);
      if n < |frames[0]| {
        DrainStreamShort(ts, frames, n);
      } else {
        StreamPrefix(ts, frames, n);
        var m := n - |frames[0]|;
        DrainStream(ts[1..], frames[1..], m);
        var p1 := StreamOf(ts[1..], frames[1..])[..m];
        var u := DrainWhole(frames[0], ts[0], Octets(p1), CellFds(p1));
        DrainsWellCons(ts, frames, m, u, Drain(Octets(p1), CellFds(p1)));
      }
    }
  }

  lemma FrameNotEmpty(f: seq<byte>, t: Data)
    requires Carries(f, t)
    ensures f != []
  {
  }

  // ---- a message that lost its header ----

  /** Bytes that start like a packed tree are not taken for a message: the loop
      waits for a header's worth of them and then gives up. */
  lemma HeadlessIsBad(b: seq<byte>, body: seq<byte>, t: Data, fds: seq<int64>)
    requires b != [] && Encodes(body, t)
    requires if |b| <= |body| then b <= body else body <= b
    ensures Drain(b, fds) == Drained([], b, fds, if |b| < HEADER then NeedMore else Bad)
  {
    hide Decode;
    if |b| >= HEADER {
      assert b[0..8] == body[0..8];
      WordKept(b, 0, body, 0);
      hide Word;
      DrainStop(b, fds);
    }
  }

  /** Complete messages, and behind them bytes at which the loop stops: the
      messages are delivered, and then it stops. */
  lemma {:induction false} DrainThenStop(ts: seq<Data>, frames: seq<seq<byte>>, tail: seq<byte>,
                                         tailFds: seq<int64>, status: Status)
    returns (us: seq<Data>)
    requires AllFrames(frames, ts)
    requires Drain(tail, tailFds) == Drained([], tail, tailFds, status)
    ensures var s := StreamOf(ts, frames);
            Drain(Octets(s) + tail, CellFds(s) + tailFds) == Drained(us, tail, tailFds, status)
    ensures SameAll(ts, us)
    decreases |ts|
  {
    hide Drain, Carries, Same, CellFds, Octets, Fds;
    if ts == [] {
      NoCells();
      assert Octets([]) + tail == tail && CellFds([]) + tailFds == tailFds;
      us := [];
    } else {
      FrameNotEmpty(frames[0], ts[0]);
      var s, s1 := StreamOf(ts, frames), StreamOf(ts[1..], frames[1..]);
      var vs := DrainThenStop(ts[1..], frames[1..], tail, tailFds, status);
      StreamPrefix(ts, frames, |s|);
      assert s[..|s|] == s && s1[..|s1|] == s1;
      var rest, restFds := Octets(s1) + tail, CellFds(s1) + tailFds;
      var u := DrainWhole(frames[0], ts[0], rest, restFds);
      assert Octets(s) + tail == frames[0] + rest;
      assert CellFds(s) + tailFds == Fds(ts[0]) + restFds;
      us := [u] + vs;
    }
  }

  lemma NoCells()
    ensures Octets([]) == [] && CellFds([]) == []
  {
  }
}
