/** Two liblaunch connections, one sending to the other over a socket: every
    call is a step of the runs of LaunchRuns. */
module LaunchSession {
  import opened Bytes
  import opened LaunchData
  import opened LaunchStream
  import opened LaunchRuns
  import opened LaunchConnection
  import LaunchPack

  /** The kernel hands the descriptors over under the receiver's numbers. */
  function HandedOver(cells: seq<Cell>, names: seq<int64>): seq<Cell> {
    seq(|cells|, i requires 0 <= i < |cells| => Cell(cells[i].octet, if i == 0 then names else []))
  }

  lemma HandedAttach(s: seq<byte>, fds: seq<int64>, names: seq<int64>)
    ensures HandedOver(Attach(s, fds), names) == Attach(s, names)
  {
  }

  lemma {:induction false} RunSnoc(l: Link, events: seq<Event>, m: Link, e: Event)
    requires IsRun(l, events, m) && Enabled(m, e)
    ensures IsRun(l, events + [e], Next(m, e))
    decreases |events|
  {
    hide Enabled, Next;
    if events == [] {
      assert ([] + [e])[1..] == [];
    } else {
      RunSnoc(Next(l, events[0]), events[1..], m, e);
      assert (events + [e])[1..] == events[1..] + [e];
    }
  }

  class Session {
    const sender: Connection
    const receiver: Connection

    /** The socket, and the numbers that waiting descriptors will have. */
    var wire: seq<Cell>
    var kept: seq<int64>

    /** What the receiver's callback was given. */
    var got: seq<Data>

    ghost var link: Link
    ghost var events: seq<Event>

    /** The connections and the socket are in the state that the run so far
        leads to. */
    ghost predicate Valid()
      reads this, sender, receiver, sender.sendbuf, receiver.recvbuf
    {
      && sender != receiver && sender.Valid() && receiver.Valid() && sender.sendbuf != receiver.recvbuf
      && IsRun(IDLE, events, link) && link.astray == []
      && link.pending == sender.Pending() && link.wire == wire && link.kept == kept
      && link.buf == receiver.recvbuf[..] && link.fds == receiver.recvfds && link.got == got
    }

    /** Nothing is left with the sender: every byte of the messages that were
        not delivered yet is on the wire or in the receiver's buffer. */
    ghost predicate AllOut()
      reads this, sender, receiver, sender.sendbuf, receiver.recvbuf
      requires Valid()
    {
      && sender.Pending() == [] && !link.headless && |got| <= |link.frames|
      && receiver.recvbuf[..] + Octets(wire) == Concat(link.frames[|got|..])
    }

    constructor ()
      ensures Valid() && fresh(sender) && fresh(receiver) && link == IDLE && events == []
    {
      sender := new Connection();
      receiver := new Connection();
      wire, kept, got, link, events := [], [], [], IDLE, [];
    }

    /** The event of a send, if the message is not too big. */
    ghost function Sending(t: Data, u: Data, frame: seq<byte>, outcome: SendOutcome): Event {
      if Accepted(outcome) then Send(t, u, frame, outcome.n) else Refuse(t, u, frame)
    }

    /** A new message, which the kernel takes at least the header of or refuses. */
    method SendMessage(t: Data, ghost u: Data, names: seq<int64>, outcome: SendOutcome)
      returns (r: SendResult, ghost frame: seq<byte>)
      requires Valid() && sender.sendlen == 0 && Renumbered(t, u) && names == Fds(u)
      requires |Fds(t)| <= FD_SLOTS && !InHeader(outcome)
      requires outcome.Took? ==> outcome.n <= HEADER + Size(t) && (outcome.n == 0 || outcome.whole)
      modifies this, sender
      ensures Valid()
      ensures Size(t) > CAPACITY ==> r == TooBig && link == old(link) && events == old(events)
      ensures Size(t) <= CAPACITY ==>
                && old(Enabled(link, Sending(t, u, frame, outcome)))
                && link == old(Next(link, Sending(t, u, frame, outcome)))
                && events == old(events) + [Sending(t, u, frame, outcome)]
      ensures r == Sent ==> AllOut()
    {
      hide IsFrame, Renumbered, Fds, Size, IsRun, Attach, HandedOver, Octets, Concat, LaunchPack.FdsWritten;
      LaunchPack.FdsWrittenIs(t, CAPACITY);
      var cells;
      r, cells, frame := sender.Send(t, outcome);
      if r == TooBig {
        return;
      }
      ghost var e := Sending(t, u, frame, outcome);
      FrameSize(frame, t);
      RunSnoc(IDLE, events, link, e);
      if outcome.Took? {
        HandedAttach(frame[..outcome.n], Fds(t), names);
      }
      if Accepted(outcome) {
        wire, kept := wire + HandedOver(cells, names), [];
      } else {
        kept := names;
      }
      link, events := Next(link, e), events + [e];
      if r == Sent {
        NothingUnsent(link, events);
      }
    }

    /** More of the message under way; a refusal is no event. */
    method SendMore(outcome: SendOutcome) returns (r: SendResult)
      requires Valid() && sender.sendlen > 0 && !link.headless
      requires outcome.Took? ==> outcome.n <= sender.sendlen && (outcome.n == 0 || outcome.whole)
      modifies this, sender, sender.sendbuf
      ensures Valid()
      ensures !Accepted(outcome) ==> link == old(link) && events == old(events)
      ensures Accepted(outcome) ==>
                && old(Enabled(link, Event.Resume(outcome.n)))
                && link == old(Next(link, Event.Resume(outcome.n)))
                && events == old(events) + [Event.Resume(outcome.n)]
      ensures r == Sent ==> AllOut()
    {
      hide IsRun, Attach, HandedOver, Received, Octets, Concat;
      var cells;
      r, cells := sender.Resume(outcome);
      if Accepted(outcome) {
        ghost var e := Event.Resume(outcome.n);
        RunSnoc(IDLE, events, link, e);
        HandedAttach(link.pending[..outcome.n], old(sender.sendfds), kept);
        wire, kept := wire + HandedOver(cells, kept), [];
        link, events := Next(link, e), events + [e];
        if r == Sent {
          NothingUnsent(link, events);
        }
      }
    }

    /** The receiver takes the next n bytes; it never gives up. */
    method ReceiveSome(n: nat, base: nat) returns (r: RecvResult)
      requires Valid() && 0 < n <= |wire|
      requires 0 < base && base + receiver.recvbuf.Length + n < U64_LIMIT
      modifies this, receiver
      ensures Valid() && r in {Processed(Done), Processed(NeedMore)}
      ensures old(Enabled(link, Receive(n))) && link == old(Next(link, Receive(n)))
      ensures events == old(events) + [Receive(n)]
    {
      hide IsRun, Drain, Octets, CellFds, Faithful;
      ghost var e := Receive(n);
      IdleFaithful();
      RunKeeps(IDLE, events, link);
      ReceiveKeeps(link, e);
      RunSnoc(IDLE, events, link, e);
      var chunk, chunkFds := Octets(wire[..n]), CellFds(wire[..n]);
      var more;
      r, more := receiver.Recv(chunk, chunkFds, false, base);
      wire, got := wire[n..], got + more;
      link, events := Next(link, e), events + [e];
    }
  }

  lemma NothingUnsent(l: Link, events: seq<Event>)
    requires IsRun(IDLE, events, l) && l.astray == [] && l.pending == []
    ensures |l.got| <= |l.frames| && l.buf + Octets(l.wire) == Concat(l.frames[|l.got|..])
  {
    hide IsRun, Octets, Concat, RenumberedAll, SameAll;
    Delivery(events, l);
    assert Unsent(l) == [];
  }

  lemma FrameSize(f: seq<byte>, t: Data)
    requires IsFrame(f, t)
    ensures |f| == HEADER + Size(t)
  {
  }

  /** So the receiver's callback was given the trees sent, in order, each with its
      own descriptors under the receiver's numbers; and all of them once nothing
      is on the socket or left with the sender. */
  lemma Delivered(s: Session)
    requires s.Valid()
    ensures |s.got| <= |s.link.sent| == |s.link.due| && RenumberedAll(s.link.sent, s.link.due)
    ensures SameAll(s.link.due[..|s.got|], s.got)
    ensures s.wire == [] && s.sender.Pending() == [] ==> |s.got| == |s.link.sent|
  {
    hide IsRun, Octets, Concat, RenumberedAll, SameAll;
    Delivery(s.events, s.link);
  }
}
