/** A liblaunch connection (struct _launch): its send and receive buffers, and
    launchd_msg_send and launchd_msg_recv on them. */
module LaunchConnection {
  import opened Bytes
  import opened LaunchData
  import opened LaunchWire
  import opened LaunchStream
  import LaunchPack
  import LaunchUnpack

  /** What sendmsg does: fail, or take some bytes, and leave the length of the
      control message as it was or not. */
  datatype SendOutcome = Refused | Took(n: nat, whole: bool)

  /** OutOfArray: the descriptors were written past the end of their array.
      Underflow: the kernel took a part of the header only, and the bytes still
      to be sent are looked for before the start of the buffer. */
  datatype SendResult = Sent | TryAgain | TooBig | Failed | Reset | OutOfArray | Underflow

  datatype RecvResult = Processed(status: Status) | Closed | Aborted

  const CAPACITY: nat := 10 * 1024 * 1024

  /** Descriptors that fit into the 4096 bytes set aside for them. */
  const FD_SLOTS: nat := 1024

  function Header(bodyLen: nat): (h: seq<byte>)
    ensures |h| == HEADER
  {
    ToLE(MAGIC, 8) + ToLE(bodyLen + HEADER, 8)
  }

  lemma HeaderMakesFrame(body: seq<byte>, t: Data)
    requires Encodes(body, t) && |body| + HEADER < U64_LIMIT
    ensures IsFrame(Header(|body|) + body, t)
  {
    var f := Header(|body|) + body;
    hide ToLE, Word, Encodes;
    WordOfLE(MAGIC);
    WordOfLE(|body| + HEADER);
    assert f[0..8] == ToLE(MAGIC, 8)[0..8];
    WordKept(f, 0, ToLE(MAGIC, 8), 0);
    assert f[8..16] == ToLE(|body| + HEADER, 8)[0..8];
    WordKept(f, 8, ToLE(|body| + HEADER, 8), 0);
    assert f[HEADER..] == body;
    EncodedSize(body, t);
  }

  lemma EncodedSize(s: seq<byte>, t: Data)
    requires Encodes(s, t)
    ensures |s| == Size(t)
  {
  }

  lemma DrainEmpty(fds: seq<int64>)
    ensures Drain([], fds) == LaunchStream.Drained([], [], fds, Done)
  {
  }

  /** The kernel took bytes and said so in the way expected. */
  predicate Accepted(o: SendOutcome) {
    o.Took? && o.n > 0 && o.whole
  }

  /** It took less than the header. */
  predicate InHeader(o: SendOutcome) {
    Accepted(o) && o.n < HEADER
  }

  /** A tree that fits the send buffer and has more descriptors than their array. */
  function ManyDescriptors(): Data {
    Array(seq(FD_SLOTS + 1, i => Fd(0)))
  }

  lemma {:induction false} SizeOfFds(ts: seq<Data>)
    requires forall i :: 0 <= i < |ts| ==> ts[i] == Fd(0)
    ensures SizeAll(ts) == NODE * |ts| && |FdsAll(ts)| == |ts|
  {
    if ts != [] {
      SizeOfFds(ts[..|ts| - 1]);
    }
  }

  lemma DescriptorsOverrun()
    ensures Size(ManyDescriptors()) <= CAPACITY && |Fds(ManyDescriptors())| == FD_SLOTS + 1
  {
    var ts := Children(ManyDescriptors());
    SizeOfFds(ts);
    hide SizeAll, FdsAll;
  }

  class Connection {
    var sendbuf: array<byte>
    var sendlen: nat
    var sendfds: seq<int64>
    var recvbuf: array<byte>
    var recvfds: seq<int64>

    ghost predicate Valid()
      reads this
    {
      sendlen <= sendbuf.Length && sendbuf != recvbuf
    }

    /** The bytes that an earlier send left behind. */
    ghost function Pending(): seq<byte>
      requires Valid()
      reads this, sendbuf
    {
      sendbuf[..sendlen]
    }

    constructor ()
      ensures Valid() && fresh(sendbuf) && fresh(recvbuf)
      ensures Pending() == [] && recvbuf[..] == [] && sendfds == [] && recvfds == []
    {
      sendbuf, sendlen, sendfds := new byte[0], 0, [];
      recvbuf, recvfds := new byte[0], [];
    }

    /** Drops the first n unsent bytes, moving the others to the front. */
    method Consume(n: nat)
      requires Valid() && n <= sendlen
      modifies this`sendlen, sendbuf
      ensures Valid() && Pending() == old(Pending()[n..])
    {
      sendlen := sendlen - n;
      forall i | 0 <= i < sendlen {
        sendbuf[i] := sendbuf[n + i];
      }
    }

    /** Packs a message into a new send buffer and puts a header before it.  The
        descriptors stay inside their array exactly if those that are written
        are no more than it has room for, and if the tree fits these are all. */
    method PackMessage(t: Data) returns (wire: seq<byte>, inside: bool)
      requires Valid() && sendlen == 0
      modifies this`sendbuf, this`sendlen, this`sendfds
      ensures Valid() && fresh(sendbuf)
      ensures sendlen == if Size(t) <= CAPACITY then Size(t) else 0
      ensures sendlen > 0 <==> Size(t) <= CAPACITY
      ensures sendlen > 0 ==>
                IsFrame(wire, t) && |wire| == HEADER + sendlen && Pending() == wire[HEADER..] && sendfds == Fds(t)
      ensures inside <==> |LaunchPack.FdsWritten(t, CAPACITY)| <= FD_SLOTS
      ensures sendlen > 0 ==> LaunchPack.FdsWritten(t, CAPACITY) == Fds(t)
    {
      hide IsFrame, Encodes, Fds, ToLE, LaunchPack.FdsWritten;
      LaunchPack.FdsWrittenIs(t, CAPACITY);
      sendbuf := new byte[CAPACITY];
      var n, fds;
      n, fds, inside := LaunchPack.Pack(t, sendbuf, 0, CAPACITY, [], FD_SLOTS);
      sendlen, wire := n, [];
      if n > 0 {
        sendfds := fds;
        wire := Header(n) + sendbuf[..n];
        assert sendbuf[0..n] == sendbuf[..n];
        HeaderMakesFrame(sendbuf[..n], t);
      }
    }

    /** Starts a message.  Where the source writes past its descriptor array or
        reads before its send buffer, neither of which it notices, the result is
        OutOfArray or Underflow, and the send buffer holds anything. */
    method Send(t: Data, outcome: SendOutcome) returns (r: SendResult, cells: seq<Cell>, ghost frame: seq<byte>)
      requires Valid() && sendlen == 0
      requires outcome.Took? ==> outcome.n <= HEADER + Size(t)
      modifies this`sendbuf, this`sendlen, this`sendfds
      ensures Valid() && fresh(sendbuf)
      ensures r == OutOfArray <==> |LaunchPack.FdsWritten(t, CAPACITY)| > FD_SLOTS
      ensures r == TooBig <==> Size(t) > CAPACITY && r != OutOfArray
      ensures r == TooBig ==> cells == [] && Pending() == []
      ensures Size(t) <= CAPACITY && |Fds(t)| <= FD_SLOTS ==>
                && (r == Underflow <==> InHeader(outcome))
                && IsFrame(frame, t)
                && cells == if outcome.Took? then Attach(frame[..outcome.n], Fds(t)) else []
      ensures Size(t) <= CAPACITY && |Fds(t)| <= FD_SLOTS && !InHeader(outcome) ==>
                && (r == Sent <==> Accepted(outcome) && Pending() == [])
                && (r == TryAgain <==> Accepted(outcome) && Pending() != [])
                && (r == Failed <==> outcome.Refused?)
                && (r == Reset <==> outcome.Took? && (outcome.n == 0 || !outcome.whole))
                && if Accepted(outcome) then Pending() == frame[outcome.n..] && sendfds == []
                   else Pending() == frame[HEADER..] && sendfds == Fds(t)
    {
      hide IsFrame, Encodes, Fds, Size, ToLE, LaunchPack.FdsWritten;
      var wire, inside := PackMessage(t);
      cells, frame := [], wire;
      if !inside {
        return OutOfArray, cells, frame;
      } else if sendlen == 0 {
        return TooBig, cells, frame;
      } else if outcome.Refused? {
        return Failed, cells, frame;
      }
      cells := Attach(wire[..outcome.n], sendfds);
      if outcome.n == 0 || !outcome.whole {
        return Reset, cells, frame;
      } else if outcome.n < HEADER {
        return Underflow, cells, frame;
      }
      assert frame[outcome.n..] == frame[HEADER..][outcome.n - HEADER..];
      Consume(outcome.n - HEADER);
      sendfds := [];
      r := if sendlen > 0 then TryAgain else Sent;
    }

    /** Goes on with a message that an earlier call left unfinished.  What the
        kernel took is forgotten only if the call went well. */
    method Resume(outcome: SendOutcome) returns (r: SendResult, cells: seq<Cell>)
      requires Valid() && sendlen > 0
      requires outcome.Took? ==> outcome.n <= sendlen
      modifies this`sendlen, this`sendfds, sendbuf
      ensures Valid()
      ensures r == Sent <==> Accepted(outcome) && Pending() == []
      ensures r == TryAgain <==> Accepted(outcome) && Pending() != []
      ensures r == Failed <==> outcome.Refused?
      ensures r == Reset <==> outcome.Took? && (outcome.n == 0 || !outcome.whole)
      ensures cells == if outcome.Took? then Attach(old(Pending())[..outcome.n], old(sendfds)) else []
      ensures if Accepted(outcome) then Pending() == old(Pending())[outcome.n..] && sendfds == []
              else Pending() == old(Pending()) && sendfds == old(sendfds)
    {
      cells := [];
      if outcome.Refused? {
        return Failed, cells;
      }
      assert sendbuf[..sendlen][..outcome.n] == sendbuf[..outcome.n];
      cells := Attach(sendbuf[..outcome.n], sendfds);
      if outcome.n == 0 || !outcome.whole {
        return Reset, cells;
      }
      Consume(outcome.n);
      sendfds := [];
      r := if sendlen > 0 then TryAgain else Sent;
    }

    /** Takes one chunk off the socket and delivers the complete messages.
        Each is decoded in place, at the address base where the buffer lies,
        and read back by following its links. */
    method Recv(chunk: seq<byte>, chunkFds: seq<int64>, truncated: bool, base: nat)
      returns (r: RecvResult, got: seq<Data>)
      requires Valid()
      requires 0 < base && base + recvbuf.Length + |chunk| < U64_LIMIT
      modifies this`recvbuf, this`recvfds
      ensures Valid() && (recvbuf == old(recvbuf) || fresh(recvbuf))
      ensures chunk == [] || truncated ==>
                && r == (if chunk == [] then Closed else Aborted)
                && got == [] && recvbuf == old(recvbuf) && recvfds == old(recvfds)
      ensures chunk != [] && !truncated ==>
                var d := Drain(old(recvbuf[..]) + chunk, old(recvfds) + chunkFds);
                && r == Processed(d.status) && got == d.got
                && recvfds == d.fds
                && (d.status in {Done, NeedMore} ==> recvbuf[..] == d.buf)
                && (d.status in {Bad, Overran} ==> OnlyWithin(d.buf, recvbuf[..], HEADER, |d.buf|))
    {
      hide Drain;
      got := [];
      if chunk == [] {
        return Closed, got;
      } else if truncated {
        return Aborted, got;
      }
      var bytes := recvbuf[..] + chunk;
      var status;
      recvfds := recvfds + chunkFds;
      ghost var goal := Drain(bytes, recvfds);
      recvbuf := new byte[|bytes|](i requires 0 <= i < |bytes| => bytes[i]);
      assert recvbuf[..] == bytes;
      while recvbuf.Length > 0
        invariant Valid() && fresh(recvbuf)
        invariant base + recvbuf.Length < U64_LIMIT
        invariant goal == var d := Drain(recvbuf[..], recvfds); d.(got := got + d.got)
        decreases recvbuf.Length
      {
        var t, used, k;
        status, t, used, k := Deliver(recvbuf, recvfds, base);
        if status != Done {
          return Processed(status), got;
        }
        got := got + [t];
        var rest := recvbuf[used..];
        recvbuf := new byte[|rest|](i requires 0 <= i < |rest| => rest[i]);
        assert recvbuf[..] == rest;
        recvfds := recvfds[k..];
      }
      assert recvbuf[..] == [];
      DrainEmpty(recvfds);
      r := Processed(Done);
    }
  }

  /** One turn of the receive loop on a non-empty buffer: Done with a message
      read out and the bytes and descriptors it used, or the reason to stop. */
  method Deliver(buf: array<byte>, fds: seq<int64>, base: nat)
    returns (status: Status, t: Data, used: nat, k: nat)
    requires 0 < buf.Length && 0 < base && base + buf.Length < U64_LIMIT
    modifies buf
    ensures status == Done ==> HEADER <= used <= buf.Length && k <= |fds|
    ensures status == Done ==>
              && used > 0 && buf[used..] == old(buf[used..])
              && Drain(old(buf[..]), fds) == Before(t, Drain(buf[used..], fds[k..]))
    ensures status != Done ==>
              && Drain(old(buf[..]), fds) == LaunchStream.Drained([], old(buf[..]), fds, status)
              && (status == NeedMore ==> buf[..] == old(buf[..]))
              && OnlyWithin(old(buf[..]), buf[..], HEADER, buf.Length)
  {
    hide Word, Decode, Drain, LaunchUnpack.Represents;
    status, t, used, k := NeedMore, Bool(0), 0, 0;
    if buf.Length < HEADER {
      DrainStop(buf[..], fds);
      return;
    }
    var magic := LoadWord(buf, 0);
    var len := LoadWord(buf, 8);
    if magic != MAGIC || len <= HEADER {
      DrainStop(buf[..], fds);
      status := Bad;
      return;
    }
    if buf.Length < len {
      DrainStop(buf[..], fds);
      return;
    }
    DrainStep(buf[..], fds);
    ghost var d := Decode(buf[HEADER..], fds);
    assert buf[..][HEADER..] == buf[HEADER..] && fds[0..] == fds;
    var outcome, end, fdEnd := LaunchUnpack.Unpack(buf, base, HEADER, fds, 0);
    if outcome != LaunchUnpack.Linked {
      status := if outcome == LaunchUnpack.Null then Bad else Overran;
      return;
    }
    t := LaunchUnpack.Read(buf, base, HEADER, end, d.value);
    status, used, k := Done, end, fdEnd;
    assert old(buf[..])[used..] == buf[used..];
  }
}
