/** Framed messages between launchd and launchctl over a stream socket
    (ipc_proto.c), with short reads, short writes and interrupts. */
module IpcFraming {
  import opened Bytes

  const MAGIC: uint32 := 0x584E5354
  const VERSION: uint32 := 1
  const MAX_PAYLOAD: nat := 16 * 1024 * 1024
  const HEADER: nat := 16

  const E2BIG: int32 := 7
  const EPIPE: int32 := 32
  const EPROTO: int32 := 92

  // ---- the format ----

  function Header(cmd: uint32, len: nat): (h: seq<byte>)
    ensures |h| == HEADER
  {
    ToLE(MAGIC, 4) + ToLE(VERSION, 4) + ToLE(cmd, 4) + ToLE(len, 4)
  }

  function Frame(cmd: uint32, payload: seq<byte>): seq<byte> {
    Header(cmd, |payload|) + payload
  }

  /** The k-th number of a header. */
  function Field(h: seq<byte>, k: nat): (v: uint32)
    requires |h| == HEADER && k < 4
  {
    LEBound(h[4 * k..4 * k + 4]);
    Ranges();
    FromLE(h[4 * k..4 * k + 4])
  }

  datatype Received =
    | Message(cmd: uint32, payload: seq<byte>, rest: seq<byte>)
    | NoMore
    | Refused(error: int32)
    | CutShort

  /** What is wrong with a header; 0 if nothing. */
  function HeaderError(h: seq<byte>): int32
    requires |h| == HEADER
  {
    if Field(h, 0) != MAGIC || Field(h, 1) != VERSION then EPROTO
    else if Field(h, 3) > MAX_PAYLOAD then E2BIG
    else 0
  }

  /** What a stream starts with. */
  function Parse(data: seq<byte>): Received {
    if data == [] then NoMore
    else if |data| < HEADER then CutShort
    else
      var h := data[..HEADER];
      if HeaderError(h) != 0 then Refused(HeaderError(h))
      else if |data| < HEADER + Field(h, 3) then CutShort
      else Message(Field(h, 2), data[HEADER..HEADER + Field(h, 3)], data[HEADER + Field(h, 3)..])
  }

  lemma Quarters(a: seq<byte>, b: seq<byte>, c: seq<byte>, d: seq<byte>)
    requires |a| == 4 && |b| == 4 && |c| == 4 && |d| == 4
    ensures var h := a + b + c + d;
            h[0..4] == a && h[4..8] == b && h[8..12] == c && h[12..16] == d
  {
  }

  /** A wrong magic number or version is a protocol error, a length over the limit
      too big; nothing else is refused. */
  lemma ParseRefuses(data: seq<byte>)
    requires |data| >= HEADER
    ensures var h := data[..HEADER];
            var ours := h[0..4] == ToLE(MAGIC, 4) && h[4..8] == ToLE(VERSION, 4);
            && (!ours ==> Parse(data) == Refused(EPROTO))
            && (ours && FromLE(h[12..16]) > MAX_PAYLOAD ==> Parse(data) == Refused(E2BIG))
            && (ours && FromLE(h[12..16]) <= MAX_PAYLOAD ==> !Parse(data).Refused?)
  {
    var h := data[..HEADER];
    FieldInverse(h, 0);
    FieldInverse(h, 1);
    Ranges();
    LERoundTrip(MAGIC, 4);
    LERoundTrip(VERSION, 4);
    hide ToLE;
  }

  lemma HeaderFields(cmd: uint32, len: nat)
    requires len < U32_LIMIT
    ensures var h := Header(cmd, len);
            Field(h, 0) == MAGIC && Field(h, 1) == VERSION && Field(h, 2) == cmd && Field(h, 3) == len
  {
    hide ToLE, FromLE;
    Ranges();
    LERoundTrip(MAGIC, 4);
    LERoundTrip(VERSION, 4);
    LERoundTrip(cmd, 4);
    LERoundTrip(len, 4);
    Quarters(ToLE(MAGIC, 4), ToLE(VERSION, 4), ToLE(cmd, 4), ToLE(len, 4));
  }

  lemma FieldIsHalf(s: seq<byte>, k: nat)
    requires |s| >= HEADER && k < 4
    ensures Field(s[..HEADER], k) == Half(s, 4 * k)
  {
    var q := s[..HEADER][4 * k..4 * k + 4];
    assert q == s[4 * k..4 * k + 4];
    HalfIsLE(q);
  }

  /** A frame is four 32-bit numbers, least significant byte first, and the payload. */
  lemma FrameBytes(cmd: uint32, payload: seq<byte>)
    requires |payload| <= MAX_PAYLOAD
    ensures var f := Frame(cmd, payload);
            && |f| == 16 + |payload| && f[16..] == payload
            && Half(f, 0) == 0x584E5354 && Half(f, 4) == 1 && Half(f, 8) == cmd && Half(f, 12) == |payload|
  {
    hide Header, Half, Field;
    var f := Frame(cmd, payload);
    assert f[..HEADER] == Header(cmd, |payload|);
    HeaderFields(cmd, |payload|);
    FieldIsHalf(f, 0);
    FieldIsHalf(f, 1);
    FieldIsHalf(f, 2);
    FieldIsHalf(f, 3);
  }

  /** A frame is read back as sent, and what follows it stays. */
  lemma FrameRoundTrip(cmd: uint32, payload: seq<byte>, rest: seq<byte>)
    requires |payload| <= MAX_PAYLOAD
    ensures Parse(Frame(cmd, payload) + rest) == Message(cmd, payload, rest)
  {
    hide Field, Header;
    var data := Frame(cmd, payload) + rest;
    HeaderFields(cmd, |payload|);
    assert data[..HEADER] == Header(cmd, |payload|);
  }

  lemma {:induction false} LEInverse(s: seq<byte>)
    ensures ToLE(FromLE(s), |s|) == s
  {
    if s != [] {
      LEInverse(s[1..]);
    }
  }

  lemma FieldInverse(h: seq<byte>, k: nat)
    requires |h| == HEADER && k < 4
    ensures ToLE(Field(h, k), 4) == h[4 * k..4 * k + 4]
  {
    LEInverse(h[4 * k..4 * k + 4]);
  }

  lemma HeaderInverse(h: seq<byte>)
    requires |h| == HEADER && Field(h, 0) == MAGIC && Field(h, 1) == VERSION
    ensures h == Header(Field(h, 2), Field(h, 3))
  {
    hide Field, ToLE;
    FieldInverse(h, 0);
    FieldInverse(h, 1);
    FieldInverse(h, 2);
    FieldInverse(h, 3);
    assert h == h[0..4] + h[4..8] + h[8..12] + h[12..16];
  }

  /** Only a frame is read as a message. */
  lemma ParsedIsFrame(data: seq<byte>)
    requires Parse(data).Message?
    ensures var m := Parse(data);
            data == Frame(m.cmd, m.payload) + m.rest && |m.payload| <= MAX_PAYLOAD
  {
    hide Field, ToLE, Header;
    HeaderInverse(data[..HEADER]);
  }

  /** No proper beginning of a frame is taken for one. */
  lemma PrefixIncomplete(cmd: uint32, payload: seq<byte>, k: nat)
    requires |payload| <= MAX_PAYLOAD && k < |Frame(cmd, payload)|
    ensures Parse(Frame(cmd, payload)[..k]) == if k == 0 then NoMore else CutShort
  {
    hide Field, Header;
    var data := Frame(cmd, payload)[..k];
    HeaderFields(cmd, |payload|);
    if k >= HEADER {
      assert data[..HEADER] == Header(cmd, |payload|);
    }
  }

  // ---- the stream ----

  /** What a call to read or write does. */
  datatype Outcome = Takes(n: nat) | Interrupted | Fails(error: int32)

  /** Calls that make progress or are only interrupted. */
  ghost predicate Benign(plan: seq<Outcome>) {
    forall i :: 0 <= i < |plan| ==> plan[i].Interrupted? || (plan[i].Takes? && plan[i].n > 0)
  }

  function Min(a: nat, b: nat): nat {
    if a < b then a else b
  }

  /** One direction of a connection: the bytes on the way, before the end of
      the stream, and how the calls on it will go. Calls beyond the plan take
      all they can. */
  class Channel {
    var data: seq<byte>
    var plan: seq<Outcome>

    constructor (plan: seq<Outcome>)
      ensures data == [] && this.plan == plan
    {
      data, this.plan := [], plan;
    }

    /** write(2): the number of bytes taken, or an error. */
    method Write(buf: seq<byte>) returns (r: Outcome)
      requires buf != []
      modifies this
      ensures plan == if old(plan) == [] then [] else old(plan)[1..]
      ensures old(plan) == [] ==> r.Takes? && r.n == |buf|
      ensures old(plan) != [] && !old(plan)[0].Takes? ==> r == old(plan)[0]
      ensures old(plan) != [] && old(plan)[0].Takes? ==> r == Takes(Min(old(plan)[0].n, |buf|))
      ensures r.Takes? ==> r.n <= |buf| && data == old(data) + buf[..r.n]
      ensures !r.Takes? ==> data == old(data)
    {
      r := if plan == [] then Takes(|buf|) else plan[0];
      plan := if plan == [] then [] else plan[1..];
      if r.Takes? {
        r := Takes(Min(r.n, |buf|));
        data := data + buf[..r.n];
      }
    }

    /** read(2): no bytes only at the end of the stream. */
    method Read(len: nat) returns (r: Outcome, bytes: seq<byte>)
      requires len > 0
      modifies this
      ensures plan == if old(plan) == [] then [] else old(plan)[1..]
      ensures r.Takes? <==> old(plan) == [] || old(plan)[0].Takes?
      ensures !r.Takes? ==> r == old(plan)[0] && data == old(data)
      ensures r.Takes? ==> r.n == |bytes| <= len && old(data) == bytes + data
      ensures r.Takes? ==> (r.n == 0 <==> old(data) == [])
    {
      r := if plan == [] then Takes(len) else plan[0];
      plan := if plan == [] then [] else plan[1..];
      bytes := [];
      if r.Takes? {
        var n := Min(if r.n == 0 then 1 else r.n, Min(len, |data|));
        r, bytes, data := Takes(n), data[..n], data[n..];
      }
    }

    /** All or, after an error, a beginning of the buffer is sent. */
    method WriteAll(buf: seq<byte>) returns (error: int32)
      modifies this
      ensures error == 0 ==> data == old(data) + buf
      ensures error != 0 ==> exists k :: 0 <= k < |buf| && data == old(data) + buf[..k]
      ensures old(Benign(plan)) ==> error == 0 && Benign(plan)
    {
      var p := 0;
      while p < |buf|
        invariant 0 <= p <= |buf| && data == old(data) + buf[..p]
        invariant old(Benign(plan)) ==> Benign(plan)
        decreases |buf| - p, |plan|
      {
        var r := Write(buf[p..]);
        match r
        case Interrupted =>
        case Fails(e) =>
          return if e == 0 then EPIPE else e;
        case Takes(n) =>
          if n == 0 {
            return EPIPE;
          }
          assert buf[..p] + buf[p..][..n] == buf[..p + n];
          p := p + n;
      }
      return 0;
    }

    /** Exactly len bytes are read, or an error or the end of the stream comes
        first; the end is clean only before the first byte. */
    method ReadAll(len: nat) returns (r: ReadResult)
      modifies this
      ensures r.Got? ==> |r.bytes| == len && old(data) == r.bytes + data
      ensures r.CleanEnd? ==> len > 0 && old(data) == [] && data == []
      ensures r.Broken? ==> len > 0
      ensures old(Benign(plan)) ==>
                && Benign(plan)
                && (r.Got? <==> |old(data)| >= len)
                && (r.CleanEnd? <==> len > 0 && old(data) == [])
                && (r.Broken? ==> r.error == 0)
    {
      var bytes := [];
      while |bytes| < len
        invariant |bytes| <= len && old(data) == bytes + data
        invariant old(Benign(plan)) ==> Benign(plan)
        decreases len - |bytes|, |plan|
      {
        var o, more := Read(len - |bytes|);
        match o
        case Interrupted =>
        case Fails(e) =>
          return Broken(e);
        case Takes(n) =>
          if n == 0 {
            return if bytes == [] then CleanEnd else Broken(0);
          }
          bytes := bytes + more;
      }
      return Got(bytes);
    }

    /** A message too long is refused before anything is sent. */
    method Send(cmd: uint32, payload: seq<byte>) returns (error: int32)
      modifies this
      ensures |payload| > MAX_PAYLOAD ==> error == E2BIG && data == old(data)
      ensures error == 0 ==> data == old(data) + Frame(cmd, payload)
      ensures error != 0 ==> exists k :: 0 <= k < |Frame(cmd, payload)| && data == old(data) + Frame(cmd, payload)[..k]
      ensures old(Benign(plan)) ==> Benign(plan) && (error == 0 <==> |payload| <= MAX_PAYLOAD)
    {
      hide Benign, Header;
      ghost var f, h := Frame(cmd, payload), Header(cmd, |payload|);
      if |payload| > MAX_PAYLOAD {
        assert data + f[..0] == data;
        return E2BIG;
      }
      error := WriteAll(Header(cmd, |payload|));
      if error != 0 {
        ghost var k :| 0 <= k < |h| && data == old(data) + h[..k];
        assert f[..k] == h[..k];
        return;
      }
      if |payload| > 0 {
        error := WriteAll(payload);
        if error != 0 {
          ghost var k :| 0 <= k < |payload| && data == old(data) + h + payload[..k];
          assert h + payload[..k] == f[..HEADER + k];
          assert data == old(data) + f[..HEADER + k];
        }
      }
      assert error == 0 ==> old(data) + h + payload == old(data) + f;
    }

    /** However the reads are cut: a message is what the stream starts with and
        is taken off it; the end of the stream is reported only where no frame
        has begun; and without failing calls the outcome is exactly what the
        stream starts with. */
    method Receive() returns (r: Received)
      modifies this
      ensures r.Message? ==> r == Parse(old(data)) && data == r.rest
      ensures r.NoMore? ==> old(data) == []
      ensures old(Benign(plan)) ==> Benign(plan) && r == Parse(old(data))
    {
      hide Benign, Field;
      var head := ReadAll(HEADER);
      match head
      case CleanEnd => return NoMore;
      case Broken(e) => return if e == 0 then CutShort else Refused(e);
      case Got(h) =>
        assert old(data)[..HEADER] == h;
        if HeaderError(h) != 0 {
          return Refused(HeaderError(h));
        }
        var len: nat := Field(h, 3);
        if len == 0 {
          assert old(data)[HEADER..HEADER] == [];
          return Message(Field(h, 2), [], data);
        }
        var body := ReadAll(len);
        match body
        case CleanEnd => return CutShort;
        case Broken(e) => return if e == 0 then CutShort else Refused(e);
        case Got(payload) =>
          assert old(data) == h + payload + data;
          return Message(Field(h, 2), payload, data);
    }
  }

  datatype ReadResult = Got(bytes: seq<byte>) | CleanEnd | Broken(error: int32)
}
