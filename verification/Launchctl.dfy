/** One command of launchctl (launchctl.c): the request, the daemon's single
    reply (ipc.c), and the exit status read from it. */
module Launchctl {
  import opened Wrappers
  import opened Bytes
  import opened IpcFraming

  const CMD_REPLY: uint32 := 0
  const CMD_LOAD: uint32 := 1
  const CMD_UNLOAD: uint32 := 2
  const CMD_LIST: uint32 := 3
  const CMD_START: uint32 := 4
  const CMD_STOP: uint32 := 5
  const CMD_SHUTDOWN: uint32 := 6

  const EINVAL: int32 := 22

  const SPACE: byte := 32
  const NEWLINE: byte := 10
  const MINUS: byte := 45
  const PLUS: byte := 43

  /** Room for a status text, without its terminator. */
  const STATUS_MAX: nat := 1023

  // ---- numbers as text ----

  function Digits(n: nat): (s: seq<byte>)
    ensures |s| > 0 && forall i :: 0 <= i < |s| ==> IsDigit(s[i])
  {
    if n < 10 then [48 + n] else Digits(n / 10) + [48 + n % 10]
  }

  function Magnitude(v: int): nat {
    if v < 0 then -v else v
  }

  function Decimal(v: int): seq<byte> {
    if v < 0 then [MINUS] + Digits(Magnitude(v)) else Digits(v)
  }

  predicate IsDigit(b: byte) {
    48 <= b <= 57
  }

  predicate IsSpace(b: byte) {
    b == SPACE || 9 <= b <= 13
  }

  /** The number that leading digits continue. */
  function Leading(s: seq<byte>, n: nat): nat {
    if s == [] || !IsDigit(s[0]) then n else Leading(s[1..], 10 * n + (s[0] - 48))
  }

  function SkipSpace(s: seq<byte>): seq<byte> {
    if s != [] && IsSpace(s[0]) then SkipSpace(s[1..]) else s
  }

  /** strtol in base 10: saturates. */
  function Strtol(s: seq<byte>): (v: int64) {
    var t := SkipSpace(s);
    var v: int :=
      if t != [] && t[0] == MINUS then 0 - Leading(t[1..], 0) as int
      else if t != [] && t[0] == PLUS then Leading(t[1..], 0)
      else Leading(t, 0);
    if v < -0x8000_0000_0000_0000 then -0x8000_0000_0000_0000
    else if v >= 0x8000_0000_0000_0000 then 0x7FFF_FFFF_FFFF_FFFF
    else v
  }

  /** The conversion of a long to an int. */
  function ToInt(v: int64): int32 {
    var w := v % U32_LIMIT;
    if w < 0x8000_0000 then w else w - U32_LIMIT
  }

  lemma {:induction false} LeadingDigits(n: nat, rest: seq<byte>)
    ensures Leading(Digits(n) + rest, 0) == Leading(rest, n)
  {
    if n < 10 {
      assert ([48 + n] + rest)[1..] == rest;
    } else {
      var d: byte := 48 + n % 10;
      assert Digits(n) + rest == Digits(n / 10) + ([d] + rest);
      LeadingDigits(n / 10, [d] + rest);
      assert ([d] + rest)[1..] == rest;
    }
  }

  /** A number printed and followed by a space is read back. */
  lemma ReadBack(v: int32, rest: seq<byte>)
    ensures ToInt(Strtol(Decimal(v) + [SPACE] + rest)) == v
  {
    hide Leading, Digits;
    var t := [SPACE] + rest;
    var s := Decimal(v) + [SPACE] + rest;
    assert s == Decimal(v) + t;
    NotDigit(rest, Magnitude(v));
    if v < 0 {
      LeadingDigits(Magnitude(v), t);
      assert s[1..] == Digits(Magnitude(v)) + t;
      assert SkipSpace(s) == s;
    } else {
      LeadingDigits(v, t);
      assert IsDigit(s[0]);
      assert SkipSpace(s) == s;
    }
  }

  lemma NotDigit(rest: seq<byte>, n: nat)
    ensures Leading([SPACE] + rest, n) == n
  {
  }

  function Power(k: nat): (p: nat)
    ensures p > 0
  {
    if k == 0 then 1 else 10 * Power(k - 1)
  }

  lemma {:induction false} DigitsLength(n: nat, k: nat)
    requires k > 0 && n < Power(k)
    ensures |Digits(n)| <= k
  {
    if n >= 10 {
      assert k > 1 by {
        assert Power(1) == 10 * Power(0);
      }
      DigitsLength(n / 10, k - 1);
    }
  }

  /** The digit in front of k others is that many times ten to the power k. */
  lemma {:induction false} DigitAt(n: nat, k: nat)
    requires k < |Digits(n)|
    ensures Digits(n)[|Digits(n)| - 1 - k] as int == 48 + n / Power(k) % 10
    ensures |Digits(n)| > 1 ==> Digits(n)[0] != 48
  {
    if n >= 10 {
      DigitAt(n / 10, 0);
      if k > 0 {
        DigitAt(n / 10, k - 1);
        DivTwice(n, Power(k - 1));
      }
    }
  }

  lemma DivTwice(n: nat, p: nat)
    requires p > 0
    ensures n / 10 / p == n / (10 * p)
  {
    var q := n / 10 / p;
    var a, b := n % 10, n / 10 % p;
    assert n == 10 * p * q + (10 * b + a);
    assert 0 <= 10 * b + a < 10 * p;
    Quotient(n, 10 * p, q, 10 * b + a);
  }

  lemma Quotient(n: int, d: nat, q: int, r: int)
    requires 0 <= r < d && n == d * q + r
    ensures n / d == q
  {
    var q' := n / d;
    assert n == d * q' + n % d;
    Times(d, q - q', n % d - r);
  }

  lemma Times(d: int, a: int, e: int)
    requires -d < e < d && d * a == e
    ensures a == 0
  {
    if a >= 1 {
      More(d, a);
    } else if a <= -1 {
      More(d, -a);
    }
  }

  lemma More(d: int, a: int)
    requires d > 0 && a >= 1
    ensures d * a >= d
  {
  }

  lemma DecimalLength(v: int32)
    ensures |Decimal(v)| <= 11
  {
    assert Power(10) == 10_000_000_000 by {
      assert Power(5) == 10 * 10 * 10 * 10 * 10 * Power(0);
      assert Power(10) == 10 * 10 * 10 * 10 * 10 * Power(5);
    }
    DigitsLength(Magnitude(v), 10);
  }

  // ---- replies ----

  /** What the daemon answers: a status, or the list of jobs. */
  datatype Reply = Status(error: int32, message: seq<byte>) | Listing(count: nat, rows: seq<byte>)

  function ErrorOf(r: Reply): int32 {
    match r
    case Status(e, _) => e
    case Listing(_, _) => 0
  }

  function Truncated(s: seq<byte>): seq<byte> {
    if |s| > STATUS_MAX then s[..STATUS_MAX] else s
  }

  /** " jobs" and a newline. */
  const JOBS: seq<byte> := [SPACE, 106, 111, 98, 115, NEWLINE]

  function Text(r: Reply): seq<byte> {
    match r
    case Status(e, m) => Truncated(Decimal(e) + [SPACE] + m + [NEWLINE])
    case Listing(n, rows) => [48, SPACE] + Digits(n) + JOBS + rows
  }

  /** launchctl's exit status for what it received. */
  function ExitFor(r: Received): nat {
    if !r.Message? || r.cmd != CMD_REPLY then 1
    else if r.payload == [] || ToInt(Strtol(r.payload)) == 0 then 0
    else 1
  }

  /** A status is the error, a space, the message and a newline, cut at 1023 bytes;
      a list has the count of jobs in its first line, and the rows. */
  lemma TextIs(r: Reply)
    ensures r.Status? ==>
              var whole := Decimal(r.error) + [32] + r.message + [10];
              Text(r) <= whole && |Text(r)| == if |whole| > 1023 then 1023 else |whole|
    ensures r.Listing? ==>
              Text(r) == Ascii("0 ") + Digits(r.count) + Ascii(" jobs") + [10] + r.rows
  {
    hide Digits, Decimal;
    if r.Listing? {
      assert Ascii("0 ") == [48, 32] by {
        Letter("0 ");
        Letter(" ");
      }
      assert Ascii(" jobs") == [32, 106, 111, 98, 115] by {
        Letter(" jobs");
        Letter("jobs");
        Letter("obs");
        Letter("bs");
        Letter("s");
      }
      assert [32, 106, 111, 98, 115] + [10] == JOBS;
    }
  }

  lemma Letter(s: string)
    requires s != ""
    ensures Ascii(s) == [s[0] as int % 128] + Ascii(s[1..])
  {
  }

  /** The text carries the error, however it is cut. */
  lemma TextCarries(r: Reply)
    ensures Text(r) != [] && ToInt(Strtol(Text(r))) == ErrorOf(r)
  {
    hide Strtol, ToInt, Digits, Power;
    match r
    case Status(e, m) =>
      DecimalLength(e);
      var s := Decimal(e) + [SPACE] + (m + [NEWLINE]);
      assert s == Decimal(e) + [SPACE] + m + [NEWLINE];
      var t := Truncated(s);
      var k := |Decimal(e)| + 1;
      assert t == Decimal(e) + [SPACE] + t[k..];
      ReadBack(e, t[k..]);
    case Listing(n, rows) =>
      assert Decimal(0) == [48] by {
        assert Digits(0) == [48] by {
          DigitsZero();
        }
      }
      ReadBack(0, Digits(n) + JOBS + rows);
      assert Text(r) == Decimal(0) + [SPACE] + (Digits(n) + JOBS + rows);
  }

  lemma DigitsZero()
    ensures Digits(0) == [48]
  {
  }

  lemma ExitTells(r: Reply)
    ensures ExitFor(Message(CMD_REPLY, Text(r), [])) == 0 <==> ErrorOf(r) == 0
  {
    hide Text, Strtol, ToInt;
    TextCarries(r);
  }

  // ---- the daemon ----

  /** What the job table, which is not modelled, answers: an error and a
      message for a command on a job, and the number and rows of all jobs. */
  datatype Jobs = Jobs(act: (uint32, seq<byte>) -> (int32, seq<byte>), list: Reply)

  function Ascii(s: string): seq<byte> {
    if s == "" then [] else [s[0] as int % 128] + Ascii(s[1..])
  }

  /** A payload without text: none, or one that starts with a terminator. */
  predicate Missing(payload: seq<byte>) {
    payload == [] || payload[0] == 0
  }

  /** A command on a job that comes with an argument is answered by the job
      table for that very command; without one, or unknown, it is refused; a
      list is the job table's, and a shutdown goes well. */
  predicate IsAnswer(r: Reply, cmd: uint32, payload: seq<byte>, jobs: Jobs) {
    && (cmd in {CMD_LOAD, CMD_UNLOAD, CMD_START, CMD_STOP} ==>
          && r.Status?
          && (payload != [] && payload[0] != 0 ==> (r.error, r.message) == jobs.act(cmd, payload))
          && (payload == [] || payload[0] == 0 ==> r.error == EINVAL))
    && (cmd == CMD_LIST ==> r == jobs.list)
    && (cmd == CMD_SHUTDOWN ==> r.Status? && r.error == 0)
    && (cmd == CMD_REPLY || cmd > CMD_SHUTDOWN ==> r.Status? && r.error == EINVAL)
  }

  function Dispatch(cmd: uint32, payload: seq<byte>, jobs: Jobs): (r: Reply)
    ensures IsAnswer(r, cmd, payload, jobs)
  {
    if cmd == CMD_LOAD || cmd == CMD_UNLOAD || cmd == CMD_START || cmd == CMD_STOP then
      if Missing(payload) then Status(EINVAL, Ascii(if cmd == CMD_LOAD then "missing plist path" else "missing label"))
      else
        var (error, message) := jobs.act(cmd, payload);
        Status(error, message)
    else if cmd == CMD_LIST then jobs.list
    else if cmd == CMD_SHUTDOWN then Status(0, Ascii("shutting down"))
    else Status(EINVAL, Ascii("unknown command"))
  }

  function NonZero(e: int32): int32 {
    if e == 0 then EPROTO else e
  }

  /** What a connection is to be told; nothing if the client just left. */
  method Answer(up: Channel, jobs: Jobs, errno: int32) returns (reply: Option<Reply>)
    modifies up
    ensures reply.None? ==> old(up.data) == []
    ensures reply.Some? && ErrorOf(reply.value) == 0 ==>
              Parse(old(up.data)).Message? &&
              IsAnswer(reply.value, Parse(old(up.data)).cmd, Parse(old(up.data)).payload, jobs)
    ensures old(Benign(up.plan)) ==>
              match Parse(old(up.data))
              case NoMore => reply == None
              case Message(cmd, payload, _) => reply.Some? && IsAnswer(reply.value, cmd, payload, jobs)
              case Refused(e) =>
                reply.Some? && reply.value.Status? && reply.value.error == if e != 0 then e else EPROTO
              case CutShort =>
                reply.Some? && reply.value.Status? && reply.value.error == if errno != 0 then errno else EPROTO
  {
    hide Benign, Parse, Ascii, IsAnswer;
    var r := up.Receive();
    match r
    case NoMore => reply := None;
    case Refused(e) => reply := Some(Status(NonZero(e), Ascii("protocol error")));
    case CutShort => reply := Some(Status(NonZero(errno), Ascii("protocol error")));
    case Message(cmd, payload, _) => reply := Some(Dispatch(cmd, payload, jobs));
  }

  /** One message is read and, unless the client just left, one reply sent. */
  method HandleConnection(up: Channel, down: Channel, jobs: Jobs, errno: int32) returns (reply: Option<Reply>)
    requires up != down
    modifies up, down
    ensures reply.None? ==> old(up.data) == [] && down.data == old(down.data)
    ensures reply.Some? ==>
              var f := Frame(CMD_REPLY, Text(reply.value));
              down.data == old(down.data) + f || exists k :: 0 <= k < |f| && down.data == old(down.data) + f[..k]
    ensures reply.Some? && |Text(reply.value)| > MAX_PAYLOAD ==> down.data == old(down.data)
    ensures reply.Some? && ErrorOf(reply.value) == 0 ==>
              Parse(old(up.data)).Message? &&
              IsAnswer(reply.value, Parse(old(up.data)).cmd, Parse(old(up.data)).payload, jobs)
    ensures old(Benign(up.plan)) ==>
              match Parse(old(up.data))
              case NoMore => reply == None
              case Message(cmd, payload, _) =>
                && reply.Some?
                && (cmd in {CMD_LOAD, CMD_UNLOAD, CMD_START, CMD_STOP} ==>
                      && reply.value.Status?
                      && if payload != [] && payload[0] != 0
                         then (reply.value.error, reply.value.message) == jobs.act(cmd, payload)
                         else reply.value.error == EINVAL)
                && (cmd == CMD_LIST ==> reply.value == jobs.list)
                && (cmd == CMD_SHUTDOWN ==> reply.value.Status? && reply.value.error == 0)
                && (cmd == CMD_REPLY || cmd > CMD_SHUTDOWN ==> reply.value.Status? && reply.value.error == EINVAL)
              case Refused(e) =>
                reply.Some? && reply.value.Status? && reply.value.error == if e != 0 then e else EPROTO
              case CutShort =>
                reply.Some? && reply.value.Status? && reply.value.error == if errno != 0 then errno else EPROTO
    ensures old(Benign(down.plan)) ==> Benign(down.plan)
    ensures old(Benign(down.plan)) && reply.Some? && |Text(reply.value)| <= MAX_PAYLOAD ==>
              down.data == old(down.data) + Frame(CMD_REPLY, Text(reply.value))
  {
    hide Benign, Parse, Frame, Text, ErrorOf;
    reply := Answer(up, jobs, errno);
    if reply.Some? {
      var sent := down.Send(CMD_REPLY, Text(reply.value));
    }
  }

  /** A whole command. Whatever happens on the connection, launchctl exits 0
      only if the daemon's reply carried error 0; and if no call fails, it does
      so exactly then, provided the reply is not too long to be sent. */
  method DoCommand(cmd: uint32, payload: seq<byte>, up: Channel, down: Channel, jobs: Jobs, errno: int32)
    returns (exit: nat, reply: Option<Reply>)
    requires up != down && up.data == [] && down.data == []
    modifies up, down
    ensures exit == 0 || exit == 1
    ensures exit == 0 ==>
              && reply.Some? && IsAnswer(reply.value, cmd, payload, jobs)
              && (reply.value.Status? ==> reply.value.error == 0)
    ensures old(Benign(up.plan)) && old(Benign(down.plan)) && |payload| <= MAX_PAYLOAD ==>
              && reply.Some? && IsAnswer(reply.value, cmd, payload, jobs)
              && (exit == 0 <==>
                  |Text(reply.value)| <= MAX_PAYLOAD && (reply.value.Status? ==> reply.value.error == 0))
    ensures old(Benign(up.plan)) && old(Benign(down.plan)) && |payload| <= MAX_PAYLOAD ==>
              && (cmd in {CMD_LOAD, CMD_UNLOAD, CMD_START, CMD_STOP} && payload != [] && payload[0] != 0 ==>
                    (exit == 0 <==> jobs.act(cmd, payload).0 == 0))
              && (cmd in {CMD_LOAD, CMD_UNLOAD, CMD_START, CMD_STOP} && (payload == [] || payload[0] == 0) ==>
                    exit == 1)
              && (cmd == CMD_SHUTDOWN ==> exit == 0)
              && (cmd == CMD_REPLY || cmd > CMD_SHUTDOWN ==> exit == 1)
  {
    hide Benign, Parse, Frame, Text, ExitFor;
    var sent := up.Send(cmd, payload);
    if sent != 0 {
      return 1, None;
    }
    FrameAlone(cmd, payload);
    reply := HandleConnection(up, down, jobs, errno);
    ghost var came := down.data;
    var r := down.Receive();
    exit := ExitFor(r);
    ExitValues(r);
    ExitValues(Parse(came));
    NothingParses();
    if reply.Some? {
      if |Text(reply.value)| <= MAX_PAYLOAD {
        ReplyParses(came, Text(reply.value));
      }
      ExitTells(reply.value);
      StatusFits(reply.value);
    }
  }

  /** A status is never too long to be sent. */
  lemma StatusFits(r: Reply)
    ensures r.Status? ==> |Text(r)| <= MAX_PAYLOAD
  {
    hide Digits, Decimal;
  }

  /** A job list that is too long to be sent: nothing was wrong, and launchctl
      exits 1. */
  method ListTooLong(count: nat, rows: seq<byte>, act: (uint32, seq<byte>) -> (int32, seq<byte>),
                     up: Channel, down: Channel)
    returns (exit: nat, reply: Option<Reply>)
    requires |rows| > MAX_PAYLOAD
    requires up != down && up.data == [] && down.data == [] && Benign(up.plan) && Benign(down.plan)
    modifies up, down
    ensures exit == 1 && reply == Some(Listing(count, rows)) && ErrorOf(reply.value) == 0
  {
    hide Benign, Digits;
    exit, reply := DoCommand(CMD_LIST, [], up, down, Jobs(act, Listing(count, rows)), 0);
  }

  /** Of what the daemon sent, only the whole reply is taken for a message. */
  lemma ReplyParses(came: seq<byte>, text: seq<byte>)
    requires |text| <= MAX_PAYLOAD
    requires var f := Frame(CMD_REPLY, text);
             came == [] + f || exists k :: 0 <= k < |f| && came == [] + f[..k]
    ensures Parse(came).Message? ==> Parse(came) == Message(CMD_REPLY, text, [])
    ensures came == [] + Frame(CMD_REPLY, text) ==> Parse(came) == Message(CMD_REPLY, text, [])
  {
    hide Parse, Frame;
    FrameAlone(CMD_REPLY, text);
    var f := Frame(CMD_REPLY, text);
    if came != [] + f {
      var k :| 0 <= k < |f| && came == [] + f[..k];
      PrefixIncomplete(CMD_REPLY, text, k);
      assert came == f[..k];
    }
  }

  lemma ExitValues(r: Received)
    ensures ExitFor(r) == 0 || ExitFor(r) == 1
    ensures !r.Message? ==> ExitFor(r) == 1
  {
  }

  lemma NothingParses()
    ensures Parse([]) == NoMore
  {
  }

  lemma FrameAlone(cmd: uint32, payload: seq<byte>)
    requires |payload| <= MAX_PAYLOAD
    ensures Parse([] + Frame(cmd, payload)) == Message(cmd, payload, [])
  {
    FrameRoundTrip(cmd, payload, []);
    assert [] + Frame(cmd, payload) == Frame(cmd, payload) + [];
  }
}
