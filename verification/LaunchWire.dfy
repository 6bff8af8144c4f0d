/** The packed form of a tree, a pure decoder for it, and their round trip. */
module LaunchWire {
  import opened Bytes
  import opened LaunchData
  import opened Wrappers

  ghost predicate Zeros(s: seq<byte>) {
    forall i :: 0 <= i < |s| ==> s[i] == 0
  }

  /** s is a packed form of t.  Words that packing leaves alone (the pointer
      slots, the unused word of a scalar, a mach port's value) are arbitrary. */
  ghost predicate Encodes(s: seq<byte>, t: Data)
    decreases t, 0
  {
    && |s| == Size(t) < U64_LIMIT
    && Word(s, 0) == Tag(t)
    && match t
       case Dictionary(ts) => Word(s, 16) == |ts| && EncodesAll(s[NODE + 8 * |ts|..], ts)
       case Array(ts) => Word(s, 16) == |ts| && EncodesAll(s[NODE + 8 * |ts|..], ts)
       case Fd(fd) => Word(s, 8) == Unsigned(fd)
       case Integer(n) => Word(s, 8) == Unsigned(n)
       case Real(bits) => Word(s, 8) == bits
       case Bool(b) => Word(s, 8) == b
       case String(c) => Word(s, 16) == |c| && s[NODE..NODE + |c|] == c && Zeros(s[NODE + |c|..])
       case Endless => Word(s, 16) == ENDLESS
       case Opaque(c) => Word(s, 16) == |c| && s[NODE..NODE + |c|] == c && Zeros(s[NODE + |c|..])
       case Errno(e) => Word(s, 8) == e
       case MachPort(_) => true
  }

  ghost predicate EncodesAll(s: seq<byte>, ts: seq<Data>)
    decreases ts, 1
  {
    && |s| == SizeAll(ts)
    && (ts != [] ==>
          var init, last := ts[..|ts| - 1], ts[|ts| - 1];
          EncodesAll(s[..SizeAll(init)], init) && Encodes(s[SizeAll(init)..], last))
  }

  /** Outcome of decoding: a value with the bytes and descriptors it used; a
      refusal; or an overrun, where the padding of a string or blob reaches
      past the end of the buffer and the C cursor leaves it. */
  datatype Parse<T> =
    | Parsed(value: T, used: nat, fdsUsed: nat)
    | Rejected
    | Overrun

  /** Decode the node at the start of s, taking descriptors from the front of fds. */
  function Decode(s: seq<byte>, fds: seq<int64>): (r: Parse<Data>)
    ensures r.Parsed? ==> NODE <= r.used <= |s| && r.fdsUsed <= |fds|
    decreases |s|, 0, 0
  {
    if |s| < NODE then Rejected
    else if Word(s, 0) == 1 || Word(s, 0) == 2 then
      AsList(DecodeList(s[NODE..], Word(s, 16), fds), Word(s, 0) == 1)
    else if Word(s, 0) == 7 || Word(s, 0) == 8 then
      DecodeBlob(s[NODE..], Word(s, 16), Word(s, 0) == 7)
    else
      DecodeScalar(Word(s, 0), Word(s, 8), fds)
  }

  /** A string or an opaque blob: count bytes, padded to a whole word. */
  function DecodeBlob(payload: seq<byte>, count: nat, isString: bool): (r: Parse<Data>)
    ensures r.Parsed? ==> NODE <= r.used <= NODE + |payload| && r.fdsUsed == 0
  {
    var extent := if isString then count + 1 else count;
    if isString && count == ENDLESS then Parsed(Endless, NODE, 0)
    else if |payload| < extent then Rejected
    else if |payload| < RoundUp8(extent) then Overrun
    else Parsed(if isString then String(payload[..count]) else Opaque(payload[..count]),
                NODE + RoundUp8(extent), 0)
  }

  function DecodeScalar(tag: uint64, w: uint64, fds: seq<int64>): (r: Parse<Data>)
    ensures r.Parsed? ==> r.used == NODE && r.fdsUsed <= |fds|
    ensures !r.Overrun?
  {
    match tag
    case 3 => if Signed(w) != -1 && |fds| > 0 then Parsed(Fd(fds[0]), NODE, 1)
              else Parsed(Fd(Signed(w)), NODE, 0)
    case 4 => Parsed(Integer(Signed(w)), NODE, 0)
    case 5 => Parsed(Real(w), NODE, 0)
    case 6 => Parsed(Bool(w), NODE, 0)
    case 9 => Parsed(Errno(w), NODE, 0)
    case 10 => Parsed(MachPort(w), NODE, 0)
    case _ => Rejected
  }

  /** The count slots of a list node and the children behind them. */
  function DecodeList(payload: seq<byte>, count: nat, fds: seq<int64>): (r: Parse<seq<Data>>)
    ensures r.Parsed? ==> r.used <= |payload| && r.fdsUsed <= |fds|
    decreases |payload|, 2, 0
  {
    if |payload| < SlotBytes(count) then Rejected
    else
      match DecodeAll(payload[SlotBytes(count)..], count, fds)
      case Parsed(ts, used, k) => Parsed(ts, SlotBytes(count) + used, k)
      case Rejected => Rejected
      case Overrun => Overrun
  }

  /** The first n nodes of s, from left to right. */
  function DecodeAll(s: seq<byte>, n: nat, fds: seq<int64>): (r: Parse<seq<Data>>)
    ensures r.Parsed? ==> r.used <= |s| && r.fdsUsed <= |fds| && |r.value| == n
    decreases |s|, 1, n
  {
    if n == 0 then Parsed([], 0, 0)
    else
      match DecodeAll(s, n - 1, fds)
      case Rejected => Rejected
      case Overrun => Overrun
      case Parsed(ts, used, k) =>
        match Decode(s[used..], fds[k..])
        case Rejected => Rejected
        case Overrun => Overrun
        case Parsed(t, used', k') => Parsed(ts + [t], used + used', k + k')
  }

  function AsList(p: Parse<seq<Data>>, dict: bool): Parse<Data> {
    match p
    case Parsed(ts, used, k) =>
      Parsed(if dict then Dictionary(ts) else Array(ts), NODE + used, k)
    case Rejected => Rejected
    case Overrun => Overrun
  }

  // ---- alignment: no overrun on a buffer of whole words ----

  lemma {:induction false} AlignedDecode(s: seq<byte>, fds: seq<int64>)
    requires |s| % 8 == 0
    ensures !Decode(s, fds).Overrun?
    ensures Decode(s, fds).Parsed? ==> Decode(s, fds).used % 8 == 0
    decreases |s|, 0, 0
  {
    hide Word, DecodeBlob, DecodeList;
    if |s| >= NODE {
      var payload, count: nat := s[NODE..], Word(s, 16);
      assert |payload| % 8 == 0;
      if Word(s, 0) == 1 || Word(s, 0) == 2 {
        AlignedDecodeList(payload, count, fds);
      } else if Word(s, 0) == 7 || Word(s, 0) == 8 {
        AlignedDecodeBlob(payload, count, Word(s, 0) == 7);
      }
    }
  }

  lemma AlignedDecodeBlob(payload: seq<byte>, count: nat, isString: bool)
    requires |payload| % 8 == 0
    ensures !DecodeBlob(payload, count, isString).Overrun?
    ensures DecodeBlob(payload, count, isString).Parsed? ==>
              DecodeBlob(payload, count, isString).used % 8 == 0
  {
    var extent := if isString then count + 1 else count;
    if extent <= |payload| {
      RoundUpFits(extent, |payload|);
    }
  }

  lemma WholeWords(a: nat, b: nat)
    requires b <= a && b % 8 == 0
    ensures (a - b) % 8 == 0 <==> a % 8 == 0
  {
  }

  lemma {:induction false} AlignedDecodeList(payload: seq<byte>, count: nat, fds: seq<int64>)
    requires |payload| % 8 == 0
    ensures !DecodeList(payload, count, fds).Overrun?
    ensures DecodeList(payload, count, fds).Parsed? ==>
              DecodeList(payload, count, fds).used % 8 == 0
    decreases |payload|, 2, 0
  {
    hide SlotBytes, DecodeAll;
    var n := SlotBytes(count);
    if n <= |payload| {
      WholeWords(|payload|, n);
      AlignedDecodeAll(payload[n..], count, fds);
      var d := DecodeAll(payload[n..], count, fds);
      if d.Parsed? {
        WholeWords(n + d.used, n);
      }
    }
  }

  lemma {:induction false} AlignedDecodeAll(s: seq<byte>, n: nat, fds: seq<int64>)
    requires |s| % 8 == 0
    ensures !DecodeAll(s, n, fds).Overrun?
    ensures DecodeAll(s, n, fds).Parsed? ==> DecodeAll(s, n, fds).used % 8 == 0
    decreases |s|, 1, n
  {
    hide Decode;
    if n > 0 {
      AlignedDecodeAll(s, n - 1, fds);
      match DecodeAll(s, n - 1, fds)
      case Parsed(_, used, k) => AlignedDecode(s[used..], fds[k..]);
      case _ =>
    }
  }

  // ---- round trip ----

  /** The three words of the node at off, as words of the rest of the buffer. */
  lemma NodeWords(b: seq<byte>, off: nat)
    requires off + NODE <= |b|
    ensures Word(b[off..], 0) == Word(b, off)
    ensures Word(b[off..], 8) == Word(b, off + 8)
    ensures Word(b[off..], 16) == Word(b, off + 16)
  {
    WordSlice(b, off, |b|, 0);
    WordSlice(b, off, |b|, 8);
    WordSlice(b, off, |b|, 16);
    assert b[off..|b|] == b[off..];
  }

  lemma WordOfPrefix(s: seq<byte>, rest: seq<byte>, off: nat)
    requires off + 8 <= |s|
    ensures Word(s + rest, off) == Word(s, off)
  {
  }

  lemma RoundTripScalar(s: seq<byte>, t: Data, u: Data, rest: seq<byte>, moreFds: seq<int64>)
    requires Encodes(s, t) && Renumbered(t, u) && !IsList(t) && !t.String? && !t.Opaque?
    ensures var r := Decode(s + rest, Fds(u) + moreFds);
            r.Parsed? && Same(u, r.value) && r.used == Size(t) && r.fdsUsed == |Fds(u)|
  {
    WordOfPrefix(s, rest, 0);
    WordOfPrefix(s, rest, 8);
    WordOfPrefix(s, rest, 16);
    hide Word;
  }

  lemma RoundTripBlob(s: seq<byte>, t: Data, rest: seq<byte>, fds: seq<int64>)
    requires Encodes(s, t) && (t.String? || t.Opaque?)
    ensures Decode(s + rest, fds) == Parsed(t, Size(t), 0)
  {
    WordOfPrefix(s, rest, 0);
    WordOfPrefix(s, rest, 16);
    hide Word;
    var c := if t.String? then t.text else t.blob;
    assert (s + rest)[NODE..][..|c|] == s[NODE..NODE + |c|];
  }

  /** What decoding a list node comes to, in terms of its children. */
  lemma DecodeListNode(b: seq<byte>, n: nat, fds: seq<int64>)
    requires |b| >= NODE && (Word(b, 0) == 1 || Word(b, 0) == 2)
    requires Word(b, 16) == n
    ensures Decode(b, fds) ==
            if |b| < NODE + SlotBytes(n) then Rejected else
            match DecodeAll(b[NODE + SlotBytes(n)..], n, fds)
            case Parsed(ts, used, k) =>
              Parsed(if Word(b, 0) == 1 then Dictionary(ts) else Array(ts), NODE + SlotBytes(n) + used, k)
            case Rejected => Rejected
            case Overrun => Overrun
  {
    hide Word, DecodeAll, SlotBytes;
    if NODE + SlotBytes(n) <= |b| {
      assert b[NODE..][SlotBytes(n)..] == b[NODE + SlotBytes(n)..];
    }
  }

  lemma EncodedList(s: seq<byte>, t: Data)
    requires Encodes(s, t) && IsList(t)
    ensures var ts := Children(t);
            && SlotBytes(|ts|) == 8 * |ts|
            && |s| == NODE + 8 * |ts| + SizeAll(ts) == Size(t)
            && Word(s, 0) == Tag(t) && Word(s, 16) == |ts| && EncodesAll(s[NODE + 8 * |ts|..], ts)
  {
    hide Word;
  }

  /** Decoding a packed tree, whatever bytes and descriptors follow it, gives
      the tree back with its descriptors under the numbers they arrived with,
      and uses exactly its own bytes and descriptors. */
  lemma {:induction false} RoundTrip(s: seq<byte>, t: Data, u: Data, rest: seq<byte>, moreFds: seq<int64>)
    requires Encodes(s, t) && Renumbered(t, u)
    ensures var r := Decode(s + rest, Fds(u) + moreFds);
            r.Parsed? && Same(u, r.value) && r.used == Size(t) && r.fdsUsed == |Fds(u)|
    decreases t, 0
  {
    hide Word, Decode, Encodes;
    if IsList(t) {
      EncodedList(s, t);
      var ts, us := Children(t), Children(u);
      var body := s[NODE + 8 * |ts|..];
      RoundTripAll(body, ts, us, rest, moreFds);
      WordOfPrefix(s, rest, 0);
      WordOfPrefix(s, rest, 16);
      assert (s + rest)[NODE + 8 * |ts|..] == body + rest;
      DecodeListNode(s + rest, |ts|, Fds(u) + moreFds);
    } else if t.String? || t.Opaque? {
      RoundTripBlob(s, t, rest, Fds(u) + moreFds);
    } else {
      RoundTripScalar(s, t, u, rest, moreFds);
    }
  }

  lemma {:induction false} RoundTripAll(s: seq<byte>, ts: seq<Data>, us: seq<Data>, rest: seq<byte>,
                                        moreFds: seq<int64>)
    requires EncodesAll(s, ts) && RenumberedAll(ts, us)
    ensures var r := DecodeAll(s + rest, |ts|, FdsAll(us) + moreFds);
            r.Parsed? && SameAll(us, r.value) && r.used == SizeAll(ts) && r.fdsUsed == |FdsAll(us)|
    decreases ts, 1
  {
    hide Decode, Encodes;
    if ts != [] {
      var n := |ts| - 1;
      var init, last := us[..n], us[n];
      var cut := SizeAll(ts[..n]);
      var head, tail := s[..cut], s[cut..];
      assert s + rest == head + (tail + rest);
      assert FdsAll(us) + moreFds == FdsAll(init) + (Fds(last) + moreFds);
      RoundTripAll(head, ts[..n], init, tail + rest, Fds(last) + moreFds);
      assert (s + rest)[cut..] == tail + rest;
      assert (FdsAll(us) + moreFds)[|FdsAll(init)|..] == Fds(last) + moreFds;
      RoundTrip(tail, ts[n], last, rest, moreFds);
    }
  }

  // ---- the words of a node ----

  lemma SmallWord(s: seq<byte>)
    requires |s| >= 8 && Word(s, 0) < 256
    ensures s[0] == Word(s, 0) && forall i :: 1 <= i < 8 ==> s[i] == 0
  {
  }

  /** A packed tree starts with the number of its type, in eight bytes. */
  lemma TypeByte(s: seq<byte>, t: Data)
    requires Encodes(s, t)
    ensures forall i :: 1 <= i < 8 ==> s[i] == 0
    ensures (t.Dictionary? <==> s[0] == 1) && (t.Array? <==> s[0] == 2) && (t.Fd? <==> s[0] == 3)
    ensures (t.Integer? <==> s[0] == 4) && (t.Real? <==> s[0] == 5) && (t.Bool? <==> s[0] == 6)
    ensures (t.String? || t.Endless? <==> s[0] == 7) && (t.Opaque? <==> s[0] == 8)
    ensures (t.Errno? <==> s[0] == 9) && (t.MachPort? <==> s[0] == 10)
  {
    SmallWord(s) by {
      hide Word;
    }
    hide Word;
  }

  /** What a decoded node says is what its words say; no other type is known. */
  lemma DecodedIs(s: seq<byte>, fds: seq<int64>)
    requires Decode(s, fds).Parsed?
    ensures var t, w := Decode(s, fds).value, Word(s, 0);
            && 1 <= w <= 10
            && (w == 1 <==> t.Dictionary?) && (w == 2 <==> t.Array?) && (w == 3 <==> t.Fd?)
            && (w == 4 ==> t == Integer(Signed(Word(s, 8)))) && (w == 5 ==> t == Real(Word(s, 8)))
            && (w == 6 ==> t == Bool(Word(s, 8))) && (w == 7 <==> t.String? || t.Endless?)
            && (w == 8 <==> t.Opaque?) && (w == 9 ==> t == Errno(Word(s, 8))) && (w == 10 <==> t.MachPort?)
            && (t.Dictionary? ==> |t.entries| == Word(s, 16)) && (t.Array? ==> |t.items| == Word(s, 16))
            && (t.Fd? ==> t.fd == if Signed(Word(s, 8)) == -1 || fds == [] then Signed(Word(s, 8)) else fds[0])
  {
    hide Word, Signed;
  }

  // ---- strings and their terminators ----

  /** What a C reader takes the string at the start of b to be, if it ends in b. */
  function UpToNul(b: seq<byte>): Option<seq<byte>> {
    if b == [] then None
    else if b[0] == 0 then Some([])
    else match UpToNul(b[1..])
         case None => None
         case Some(c) => Some([b[0]] + c)
  }

  lemma {:induction false} UpToNulIs(b: seq<byte>, c: seq<byte>)
    ensures UpToNul(b) == Some(c) <==> |c| < |b| && b[..|c|] == c && b[|c|] == 0 && 0 !in c
  {
    if b != [] && b[0] != 0 && c != [] {
      UpToNulIs(b[1..], c[1..]);
      assert c == [c[0]] + c[1..];
      if |c| < |b| {
        assert b[..|c|] == [b[0]] + b[1..][..|c| - 1];
      }
    }
  }

  /** The decoder checks that there is room for a terminator, not that there is
      one: a string that it accepts reads as what it decoded exactly if the
      byte behind it is zero and none of its own is. */
  lemma AcceptedString(s: seq<byte>, fds: seq<int64>)
    requires Decode(s, fds).Parsed? && Decode(s, fds).value.String?
    ensures var c := Decode(s, fds).value.text;
            && NODE + |c| < |s|
            && (UpToNul(s[NODE..]) == Some(c) <==> s[NODE + |c|] == 0 && 0 !in c)
  {
    hide Word;
    var c := Decode(s, fds).value.text;
    UpToNulIs(s[NODE..], c);
  }

  /** An accepted string has room for its length and a terminator exactly if it
      does not claim 2^64 - 1 bytes. */
  lemma AcceptedRoom(s: seq<byte>, fds: seq<int64>)
    requires Decode(s, fds).Parsed? && Word(s, 0) == 7 && |s| < U64_LIMIT
    ensures NODE + Word(s, 16) + 1 <= |s| <==> Word(s, 16) != ENDLESS
    ensures Decode(s, fds).value.String? <==> Word(s, 16) != ENDLESS
  {
    hide Word;
  }

  /** A node that claims 2^64 - 1 bytes and has none is accepted. */
  lemma EndlessAccepted(s: seq<byte>, fds: seq<int64>)
    requires |s| == NODE && Word(s, 0) == 7 && Word(s, 16) == ENDLESS
    ensures Decode(s, fds) == Parsed(Endless, NODE, 0)
  {
    hide Word;
  }

  /** What was packed from a C string reads as that string. */
  lemma PackedString(s: seq<byte>, c: seq<byte>)
    requires Encodes(s, String(c)) && 0 !in c
    ensures UpToNul(s[NODE..]) == Some(c)
  {
    hide Word;
    assert s[NODE + |c|..][0] == s[NODE + |c|];
    UpToNulIs(s[NODE..], c);
  }

  /** An empty string of length 0 that has no terminator in the buffer is accepted. */
  lemma UnterminatedAccepted(s: seq<byte>, fds: seq<int64>)
    requires |s| == 32 && Word(s, 0) == 7 && Word(s, 16) == 0
    requires forall i :: NODE <= i < 32 ==> s[i] != 0
    ensures Decode(s, fds) == Parsed(String([]), 32, 0) && UpToNul(s[NODE..]) == None
  {
    hide Word;
    NoNul(s[NODE..]);
  }

  lemma {:induction false} NoNul(b: seq<byte>)
    requires 0 !in b
    ensures UpToNul(b) == None
  {
    if b != [] {
      NoNul(b[1..]);
    }
  }

  // ---- more bytes, fewer nodes ----

  /** What was decoded does not depend on the bytes behind the buffer. */
  lemma {:induction false} DecodeMore(s: seq<byte>, rest: seq<byte>, fds: seq<int64>)
    requires Decode(s, fds).Parsed?
    ensures Decode(s + rest, fds) == Decode(s, fds)
    decreases |s|, 0, 0
  {
    hide Word, Decode, DecodeAll;
    DecodesNode(s, fds);
    WordOfPrefix(s, rest, 0);
    WordOfPrefix(s, rest, 8);
    WordOfPrefix(s, rest, 16);
    if Word(s, 0) == 1 || Word(s, 0) == 2 {
      var n: nat := Word(s, 16);
      DecodeListNode(s, n, fds);
      DecodeListNode(s + rest, n, fds);
      DecodeAllMore(s[NODE + SlotBytes(n)..], n, rest, fds);
      assert (s + rest)[NODE + SlotBytes(n)..] == s[NODE + SlotBytes(n)..] + rest;
    } else {
      DecodeMoreLeaf(s, rest, fds);
    }
  }

  /** Every node takes its three words. */
  lemma {:induction false} DecodeAllUses(s: seq<byte>, n: nat, fds: seq<int64>)
    requires DecodeAll(s, n, fds).Parsed?
    ensures NODE * n <= DecodeAll(s, n, fds).used
  {
    hide Decode;
    if n > 0 {
      DecodeAllUses(s, n - 1, fds);
    }
  }

  lemma DecodesNode(s: seq<byte>, fds: seq<int64>)
    requires Decode(s, fds).Parsed?
    ensures |s| >= NODE
  {
  }

  lemma DecodeMoreLeaf(s: seq<byte>, rest: seq<byte>, fds: seq<int64>)
    requires |s| >= NODE && Decode(s, fds).Parsed? && Word(s, 0) != 1 && Word(s, 0) != 2
    ensures Decode(s + rest, fds) == Decode(s, fds)
  {
    hide Word;
    WordOfPrefix(s, rest, 0);
    WordOfPrefix(s, rest, 8);
    WordOfPrefix(s, rest, 16);
    var p := s[NODE..];
    assert (s + rest)[NODE..] == p + rest;
    assert forall n :: 0 <= n <= |p| ==> (p + rest)[..n] == p[..n];
  }

  lemma {:induction false} DecodeAllMore(s: seq<byte>, n: nat, rest: seq<byte>, fds: seq<int64>)
    requires DecodeAll(s, n, fds).Parsed?
    ensures DecodeAll(s + rest, n, fds) == DecodeAll(s, n, fds)
    decreases |s|, 1, n
  {
    hide Decode;
    if n > 0 {
      DecodeAllMore(s, n - 1, rest, fds);
      var d := DecodeAll(s, n - 1, fds);
      DecodeMore(s[d.used..], rest, fds[d.fdsUsed..]);
      assert (s + rest)[d.used..] == s[d.used..] + rest;
    }
  }

  /** If the first n nodes decode, then so do the first m of them; a failure of
      the first m is the failure of all n. */
  lemma {:induction false} DecodePrefix(s: seq<byte>, m: nat, n: nat, fds: seq<int64>)
    requires m <= n
    ensures DecodeAll(s, n, fds).Parsed? ==> DecodeAll(s, m, fds).Parsed?
    ensures DecodeAll(s, m, fds).Rejected? ==> DecodeAll(s, n, fds).Rejected?
    ensures DecodeAll(s, m, fds).Overrun? ==> DecodeAll(s, n, fds).Overrun?
    decreases n
  {
    if m < n {
      DecodePrefix(s, m, n - 1, fds);
    }
  }

  /** What the (i+1)st of n nodes adds to the first i. */
  lemma DecodeNext(s: seq<byte>, i: nat, n: nat, fds: seq<int64>)
    requires i < n && DecodeAll(s, i, fds).Parsed?
    ensures var d := DecodeAll(s, i, fds);
            match Decode(s[d.used..], fds[d.fdsUsed..])
            case Parsed(t, used, k) =>
              DecodeAll(s, i + 1, fds) == Parsed(d.value + [t], d.used + used, d.fdsUsed + k)
            case Rejected => DecodeAll(s, n, fds).Rejected?
            case Overrun => DecodeAll(s, n, fds).Overrun?
  {
    hide Decode;
    DecodePrefix(s, i + 1, n, fds);
  }
}
