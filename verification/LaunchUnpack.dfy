/** The in-place decoder (launch_data_unpack): it turns the receive buffer
    itself into a linked tree, and a reader that follows the links. */
module LaunchUnpack {
  import opened Bytes
  import opened LaunchData
  import opened LaunchWire

  /** The bytes [lo, hi) of b hold a decoded tree: a node at lo whose pointers
      are addresses in a buffer that starts at address base. */
  ghost predicate Represents(b: seq<byte>, base: nat, lo: nat, hi: nat, t: Data)
    decreases t, 0
  {
    && lo + NODE <= hi <= |b|
    && Word(b, lo) == Tag(t)
    && match t
       case Dictionary(ts) => RepresentsList(b, base, lo, hi, ts)
       case Array(ts) => RepresentsList(b, base, lo, hi, ts)
       case Fd(fd) => Word(b, lo + 8) == Unsigned(fd)
       case Integer(n) => Word(b, lo + 8) == Unsigned(n)
       case Real(w) => Word(b, lo + 8) == w
       case Bool(w) => Word(b, lo + 8) == w
       case String(c) => RepresentsBlob(b, base, lo, hi, c) && |c| != ENDLESS
       case Endless => Word(b, lo + 8) == base + lo + NODE && Word(b, lo + 16) == ENDLESS
       case Opaque(c) => RepresentsBlob(b, base, lo, hi, c)
       case Errno(w) => Word(b, lo + 8) == w
       case MachPort(w) => Word(b, lo + 8) == w
  }

  ghost predicate RepresentsBlob(b: seq<byte>, base: nat, lo: nat, hi: nat, c: seq<byte>)
    requires lo + NODE <= hi <= |b|
  {
    && Word(b, lo + 8) == base + lo + NODE
    && Word(b, lo + 16) == |c|
    && lo + NODE + |c| <= hi
    && b[lo + NODE..lo + NODE + |c|] == c
  }

  ghost predicate RepresentsList(b: seq<byte>, base: nat, lo: nat, hi: nat, ts: seq<Data>)
    requires lo + NODE <= hi <= |b|
    decreases ts, 2
  {
    && Word(b, lo + 8) == base + lo + NODE
    && Word(b, lo + 16) == |ts|
    && lo + NODE + 8 * |ts| <= hi
    && RepresentsAll(b, base, lo + NODE, lo + NODE + 8 * |ts|, hi, ts)
  }

  /** Slot i, the word at slots + 8 * i, points to child i; the children lie
      one after another in [lo, hi). */
  ghost predicate RepresentsAll(b: seq<byte>, base: nat, slots: nat, lo: nat, hi: nat, ts: seq<Data>)
    decreases ts, 1
  {
    && slots + 8 * |ts| <= lo <= hi <= |b|
    && if ts == [] then lo == hi else
       var k := |ts| - 1;
       var p := Word(b, slots + 8 * k);
       && base + lo <= p <= base + hi
       && RepresentsAll(b, base, slots, lo, p - base, ts[..k])
       && Represents(b, base, p - base, hi, ts[k])
  }

  ghost predicate Agree(b: seq<byte>, c: seq<byte>, lo: nat, hi: nat) {
    |b| == |c| && forall j :: 0 <= j < |b| && lo <= j < hi ==> b[j] == c[j]
  }

  lemma WordAgree(b: seq<byte>, c: seq<byte>, lo: nat, hi: nat, off: nat)
    requires Agree(b, c, lo, hi) && lo <= off && off + 8 <= hi && off + 8 <= |b|
    ensures Word(b, off) == Word(c, off)
  {
  }

  /** A tree is unaffected by changes outside its own bytes. */
  lemma {:induction false} Frame(b: seq<byte>, c: seq<byte>, base: nat, lo: nat, hi: nat, t: Data)
    requires Represents(b, base, lo, hi, t) && Agree(b, c, lo, hi)
    ensures Represents(c, base, lo, hi, t)
    decreases t, 0
  {
    hide Word;
    WordAgree(b, c, lo, hi, lo);
    WordAgree(b, c, lo, hi, lo + 8);
    WordAgree(b, c, lo, hi, lo + 16);
    if IsList(t) {
      FrameAll(b, c, base, lo + NODE, lo + NODE + 8 * |Children(t)|, hi, Children(t));
    } else if t.String? || t.Opaque? {
      var s := if t.String? then t.text else t.blob;
      assert c[lo + NODE..lo + NODE + |s|] == b[lo + NODE..lo + NODE + |s|];
    }
  }

  lemma {:induction false} FrameAll(b: seq<byte>, c: seq<byte>, base: nat, slots: nat, lo: nat, hi: nat, ts: seq<Data>)
    requires RepresentsAll(b, base, slots, lo, hi, ts)
    requires Agree(b, c, slots, slots + 8 * |ts|) && Agree(b, c, lo, hi)
    ensures RepresentsAll(c, base, slots, lo, hi, ts)
    decreases ts, 1
  {
    hide Word, Represents;
    if ts != [] {
      var k := |ts| - 1;
      WordAgree(b, c, slots, slots + 8 * |ts|, slots + 8 * k);
      var p := Word(b, slots + 8 * k);
      FrameAll(b, c, base, slots, lo, p - base, ts[..k]);
      Frame(b, c, base, p - base, hi, ts[k]);
    }
  }

  /** A linked tree; a refusal; or the cursor has left the buffer, after which
      the original reads what is not its own. */
  datatype Outcome = Linked | Null | Left

  /** Decodes the node at off in place.  On success the tree is linked up in
      [off, end), and in every case nothing outside [off, end) has changed: the
      bytes still to be read are intact. */
  method Unpack(buf: array<byte>, base: nat, off: nat, fds: seq<int64>, fdOff: nat)
    returns (r: Outcome, end: nat, fdEnd: nat)
    requires 0 < base && base + buf.Length < U64_LIMIT
    requires off <= buf.Length && fdOff <= |fds|
    modifies buf
    ensures off <= end
    ensures OnlyWithin(old(buf[..]), buf[..], off, end)
    ensures Agrees(Decode(old(buf[off..]), fds[fdOff..]), buf[..], base, off, fdOff, r, end, fdEnd)
    decreases buf.Length - off, 2
  {
    hide Word;
    r, end, fdEnd := Null, off, fdOff;
    if buf.Length - off < NODE {
      return;
    }
    end := off + NODE;
    var tag := LoadWord(buf, off);
    if tag == 1 || tag == 2 {
      r, end, fdEnd := UnpackList(buf, base, off, fds, fdOff);
    } else if tag == 7 || tag == 8 {
      r, end := UnpackBlob(buf, base, off, fds[fdOff..]);
    } else {
      r, fdEnd := UnpackScalar(buf, base, off, fds, fdOff);
    }
  }

  /** The outcome of an in-place decoding against that of the pure decoder. */
  ghost predicate Agrees(d: Parse<Data>, b: seq<byte>, base: nat, off: nat, fdOff: nat,
                         r: Outcome, end: nat, fdEnd: nat)
  {
    match d
    case Parsed(t, used, k) =>
      r == Linked && end == off + used && fdEnd == fdOff + k && Represents(b, base, off, end, t)
    case Rejected => r == Null && end <= |b|
    case Overrun => r == Left && end > |b|
  }

  ghost predicate AgreesAll(d: Parse<seq<Data>>, b: seq<byte>, base: nat, slots: nat, first: nat, fdOff: nat,
                            r: Outcome, end: nat, fdEnd: nat)
  {
    match d
    case Parsed(ts, used, k) =>
      r == Linked && end == first + used && fdEnd == fdOff + k && RepresentsAll(b, base, slots, first, end, ts)
    case Rejected => r == Null && end <= |b|
    case Overrun => r == Left && end > |b|
  }

  method UnpackScalar(buf: array<byte>, base: nat, off: nat, fds: seq<int64>, fdOff: nat)
    returns (r: Outcome, fdEnd: nat)
    requires off + NODE <= buf.Length && fdOff <= |fds|
    requires Word(buf[..], off) !in {1, 2, 7, 8}
    modifies buf
    ensures OnlyWithin(old(buf[..]), buf[..], off, off + NODE)
    ensures Agrees(Decode(old(buf[off..]), fds[fdOff..]), buf[..], base, off, fdOff, r, off + NODE, fdEnd)
  {
    hide Word;
    var tag := LoadWord(buf, off);
    var w := LoadWord(buf, off + 8);
    NodeWords(buf[..], off);
    fdEnd := fdOff;
    r := if tag in {3, 4, 5, 6, 9, 10} then Linked else Null;
    if tag == 3 && Signed(w) != -1 && fdOff < |fds| {
      StoreWord(buf, off + 8, Unsigned(fds[fdOff]));
      WordFramed(old(buf[..]), buf[..], off + 8, off + 16, off);
      fdEnd := fdOff + 1;
    }
  }

  method UnpackBlob(buf: array<byte>, base: nat, off: nat, ghost fds: seq<int64>)
    returns (r: Outcome, end: nat)
    requires base + buf.Length < U64_LIMIT
    requires off + NODE <= buf.Length
    requires Word(buf[..], off) in {7, 8}
    modifies buf
    ensures off <= end
    ensures OnlyWithin(old(buf[..]), buf[..], off, end)
    ensures Agrees(Decode(old(buf[off..]), fds), buf[..], base, off, 0, r, end, 0)
  {
    hide Word;
    var tag := LoadWord(buf, off);
    var count: nat := LoadWord(buf, off + 16);
    NodeWords(buf[..], off);
    ghost var rest := buf[off..];
    var extent := if tag == 7 then if count == ENDLESS then 0 else count + 1 else count;
    r, end := Null, off + NODE;
    if buf.Length - end < extent {
      return;
    }
    StoreWord(buf, off + 8, base + end);
    WordFramed(old(buf[..]), buf[..], off + 8, off + 16, off);
    WordFramed(old(buf[..]), buf[..], off + 8, off + 16, off + 16);
    assert extent > 0 ==> rest[NODE..][..count] == buf[..][off + NODE..off + NODE + count];
    end := end + RoundUp8(extent);
    r := if end <= buf.Length then Linked else Left;
  }

  /** A list node: its slots are overwritten with pointers to the children,
      each decoded where the one before it ended. */
  method UnpackList(buf: array<byte>, base: nat, off: nat, fds: seq<int64>, fdOff: nat)
    returns (r: Outcome, end: nat, fdEnd: nat)
    requires 0 < base && base + buf.Length < U64_LIMIT
    requires off + NODE <= buf.Length && fdOff <= |fds|
    requires Word(buf[..], off) in {1, 2}
    modifies buf
    ensures off <= end
    ensures OnlyWithin(old(buf[..]), buf[..], off, end)
    ensures Agrees(Decode(old(buf[off..]), fds[fdOff..]), buf[..], base, off, fdOff, r, end, fdEnd)
    decreases buf.Length - off, 1
  {
    hide Word, Decode, DecodeAll, RepresentsAll, SlotBytes;
    var count: nat := LoadWord(buf, off + 16);
    NodeWords(buf[..], off);
    ghost var d := Decode(buf[off..], fds[fdOff..]);
    DecodeListNode(buf[off..], count, fds[fdOff..]);
    r, end, fdEnd := Null, off + NODE, fdOff;
    if buf.Length - end < SlotBytes(count) {
      return;
    }
    var first := end + SlotBytes(count);
    assert buf[off..][NODE + SlotBytes(count)..] == buf[first..];
    StoreWord(buf, off + 8, base + end);
    WordFramed(old(buf[..]), buf[..], off + 8, off + 16, off);
    WordFramed(old(buf[..]), buf[..], off + 8, off + 16, off + 16);
    ghost var before := buf[..];
    assert buf[first..] == old(buf[first..]);
    r, end, fdEnd := UnpackChildren(buf, base, off + NODE, first, count, fds, fdOff);
    WordFramed(before, buf[..], off + NODE, end, off);
    WordFramed(before, buf[..], off + NODE, end, off + 8);
    WordFramed(before, buf[..], off + NODE, end, off + 16);
    if r == Linked {
      assert RepresentsList(buf[..], base, off, end, Children(d.value));
    }
  }

  /** The loop over the children. Where the bytes of the slots wrapped, slots
      run into the children already decoded, but never past the cursor, and
      the buffer ends before the loop does. */
  method UnpackChildren(buf: array<byte>, base: nat, slots: nat, first: nat, count: nat,
                        fds: seq<int64>, fdOff: nat)
    returns (r: Outcome, end: nat, fdEnd: nat)
    requires 0 < base && base + buf.Length < U64_LIMIT
    requires slots + SlotBytes(count) == first <= buf.Length && fdOff <= |fds|
    modifies buf
    ensures first <= end
    ensures OnlyWithin(old(buf[..]), buf[..], slots, end)
    ensures AgreesAll(DecodeAll(old(buf[first..]), count, fds[fdOff..]), buf[..], base, slots, first, fdOff,
                      r, end, fdEnd)
    ensures r == Linked ==> SlotBytes(count) == 8 * count
    decreases buf.Length - first, 3
  {
    hide Word, Decode, DecodeAll, RepresentsAll, SlotBytes;
    ghost var rest, mine := buf[first..], fds[fdOff..];
    ghost var exact := SlotBytes(count) == 8 * count;
    end, fdEnd := first, fdOff;
    NothingDecoded(buf[..], base, slots, first, mine);
    var i := 0;
    while i < count
      invariant 0 <= i <= count
      invariant first <= end <= buf.Length && fdOff <= fdEnd <= |fds|
      invariant OnlyWithin(old(buf[..]), buf[..], slots, end)
      invariant var d := DecodeAll(rest, i, mine);
                && d.Parsed?
                && end == first + d.used && fdEnd == fdOff + d.fdsUsed
                && (exact ==> RepresentsAll(buf[..], base, slots, first, end, d.value))
    {
      ghost var sofar := DecodeAll(rest, i, mine);
      DecodeNext(rest, i, count, mine);
      assert buf[end..] == rest[sofar.used..];
      assert fds[fdEnd..] == mine[sofar.fdsUsed..];
      ghost var before := buf[..];
      var child, next, fdNext;
      child, next, fdNext := Unpack(buf, base, end, fds, fdEnd);
      if child != Linked {
        return child, next, fdEnd;
      }
      ghost var linked := buf[..];
      DecodeAllUses(rest, i + 1, mine);
      StoreWord(buf, slots + 8 * i, base + end);
      ghost var t := Decode(rest[sofar.used..], mine[sofar.fdsUsed..]).value;
      if exact {
        RepresentsSnoc(before, linked, buf[..], base, slots, first, end, next, sofar.value, t);
      }
      end, fdEnd, i := next, fdNext, i + 1;
    }
    DecodeAllUses(rest, count, mine);
    r := Linked;
  }

  lemma NothingDecoded(b: seq<byte>, base: nat, slots: nat, first: nat, fds: seq<int64>)
    requires slots <= first <= |b|
    ensures DecodeAll(b[first..], 0, fds) == Parsed([], 0, 0)
    ensures RepresentsAll(b, base, slots, first, first, [])
  {
  }

  /** One more child linked: its bytes are decoded, then its slot is written. */
  lemma RepresentsSnoc(before: seq<byte>, linked: seq<byte>, after: seq<byte>, base: nat,
                       slots: nat, first: nat, mid: nat, next: nat, ts: seq<Data>, t: Data)
    requires RepresentsAll(before, base, slots, first, mid, ts)
    requires slots + 8 * |ts| + 8 <= first
    requires OnlyWithin(before, linked, mid, next) && mid <= next <= |linked|
    requires Represents(linked, base, mid, next, t)
    requires OnlyWithin(linked, after, slots + 8 * |ts|, slots + 8 * |ts| + 8)
    requires Word(after, slots + 8 * |ts|) == base + mid
    ensures RepresentsAll(after, base, slots, first, next, ts + [t])
  {
    hide Word, Represents;
    FrameAll(before, after, base, slots, first, mid, ts);
    Frame(linked, after, base, mid, next, t);
    assert (ts + [t])[..|ts|] == ts;
  }

  /** Where child i of a linked list lies. */
  lemma {:induction false} ChildAt(b: seq<byte>, base: nat, slots: nat, lo: nat, hi: nat, ts: seq<Data>, i: nat)
    returns (end: nat)
    requires RepresentsAll(b, base, slots, lo, hi, ts) && i < |ts|
    ensures slots + 8 * i + 8 <= |b|
    ensures var p := Word(b, slots + 8 * i);
            base + lo <= p && end <= hi && Represents(b, base, p - base, end, ts[i])
    decreases |ts|
  {
    hide Word, Represents;
    var k := |ts| - 1;
    var p := Word(b, slots + 8 * k);
    if i == k {
      end := hi;
    } else {
      end := ChildAt(b, base, slots, lo, p - base, ts[..k], i);
    }
  }

  /** Reads a linked tree by following its pointers, as the accessors and
      launch_data_copy do. */
  method Read(buf: array<byte>, base: nat, node: nat, ghost end: nat, ghost t: Data) returns (r: Data)
    requires Represents(buf[..], base, node, end, t)
    ensures r == t
    decreases t, 1
  {
    hide Word;
    var tag := LoadWord(buf, node);
    var w := LoadWord(buf, node + 8);
    var count: nat := LoadWord(buf, node + 16);
    match tag
    case 3 => r := Fd(Signed(w));
    case 4 => r := Integer(Signed(w));
    case 5 => r := Real(w);
    case 6 => r := Bool(w);
    case 7 =>
      r := if count == ENDLESS then Endless else String(buf[w - base..w - base + count]);
    case 8 => r := Opaque(buf[w - base..w - base + count]);
    case 9 => r := Errno(w);
    case 10 => r := MachPort(w);
    case _ =>
      var ts := ReadChildren(buf, base, node, end, t, w - base, count);
      r := if tag == 1 then Dictionary(ts) else Array(ts);
  }

  method ReadChildren(buf: array<byte>, base: nat, node: nat, ghost end: nat, ghost t: Data, slots: nat, count: nat)
    returns (ts: seq<Data>)
    requires IsList(t) && Represents(buf[..], base, node, end, t)
    requires slots == node + NODE && count == |Children(t)|
    ensures ts == Children(t)
    decreases t, 0
  {
    hide Word;
    ts := [];
    while |ts| < count
      invariant |ts| <= count && ts == Children(t)[..|ts|]
    {
      ghost var childEnd := ChildAt(buf[..], base, slots, slots + 8 * count, end, Children(t), |ts|);
      var p := LoadWord(buf, slots + 8 * |ts|);
      var child := Read(buf, base, p - base, childEnd, Children(t)[|ts|]);
      ts := ts + [child];
    }
    assert Children(t)[..count] == Children(t);
  }
}
