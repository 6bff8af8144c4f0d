/** Serializing a tree into a caller's buffer (launch_data_pack). */
module LaunchPack {
  import opened Bytes
  import opened LaunchData
  import opened LaunchWire

  lemma {:induction false} SizeOfPrefix(ts: seq<Data>, i: nat)
    requires i <= |ts|
    ensures SizeAll(ts[..i]) <= SizeAll(ts)
    decreases |ts| - i
  {
    if i < |ts| {
      SizeOfPrefix(ts, i + 1);
      assert ts[..i + 1][..i] == ts[..i];
    } else {
      assert ts[..i] == ts;
    }
  }

  /** Appending one packed node at end to the run of nodes that starts at start. */
  lemma EncodesSnoc(before: seq<byte>, after: seq<byte>, start: nat, end: nat, ts: seq<Data>, i: nat)
    requires i < |ts| && start <= end && end + Size(ts[i]) <= |after|
    requires OnlyWithin(before, after, end, end + Size(ts[i]))
    requires EncodesAll(before[start..end], ts[..i])
    requires Encodes(after[end..end + Size(ts[i])], ts[i])
    ensures EncodesAll(after[start..end + Size(ts[i])], ts[..i + 1])
  {
    hide Encodes;
    assert ts[..i + 1][..i] == ts[..i];
    var run := after[start..end + Size(ts[i])];
    assert run[..end - start] == before[start..end];
    assert run[end - start..] == after[end..end + Size(ts[i])];
  }

  /** The descriptors written by an attempt to pack t into len bytes: all of them
      if it fits, otherwise those before the place where it fails. */
  function FdsWritten(t: Data, len: nat): seq<int64>
    decreases t, 0
  {
    if len < NODE then []
    else if IsList(t) then
      if len < NODE + 8 * |Children(t)| then [] else FdsWrittenAll(Children(t), len - NODE - 8 * |Children(t)|)
    else Fds(t)
  }

  function FdsWrittenAll(ts: seq<Data>, len: nat): seq<int64>
    decreases ts, 1
  {
    if ts == [] then []
    else
      var n := |ts| - 1;
      if SizeAll(ts[..n]) <= len then FdsAll(ts[..n]) + FdsWritten(ts[n], len - SizeAll(ts[..n]))
      else FdsWrittenAll(ts[..n], len)
  }

  lemma {:induction false} FdsWrittenIs(t: Data, len: nat)
    ensures FdsWritten(t, len) <= Fds(t)
    ensures Size(t) <= len ==> FdsWritten(t, len) == Fds(t)
    decreases t, 0
  {
    if IsList(t) && NODE + 8 * |Children(t)| <= len {
      FdsWrittenAllIs(Children(t), len - NODE - 8 * |Children(t)|);
    }
  }

  lemma {:induction false} FdsWrittenAllIs(ts: seq<Data>, len: nat)
    ensures FdsWrittenAll(ts, len) <= FdsAll(ts)
    ensures SizeAll(ts) <= len ==> FdsWrittenAll(ts, len) == FdsAll(ts)
    decreases ts, 1
  {
    hide Fds, FdsWritten, Size;
    if ts != [] {
      var n := |ts| - 1;
      if SizeAll(ts[..n]) <= len {
        FdsWrittenIs(ts[n], len - SizeAll(ts[..n]));
      } else {
        FdsWrittenAllIs(ts[..n], len);
      }
    }
  }

  /** What is written up to the first child that does not fit is all that is. */
  lemma {:induction false} FdsWrittenStops(ts: seq<Data>, i: nat, len: nat)
    requires i < |ts| && SizeAll(ts[..i]) <= len < SizeAll(ts[..i + 1])
    ensures FdsWrittenAll(ts, len) == FdsAll(ts[..i]) + FdsWritten(ts[i], len - SizeAll(ts[..i]))
    decreases |ts|
  {
    hide Fds, FdsWritten, Size;
    var n := |ts| - 1;
    if i == n {
      assert ts[..i + 1] == ts;
    } else {
      SizeOfPrefix(ts[..n], i + 1);
      assert ts[..n][..i + 1] == ts[..i + 1] && ts[..n][..i] == ts[..i];
      FdsWrittenStops(ts[..n], i, len);
    }
  }

  /** The descriptors were written one after another from |before| on, and all
      of them inside an array of this size. */
  predicate WroteInside(before: seq<int64>, after: seq<int64>, room: nat) {
    |after| <= room || after == before
  }

  /** Packs t at where, in at most len bytes.  The result is the packed size,
      or 0 if that does not fit.  Descriptors are written to an array behind
      those already there, without regard to its size: inside tells whether the
      array, which has room for so many, was large enough. */
  method Pack(t: Data, buf: array<byte>, where: nat, len: nat, fdsIn: seq<int64>, room: nat)
    returns (n: nat, fds: seq<int64>, inside: bool)
    requires where + len <= buf.Length
    requires len < U64_LIMIT
    modifies buf
    ensures n == if Size(t) <= len then Size(t) else 0
    ensures n != 0 ==> Encodes(buf[where..where + n], t)
    ensures n != 0 ==> fds == fdsIn + Fds(t)
    ensures fds == fdsIn + FdsWritten(t, len) && inside == WroteInside(fdsIn, fds, room)
    ensures OnlyWithin(old(buf[..]), buf[..], where, where + if n == 0 then len else n)
    decreases t, 2
  {
    hide Word;
    fds, inside := fdsIn, true;
    if NODE > len {
      return 0, fds, inside;
    }
    StoreWord(buf, where, Tag(t));
    if IsList(t) {
      n, fds, inside := PackList(t, buf, where, len, fdsIn, room);
    } else if t.String? || t.Opaque? {
      n := PackBlob(t, buf, where, len);
    } else if t.Endless? {
      n := PackEndless(buf, where);
    } else {
      n := PackScalar(t, buf, where);
      if t.Fd? && t.fd != -1 {
        inside := |fds| < room;
        fds := fds + [t.fd];
      }
    }
  }

  /** A string that claims 2^64 - 1 bytes is packed as its node alone. */
  method PackEndless(buf: array<byte>, where: nat) returns (n: nat)
    requires where + NODE <= buf.Length && Word(buf[..], where) == Tag(Endless)
    modifies buf
    ensures n == NODE == Size(Endless) && Encodes(buf[where..where + n], Endless)
    ensures OnlyWithin(old(buf[..]), buf[..], where, where + n)
  {
    hide Word;
    n := NODE;
    StoreWord(buf, where + 16, ENDLESS);
    WordFramed(old(buf[..]), buf[..], where + 16, where + NODE, where);
    WordSlice(buf[..], where, where + n, 0);
    WordSlice(buf[..], where, where + n, 16);
  }

  method PackScalar(t: Data, buf: array<byte>, where: nat) returns (n: nat)
    requires !IsList(t) && !t.String? && !t.Endless? && !t.Opaque?
    requires where + NODE <= buf.Length
    requires Word(buf[..], where) == Tag(t)
    modifies buf
    ensures n == NODE == Size(t)
    ensures Encodes(buf[where..where + n], t)
    ensures OnlyWithin(old(buf[..]), buf[..], where, where + n)
  {
    hide Word;
    n := NODE;
    if !t.MachPort? {
      var w: uint64 := match t
        case Fd(fd) => Unsigned(fd)
        case Integer(k) => Unsigned(k)
        case Real(w) => w
        case Bool(w) => w
        case Errno(w) => w
        case _ => 0;
      StoreWord(buf, where + 8, w);
      WordFramed(old(buf[..]), buf[..], where + 8, where + 16, where);
    }
    WordSlice(buf[..], where, where + n, 0);
    WordSlice(buf[..], where, where + n, 8);
  }

  function Content(t: Data): seq<byte>
    requires t.String? || t.Opaque?
  {
    if t.String? then t.text else t.blob
  }

  /** The content, a terminator for a string, and zeros up to a whole word. */
  function Padded(t: Data): (p: seq<byte>)
    requires t.String? || t.Opaque?
    ensures |p| == Size(t) - NODE
    ensures Content(t) <= p && Zeros(p[|Content(t)|..])
  {
    var c := Content(t);
    var pad := seq(Size(t) - NODE - |c|, i => 0);
    assert (c + pad)[|c|..] == pad;
    c + pad
  }

  /** The payload of a string (with its terminator) or of a blob, zero padded. */
  method PackBlob(t: Data, buf: array<byte>, where: nat, len: nat) returns (n: nat)
    requires t.String? || t.Opaque?
    requires NODE <= len && where + len <= buf.Length && len < U64_LIMIT
    requires Word(buf[..], where) == Tag(t)
    modifies buf
    ensures n == if Size(t) <= len then Size(t) else 0
    ensures n != 0 ==> Encodes(buf[where..where + n], t)
    ensures OnlyWithin(old(buf[..]), buf[..], where, where + if n == 0 then len else n)
  {
    hide Word, Encodes, Padded, Zeros;
    var payload := Padded(t);
    n := NODE + |payload|;
    if n > len {
      return 0;
    }
    StoreWord(buf, where + 16, |Content(t)|);
    WordFramed(old(buf[..]), buf[..], where + 16, where + NODE, where);
    ghost var counted := buf[..];
    Store(buf, where + NODE, payload);
    WordFramed(counted, buf[..], where + NODE, where + n, where);
    WordFramed(counted, buf[..], where + NODE, where + n, where + 16);
    assert buf[..][where + NODE..where + n] == payload;
    BlobEncoded(buf[..], where, t, payload);
  }

  lemma BlobEncoded(b: seq<byte>, where: nat, t: Data, padded: seq<byte>)
    requires (t.String? || t.Opaque?) && where + Size(t) <= |b| && Size(t) < U64_LIMIT
    requires Word(b, where) == Tag(t) && Word(b, where + 16) == |Content(t)|
    requires Content(t) <= padded && Zeros(padded[|Content(t)|..])
    requires b[where + NODE..where + Size(t)] == padded
    ensures Encodes(b[where..where + Size(t)], t)
  {
    hide Word;
    WordSlice(b, where, where + Size(t), 0);
    WordSlice(b, where, where + Size(t), 16);
    var c := Content(t);
    var node := b[where..where + Size(t)];
    assert node[NODE..] == padded;
    assert node[NODE..NODE + |c|] == padded[..|c|];
    assert node[NODE + |c|..] == padded[|c|..];
  }

  /** A list node: the count, a slot a child that is left as it was, and the
      children one after another. */
  method PackList(t: Data, buf: array<byte>, where: nat, len: nat, fdsIn: seq<int64>, room: nat)
    returns (n: nat, fds: seq<int64>, inside: bool)
    requires IsList(t)
    requires NODE <= len && where + len <= buf.Length && len < U64_LIMIT
    requires Word(buf[..], where) == Tag(t)
    modifies buf
    ensures n == if Size(t) <= len then Size(t) else 0
    ensures n != 0 ==> Encodes(buf[where..where + n], t)
    ensures n != 0 ==> fds == fdsIn + Fds(t)
    ensures fds == fdsIn + FdsWritten(t, len) && inside == WroteInside(fdsIn, fds, room)
    ensures OnlyWithin(old(buf[..]), buf[..], where, where + if n == 0 then len else n)
    decreases t, 1
  {
    hide Word, EncodesAll;
    var ts := Children(t);
    var slots := NODE + 8 * |ts|;
    fds, inside := fdsIn, true;
    if slots > len {
      return 0, fds, inside;
    }
    StoreWord(buf, where + 16, |ts|);
    WordFramed(old(buf[..]), buf[..], where + 16, where + NODE, where);
    ghost var before := buf[..];
    var ok, used;
    ok, used, fds, inside := PackChildren(t, buf, where + slots, len - slots, fds, room);
    if !ok {
      return 0, fds, inside;
    }
    n := slots + used;
    WordFramed(before, buf[..], where + slots, where + n, where);
    WordFramed(before, buf[..], where + slots, where + n, where + 16);
    ListEncoded(buf[..], where, t);
  }

  /** The loop over the children, each packed where the one before it ended. */
  method PackChildren(t: Data, buf: array<byte>, start: nat, len: nat, fdsIn: seq<int64>, room: nat)
    returns (ok: bool, n: nat, fds: seq<int64>, inside: bool)
    requires IsList(t)
    requires start + len <= buf.Length && len < U64_LIMIT
    modifies buf
    ensures ok == (SizeAll(Children(t)) <= len)
    ensures ok ==> n == SizeAll(Children(t)) && EncodesAll(buf[start..start + n], Children(t))
    ensures ok ==> fds == fdsIn + FdsAll(Children(t))
    ensures fds == fdsIn + FdsWrittenAll(Children(t), len) && inside == WroteInside(fdsIn, fds, room)
    ensures OnlyWithin(old(buf[..]), buf[..], start, start + if ok then n else len)
    decreases t, 0
  {
    hide Encodes, EncodesAll, Size, SizeAll, Fds, FdsAll, FdsWritten, FdsWrittenAll, OnlyWithin;
    var ts := Children(t);
    WithinNothing(buf[..], start);
    n, fds, inside := 0, fdsIn, true;
    assert buf[start..start + n] == [] && ts[..0] == [];
    EncodesNone();
    assert fdsIn + [] == fdsIn;
    var i := 0;
    while i < |ts|
      invariant 0 <= i <= |ts|
      invariant n == SizeAll(ts[..i]) <= len
      invariant EncodesAll(buf[start..start + n], ts[..i])
      invariant fds == fdsIn + FdsAll(ts[..i]) && inside == WroteInside(fdsIn, fds, room)
      invariant OnlyWithin(old(buf[..]), buf[..], start, start + n)
    {
      NextChild(ts, i);
      ghost var before, fdsBefore := buf[..], fds;
      var rsz, fits;
      rsz, fds, fits := Pack(ts[i], buf, start + n, len - n, fds, room);
      inside := inside && fits;
      FdsWrittenIs(ts[i], len - n);
      FdsGrow(fdsIn, fdsBefore, fds, ts, i, len);
      if rsz == 0 {
        WithinBoth(old(buf[..]), before, buf[..], start, start + n, start + len);
        return false, n, fds, inside;
      }
      WithinBoth(old(buf[..]), before, buf[..], start, start + n, start + n + rsz);
      EncodesSnoc(before, buf[..], start, start + n, ts, i);
      n := n + rsz;
      i := i + 1;
    }
    assert ts[..i] == ts;
    FdsWrittenAllIs(ts, len);
    ok := true;
  }

  /** The descriptors after one more child. */
  lemma FdsGrow(fdsIn: seq<int64>, before: seq<int64>, after: seq<int64>, ts: seq<Data>, i: nat, len: nat)
    requires i < |ts| && before == fdsIn + FdsAll(ts[..i]) && SizeAll(ts[..i]) <= len
    requires after == before + FdsWritten(ts[i], len - SizeAll(ts[..i]))
    ensures Size(ts[i]) <= len - SizeAll(ts[..i]) ==> after == fdsIn + FdsAll(ts[..i + 1])
    ensures Size(ts[i]) > len - SizeAll(ts[..i]) ==> after == fdsIn + FdsWrittenAll(ts, len)
  {
    hide Fds, FdsAll, FdsWritten, FdsWrittenAll, Size, SizeAll;
    NextChild(ts, i);
    FdsWrittenIs(ts[i], len - SizeAll(ts[..i]));
    if Size(ts[i]) > len - SizeAll(ts[..i]) {
      FdsWrittenStops(ts, i, len);
    }
  }

  /** What one more child adds. */
  lemma NextChild(ts: seq<Data>, i: nat)
    requires i < |ts|
    ensures SizeAll(ts[..i + 1]) == SizeAll(ts[..i]) + Size(ts[i]) <= SizeAll(ts)
    ensures FdsAll(ts[..i + 1]) == FdsAll(ts[..i]) + Fds(ts[i])
  {
    SizeOfPrefix(ts, i + 1);
    assert ts[..i + 1][..i] == ts[..i];
  }

  lemma EncodesNone()
    ensures EncodesAll([], []) && SizeAll([]) == 0 && FdsAll([]) == []
  {
  }

  lemma ListEncoded(b: seq<byte>, where: nat, t: Data)
    requires IsList(t) && where + Size(t) <= |b| && Size(t) < U64_LIMIT
    requires Word(b, where) == Tag(t) && Word(b, where + 16) == |Children(t)|
    requires EncodesAll(b[where + NODE + 8 * |Children(t)|..where + Size(t)], Children(t))
    ensures Encodes(b[where..where + Size(t)], t)
  {
    hide Word;
    WordSlice(b, where, where + Size(t), 0);
    WordSlice(b, where, where + Size(t), 16);
    var ts := Children(t);
    assert b[where..where + Size(t)][NODE + 8 * |ts|..] == b[where + NODE + 8 * |ts|..where + Size(t)];
  }
}
