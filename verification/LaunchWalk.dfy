/** When the decoder's cursor leaves the buffer: a flat walk over the nodes,
    which looks at type and length words only, tells it beforehand. */
module LaunchWalk {
  import opened Bytes
  import opened LaunchData
  import opened LaunchWire

  /** Where the walk ends: behind the last node, at a node that is refused, or
      at a string or blob whose padding reaches past the end of the buffer. */
  datatype Stop = Behind(off: nat) | Refused | Past(off: nat)

  predicate IsBlob(tag: uint64) {
    tag == 7 || tag == 8
  }

  /** The bytes of a string, with its terminator, or of a blob. */
  function Extent(s: seq<byte>, off: nat): nat
    requires off + NODE <= |s|
  {
    var count: nat := Word(s, off + 16);
    if Word(s, off) == 7 then if count == ENDLESS then 0 else count + 1 else count
  }

  /** Walks over the next todo nodes, and over those that they announce. */
  function Walk(s: seq<byte>, off: nat, todo: nat): Stop
    requires off <= |s|
    decreases |s| - off
  {
    if todo == 0 then Behind(off)
    else if |s| - off < NODE then Refused
    else
      var tag := Word(s, off);
      var room := |s| - off - NODE;
      if tag == 1 || tag == 2 then
        var count: nat := Word(s, off + 16);
        if room < SlotBytes(count) then Refused else Walk(s, off + NODE + SlotBytes(count), todo - 1 + count)
      else if IsBlob(tag) then
        if room < Extent(s, off) then Refused
        else if room < RoundUp8(Extent(s, off)) then Past(off)
        else Walk(s, off + NODE + RoundUp8(Extent(s, off)), todo - 1)
      else if tag in {3, 4, 5, 6, 9, 10} then Walk(s, off + NODE, todo - 1)
      else Refused
  }

  /** A string or blob at off fits, but ends in the last, incomplete word. */
  ghost predicate EndsInPartialWord(s: seq<byte>, off: nat) {
    && off + NODE <= |s| && IsBlob(Word(s, off))
    && |s| - |s| % 8 < off + NODE + Extent(s, off) <= |s|
  }

  lemma PaddingPast(s: seq<byte>, off: nat)
    requires off + NODE <= |s| && off % 8 == 0 && Extent(s, off) <= |s| - off - NODE
    ensures |s| - off - NODE < RoundUp8(Extent(s, off)) <==> |s| - |s| % 8 < off + NODE + Extent(s, off)
  {
    hide Word, Extent, RoundUp8;
    Padding(off / 8 + 3, Extent(s, off), |s|);
  }

  lemma Padding(words: nat, e: nat, len: nat)
    requires 8 * words + e <= len
    ensures len - 8 * words < RoundUp8(e) <==> len - len % 8 < 8 * words + e
  {
    var a, r, b := e / 8, e % 8, len / 8;
    assert e == 8 * a + r && len == 8 * b + len % 8;
    assert RoundUp8(e) == if r == 0 then 8 * a else 8 * a + 8;
  }

  /** A walk from a word boundary that leaves the buffer does so at a string or
      blob that ends in the incomplete word at the end. */
  lemma {:induction false} PastIs(s: seq<byte>, off: nat, todo: nat)
    requires off <= |s| && off % 8 == 0 && Walk(s, off, todo).Past?
    ensures EndsInPartialWord(s, Walk(s, off, todo).off)
    decreases |s| - off
  {
    hide Word, RoundUp8, Extent, SlotBytes, EndsInPartialWord;
    var tag := Word(s, off);
    if tag == 1 || tag == 2 {
      var count: nat := Word(s, off + 16);
      StaysAligned(off, SlotBytes(count));
      PastIs(s, off + NODE + SlotBytes(count), todo - 1 + count);
    } else if IsBlob(tag) {
      if RoundUp8(Extent(s, off)) <= |s| - off - NODE {
        StaysAligned(off, RoundUp8(Extent(s, off)));
        PastIs(s, off + NODE + RoundUp8(Extent(s, off)), todo - 1);
      } else {
        PastHere(s, off);
      }
    } else {
      StaysAligned(off, 0);
      PastIs(s, off + NODE, todo - 1);
    }
  }

  lemma StaysAligned(off: nat, n: nat)
    requires off % 8 == 0 && n % 8 == 0
    ensures (off + NODE + n) % 8 == 0
  {
  }

  lemma PastHere(s: seq<byte>, off: nat)
    requires off + NODE <= |s| && off % 8 == 0 && IsBlob(Word(s, off))
    requires Extent(s, off) <= |s| - off - NODE < RoundUp8(Extent(s, off))
    ensures EndsInPartialWord(s, off)
  {
    hide Word, RoundUp8, Extent;
    PaddingPast(s, off);
  }

  // ---- the walk and the decoder ----

  /** What one decoded item is to the walk, when more nodes follow it. */
  ghost predicate InStep<T>(d: Parse<T>, s: seq<byte>, off: nat, now: nat, more: nat)
    requires off <= |s|
    requires d.Parsed? ==> off + d.used <= |s|
  {
    match d
    case Parsed(_, used, _) => Walk(s, off, now + more) == Walk(s, off + used, more)
    case Rejected => Walk(s, off, now + more) == Refused
    case Overrun => Walk(s, off, now + more).Past?
  }

  lemma {:induction false} DecodeInStep(s: seq<byte>, off: nat, fds: seq<int64>, more: nat)
    requires off <= |s|
    ensures InStep(Decode(s[off..], fds), s, off, 1, more)
    decreases |s| - off, 0, 0
  {
    hide Word, Decode, DecodeAll, SlotBytes;
    if |s| - off < NODE {
      TooShort(s[off..], fds);
    } else {
      NodeWords(s, off);
      var tag, n: nat := Word(s, off), Word(s, off + 16);
      if tag == 1 || tag == 2 {
        DecodeListNode(s[off..], n, fds);
        if NODE + SlotBytes(n) <= |s| - off {
          var next := off + NODE + SlotBytes(n);
          assert s[off..][NODE + SlotBytes(n)..] == s[next..];
          DecodeAllInStep(s, next, n, fds, more);
        }
      } else {
        LeafInStep(s, off, fds, more);
      }
    }
  }

  lemma TooShort(s: seq<byte>, fds: seq<int64>)
    requires |s| < NODE
    ensures Decode(s, fds) == Rejected
  {
  }

  lemma LeafInStep(s: seq<byte>, off: nat, fds: seq<int64>, more: nat)
    requires off + NODE <= |s| && Word(s, off) != 1 && Word(s, off) != 2
    ensures InStep(Decode(s[off..], fds), s, off, 1, more)
  {
    hide Word, DecodeAll;
    NodeWords(s, off);
  }

  lemma {:induction false} DecodeAllInStep(s: seq<byte>, off: nat, n: nat, fds: seq<int64>, more: nat)
    requires off <= |s|
    ensures InStep(DecodeAll(s[off..], n, fds), s, off, n, more)
    decreases |s| - off, 1, n
  {
    hide Word, Decode, Walk;
    if n > 0 {
      DecodeAllInStep(s, off, n - 1, fds, more + 1);
      var d := DecodeAll(s[off..], n - 1, fds);
      if d.Parsed? {
        assert s[off..][d.used..] == s[off + d.used..];
        DecodeInStep(s, off + d.used, fds[d.fdsUsed..], more);
      }
    }
  }

  /** The decoder's cursor leaves the buffer exactly if the walk does; and it
      can only do so at a string or blob that ends in an incomplete last word. */
  lemma OverrunIff(s: seq<byte>, fds: seq<int64>)
    ensures Decode(s, fds).Overrun? <==> Walk(s, 0, 1).Past?
    ensures Decode(s, fds).Overrun? ==> EndsInPartialWord(s, Walk(s, 0, 1).off)
    ensures Decode(s, fds).Parsed? <==> Walk(s, 0, 1).Behind?
    ensures Decode(s, fds).Parsed? ==> Walk(s, 0, 1) == Behind(Decode(s, fds).used)
  {
    hide Word, Decode, EndsInPartialWord;
    assert s[0..] == s;
    DecodeInStep(s, 0, fds, 0);
    if Walk(s, 0, 1).Past? {
      PastIs(s, 0, 1);
    }
  }
}
