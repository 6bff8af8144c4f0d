/** The serializer and the in-place decoder, one after the other on one buffer. */
module LaunchRoundTrip {
  import opened Bytes
  import opened LaunchData
  import opened LaunchWire
  import LaunchPack
  import LaunchUnpack

  /** A tree that fits is packed, decoded in place and read back by following the
      links: the same tree, apart from the values of mach ports. */
  method PackThenUnpack(t: Data, buf: array<byte>, base: nat, room: nat) returns (ok: bool, u: Data)
    requires 0 < base && base + buf.Length < U64_LIMIT
    modifies buf
    ensures ok <==> Size(t) <= buf.Length
    ensures ok ==> Same(t, u)
    ensures ok && !HasMachPort(t) ==> u == t
  {
    hide Encodes, Decode, Same, Renumbered, HasMachPort, LaunchUnpack.Represents, OnlyWithin;
    var n, fds, inside := LaunchPack.Pack(t, buf, 0, buf.Length, [], room);
    ok, u := n != 0, Endless;
    if ok {
      RenumberedSelf(t);
      assert fds == Fds(t) + [] && fds[0..] == fds && buf[0..] == buf[0..n] + buf[n..];
      RoundTrip(buf[0..n], t, t, buf[n..], []);
      ghost var d := Decode(buf[0..], fds);
      var r, end, fdEnd := LaunchUnpack.Unpack(buf, base, 0, fds, 0);
      u := LaunchUnpack.Read(buf, base, 0, end, d.value);
      if !HasMachPort(t) {
        SameIsEqual(t, u);
      }
    }
  }
}
