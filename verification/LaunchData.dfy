/** The liblaunch value tree and what its serialized form occupies. */
module LaunchData {
  import opened Bytes

  /** Endless is a string that claims 2^64 - 1 bytes: with its terminator that
      is 2^64, so to the code it takes no bytes at all. */
  datatype Data =
    | Dictionary(entries: seq<Data>)
    | Array(items: seq<Data>)
    | Fd(fd: int64)
    | Integer(number: int64)
    | Real(bits: uint64)
    | Bool(boolean: uint64)
    | String(text: seq<byte>)
    | Endless
    | Opaque(blob: seq<byte>)
    | Errno(err: uint64)
    | MachPort(port: uint64)

  /** The type word; the values of launch_data_type_t. */
  function Tag(t: Data): uint64 {
    match t
    case Dictionary(_) => 1
    case Array(_) => 2
    case Fd(_) => 3
    case Integer(_) => 4
    case Real(_) => 5
    case Bool(_) => 6
    case String(_) => 7
    case Endless => 7
    case Opaque(_) => 8
    case Errno(_) => 9
    case MachPort(_) => 10
  }

  predicate IsList(t: Data) {
    t.Dictionary? || t.Array?
  }

  function Children(t: Data): (ts: seq<Data>)
    requires IsList(t)
    ensures forall i :: 0 <= i < |ts| ==> ts[i] < t
  {
    if t.Dictionary? then t.entries else t.items
  }

  const NODE: nat := 24

  /** The length word of an endless string. */
  const ENDLESS: uint64 := 0xFFFF_FFFF_FFFF_FFFF

  /** The bytes of so many slots, as the code computes them: 8 * count in 64 bits. */
  function SlotBytes(count: nat): (n: nat)
    ensures n % 8 == 0 && n <= 8 * count
    ensures 8 * count < U64_LIMIT ==> n == 8 * count
  {
    8 * (count % 0x2000_0000_0000_0000)
  }

  /** Bytes taken by a packed tree: three words a node, then its payload. */
  function Size(t: Data): (n: nat)
    ensures n >= NODE
    decreases t, 0
  {
    match t
    case Dictionary(ts) => NODE + 8 * |ts| + SizeAll(ts)
    case Array(ts) => NODE + 8 * |ts| + SizeAll(ts)
    case String(s) => NODE + RoundUp8(|s| + 1)
    case Opaque(s) => NODE + RoundUp8(|s|)
    case _ => NODE
  }

  function SizeAll(ts: seq<Data>): nat
    decreases ts, 1
  {
    if ts == [] then 0 else
    SizeAll(ts[..|ts| - 1]) + Size(ts[|ts| - 1])
  }

  /** The descriptors of a tree in preorder, leaving out -1. */
  function Fds(t: Data): seq<int64>
    decreases t, 0
  {
    match t
    case Dictionary(ts) => FdsAll(ts)
    case Array(ts) => FdsAll(ts)
    case Fd(fd) => if fd != -1 then [fd] else []
    case _ => []
  }

  function FdsAll(ts: seq<Data>): seq<int64>
    decreases ts, 1
  {
    if ts == [] then [] else
    FdsAll(ts[..|ts| - 1]) + Fds(ts[|ts| - 1])
  }

  /** Equality of trees apart from the values of mach ports, which are not carried. */
  ghost predicate Same(t: Data, u: Data) {
    match t
    case Dictionary(ts) => u.Dictionary? && SameAll(ts, u.entries)
    case Array(ts) => u.Array? && SameAll(ts, u.items)
    case MachPort(_) => u.MachPort?
    case _ => t == u
  }

  ghost predicate SameAll(ts: seq<Data>, us: seq<Data>) {
    |ts| == |us| && forall i :: 0 <= i < |ts| ==> Same(ts[i], us[i])
  }

  /** The same tree with its descriptors under other numbers, as the kernel hands
      them to the receiver; -1 stays -1. */
  ghost predicate Renumbered(t: Data, u: Data) {
    match t
    case Dictionary(ts) => u.Dictionary? && RenumberedAll(ts, u.entries)
    case Array(ts) => u.Array? && RenumberedAll(ts, u.items)
    case Fd(fd) => u.Fd? && (fd == -1 <==> u.fd == -1)
    case _ => t == u
  }

  ghost predicate RenumberedAll(ts: seq<Data>, us: seq<Data>) {
    |ts| == |us| && forall i :: 0 <= i < |ts| ==> Renumbered(ts[i], us[i])
  }

  lemma {:induction false} RenumberedSize(t: Data, u: Data)
    requires Renumbered(t, u)
    ensures Size(t) == Size(u) && Tag(t) == Tag(u) && |Fds(t)| == |Fds(u)|
    decreases t, 0
  {
    if IsList(t) {
      RenumberedSizes(Children(t), Children(u));
    }
  }

  lemma {:induction false} RenumberedSizes(ts: seq<Data>, us: seq<Data>)
    requires RenumberedAll(ts, us)
    ensures SizeAll(ts) == SizeAll(us) && |FdsAll(ts)| == |FdsAll(us)|
    decreases ts, 1
  {
    hide Size, Fds;
    if ts != [] {
      var n := |ts| - 1;
      RenumberedSizes(ts[..n], us[..n]);
      RenumberedSize(ts[n], us[n]);
    }
  }

  lemma {:induction false} RenumberedSelf(t: Data)
    ensures Renumbered(t, t)
  {
    if IsList(t) {
      forall i | 0 <= i < |Children(t)|
        ensures Renumbered(Children(t)[i], Children(t)[i])
      {
        RenumberedSelf(Children(t)[i]);
      }
      assert RenumberedAll(Children(t), Children(t));
    }
  }

  ghost predicate HasMachPort(t: Data) {
    match t
    case Dictionary(ts) => exists i :: 0 <= i < |ts| && HasMachPort(ts[i])
    case Array(ts) => exists i :: 0 <= i < |ts| && HasMachPort(ts[i])
    case MachPort(_) => true
    case _ => false
  }

  /** Without mach ports the two notions of equality coincide. */
  lemma {:induction false} SameIsEqual(t: Data, u: Data)
    requires Same(t, u) && !HasMachPort(t)
    ensures t == u
  {
    if IsList(t) {
      forall i | 0 <= i < |Children(t)|
        ensures Children(t)[i] == Children(u)[i]
      {
        SameIsEqual(Children(t)[i], Children(u)[i]);
      }
      assert Children(t) == Children(u);
    }
  }
}
