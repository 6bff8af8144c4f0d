/** Trees as heap nodes: deep copy and recursive free. */
module LaunchNode {
  import opened Bytes
  import opened LaunchData

  /** What occupies the heap: a tree, or the bytes of a string or blob. */
  datatype Part = Tree(t: Data) | Block(bytes: seq<byte>)

  /** What a piece of memory holds itself: a value without what it points to, or bytes. */
  datatype Content = Shell(value: Data) | Raw(bytes: seq<byte>)

  /** A piece of memory: what it holds, and the pieces it owns. */
  class Node {
    var content: Content
    var owned: seq<Node>
    var live: bool

    constructor (content: Content, owned: seq<Node>)
      ensures this.content == content && this.owned == owned && live
    {
      this.content, this.owned, live := content, owned, true;
    }
  }

  /** The nodes a tree occupies, and those of each part. */
  datatype Footprint = Footprint(root: Node, nodes: set<Node>, parts: seq<Footprint>)

  ghost function Union(fs: seq<Footprint>): set<Node> {
    if fs == [] then {} else Union(fs[..|fs| - 1]) + fs[|fs| - 1].nodes
  }

  /** Exactly the root and the parts, with no node shared between them. */
  ghost predicate Separate(f: Footprint)
    decreases f, 1
  {
    && f.nodes == {f.root} + Union(f.parts)
    && f.root !in Union(f.parts)
    && SeparateAll(f.parts)
  }

  ghost predicate SeparateAll(fs: seq<Footprint>)
    decreases fs, 0
  {
    fs == [] ||
    (var k := |fs| - 1;
     SeparateAll(fs[..k]) && Separate(fs[k]) && Union(fs[..k]) !! fs[k].nodes)
  }

  function Blank(t: Data): Data {
    match t
    case Dictionary(_) => Dictionary([])
    case Array(_) => Array([])
    case String(_) => String([])
    case Opaque(_) => Opaque([])
    case _ => t
  }

  function Own(p: Part): Content {
    match p
    case Tree(t) => Shell(Blank(t))
    case Block(b) => Raw(b)
  }

  function Height(t: Data): (h: nat)
    ensures h > 0
    decreases t, 0
  {
    if IsList(t) then 1 + HeightAll(Children(t)) else 1
  }

  function HeightAll(ts: seq<Data>): (h: nat)
    ensures forall i :: 0 <= i < |ts| ==> Height(ts[i]) <= h
    decreases ts, 1
  {
    if ts == [] then 0
    else
      var n := |ts| - 1;
      var rest, last := HeightAll(ts[..n]), Height(ts[n]);
      assert forall i :: 0 <= i < n ==> ts[..n][i] == ts[i];
      if rest < last then last else rest
  }

  function Level(p: Part): nat {
    match p
    case Tree(t) => Height(t)
    case Block(_) => 0
  }

  /** What the node of p owns: its children, a terminated string, or a blob. */
  function Kids(p: Part): (ps: seq<Part>)
    ensures forall i :: 0 <= i < |ps| ==> Level(ps[i]) < Level(p)
  {
    match p
    case Block(_) => []
    case Tree(t) =>
      match t
      case Dictionary(ts) => seq(|ts|, i requires 0 <= i < |ts| => Tree(ts[i]))
      case Array(ts) => seq(|ts|, i requires 0 <= i < |ts| => Tree(ts[i]))
      case String(c) => [Block(c + [0])]
      case Opaque(c) => [Block(c)]
      case _ => []
  }

  /** The live nodes of f hold p. */
  ghost predicate Holds(f: Footprint, p: Part)
    reads f.nodes
    decreases Level(p), 1
  {
    && Separate(f)
    && f.root.live && f.root.content == Own(p)
    && |f.root.owned| == |f.parts|
    && (forall i :: 0 <= i < |f.parts| ==> f.root.owned[i] == f.parts[i].root)
    && HoldsAll(f.parts, Kids(p), Level(p))
  }

  ghost predicate HoldsAll(fs: seq<Footprint>, ps: seq<Part>, above: nat)
    requires forall i :: 0 <= i < |ps| ==> Level(ps[i]) < above
    reads Union(fs)
    decreases above, 0, |fs|
  {
    && |fs| == |ps|
    && (fs == [] ||
        (var k := |fs| - 1;
         HoldsAll(fs[..k], ps[..k], above) && Holds(fs[k], ps[k])))
  }

  lemma {:induction false} PartsDisjoint(fs: seq<Footprint>)
    requires SeparateAll(fs)
    ensures forall i :: 0 <= i < |fs| ==> fs[i].nodes <= Union(fs)
    ensures forall i, j :: 0 <= i < j < |fs| ==> fs[i].nodes !! fs[j].nodes
  {
    if fs != [] {
      var k := |fs| - 1;
      PartsDisjoint(fs[..k]);
      forall i | 0 <= i < k
        ensures fs[i].nodes <= Union(fs[..k])
      {
        assert fs[..k][i] == fs[i];
      }
      assert forall i, j :: 0 <= i < j < k ==> fs[..k][i].nodes !! fs[..k][j].nodes;
    }
  }

  lemma {:induction false} HoldsAt(fs: seq<Footprint>, ps: seq<Part>, above: nat, i: nat)
    requires forall j :: 0 <= j < |ps| ==> Level(ps[j]) < above
    requires HoldsAll(fs, ps, above) && i < |fs|
    ensures Holds(fs[i], ps[i])
    decreases |fs|
  {
    var k := |fs| - 1;
    if i < k {
      HoldsAt(fs[..k], ps[..k], above, i);
    }
  }

  /** launch_data_copy: an equal tree in new, unshared nodes. */
  method Copy(n: Node, ghost f: Footprint, ghost p: Part) returns (m: Node, ghost g: Footprint)
    requires n == f.root && Holds(f, p)
    ensures m == g.root && Holds(g, p) && fresh(g.nodes)
    decreases Level(p), 1
  {
    var cs, gs, all := CopyChildren(n.owned, f.parts, Union(f.parts), Kids(p), Level(p));
    m := new Node(n.content, cs);
    g := Footprint(m, {m} + all, gs);
  }

  method CopyChildren(cs: seq<Node>, ghost fs: seq<Footprint>, ghost from: set<Node>,
                      ghost ps: seq<Part>, ghost above: nat)
    returns (ds: seq<Node>, ghost gs: seq<Footprint>, ghost all: set<Node>)
    requires forall i :: 0 <= i < |ps| ==> Level(ps[i]) < above
    requires HoldsAll(fs, ps, above) && Union(fs) == from
    requires |cs| == |fs| && forall i :: 0 <= i < |fs| ==> cs[i] == fs[i].root
    ensures all == Union(gs)
    ensures HoldsAll(gs, ps, above) && SeparateAll(gs) && fresh(all)
    ensures |ds| == |gs| && forall i :: 0 <= i < |gs| ==> ds[i] == gs[i].root
    decreases above, 0
  {
    hide Holds, HoldsAll, SeparateAll, Union;
    ds, gs, all := [], [], {};
    NothingHeld(ps, above);
    HeldLength(fs, ps, above);
    var i := 0;
    while i < |cs|
      invariant i == |ds| == |gs| <= |cs|
      invariant HoldsAll(fs, ps, above)
      invariant all == Union(gs) && HoldsAll(gs, ps[..i], above) && SeparateAll(gs) && fresh(all)
      invariant forall k :: 0 <= k < i ==> ds[k] == gs[k].root
    {
      HoldsAt(fs, ps, above, i);
      var d, g := Copy(cs[i], fs[i], ps[i]);
      IsSeparate(g, ps[i]);
      OneMoreHeld(gs, g, ps, i, above);
      ds, gs, all := ds + [d], gs + [g], all + g.nodes;
      i := i + 1;
    }
    assert ps[..i] == ps;
  }

  lemma NothingHeld(ps: seq<Part>, above: nat)
    requires forall i :: 0 <= i < |ps| ==> Level(ps[i]) < above
    ensures Union([]) == {} && SeparateAll([]) && HoldsAll([], ps[..0], above)
  {
  }

  lemma HeldLength(fs: seq<Footprint>, ps: seq<Part>, above: nat)
    requires forall i :: 0 <= i < |ps| ==> Level(ps[i]) < above
    requires HoldsAll(fs, ps, above)
    ensures |fs| == |ps|
  {
  }

  lemma OneMoreHeld(gs: seq<Footprint>, g: Footprint, ps: seq<Part>, i: nat, above: nat)
    requires forall j :: 0 <= j < |ps| ==> Level(ps[j]) < above
    requires i < |ps| && HoldsAll(gs, ps[..i], above) && Holds(g, ps[i])
    requires SeparateAll(gs) && Separate(g) && Union(gs) !! g.nodes
    ensures Union(gs + [g]) == Union(gs) + g.nodes
    ensures SeparateAll(gs + [g]) && HoldsAll(gs + [g], ps[..i + 1], above)
  {
    hide Holds, Separate;
    assert |gs| == i;
    assert (gs + [g])[..i] == gs && ps[..i + 1][..i] == ps[..i];
  }

  lemma IsSeparate(f: Footprint, p: Part)
    requires Holds(f, p)
    ensures Separate(f)
  {
  }

  /** launch_data_free: every node of the tree is released, and no other. */
  method Free(n: Node, ghost f: Footprint, ghost p: Part)
    requires n == f.root && Holds(f, p)
    modifies f.nodes`live
    ensures forall c :: c in f.nodes ==> !c.live
    decreases Level(p), 1
  {
    FreeChildren(n.owned, f.parts, Union(f.parts), Kids(p), Level(p));
    n.live := false;
  }

  method FreeChildren(cs: seq<Node>, ghost fs: seq<Footprint>, ghost all: set<Node>,
                      ghost ps: seq<Part>, ghost above: nat)
    requires forall i :: 0 <= i < |ps| ==> Level(ps[i]) < above
    requires HoldsAll(fs, ps, above) && SeparateAll(fs) && Union(fs) == all
    requires |cs| == |fs| && forall i :: 0 <= i < |fs| ==> cs[i] == fs[i].root
    modifies all`live
    ensures forall c :: c in all ==> !c.live
    decreases above, 0
  {
    hide Holds, HoldsAll;
    PartsDisjoint(fs);
    HoldsEach(fs, ps, above);
    assert fs[..|fs|] == fs;
    var i := 0;
    while i < |cs|
      invariant 0 <= i <= |cs|
      invariant forall k :: i <= k < |cs| ==> Holds(fs[k], ps[k])
      invariant Union(fs[..i]) <= all
      invariant forall c :: c in Union(fs[..i]) ==> !c.live
    {
      assert fs[..i + 1][..i] == fs[..i];
      assert Union(fs[..i + 1]) == Union(fs[..i]) + fs[i].nodes;
      Free(cs[i], fs[i], ps[i]);
      i := i + 1;
    }
  }

  lemma HoldsEach(fs: seq<Footprint>, ps: seq<Part>, above: nat)
    requires forall j :: 0 <= j < |ps| ==> Level(ps[j]) < above
    requires HoldsAll(fs, ps, above)
    ensures |fs| == |ps| && forall i :: 0 <= i < |fs| ==> Holds(fs[i], ps[i])
  {
    forall i | 0 <= i < |fs|
      ensures Holds(fs[i], ps[i])
    {
      HoldsAt(fs, ps, above, i);
    }
  }

  /** A copy outlives its original, and an original its copy. */
  method CopyThenFree(n: Node, ghost f: Footprint, ghost p: Part, freeOriginal: bool)
    returns (kept: Node, ghost g: Footprint)
    requires n == f.root && Holds(f, p)
    modifies f.nodes`live
    ensures kept == g.root && Holds(g, p)
    ensures freeOriginal ==> fresh(g.nodes) && forall c :: c in f.nodes ==> !c.live
    ensures !freeOriginal ==> g == f
  {
    hide Holds;
    var m, h := Copy(n, f, p);
    if freeOriginal {
      Free(n, f, p);
      kept, g := m, h;
    } else {
      Free(m, h, p);
      kept, g := n, f;
    }
  }

  /** The node at the end of a path of child positions, as far as it leads. */
  method Descend(n: Node, ghost f: Footprint, ghost p: Part, path: seq<nat>) returns (c: Node)
    requires n == f.root && Holds(f, p)
    ensures c in f.nodes
  {
    c := n;
    ghost var h, u := f, p;
    var i := 0;
    while i < |path| && path[i] < |c.owned|
      invariant 0 <= i <= |path|
      invariant c == h.root && Holds(h, u) && h.nodes <= f.nodes
    {
      PartsDisjoint(h.parts);
      HoldsAt(h.parts, Kids(u), Level(u), path[i]);
      c, h, u := c.owned[path[i]], h.parts[path[i]], Kids(u)[path[i]];
      i := i + 1;
    }
  }

  /** After a copy, a change of any node of one of the trees, in place, leaves the
      other as it was. */
  method CopyThenEdit(n: Node, ghost f: Footprint, ghost p: Part, editOriginal: bool, path: seq<nat>,
                      content: Content, owned: seq<Node>)
    returns (m: Node, ghost g: Footprint, edited: Node)
    requires n == f.root && Holds(f, p)
    modifies f.nodes
    ensures m == g.root && fresh(g.nodes)
    ensures edited in (if editOriginal then f.nodes else g.nodes)
    ensures edited.content == content && edited.owned == owned
    ensures if editOriginal then Holds(g, p) else Holds(f, p)
  {
    hide Holds, HoldsAll, Separate, SeparateAll, Union;
    m, g := Copy(n, f, p);
    if editOriginal {
      edited := Descend(n, f, p, path);
      Edit(edited, content, owned);
    } else {
      edited := Descend(m, g, p, path);
      Edit(edited, content, owned);
    }
  }

  method Edit(c: Node, content: Content, owned: seq<Node>)
    modifies c`content, c`owned
    ensures c.content == content && c.owned == owned
  {
    c.content, c.owned := content, owned;
  }
}
