/** Ordered lists of interface names, as the bond and bridge code keeps them. */
module InterfaceLists {

  /** An interface name. */
  datatype Name = Name(text: string)

  ghost predicate NoDup(s: seq<Name>) {
    forall i, j :: 0 <= i < j < |s| ==> s[i] != s[j]
  }

  ghost predicate Within(s: seq<Name>, t: seq<Name>) {
    forall x :: x in s ==> x in t
  }

  ghost predicate Disjoint(s: seq<Name>, t: seq<Name>) {
    forall x :: x in s ==> x !in t
  }

  /** The names of s that are in t, in the order of s. */
  function Keep(s: seq<Name>, t: seq<Name>): seq<Name> {
    if s == [] then []
    else if s[|s| - 1] in t then Keep(s[..|s| - 1], t) + [s[|s| - 1]]
    else Keep(s[..|s| - 1], t)
  }

  /** The names of s that are not in t, in the order of s. */
  function Drop(s: seq<Name>, t: seq<Name>): seq<Name> {
    if s == [] then []
    else if s[|s| - 1] in t then Drop(s[..|s| - 1], t)
    else Drop(s[..|s| - 1], t) + [s[|s| - 1]]
  }

  /** s without its first x. */
  function Without(s: seq<Name>, x: Name): seq<Name> {
    if s == [] then [] else if s[0] == x then s[1..] else [s[0]] + Without(s[1..], x)
  }

  lemma {:induction false} WithoutAt(a: seq<Name>, x: Name, b: seq<Name>)
    requires x !in a
    ensures Without(a + [x] + b, x) == a + b
  {
    if a == [] {
      assert a + [x] + b == [x] + b;
    } else {
      var s := a + [x] + b;
      assert s[1..] == a[1..] + [x] + b;
      WithoutAt(a[1..], x, b);
    }
  }

  lemma {:induction false} KeepIn(s: seq<Name>, t: seq<Name>, x: Name)
    ensures x in Keep(s, t) <==> x in s && x in t
    ensures x in Drop(s, t) <==> x in s && x !in t
  {
    if s != [] {
      var k := |s| - 1;
      KeepIn(s[..k], t, x);
      assert x in s <==> x in s[..k] || x == s[k];
    }
  }

  lemma {:induction false} KeepNoDup(s: seq<Name>, t: seq<Name>)
    requires NoDup(s)
    ensures NoDup(Keep(s, t)) && NoDup(Drop(s, t))
  {
    if s != [] {
      var k := |s| - 1;
      KeepNoDup(s[..k], t);
      KeepIn(s[..k], t, s[k]);
    }
  }

  lemma {:induction false} KeepAll(s: seq<Name>, t: seq<Name>)
    requires Within(s, t)
    ensures Keep(s, t) == s && Drop(s, t) == []
  {
    if s != [] {
      var k := |s| - 1;
      assert s == s[..k] + [s[k]];
      KeepAll(s[..k], t);
    }
  }

  lemma {:induction false} KeepFirst(s: seq<Name>, t: seq<Name>)
    requires s != [] && s[0] in t
    ensures Keep(s, t) != [] && Keep(s, t)[0] == s[0]
  {
    if |s| > 1 {
      KeepFirst(s[..|s| - 1], t);
    }
  }

  lemma KeepNone(t: seq<Name>)
    ensures Keep([], t) == [] && Drop([], t) == []
  {
  }

  /** The same lists, taken apart at the front. */
  lemma {:induction false} KeepHead(s: seq<Name>, t: seq<Name>)
    requires s != []
    ensures Keep(s, t) == if s[0] in t then [s[0]] + Keep(s[1..], t) else Keep(s[1..], t)
  {
    if |s| > 1 {
      var k := |s| - 1;
      KeepHead(s[..k], t);
      assert s[..k][1..] == s[1..][..k - 1];
    }
  }

  /** One more name looked at, from left to right. */
  lemma KeepStep(s: seq<Name>, i: nat, t: seq<Name>)
    requires i < |s|
    ensures Keep(s[..i + 1], t) == if s[i] in t then Keep(s[..i], t) + [s[i]] else Keep(s[..i], t)
    ensures Drop(s[..i + 1], t) == if s[i] in t then Drop(s[..i], t) else Drop(s[..i], t) + [s[i]]
    ensures NoDup(s) ==> s[i] !in Keep(s[..i], t) && s[i] !in Drop(s[..i], t)
  {
    assert s[..i + 1][..i] == s[..i];
    KeepIn(s[..i], t, s[i]);
  }

  lemma NotWithin(s: seq<Name>, t: seq<Name>, x: Name)
    requires x in s && x !in t
    ensures !Within(s, t)
  {
  }

  /** Where a scan of s starts and where it ends. */
  lemma ScanEnds(s: seq<Name>)
    ensures s[..0] == [] && [] + s[0..] == s && s[..|s|] == s && s[|s|..] == []
  {
  }

  lemma PlusNothing(s: seq<Name>)
    ensures s + [] == s
  {
  }

  lemma SplitAt(pre: seq<Name>, s: seq<Name>, i: nat)
    requires i < |s|
    ensures pre + s[i..] == pre + [s[i]] + s[i + 1..]
  {
  }

  /** What is kept of s and what t has beyond s make up t. */
  lemma Complete(s: seq<Name>, t: seq<Name>)
    requires NoDup(s) && NoDup(t)
    ensures NoDup(Keep(s, t) + Drop(t, s))
    ensures Within(Keep(s, t) + Drop(t, s), t) && Within(t, Keep(s, t) + Drop(t, s))
  {
    var a, b := Keep(s, t), Drop(t, s);
    forall x
      ensures x in a + b <==> x in t
      ensures !(x in a && x in b)
    {
      KeepIn(s, t, x);
      KeepIn(t, s, x);
    }
    KeepNoDup(s, t);
    KeepNoDup(t, s);
    hide Keep, Drop;
    NoDupConcat(a, b);
  }

  lemma NoDupConcat(a: seq<Name>, b: seq<Name>)
    requires NoDup(a) && NoDup(b) && Disjoint(a, b)
    ensures NoDup(a + b)
  {
    var s := a + b;
    forall i, j | 0 <= i < j < |s|
      ensures s[i] != s[j]
    {
      if i < |a| <= j {
        assert s[i] in a && s[j] in b;
      }
    }
  }
}
