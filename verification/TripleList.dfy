/** The flat list of (object, run loop, mode) triples that records where a
    source is scheduled (_SC_isScheduled, _SC_schedule, _SC_unschedule). */
module TripleList {
  import opened Wrappers

  type Triple = (nat, nat, nat)

  /** What to look for; None stands for anything. */
  datatype Pattern = Pattern(obj: Option<nat>, loop: Option<nat>, mode: Option<nat>)

  predicate Matches(p: Pattern, t: Triple) {
    && (p.obj.Some? ==> p.obj.value == t.0)
    && (p.loop.Some? ==> p.loop.value == t.1)
    && (p.mode.Some? ==> p.mode.value == t.2)
  }

  /** The triples that a flat list packs. */
  function Triples(l: seq<nat>): seq<Triple> {
    if |l| < 3 then [] else [(l[0], l[1], l[2])] + Triples(l[3..])
  }

  function WithoutFirst(ts: seq<Triple>, p: Pattern): seq<Triple> {
    if ts == [] then []
    else if Matches(p, ts[0]) then ts[1..]
    else [ts[0]] + WithoutFirst(ts[1..], p)
  }

  function WithoutAll(ts: seq<Triple>, p: Pattern): seq<Triple> {
    if ts == [] then []
    else if Matches(p, ts[0]) then WithoutAll(ts[1..], p)
    else [ts[0]] + WithoutAll(ts[1..], p)
  }

  ghost predicate Occurs(ts: seq<Triple>, p: Pattern) {
    exists k :: 0 <= k < |ts| && Matches(p, ts[k])
  }

  lemma {:induction false} Concat(a: seq<nat>, b: seq<nat>)
    requires |a| % 3 == 0
    ensures Triples(a + b) == Triples(a) + Triples(b)
  {
    if a == [] {
      assert a + b == b;
    } else {
      assert (a + b)[3..] == a[3..] + b;
      Concat(a[3..], b);
    }
  }

  /** One triple further. */
  lemma Advance(l: seq<nat>, i: nat)
    requires i % 3 == 0 && |l| % 3 == 0 && i < |l|
    ensures i + 3 <= |l|
    ensures Triples(l[i..]) == [(l[i], l[i + 1], l[i + 2])] + Triples(l[i + 3..])
    ensures Triples(l[..i + 3]) == Triples(l[..i]) + [(l[i], l[i + 1], l[i + 2])]
  {
    assert l[i..][3..] == l[i + 3..];
    var t := l[i..i + 3];
    assert l[..i + 3] == l[..i] + t;
    Concat(l[..i], t);
    assert t[3..] == [] && Triples([]) == [];
  }

  lemma {:induction false} Count(l: seq<nat>)
    requires |l| % 3 == 0
    ensures |l| == 3 * |Triples(l)|
  {
    if l != [] {
      Count(l[3..]);
    }
  }

  lemma OccursStep(t: Triple, ts: seq<Triple>, p: Pattern)
    ensures Occurs([t] + ts, p) <==> Matches(p, t) || Occurs(ts, p)
  {
    var all := [t] + ts;
    if Occurs(ts, p) {
      var k :| 0 <= k < |ts| && Matches(p, ts[k]);
      assert all[k + 1] == ts[k];
    }
    if Matches(p, t) {
      assert all[0] == t;
    }
  }

  method IsScheduled(p: Pattern, list: seq<nat>) returns (r: bool)
    requires |list| % 3 == 0
    ensures r <==> Occurs(Triples(list), p)
    ensures r <==> exists i :: 0 <= i < |list| && i % 3 == 0 &&
                     list[i] == (if p.obj.Some? then p.obj.value else list[i]) &&
                     list[i + 1] == (if p.loop.Some? then p.loop.value else list[i + 1]) &&
                     list[i + 2] == (if p.mode.Some? then p.mode.value else list[i + 2])
  {
    hide Triples, Occurs, Matches;
    OccursIs(list, p);
    var i := 0;
    assert list[0..] == list;
    while i < |list|
      invariant 0 <= i <= |list| && i % 3 == 0
      invariant Occurs(Triples(list), p) <==> Occurs(Triples(list[i..]), p)
    {
      Advance(list, i);
      OccursStep((list[i], list[i + 1], list[i + 2]), Triples(list[i + 3..]), p);
      if Matches(p, (list[i], list[i + 1], list[i + 2])) {
        assert Occurs(Triples(list), p);
        return true;
      }
      i := i + 3;
    }
    NothingOccurs(list[i..], p);
    return false;
  }

  lemma {:induction false} TripleAt(l: seq<nat>, k: nat)
    requires |l| % 3 == 0 && 3 * k < |l|
    ensures |Triples(l)| == |l| / 3 && Triples(l)[k] == (l[3 * k], l[3 * k + 1], l[3 * k + 2])
  {
    Count(l);
    if k > 0 {
      TripleAt(l[3..], k - 1);
    }
  }

  lemma OccursThere(l: seq<nat>, p: Pattern, i: nat)
    requires |l| % 3 == 0 && i < |l| && i % 3 == 0
    requires Matches(p, (l[i], l[i + 1], l[i + 2]))
    ensures Occurs(Triples(l), p)
  {
    hide Triples, Matches;
    TripleAt(l, i / 3);
    assert 3 * (i / 3) == i;
    assert Matches(p, Triples(l)[i / 3]);
  }

  lemma OccursWhere(l: seq<nat>, p: Pattern) returns (i: nat)
    requires |l| % 3 == 0 && Occurs(Triples(l), p)
    ensures i < |l| && i % 3 == 0 && Matches(p, (l[i], l[i + 1], l[i + 2]))
  {
    hide Triples, Matches;
    Count(l);
    var k :| 0 <= k < |Triples(l)| && Matches(p, Triples(l)[k]);
    TripleAt(l, k);
    i := 3 * k;
  }

  /** A triple matches somewhere exactly if three packed elements do. */
  lemma OccursIs(l: seq<nat>, p: Pattern)
    requires |l| % 3 == 0
    ensures Occurs(Triples(l), p) <==>
            exists i :: 0 <= i < |l| && i % 3 == 0 &&
              l[i] == (if p.obj.Some? then p.obj.value else l[i]) &&
              l[i + 1] == (if p.loop.Some? then p.loop.value else l[i + 1]) &&
              l[i + 2] == (if p.mode.Some? then p.mode.value else l[i + 2])
  {
    hide Triples, Occurs;
    if Occurs(Triples(l), p) {
      var i := OccursWhere(l, p);
    } else {
      forall i | 0 <= i < |l| && i % 3 == 0
        ensures !(l[i] == (if p.obj.Some? then p.obj.value else l[i]) &&
                  l[i + 1] == (if p.loop.Some? then p.loop.value else l[i + 1]) &&
                  l[i + 2] == (if p.mode.Some? then p.mode.value else l[i + 2]))
      {
        if Matches(p, (l[i], l[i + 1], l[i + 2])) {
          OccursThere(l, p, i);
        }
      }
    }
  }

  lemma NothingOccurs(l: seq<nat>, p: Pattern)
    requires l == []
    ensures !Occurs(Triples(l), p) && Triples(l) == []
  {
  }

  method Schedule(obj: nat, loop: nat, mode: nat, list: seq<nat>) returns (list': seq<nat>)
    requires |list| % 3 == 0
    ensures |list'| % 3 == 0 && Triples(list') == Triples(list) + [(obj, loop, mode)]
  {
    list' := list + [obj];
    list' := list' + [loop];
    list' := list' + [mode];
    assert list' == list + [obj, loop, mode];
    Concat(list, [obj, loop, mode]);
    assert [obj, loop, mode][3..] == [];
  }

  /** Takes out the first match, or all. */
  method Unschedule(p: Pattern, list: seq<nat>, all: bool) returns (found: bool, list': seq<nat>)
    requires |list| % 3 == 0
    ensures |list'| % 3 == 0
    ensures found <==> Occurs(Triples(list), p)
    ensures Triples(list') == Left(Triples(list), p, all)
  {
    hide Triples, Occurs, Left, Matches;
    list', found := list, false;
    var i, n := 0, |list|;
    assert list'[..0] == [] && list'[0..] == list;
    NothingOccurs([], p);
    NothingOccurs(list'[..0], p);
    while i < n
      invariant 0 <= i <= n == |list'| && i % 3 == 0 && n % 3 == 0
      invariant found ==> all
      invariant Occurs(Triples(list), p) <==> found || Occurs(Triples(list'[i..]), p)
      invariant Left(Triples(list), p, all) == Triples(list'[..i]) + Left(Triples(list'[i..]), p, all)
      decreases n - i
    {
      var t := (list'[i], list'[i + 1], list'[i + 2]);
      Advance(list', i);
      ghost var rest := Triples(list'[i + 3..]);
      OccursStep(t, rest, p);
      LeftStep(t, rest, p, all);
      if !Matches(p, t) {
        i := i + 3;
        continue;
      }
      found := true;
      ghost var before := list'[..i];
      list' := TakeOut(list', i);
      assert list'[..i] == before;
      if !all {
        Concat(before, list'[i..]);
        assert list' == before + list'[i..];
        return;
      }
      n := n - 3;
    }
    NothingOccurs(list'[i..], p);
    LeftStep((0, 0, 0), [], p, all);
    assert list'[..i] == list';
  }

  /** What is left of ts. */
  function Left(ts: seq<Triple>, p: Pattern, all: bool): seq<Triple> {
    if all then WithoutAll(ts, p) else WithoutFirst(ts, p)
  }

  lemma NoneMatches(p: Pattern)
    ensures !Occurs([], p)
  {
  }

  lemma TakenLater(t: Triple, rest: seq<Triple>, k: nat, p: Pattern)
    requires !Matches(p, t) && k < |rest| && forall j :: 0 <= j < k ==> !Matches(p, rest[j])
    ensures var ts := [t] + rest;
            && ts[k + 1] == rest[k]
            && (forall j :: 0 <= j < k + 1 ==> !Matches(p, ts[j]))
            && ts[..k + 1] + ts[k + 2..] == [t] + (rest[..k] + rest[k + 1..])
  {
    hide Matches;
  }

  /** Of the triples that match, the first is taken out, and nothing else. */
  lemma {:induction false} FirstTaken(ts: seq<Triple>, p: Pattern)
    ensures !Occurs(ts, p) ==> WithoutFirst(ts, p) == ts
    ensures Occurs(ts, p) ==>
              exists k :: 0 <= k < |ts| && Matches(p, ts[k]) && (forall j :: 0 <= j < k ==> !Matches(p, ts[j])) &&
                WithoutFirst(ts, p) == ts[..k] + ts[k + 1..]
  {
    hide Matches, Occurs;
    if ts == [] {
      NoneMatches(p);
    } else {
      var rest := ts[1..];
      assert ts == [ts[0]] + rest;
      OccursStep(ts[0], rest, p);
      if Matches(p, ts[0]) {
        assert ts[..0] + ts[0 + 1..] == ts[1..];
      } else {
        FirstTaken(rest, p);
        if Occurs(rest, p) {
          var k :| 0 <= k < |rest| && Matches(p, rest[k]) && (forall j :: 0 <= j < k ==> !Matches(p, rest[j])) &&
                   WithoutFirst(rest, p) == rest[..k] + rest[k + 1..];
          TakenLater(ts[0], rest, k, p);
        }
      }
    }
  }

  /** All that match are taken out, and the others stay in their order. */
  lemma {:induction false} AllTaken(ts: seq<Triple>, us: seq<Triple>, p: Pattern)
    ensures forall t :: t in WithoutAll(ts, p) ==> t in ts && !Matches(p, t)
    ensures !Occurs(ts, p) ==> WithoutAll(ts, p) == ts
    ensures WithoutAll(ts + us, p) == WithoutAll(ts, p) + WithoutAll(us, p)
  {
    hide Matches;
    if ts == [] {
      assert ts + us == us;
    } else {
      var rest := ts[1..];
      AllTaken(rest, us, p);
      assert ts == [ts[0]] + rest && (ts + us)[1..] == rest + us;
      OccursStep(ts[0], rest, p);
    }
  }

  lemma LeftStep(t: Triple, ts: seq<Triple>, p: Pattern, all: bool)
    ensures Left([], p, all) == []
    ensures Left([t] + ts, p, all) ==
            if !Matches(p, t) then [t] + Left(ts, p, all) else if all then Left(ts, p, all) else ts
  {
    assert ([t] + ts)[1..] == ts;
  }

  /** Removes three elements, the last first. */
  method TakeOut(list: seq<nat>, i: nat) returns (list': seq<nat>)
    requires i + 3 <= |list|
    ensures list' == list[..i] + list[i + 3..]
  {
    list' := list[..i + 2] + list[i + 3..];
    list' := list'[..i + 1] + list'[i + 2..];
    list' := list'[..i] + list'[i + 1..];
  }
}
