/** Dictionaries: alternating key and value nodes in one array, looked up
    without regard to case. */
module LaunchDict {
  import opened Wrappers
  import opened Bytes
  import opened LaunchData

  function FoldByte(c: byte): byte {
    if 65 <= c <= 90 then c + 32 else c
  }

  /** The key as strcasecmp sees it. */
  function Fold(s: seq<byte>): (r: seq<byte>)
    ensures |r| == |s|
  {
    seq(|s|, i requires 0 <= i < |s| => FoldByte(s[i]))
  }

  /** The same byte, or the same letter in both cases: 65 to 90 are the capitals,
      32 below the others. */
  predicate SameLetter(a: byte, b: byte) {
    a == b || (65 <= a <= 90 && b == a + 32) || (65 <= b <= 90 && a == b + 32)
  }

  /** The same key, without regard to case. */
  predicate SameKey(k: seq<byte>, l: seq<byte>) {
    |k| == |l| && forall i :: 0 <= i < |k| ==> SameLetter(k[i], l[i])
  }

  lemma FoldIff(k: seq<byte>, l: seq<byte>)
    ensures Fold(k) == Fold(l) <==> SameKey(k, l)
  {
    if Fold(k) == Fold(l) {
      forall i | 0 <= i < |k|
        ensures SameLetter(k[i], l[i])
      {
        assert Fold(k)[i] == Fold(l)[i];
      }
    }
  }

  datatype Entry = Entry(key: seq<byte>, value: Data)

  /** The array of a dictionary with these entries. */
  function Flat(es: seq<Entry>): (items: seq<Data>)
    ensures |items| == 2 * |es|
  {
    seq(2 * |es|, i requires 0 <= i < 2 * |es| =>
      if i % 2 == 0 then String(es[i / 2].key) else es[i / 2].value)
  }

  lemma FlatAt(es: seq<Entry>, j: nat)
    requires j < |es|
    ensures Flat(es)[2 * j] == String(es[j].key) && Flat(es)[2 * j + 1] == es[j].value
  {
  }

  lemma FlatAppend(es: seq<Entry>, e: Entry)
    ensures Flat(es + [e]) == Flat(es) + [String(e.key)] + [e.value]
  {
  }

  lemma FlatUpdate(es: seq<Entry>, j: nat, e: Entry)
    requires j < |es|
    ensures Flat(es[j := e]) == Flat(es)[2 * j := String(e.key)][2 * j + 1 := e.value]
  {
  }

  lemma FlatRemove(es: seq<Entry>, j: nat)
    requires j < |es|
    ensures Flat(es[..j] + es[j + 1..]) == Flat(es)[..2 * j] + Flat(es)[2 * j + 2..]
  {
  }

  /** The first entry with this key, or the number of entries. */
  function Find(es: seq<Entry>, key: seq<byte>): (j: nat)
    ensures j <= |es|
    ensures j < |es| ==> Fold(es[j].key) == Fold(key)
    ensures forall i :: 0 <= i < j ==> Fold(es[i].key) != Fold(key)
  {
    if es == [] then 0
    else
      var j := Find(es[..|es| - 1], key);
      if j < |es| - 1 || Fold(es[j].key) == Fold(key) then j else |es|
  }

  /** j is the first entry with this key. */
  ghost predicate IsFirst(es: seq<Entry>, key: seq<byte>, j: int) {
    && 0 <= j < |es| && SameKey(es[j].key, key)
    && forall i :: 0 <= i < j ==> !SameKey(es[i].key, key)
  }

  /** No entry has this key. */
  ghost predicate HasNone(es: seq<Entry>, key: seq<byte>) {
    forall i :: 0 <= i < |es| ==> !SameKey(es[i].key, key)
  }

  lemma FindIs(es: seq<Entry>, key: seq<byte>)
    ensures var j := Find(es, key);
            if j < |es| then IsFirst(es, key, j) else HasNone(es, key)
    ensures !(Find(es, key) < |es| && HasNone(es, key))
  {
    hide Fold, SameKey;
    forall i | 0 <= i < |es|
      ensures SameKey(es[i].key, key) <==> Fold(es[i].key) == Fold(key)
    {
      FoldIff(es[i].key, key);
    }
  }

  function Inserted(es: seq<Entry>, key: seq<byte>, v: Data): seq<Entry> {
    var j := Find(es, key);
    if j < |es| then es[j := Entry(key, v)] else es + [Entry(key, v)]
  }

  function Removed(es: seq<Entry>, key: seq<byte>): seq<Entry> {
    var j := Find(es, key);
    if j < |es| then es[..j] + es[j + 1..] else es
  }

  /** The dictionary object: its array, with the entries it stands for. */
  class KeyedArray {
    var items: seq<Data>
    ghost var entries: seq<Entry>

    ghost predicate Valid()
      reads this
    {
      items == Flat(entries)
    }

    constructor ()
      ensures Valid() && entries == []
    {
      items, entries := [], [];
    }

    /** launch_data_array_set_index, for an index in the array or just past it. */
    method SetIndex(what: Data, ind: nat)
      requires ind <= |items|
      modifies this`items
      ensures items == if ind < |old(items)| then old(items)[ind := what] else old(items) + [what]
    {
      if ind + 1 > |items| {
        items := items + [what];
      } else {
        items := items[ind := what];
      }
    }

    /** The scan over the even positions. */
    method Scan(key: seq<byte>) returns (i: nat)
      requires Valid()
      ensures i == 2 * Find(entries, key)
    {
      hide Flat, Fold;
      i := 0;
      ghost var j := 0;
      while i < |items|
        invariant i == 2 * j <= |items|
        invariant forall k :: 0 <= k < j ==> Fold(entries[k].key) != Fold(key)
      {
        FlatAt(entries, j);
        if Fold(key) == Fold(items[i].text) {
          return;
        }
        i, j := i + 2, j + 1;
      }
    }

    method Insert(key: seq<byte>, what: Data)
      requires Valid()
      modifies this
      ensures Valid() && entries == Inserted(old(entries), key, what)
      ensures HasNone(old(entries), key) ==> entries == old(entries) + [Entry(key, what)]
      ensures !HasNone(old(entries), key) ==>
                exists j :: IsFirst(old(entries), key, j) && entries == old(entries)[j := Entry(key, what)]
    {
      hide Flat, Fold, SameKey, HasNone;
      FindIs(entries, key);
      var i := Scan(key);
      ghost var j := Find(entries, key);
      SetIndex(String(key), i);
      SetIndex(what, i + 1);
      if j < |entries| {
        FlatUpdate(entries, j, Entry(key, what));
      } else {
        FlatAppend(entries, Entry(key, what));
      }
      entries := Inserted(entries, key, what);
    }

    method Lookup(key: seq<byte>) returns (r: Option<Data>)
      requires Valid()
      ensures var j := Find(entries, key);
              r == if j < |entries| then Some(entries[j].value) else None
      ensures r.None? <==> HasNone(entries, key)
      ensures r.Some? ==> exists j :: IsFirst(entries, key, j) && r.value == entries[j].value
    {
      hide Flat, Fold, SameKey, HasNone;
      FindIs(entries, key);
      var i := Scan(key);
      if i == |items| {
        return None;
      }
      FlatAt(entries, Find(entries, key));
      r := Some(items[i + 1]);
    }

    method Remove(key: seq<byte>) returns (found: bool)
      requires Valid()
      modifies this
      ensures Valid() && entries == Removed(old(entries), key)
      ensures found <==> !HasNone(old(entries), key)
      ensures !found ==> entries == old(entries)
      ensures found ==>
                exists j :: IsFirst(old(entries), key, j) && entries == old(entries)[..j] + old(entries)[j + 1..]
    {
      hide Flat, Fold, SameKey, HasNone;
      FindIs(entries, key);
      var i := Scan(key);
      if i == |items| {
        return false;
      }
      FlatRemove(entries, Find(entries, key));
      items := items[..i] + items[i + 2..];
      entries := Removed(entries, key);
      found := true;
    }
  }

  // ---- refinement of a finite map on folded keys ----

  ghost predicate Distinct(es: seq<Entry>) {
    forall i, j :: 0 <= i < j < |es| ==> Fold(es[i].key) != Fold(es[j].key)
  }

  /** The folded keys in array order. */
  function Keys(es: seq<Entry>): (ks: seq<seq<byte>>)
    ensures |ks| == |es|
  {
    seq(|es|, i requires 0 <= i < |es| => Fold(es[i].key))
  }

  /** The reference: a map on folded keys, and the keys in the order in which
      they came in. */
  datatype Reference = Reference(order: seq<seq<byte>>, m: map<seq<byte>, Data>)

  function Without(s: seq<seq<byte>>, k: seq<byte>): seq<seq<byte>> {
    if s == [] then []
    else Without(s[..|s| - 1], k) + if s[|s| - 1] == k then [] else [s[|s| - 1]]
  }

  datatype Op = Insert(key: seq<byte>, v: Data) | Remove(key: seq<byte>)

  function ReferenceOp(r: Reference, op: Op): Reference {
    var k := Fold(op.key);
    match op
    case Insert(_, v) => Reference(if k in r.m then r.order else r.order + [k], r.m[k := v])
    case Remove(_) => Reference(Without(r.order, k), r.m - {k})
  }

  function ArrayOp(es: seq<Entry>, op: Op): seq<Entry> {
    match op
    case Insert(key, v) => Inserted(es, key, v)
    case Remove(key) => Removed(es, key)
  }

  ghost predicate Refines(es: seq<Entry>, r: Reference) {
    && Distinct(es)
    && Keys(es) == r.order
    && (forall k :: k in r.m <==> k in r.order)
    && (forall i :: 0 <= i < |es| ==> Holds(r, es[i]))
  }

  lemma {:induction false} WithoutAbsent(s: seq<seq<byte>>, k: seq<byte>)
    requires k !in s
    ensures Without(s, k) == s
  {
    if s != [] {
      WithoutAbsent(s[..|s| - 1], k);
    }
  }

  lemma {:induction false} WithoutOne(s: seq<seq<byte>>, j: nat)
    requires j < |s| && s[j] !in s[..j] && s[j] !in s[j + 1..]
    ensures Without(s, s[j]) == s[..j] + s[j + 1..]
  {
    var n := |s| - 1;
    if j == n {
      WithoutAbsent(s[..n], s[j]);
    } else {
      assert s[..n][..j] == s[..j] && s[..n][j + 1..] == s[j + 1..n];
      assert s[n] in s[j + 1..];
      WithoutOne(s[..n], j);
    }
  }

  lemma InsertRefines(es: seq<Entry>, r: Reference, key: seq<byte>, v: Data)
    requires Refines(es, r)
    ensures Refines(Inserted(es, key, v), ReferenceOp(r, Insert(key, v)))
  {
    hide Fold;
    var k, j := Fold(key), Find(es, key);
    var es' := Inserted(es, key, v);
    if j < |es| {
      assert Keys(es)[j] == k;
      assert Keys(es') == Keys(es);
    } else {
      assert k !in Keys(es);
      assert Keys(es') == Keys(es) + [k];
    }
  }

  lemma KeysDistinct(es: seq<Entry>, j: nat)
    requires Distinct(es) && j < |es|
    ensures Keys(es)[j] !in Keys(es)[..j] && Keys(es)[j] !in Keys(es)[j + 1..]
  {
    hide Fold;
  }

  lemma RemoveKeepsDistinct(es: seq<Entry>, j: nat)
    requires Distinct(es) && j < |es|
    ensures Distinct(es[..j] + es[j + 1..])
  {
    hide Fold;
  }

  /** The keys that are left. */
  lemma RemovedKeys(es: seq<Entry>, key: seq<byte>)
    requires Distinct(es) && Find(es, key) < |es|
    ensures var k, j, ks := Fold(key), Find(es, key), Keys(es);
            var ks' := Keys(Removed(es, key));
            && Removed(es, key) == es[..j] + es[j + 1..]
            && ks' == ks[..j] + ks[j + 1..] && ks' == Without(ks, k)
            && k !in ks' && (forall x :: x in ks <==> x in ks' || x == k)
  {
    hide Fold, Without, Distinct, Keys;
    var j, ks := Find(es, key), Keys(es);
    KeysWithout(es, j);
    KeysDistinct(es, j);
    WithoutOne(ks, j);
    TakenOut(ks, j);
  }

  lemma TakenOut(ks: seq<seq<byte>>, j: nat)
    requires j < |ks| && ks[j] !in ks[..j] && ks[j] !in ks[j + 1..]
    ensures var ks' := ks[..j] + ks[j + 1..];
            ks[j] !in ks' && forall x :: x in ks <==> x in ks' || x == ks[j]
  {
    assert ks == ks[..j] + [ks[j]] + ks[j + 1..];
  }

  lemma KeysWithout(es: seq<Entry>, j: nat)
    requires j < |es|
    ensures Keys(es)[j] == Fold(es[j].key)
    ensures Keys(es[..j] + es[j + 1..]) == Keys(es)[..j] + Keys(es)[j + 1..]
  {
    hide Fold;
  }

  /** An entry is in the map. */
  ghost predicate Holds(r: Reference, e: Entry) {
    Fold(e.key) in r.m && r.m[Fold(e.key)] == e.value
  }

  lemma RemovedHold(es: seq<Entry>, r: Reference, j: nat, k: seq<byte>)
    requires j < |es| && (forall i :: 0 <= i < |es| ==> Holds(r, es[i]))
    requires k !in Keys(es[..j] + es[j + 1..])
    ensures var es' := es[..j] + es[j + 1..];
            forall i :: 0 <= i < |es'| ==> Holds(Reference(r.order, r.m - {k}), es'[i])
  {
    hide Fold;
    var es' := es[..j] + es[j + 1..];
    forall i | 0 <= i < |es'|
      ensures Holds(Reference(r.order, r.m - {k}), es'[i])
    {
      assert Holds(r, es[if i < j then i else i + 1]);
      assert Keys(es')[i] == Fold(es'[i].key);
    }
  }

  lemma RemoveRefines(es: seq<Entry>, r: Reference, key: seq<byte>)
    requires Refines(es, r)
    ensures Refines(Removed(es, key), ReferenceOp(r, Remove(key)))
  {
    hide Fold, Without, Distinct, Keys, Holds, Find;
    var k, j := Fold(key), Find(es, key);
    if j < |es| {
      RemovedKeys(es, key);
      RemovedHold(es, r, j, k);
      RemoveKeepsDistinct(es, j);
      var r' := ReferenceOp(r, Remove(key));
      SameHolds(r', Reference(r.order, r.m - {k}));
    } else {
      NotThere(es, key);
      WithoutAbsent(Keys(es), k);
      assert r.m - {k} == r.m;
    }
  }

  lemma SameHolds(r: Reference, r': Reference)
    requires r.m == r'.m
    ensures forall e :: Holds(r, e) <==> Holds(r', e)
  {
  }

  lemma NotThere(es: seq<Entry>, key: seq<byte>)
    requires Find(es, key) == |es|
    ensures Fold(key) !in Keys(es)
  {
    hide Fold;
  }

  lemma LookupRefines(es: seq<Entry>, r: Reference, key: seq<byte>)
    requires Refines(es, r)
    ensures Find(es, key) < |es| <==> Fold(key) in r.m
    ensures Find(es, key) < |es| ==> es[Find(es, key)].value == r.m[Fold(key)]
  {
    hide Fold;
    if Fold(key) in r.m {
      var i :| 0 <= i < |es| && Keys(es)[i] == Fold(key);
    }
  }

  function RunArray(ops: seq<Op>): seq<Entry> {
    if ops == [] then [] else ArrayOp(RunArray(ops[..|ops| - 1]), ops[|ops| - 1])
  }

  function RunReference(ops: seq<Op>): Reference {
    if ops == [] then Reference([], map[]) else ReferenceOp(RunReference(ops[..|ops| - 1]), ops[|ops| - 1])
  }

  /** After any run of inserts and removes, the array is a list of distinct
      keys in order of arrival, and a lookup finds what the map holds. */
  lemma {:induction false} RunRefines(ops: seq<Op>)
    ensures Refines(RunArray(ops), RunReference(ops))
  {
    if ops != [] {
      var init, op := ops[..|ops| - 1], ops[|ops| - 1];
      RunRefines(init);
      match op
      case Insert(key, v) => InsertRefines(RunArray(init), RunReference(init), key, v);
      case Remove(key) => RemoveRefines(RunArray(init), RunReference(init), key);
    }
  }

  /** So no two keys are the same but for their case. */
  lemma RunKeysDiffer(ops: seq<Op>)
    ensures var es := RunArray(ops);
            forall i, j :: 0 <= i < j < |es| ==> !SameKey(es[i].key, es[j].key)
  {
    hide Fold, SameKey, Keys;
    RunRefines(ops);
    var es := RunArray(ops);
    forall i, j | 0 <= i < j < |es|
      ensures !SameKey(es[i].key, es[j].key)
    {
      FoldIff(es[i].key, es[j].key);
    }
  }
}
