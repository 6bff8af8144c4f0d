/** Is a string a valid DNS host name (_SC_stringIsValidDNSName)? */
module DnsName {

  const NUL := '\0'

  predicate IsAlnum(c: char) {
    'a' <= c <= 'z' || 'A' <= c <= 'Z' || '0' <= c <= '9'
  }

  /** The parts of a name between its dots. */
  function Labels(s: string): (ls: seq<string>)
    ensures |ls| > 0
  {
    if s == [] then [[]]
    else
      var ls := Labels(s[1..]);
      if s[0] == '.' then [[]] + ls else [[s[0]] + ls[0]] + ls[1..]
  }

  function Join(ls: seq<string>): string {
    if ls == [] then [] else if |ls| == 1 then ls[0] else ls[0] + "." + Join(ls[1..])
  }

  /** Labels takes a name apart at its dots: it loses nothing and leaves none. */
  lemma {:induction false} LabelsSplit(s: string)
    ensures Join(Labels(s)) == s
    ensures forall i :: 0 <= i < |Labels(s)| ==> '.' !in Labels(s)[i]
  {
    if s != [] {
      LabelsSplit(s[1..]);
      var ls := Labels(s[1..]);
      if s[0] == '.' {
        assert ([[]] + ls)[1..] == ls;
      } else {
        assert ([[s[0]] + ls[0]] + ls[1..])[1..] == ls[1..];
      }
    }
  }

  /** Section 2.1 of RFC 1123: letters, digits and interior hyphens. */
  predicate IsLabel(l: string) {
    && l != [] && IsAlnum(l[0]) && IsAlnum(l[|l| - 1])
    && forall i :: 0 <= i < |l| ==> IsAlnum(l[i]) || l[i] == '-'
  }

  predicate AllLabels(ls: seq<string>) {
    forall i :: 0 <= i < |ls| ==> IsLabel(ls[i])
  }

  predicate IsHostName(s: string) {
    AllLabels(Labels(s))
  }

  /** What the scanner demands of the character ch between prev and next. */
  predicate Fits(prev: char, ch: char, next: char) {
    IsAlnum(ch) ||
    (!(prev == '.' || prev == NUL) && !(next == NUL || next == '.') && (ch == '.' || ch == '-'))
  }

  function Next(s: string, i: nat): char {
    if i + 1 < |s| then s[i + 1] else NUL
  }

  /** The rest of a name is acceptable after prev. */
  predicate Scans(prev: char, s: string)
    decreases |s|
  {
    s == [] || (Fits(prev, s[0], Next(s, 0)) && Scans(s[0], s[1..]))
  }

  /** The labels of a name, when the first is the end of one that has begun. */
  predicate IsRest(l: string) {
    && (l != [] ==> IsAlnum(l[|l| - 1]))
    && forall i :: 0 <= i < |l| ==> IsAlnum(l[i]) || l[i] == '-'
  }

  lemma LabelMore(c: char, l: string)
    ensures IsLabel([c] + l) <==> IsAlnum(c) && IsRest(l)
    ensures l != [] ==> (IsRest([c] + l) <==> (IsAlnum(c) || c == '-') && IsRest(l))
    ensures IsRest([c]) <==> IsAlnum(c)
    ensures IsLabel(l) ==> IsRest(l)
  {
    var m := [c] + l;
    assert m[0] == c && m[1..] == l;
    assert l != [] ==> m[|m| - 1] == l[|l| - 1];
    assert forall i :: 0 <= i < |l| ==> m[i + 1] == l[i];
    assert [c][0] == c;
  }

  lemma AllMore(l: string, ls: seq<string>)
    ensures AllLabels([l] + ls) <==> IsLabel(l) && AllLabels(ls)
  {
    var all := [l] + ls;
    assert all[0] == l;
    assert forall i :: 0 <= i < |ls| ==> all[i + 1] == ls[i];
  }

  predicate AtStart(prev: char) {
    prev == '.' || prev == NUL
  }

  /** What has to follow: at the start of a label, labels; inside one, the end
      of that label and labels. */
  predicate Follows(prev: char, ls: seq<string>)
    requires |ls| > 0
  {
    (if AtStart(prev) then IsLabel(ls[0]) else IsRest(ls[0])) && AllLabels(ls[1..])
  }

  lemma LabelsOf(s: string)
    requires s != []
    ensures var ls := Labels(s[1..]);
            Labels(s) == if s[0] == '.' then [[]] + ls else [[s[0]] + ls[0]] + ls[1..]
    ensures Next(s, 0) == if s[1..] == [] then NUL else s[1..][0]
    ensures s[1..] == [] || s[1] == '.' ==> Labels(s[1..])[0] == []
  {
    assert Labels([]) == [[]];
  }

  /** No character is NUL. */
  predicate Plain(s: string) {
    forall i :: 0 <= i < |s| ==> s[i] != NUL
  }

  lemma AfterDot(prev: char, s: string)
    requires Plain(s) && s != [] && s[0] == '.'
    requires s[1..] != [] ==> (Scans('.', s[1..]) <==> Follows('.', Labels(s[1..])))
    ensures Scans(prev, s) <==> Follows(prev, Labels(s))
  {
    hide Labels, AllLabels;
    var ls := Labels(s[1..]);
    LabelsOf(s);
    assert ls == [ls[0]] + ls[1..] && Labels(s)[1..] == ls;
    AllMore(ls[0], ls[1..]);
  }

  lemma AfterChar(prev: char, s: string)
    requires Plain(s) && s != [] && s[0] != '.'
    requires Scans(s[0], s[1..]) <==> Follows(s[0], Labels(s[1..]))
    ensures Scans(prev, s) <==> Follows(prev, Labels(s))
  {
    hide Labels, AllLabels, IsLabel, IsRest;
    var ls := Labels(s[1..]);
    LabelsOf(s);
    LabelMore(s[0], ls[0]);
    assert Labels(s)[1..] == ls[1..];
    if s[1..] == [] || s[1] == '.' {
      assert [s[0]] + ls[0] == [s[0]];
      RestEmpty();
    } else {
      FirstLabel(s[1..]);
    }
  }

  lemma RestEmpty()
    ensures IsRest([])
  {
  }

  lemma FirstLabel(s: string)
    requires s != [] && s[0] != '.'
    ensures Labels(s)[0] != []
  {
  }

  lemma {:induction false} ScansIff(prev: char, s: string)
    requires Plain(s) && (s != [] || !AtStart(prev))
    ensures Scans(prev, s) <==> Follows(prev, Labels(s))
    decreases |s|
  {
    hide IsLabel;
    if s != [] {
      if s[0] == '.' {
        if s[1..] != [] {
          ScansIff('.', s[1..]);
        }
        AfterDot(prev, s);
      } else {
        ScansIff(s[0], s[1..]);
        AfterChar(prev, s);
      }
    }
  }

  /** The one-pass scanner accepts a string exactly if splitting it at dots
      gives labels only. */
  method IsValidDnsName(name: string) returns (valid: bool)
    requires Plain(name)
    ensures valid <==> IsHostName(name)
    ensures valid <==> forall i :: 0 <= i < |Labels(name)| ==>
              var l := Labels(name)[i];
              && |l| > 0 && IsAlnum(l[0]) && IsAlnum(l[|l| - 1])
              && forall j :: 0 <= j < |l| ==> IsAlnum(l[j]) || l[j] == '-'
  {
    if |name| == 0 {
      assert Labels(name)[0] == [];
      return false;
    }
    ScansIff(NUL, name);
    assert Labels(name) == [Labels(name)[0]] + Labels(name)[1..];
    AllMore(Labels(name)[0], Labels(name)[1..]);
    var i, prev := 0, NUL;
    assert name[0..] == name;
    while i < |name|
      invariant 0 <= i <= |name|
      invariant Scans(NUL, name) <==> Scans(prev, name[i..])
    {
      var ch, next := name[i], Next(name, i);
      assert name[i..][0] == ch && name[i..][1..] == name[i + 1..] && Next(name[i..], 0) == next;
      if prev == '.' || prev == NUL {
        if !IsAlnum(ch) {
          return false;
        }
      } else if next == NUL || next == '.' {
        if !IsAlnum(ch) {
          return false;
        }
      } else if !IsAlnum(ch) {
        if ch != '.' && ch != '-' {
          return false;
        }
      }
      prev, i := ch, i + 1;
    }
    return true;
  }
}
