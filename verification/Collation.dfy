/** hw2, ctools: comparing and searching text without regard to case. */
module Collation {

  /** A C `char` on a machine where it is signed. */
  type cchar = x: int | -128 <= x < 128

  type Text = seq<cchar>

  /** to_upper_if_lower in the C locale */
  function Upper(c: cchar): cchar {
    if 97 <= c <= 122 then c - 32 else c
  }

  function UpperCase(s: Text): (r: Text)
    ensures |r| == |s|
  {
    seq(|s|, i requires 0 <= i < |s| => Upper(s[i]))
  }

  /** Upper-case forms have no lower-case letters, and only letters change. */
  lemma UpperForm(c: cchar)
    ensures !(97 <= Upper(c) <= 122) && (Upper(c) != c <==> 97 <= c <= 122)
  {
  }

  /** Two characters have one upper-case form exactly when they are equal or the two cases of one letter. */
  lemma UpperSame(c: cchar, d: cchar)
    ensures Upper(c) == Upper(d) <==> c == d || (97 <= c <= 122 && d == c - 32) || (97 <= d <= 122 && c == d - 32)
  {
  }

  // ----- The order

  /** `s` and `t` agree on their first `k` characters, and then `s` ends or goes on with the smaller character. */
  predicate PrecedesAt(s: Text, t: Text, k: nat) {
    k <= |s| && k < |t| && (forall i | 0 <= i < k :: Upper(s[i]) == Upper(t[i])) &&
    (k == |s| || Upper(s[k]) < Upper(t[k]))
  }

  /** `s` comes before `t` in the alphabet, upper and lower case being the same. */
  ghost predicate Precedes(s: Text, t: Text) {
    exists k: nat :: PrecedesAt(s, t, k)
  }

  /** -1, 0 or 1: the lexicographic order of the upper-case forms. */
  function Compare(s: Text, t: Text): int {
    if s == [] then (if t == [] then 0 else -1)
    else if t == [] then 1
    else if Upper(s[0]) < Upper(t[0]) then -1
    else if Upper(s[0]) > Upper(t[0]) then 1
    else Compare(s[1..], t[1..])
  }

  lemma PrecedesShift(s: Text, t: Text, k: nat)
    requires s != [] && t != [] && Upper(s[0]) == Upper(t[0]) && k > 0
    ensures PrecedesAt(s, t, k) <==> PrecedesAt(s[1..], t[1..], k - 1)
  {
    if PrecedesAt(s[1..], t[1..], k - 1) {
      forall i | 0 <= i < k ensures Upper(s[i]) == Upper(t[i]) {
        assert i > 0 ==> s[i] == s[1..][i - 1] && t[i] == t[1..][i - 1];
      }
    }
  }

  /** What a comparison means for the two texts. */
  lemma {:induction false} CompareMeans(s: Text, t: Text)
    ensures Compare(s, t) == -1 <==> Precedes(s, t)
    ensures Compare(s, t) == 1 <==> Precedes(t, s)
  {
    if s == [] || t == [] || Upper(s[0]) != Upper(t[0]) {
      assert PrecedesAt(s, t, 0) <==> Compare(s, t) == -1;
      assert PrecedesAt(t, s, 0) <==> Compare(s, t) == 1;
    } else {
      CompareMeans(s[1..], t[1..]);
      PrecedesRest(s, t);
      PrecedesRest(t, s);
    }
  }

  lemma PrecedesRest(s: Text, t: Text)
    requires s != [] && t != [] && Upper(s[0]) == Upper(t[0])
    ensures Precedes(s, t) <==> Precedes(s[1..], t[1..])
  {
    if k: nat :| PrecedesAt(s, t, k) {
      PrecedesShift(s, t, k);
    }
    if k: nat :| PrecedesAt(s[1..], t[1..], k) {
      PrecedesShift(s, t, k + 1);
    }
  }

  method NocaseCompare(s1: Text, s2: Text) returns (r: int)
    ensures r == Compare(s1, s2) && -1 <= r <= 1
    ensures r < 0 <==> Precedes(s1, s2)
    ensures r > 0 <==> Precedes(s2, s1)
  {
    CompareMeans(s1, s2);
    CompareReversed(s1, s2);
    var l1, l2 := |s1|, |s2|;
    var len := if l2 > l1 then l1 else l2;
    var j := 0;
    while j < len
      invariant 0 <= j <= len && Compare(s1[j..], s2[j..]) == Compare(s1, s2)
    {
      var ch1, ch2 := Upper(s1[j]), Upper(s2[j]);
      j := j + 1;
      if ch1 != ch2 {
        return if ch1 < ch2 then -1 else 1;
      }
    }
    return if l2 == l1 then 0 else if l1 < l2 then -1 else 1;
  }

  // ----- A total preorder

  lemma {:induction false} CompareReversed(s: Text, t: Text)
    ensures Compare(s, t) == -Compare(t, s)
    ensures -1 <= Compare(s, t) <= 1
  {
    if s == [] || t == [] {
    } else {
      CompareReversed(s[1..], t[1..]);
    }
  }

  lemma {:induction false} CompareTransitive(s: Text, t: Text, u: Text)
    requires Compare(s, t) <= 0 && Compare(t, u) <= 0
    ensures Compare(s, u) <= 0
    ensures Compare(s, t) < 0 || Compare(t, u) < 0 ==> Compare(s, u) < 0
  {
    if s == [] || t == [] || u == [] {
    } else if Upper(s[0]) == Upper(t[0]) == Upper(u[0]) {
      CompareTransitive(s[1..], t[1..], u[1..]);
    }
  }

  lemma {:induction false} CompareZero(s: Text, t: Text)
    ensures Compare(s, t) == 0 <==> UpperCase(s) == UpperCase(t)
  {
    if s == [] || t == [] {
    } else {
      CompareZero(s[1..], t[1..]);
      assert UpperCase(s)[0] == Upper(s[0]) && UpperCase(t)[0] == Upper(t[0]);
      assert UpperCase(s)[1..] == UpperCase(s[1..]) && UpperCase(t)[1..] == UpperCase(t[1..]);
      assert UpperCase(s) == [Upper(s[0])] + UpperCase(s)[1..];
      assert UpperCase(t) == [Upper(t[0])] + UpperCase(t)[1..];
    }
  }

  // ----- Substring search

  predicate MatchesAt(s: Text, p: Text, i: nat) {
    i + |p| <= |s| && forall j | 0 <= j < |p| :: Upper(s[i + j]) == Upper(p[j])
  }

  /** `p` occurs in `s` up to case. */
  ghost predicate Occurs(p: Text, s: Text) {
    exists a: Text, b: Text, c: Text :: s == a + b + c && Compare(b, p) == 0
  }

  /** `strncsearch`: the offset of the leftmost match, -1 for a null pointer. */
  method StrNCSearch(s1: Text, s2: Text) returns (at: int)
    ensures at >= 0 ==> MatchesAt(s1, s2, at) && forall k: nat | k < at :: !MatchesAt(s1, s2, k)
    ensures at < 0 ==> at == -1 && forall k: nat :: !MatchesAt(s1, s2, k)
  {
    var bound := |s1| - |s2|;
    var pc := 0;
    while pc <= bound
      invariant 0 <= pc && forall k: nat | k < pc :: !MatchesAt(s1, s2, k)
    {
      var j := 0;
      while j < |s2| && Upper(s1[pc + j]) == Upper(s2[j])
        invariant 0 <= j <= |s2| && forall i | 0 <= i < j :: Upper(s1[pc + i]) == Upper(s2[i])
      {
        j := j + 1;
      }
      if j == |s2| {
        return pc;
      }
      pc := pc + 1;
    }
    return -1;
  }

  /** Some suffix of `s` starts with a match. */
  predicate Contains(s: Text, p: Text) {
    MatchesAt(s, p, 0) || (s != [] && Contains(s[1..], p))
  }

  lemma {:induction false} ContainsMatch(s: Text, p: Text)
    ensures Contains(s, p) <==> exists i: nat :: MatchesAt(s, p, i)
  {
    if s == [] {
    } else {
      ContainsMatch(s[1..], p);
      if i: nat :| MatchesAt(s, p, i) && i > 0 {
        MatchShift(s, p, i);
      }
      if i: nat :| MatchesAt(s[1..], p, i) {
        MatchShift(s, p, i + 1);
      }
    }
  }

  lemma MatchShift(s: Text, p: Text, i: nat)
    requires s != [] && i > 0
    ensures MatchesAt(s, p, i) <==> MatchesAt(s[1..], p, i - 1)
  {
    if i + |p| <= |s| {
      assert s[i..] == s[1..][i - 1..];
      assert forall j | 0 <= j < |p| :: s[i..][j] == s[i + j] && s[1..][i - 1..][j] == s[1..][i - 1 + j];
    }
  }

  lemma OccurrenceMatches(s: Text, p: Text, a: Text, b: Text, c: Text)
    requires s == a + b + c && Compare(b, p) == 0
    ensures MatchesAt(s, p, |a|)
  {
    assert b == s[|a|..|a| + |b|];
    SliceMatch(s, p, |a|, b);
  }

  lemma MatchOccurs(s: Text, p: Text, i: nat)
    requires MatchesAt(s, p, i)
    ensures Occurs(p, s)
  {
    var a, b, c := s[..i], s[i..i + |p|], s[i + |p|..];
    SliceMatch(s, p, i, b);
    assert s == a + b + c && Compare(b, p) == 0;
  }

  /** Containing the pattern means that some part of the text equals it up to case. */
  lemma ContainsIsOccurrence(s: Text, p: Text)
    ensures Contains(s, p) <==> Occurs(p, s)
  {
    ContainsMatch(s, p);
    if Occurs(p, s) {
      var a: Text, b: Text, c: Text :| s == a + b + c && Compare(b, p) == 0;
      OccurrenceMatches(s, p, a, b, c);
    }
    if i: nat :| MatchesAt(s, p, i) {
      MatchOccurs(s, p, i);
    }
  }

  lemma SliceMatch(s: Text, p: Text, i: nat, b: Text)
    requires i + |b| <= |s| && b == s[i..i + |b|]
    ensures Compare(b, p) == 0 <==> |b| == |p| && MatchesAt(s, p, i)
  {
    CompareZero(b, p);
    assert forall j | 0 <= j < |b| :: UpperCase(b)[j] == Upper(s[i + j]);
    if UpperCase(b) == UpperCase(p) {
      assert |b| == |UpperCase(b)| == |p|;
      assert forall j | 0 <= j < |p| :: UpperCase(b)[j] == Upper(p[j]);
    }
    if |b| == |p| && MatchesAt(s, p, i) {
      assert UpperCase(b) == UpperCase(p);
    }
  }
}
