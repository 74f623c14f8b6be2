/** hw5, csapp: what a line read is, apart from how it is read. */
module RioLines {
  import opened Bytes
  import opened Rio

  const NEWLINE: byte := 10

  /** The line a caller's buffer can take from `maxlen` bytes of room. */
  function Room(maxlen: nat): nat {
    if maxlen == 0 then 0 else maxlen - 1
  }

  /** A buffer `b` with `line` and a NUL at its front. */
  function Terminated(b: seq<byte>, line: seq<byte>): seq<byte>
    requires |line| < |b|
  {
    Overlay(b, 0, line + [0])
  }

  /** Bytes of the first line of `s`, newline included, but at most `m`. */
  function LineLength(s: seq<byte>, m: nat): (r: nat)
    ensures r <= m && r <= |s|
  {
    if s == [] || m == 0 then 0 else if s[0] == NEWLINE then 1 else 1 + LineLength(s[1..], m - 1)
  }

  ghost predicate NoNewline(s: seq<byte>, n: nat) {
    n <= |s| && forall i :: 0 <= i < n ==> s[i] != NEWLINE
  }

  /** A line of at most `m` bytes ends with its first newline, at the limit, or with the input. */
  ghost predicate LineEnds(s: seq<byte>, m: nat, r: nat) {
    r <= m && r <= |s| && NoNewline(s, if r == 0 then 0 else r - 1) &&
    (r == m || r == |s| || (r > 0 && s[r - 1] == NEWLINE))
  }

  lemma {:induction false} LineLengthIs(s: seq<byte>, m: nat, r: nat)
    ensures LineLength(s, m) == r <==> LineEnds(s, m, r)
  {
    if s == [] || m == 0 || r == 0 {
    } else if s[0] != NEWLINE {
      LineLengthIs(s[1..], m - 1, r - 1);
      assert r <= |s| ==> forall i :: 0 < i < r ==> s[i] == s[1..][i - 1];
    }
  }

  /** What `rio_readlineb` returns and leaves, from a buffer `b` and unread input `s`. */
  ghost predicate LineRead(b: seq<byte>, s: seq<byte>, maxlen: nat, rc: int, b': seq<byte>, s': seq<byte>)
    requires b != [] && maxlen <= |b|
  {
    if rc < 0 then
      rc == -1 && |s| < |s'| + maxlen && |s'| <= |s| && Got(b, s, |s| - |s'|, b', s')
    else
      LineEnds(s, Room(maxlen), rc) && s' == s[rc..] &&
      b' == if rc == 0 && maxlen > 1 then b else Terminated(b, s[..rc])
  }

  lemma NoLine(b: seq<byte>, s: seq<byte>, maxlen: nat, b': seq<byte>, s': seq<byte>)
    requires b != [] && 1 < maxlen <= |b| && Got(b, s, 0, b', s') && s' == []
    ensures LineRead(b, s, maxlen, 0, b', s')
  {
    OverlayNothing(b, 0);
  }

  lemma BrokenLine(b: seq<byte>, s: seq<byte>, maxlen: nat, at: nat, b': seq<byte>, s': seq<byte>)
    requires b != [] && at < maxlen <= |b| && Got(b, s, at, b', s')
    ensures LineRead(b, s, maxlen, -1, b', s')
  {
  }
}
