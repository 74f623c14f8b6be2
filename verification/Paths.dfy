/** Path strings of hw1: components joined by '/'. */
module Paths {
  import opened Bytes

  const SLASH: byte := 0x2F
  const DOT: byte := 0x2E

  type Path = seq<byte>

  function Join(p: Path, name: seq<byte>): Path {
    p + [SLASH] + name
  }

  /** Index of the last '/', or -1. */
  function LastSlash(p: Path): (r: int)
    ensures -1 <= r < |p|
    ensures r >= 0 ==> p[r] == SLASH
    ensures forall i | r < i < |p| :: p[i] != SLASH
  {
    if p == [] then -1
    else if p[|p| - 1] == SLASH then |p| - 1
    else LastSlash(p[..|p| - 1])
  }

  /** What `path_pop` leaves behind. Without a '/', the first character survives. */
  function Pop(p: Path): Path {
    if LastSlash(p) >= 0 then p[..LastSlash(p)]
    else if p == [] then []
    else p[..1]
  }

  /** need_ignore: the two names by which a directory lists itself and its parent. */
  predicate Ignored(name: seq<byte>) {
    name == [DOT] || name == [DOT, DOT]
  }

  /** The name of an entry of a directory. */
  predicate IsName(n: seq<byte>) {
    n != [] && SLASH !in n && 0 !in n && !Ignored(n)
  }

  lemma LastSlashJoin(p: Path, name: seq<byte>)
    ensures LastSlash(Join(p, name)) == |p| + 1 + LastSlash(name)
  {
    var q, k := Join(p, name), LastSlash(name);
    assert q[|p|] == SLASH && (k >= 0 ==> q[|p| + 1 + k] == SLASH);
    forall i | |p| + 1 + k < i < |q| ensures q[i] != SLASH {
      assert q[i] == name[i - |p| - 1];
    }
  }

  lemma PopJoin(p: Path, name: seq<byte>)
    requires SLASH !in name
    ensures LastSlash(Join(p, name)) == |p|
    ensures Pop(Join(p, name)) == p
  {
    LastSlashJoin(p, name);
  }

  /** A joined path up to the last '/' of the name. */
  lemma JoinPrefix(p: Path, name: seq<byte>)
    requires LastSlash(name) >= 0
    ensures var k := LastSlash(name);
            && Join(p, name)[..|p| + 1 + k] == Join(p, name[..k])
            && Join(p, name)[|p| + 1 + k + 1..] == name[k + 1..]
  {
  }

  /** path_pop takes off only the last component of a name with '/'s in it. */
  lemma PopJoined(p: Path, name: seq<byte>)
    ensures var k := LastSlash(name);
            Pop(Join(p, name)) == if k < 0 then p else Join(p, name[..k])
  {
    LastSlashJoin(p, name);
    if LastSlash(name) < 0 {
      PopJoin(p, name);
    } else {
      JoinPrefix(p, name);
    }
  }

  /** A path without the '/'s at its end. */
  function Strip(p: Path): (r: Path)
    ensures r <= p && (r != [] ==> r[|r| - 1] != SLASH)
  {
    if p != [] && p[|p| - 1] == SLASH then Strip(p[..|p| - 1]) else p
  }

  lemma {:induction false} StripJoin(p: Path, name: seq<byte>)
    ensures Strip(Join(p, name)) == if Strip(name) == [] then Strip(p) else Join(p, Strip(name))
  {
    if name == [] {
      assert Join(p, name)[..|p|] == p;
    } else {
      var q, shorter := Join(p, name), name[..|name| - 1];
      assert q[|q| - 1] == name[|name| - 1];
      assert q[..|q| - 1] == Join(p, shorter);
      StripJoin(p, shorter);
    }
  }
}
