/** hw1: `path_buf` and `path_length`, changed in place. */
module PathBuffers {
  import opened Bytes
  import opened Paths
  import opened TransplantFormat

  class PathBuffer {
    const buf: array<byte>
    var length: int

    ghost predicate Valid()
      reads this, buf
    {
      buf.Length == PATH_MAX && 0 in buf[..]
    }

    /** The path the buffer holds as a C string. */
    ghost function Value(): (p: Path)
      reads this, buf
      ensures 0 !in p
    {
      CStr(buf[..])
    }

    /** A zeroed buffer into which `path_init` has copied `name`. */
    constructor (name: seq<byte>)
      requires |name| + 2 <= PATH_MAX && 0 !in name
      ensures Valid() && fresh(buf) && Value() == name && length == |name|
    {
      buf := new byte[PATH_MAX](i requires 0 <= i < PATH_MAX => if i < |name| then name[i] else 0);
      length := |name|;
      new;
      assert buf[..][|name|] == 0;
      CStrOf(buf[..], name);
    }

    /** `str_length(path_buf)` */
    method StrLength() returns (n: nat)
      requires Valid()
      ensures n == |Value()| < PATH_MAX && buf[n] == 0 && buf[..n] == Value()
    {
      n := 0;
      while buf[n] != 0
        invariant n < buf.Length && 0 !in buf[..n] && 0 in buf[n..]
        decreases buf.Length - n
      {
        n := n + 1;
      }
      CStrOf(buf[..], buf[..n]);
    }

    /** `path_push`; `name` is a C string, ending at its first NUL. */
    method Push(name: seq<byte>) returns (rc: int)
      requires Valid() && 0 in name
      requires |Join(Value(), CStr(name))| < PATH_MAX
      modifies this, buf
      ensures Valid() && rc == 1
      ensures Value() == Join(old(Value()), CStr(name))
      ensures length == old(length) + |CStr(name)| + 1
    {
      ghost var target := Join(Value(), CStr(name));
      var at := StrLength();
      buf[at] := SLASH;
      var i := 1;
      assert buf[..at + i] == target[..at + i];
      while name[i - 1] != 0
        invariant 1 <= i <= |CStr(name)| + 1 <= |name|
        invariant buf[..at + i] == target[..at + i] && length == old(length)
        decreases |name| - i
      {
        buf[at + i] := name[i - 1];
        i := i + 1;
      }
      buf[at + i] := 0;
      length := length + i;
      assert buf[..][at + i] == 0;
      assert target[..at + i] == target;
      CStrOf(buf[..], target);
      return 1;
    }

    /** `path_pop`: the '/' goes uncounted in `length`, and without a '/' one character stays. */
    method Pop() returns (rc: int)
      requires Valid()
      modifies this, buf
      ensures Valid()
      ensures Value() == Paths.Pop(old(Value()))
      ensures rc == (if old(Value()) == [] then -1 else 0)
      ensures var v := old(Value());
              length == old(length) - (if v == [] then 0 else |v| - 1 - (if LastSlash(v) < 0 then 0 else LastSlash(v)))
    {
      ghost var v := Value();
      var n := StrLength();
      if n == 0 {
        return -1;
      }
      var i := n - 1;
      while buf[i] != SLASH && i != 0
        invariant 0 <= i < n && buf[i + 1] == 0 && buf[..i + 1] == v[..i + 1]
        invariant forall j | i < j < n :: v[j] != SLASH
        invariant length == old(length) - (n - 1 - i)
        decreases i
      {
        buf[i] := buf[i + 1];
        length := length - 1;
        i := i - 1;
      }
      assert v[i] == buf[..i + 1][i];
      LastSlashIs(v, i);
      if buf[i] == SLASH {
        buf[i] := buf[i + 1];
        assert buf[..][i] == 0;
        CStrOf(buf[..], v[..i]);
      } else {
        assert buf[..][1] == 0;
        CStrOf(buf[..], v[..1]);
      }
      return 0;
    }
  }

  lemma LastSlashIs(v: Path, i: nat)
    requires i < |v| && (forall j | i < j < |v| :: v[j] != SLASH)
    ensures v[i] == SLASH ==> LastSlash(v) == i
    ensures v[i] != SLASH && i == 0 ==> LastSlash(v) == -1
  {
  }
}
