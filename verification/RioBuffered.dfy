/** hw5, csapp: buffered robust input. */
module RioBuffered {
  import opened Bytes
  import opened Integers
  import opened Rio
  import opened RioLines

  const RIO_BUFSIZE := 8192

  class RioBuffer {
    const fd: Source
    const buf: array<byte>
    var cnt: int
    var ptr: nat

    ghost predicate Valid()
      reads this, fd, buf
    {
      buf.Length == RIO_BUFSIZE && -1 <= cnt && ptr + (if cnt > 0 then cnt else 0) <= buf.Length
    }

    /** What the caller has yet to see: the rest of the internal buffer, then the rest of the stream. */
    ghost function Unread(): seq<byte>
      requires Valid()
      reads this, fd, buf
    {
      (if cnt > 0 then buf[..][ptr..ptr + cnt] else []) + fd.stream
    }

    /** `rio_readinitb` */
    constructor (fd: Source)
      ensures Valid() && Unread() == fd.stream && this.fd == fd && fresh(buf)
    {
      this.fd, cnt, ptr := fd, 0, 0;
      buf := new byte[RIO_BUFSIZE](_ => 0);
    }

    /** The loop of `rio_read`: refills an empty buffer. 0 means end of file. */
    method Refill() returns (rc: int)
      requires Valid()
      modifies this, fd, buf
      ensures Valid() && Unread() == old(Unread()) && (rc == -1 || rc == 0 || (rc == 1 && cnt > 0))
      ensures rc == 0 ==> Unread() == []
      ensures NoHardError(old(fd.schedule)) ==> NoHardError(fd.schedule) && rc >= 0
    {
      ghost var unread := Unread();
      while cnt <= 0
        invariant Valid() && Unread() == unread
        invariant NoHardError(old(fd.schedule)) ==> NoHardError(fd.schedule)
        decreases |fd.schedule|, if cnt <= 0 then 1 else 0
      {
        ghost var s := fd.stream;
        var nread, eintr := fd.Read(buf, 0, RIO_BUFSIZE);
        cnt := nread;
        if cnt < 0 {
          if !eintr {
            return -1;
          }
        } else if cnt == 0 {
          return 0;
        } else {
          ptr := 0;
          assert buf[..][0..cnt] == s[..cnt];
        }
      }
      return 1;
    }

    /** The end of `rio_read`: hands over what there is of `n` bytes. */
    method CopyOut(usr: array<byte>, off: nat, n: nat) returns (k: nat)
      requires Valid() && cnt > 0 && off + n <= usr.Length && n > 0 && usr != buf
      modifies this, usr
      ensures Valid() && 0 < k <= n && k <= |old(Unread())|
      ensures Unread() == old(Unread())[k..] && usr[..] == Overlay(old(usr[..]), off, old(Unread())[..k])
    {
      k := if cnt < n then cnt else n;
      TakeFront(buf[..], ptr, cnt, k, fd.stream);
      CopyBytes(usr, off, buf, ptr, k);
      ptr, cnt := ptr + k, cnt - k;
    }

    /** `rio_read`: at most `n` bytes to `usr` at `off`; -1 for a hard error. */
    method RioRead(usr: array<byte>, off: nat, n: nat) returns (rc: int)
      requires Valid() && off + n <= usr.Length && n > 0 && usr != buf
      modifies this, fd, buf, usr
      ensures Valid() && -1 <= rc <= n
      ensures rc <= 0 ==> Unread() == old(Unread()) && usr[..] == old(usr[..])
      ensures rc == 0 ==> Unread() == []
      ensures rc > 0 ==> rc <= |old(Unread())| && Unread() == old(Unread())[rc..]
      ensures rc > 0 ==> usr[..] == Overlay(old(usr[..]), off, old(Unread())[..rc])
      ensures NoHardError(old(fd.schedule)) ==> NoHardError(fd.schedule) && rc >= 0
    {
      var r := Refill();
      if r <= 0 {
        return r;
      }
      rc := CopyOut(usr, off, n);
    }

    /** `rio_readnb` */
    method RioReadNB(usr: array<byte>, n: nat) returns (rc: int)
      requires Valid() && n <= usr.Length && usr != buf
      modifies this, fd, buf, usr
      ensures Valid()
      ensures rc >= 0 ==> rc == Min(n, |old(Unread())|) && Got(old(usr[..]), old(Unread()), rc, usr[..], Unread())
      ensures rc < 0 ==> rc == -1 && exists k: nat :: k <= n && Got(old(usr[..]), old(Unread()), k, usr[..], Unread())
      ensures NoHardError(old(fd.schedule)) ==> NoHardError(fd.schedule) && rc >= 0
    {
      ghost var s, b := Unread(), usr[..];
      var nleft, at := n, 0;
      OverlayNothing(b, 0);
      while nleft > 0
        invariant 0 <= at <= n && nleft + at == n && Valid() && Got(b, s, at, usr[..], Unread())
        invariant NoHardError(old(fd.schedule)) ==> NoHardError(fd.schedule)
        decreases nleft
      {
        var nread := TakeSome(usr, at, nleft, b, s);
        if nread < 0 {
          return -1;
        } else if nread == 0 {
          break;
        }
        nleft, at := nleft - nread, at + nread;
      }
      return n - nleft;
    }

    /** One call of `rio_read` for a caller that has got `at` of the bytes `s` into its buffer. */
    method TakeSome(usr: array<byte>, at: nat, n: nat, ghost b: seq<byte>, ghost s: seq<byte>) returns (nread: int)
      requires Valid() && at + n <= usr.Length == |b| && n > 0 && usr != buf && Got(b, s, at, usr[..], Unread())
      modifies this, fd, buf, usr
      ensures Valid() && -1 <= nread <= n
      ensures Got(b, s, if nread < 0 then at else at + nread, usr[..], Unread())
      ensures nread == 0 ==> at == |s|
      ensures NoHardError(old(fd.schedule)) ==> NoHardError(fd.schedule) && nread >= 0
    {
      ghost var b1, s1 := usr[..], Unread();
      nread := RioRead(usr, at, n);
      if nread > 0 {
        GotMore(b, s, at, b1, s1, nread);
      }
    }

    /** Reads one character into `c` and, when there is one, stores it as the caller's next. */
    method TakeChar(usr: array<byte>, at: nat, c: array<byte>, ghost b: seq<byte>, ghost s: seq<byte>) returns (r: int)
      requires Valid() && at < usr.Length == |b| && usr != buf && c != buf && c != usr && c.Length == 1
      requires Got(b, s, at, usr[..], Unread())
      modifies this, fd, buf, usr, c
      ensures Valid() && -1 <= r <= 1 && Got(b, s, if r == 1 then at + 1 else at, usr[..], Unread())
      ensures r == 1 ==> at < |s| && c[0] == s[at]
      ensures r == 0 ==> Unread() == []
      ensures NoHardError(old(fd.schedule)) ==> NoHardError(fd.schedule) && r >= 0
    {
      ghost var b1, s1, c1 := usr[..], Unread(), c[..];
      r := RioRead(c, 0, 1);
      if r == 1 {
        OneByte(c1, s1);
        StoreByte(usr, at, c[0]);
        GotMore(b, s, at, b1, s1, 1);
      }
    }

    /** `at` characters, none of them a newline, are in the caller's buffer. */
    ghost predicate InLine(usr: array<byte>, at: nat, b: seq<byte>, s: seq<byte>)
      requires Valid()
      reads this, fd, buf, usr
    {
      Got(b, s, at, usr[..], Unread()) && NoNewline(s, at)
    }

    /** One turn of the loop of `rio_readlineb`. */
    method NextChar(usr: array<byte>, at: nat, c: array<byte>, ghost maxlen: nat, ghost b: seq<byte>,
                    ghost s: seq<byte>)
      returns (r: int)
      requires Valid() && usr != buf && c != buf && c != usr && c.Length == 1
      requires at + 1 < maxlen <= usr.Length == |b| && InLine(usr, at, b, s)
      modifies this, fd, buf, usr, c
      ensures Valid() && -1 <= r <= 1
      ensures r == 1 && c[0] != NEWLINE ==> InLine(usr, at + 1, b, s)
      ensures r == 1 && c[0] == NEWLINE ==> LineAt(usr, at + 1, maxlen, b, s)
      ensures r == 0 ==> LineAt(usr, at, maxlen, b, s)
      ensures r == 0 && at == 0 ==> LineRead(b, s, maxlen, 0, usr[..], Unread())
      ensures r == -1 ==> LineRead(b, s, maxlen, -1, usr[..], Unread())
      ensures NoHardError(old(fd.schedule)) ==> NoHardError(fd.schedule) && r >= 0
    {
      r := TakeChar(usr, at, c, b, s);
      if r == 0 && at == 0 {
        NoLine(b, s, maxlen, usr[..], Unread());
      } else if r == -1 {
        BrokenLine(b, s, maxlen, at, usr[..], Unread());
      }
    }

    /** The first `at` characters of the input are in the caller's buffer and are what it should get. */
    ghost predicate LineAt(usr: array<byte>, at: nat, maxlen: nat, b: seq<byte>, s: seq<byte>)
      requires Valid()
      reads this, fd, buf, usr
    {
      Got(b, s, at, usr[..], Unread()) && LineEnds(s, Room(maxlen), at)
    }

    method EndLine(usr: array<byte>, at: nat, ghost maxlen: nat, ghost b: seq<byte>, ghost s: seq<byte>)
      returns (rc: nat)
      requires Valid() && usr != buf && at < usr.Length == |b| && maxlen <= |b|
      requires LineAt(usr, at, maxlen, b, s) && (at == 0 ==> maxlen <= 1)
      modifies usr
      ensures Valid() && rc == at && LineRead(b, s, maxlen, rc, usr[..], Unread())
    {
      StoreByte(usr, at, 0);
      OverlayTwice(b, 0, s[..at], [0]);
      return at;
    }

    /** The loop of `rio_readlineb`, which returns -1 or the number of characters taken. */
    method FillLine(usr: array<byte>, maxlen: nat) returns (rc: int)
      requires Valid() && 1 <= usr.Length && maxlen <= usr.Length && usr != buf
      modifies this, fd, buf, usr
      ensures Valid() && -1 <= rc
      ensures rc >= 0 ==> LineAt(usr, rc, maxlen, old(usr[..]), old(Unread()))
      ensures rc == -1 || (rc == 0 && maxlen > 1) ==>
        LineRead(old(usr[..]), old(Unread()), maxlen, rc, usr[..], Unread())
      ensures NoHardError(old(fd.schedule)) ==> NoHardError(fd.schedule) && rc >= 0
    {
      ghost var s, b := Unread(), usr[..];
      var at, c := 0, new byte[1];
      OverlayNothing(b, 0);
      while at + 1 < maxlen
        invariant at <= Room(maxlen) && Valid() && fresh(c) && InLine(usr, at, b, s)
        invariant NoHardError(old(fd.schedule)) ==> NoHardError(fd.schedule)
      {
        var r := NextChar(usr, at, c, maxlen, b, s);
        if r < 1 {
          return if r == 0 then at else -1;
        }
        at := at + 1;
        if c[0] == NEWLINE {
          break;
        }
      }
      return at;
    }

    /** `rio_readlineb`; the terminating NUL is written even if `maxlen` is 0. */
    method RioReadLineB(usr: array<byte>, maxlen: nat) returns (rc: int)
      requires Valid() && 1 <= usr.Length && maxlen <= usr.Length && usr != buf
      modifies this, fd, buf, usr
      ensures Valid()
      ensures LineRead(old(usr[..]), old(Unread()), maxlen, rc, usr[..], Unread())
      ensures NoHardError(old(fd.schedule)) ==> NoHardError(fd.schedule) && rc >= 0
    {
      ghost var s, b := Unread(), usr[..];
      rc := FillLine(usr, maxlen);
      if rc > 0 || (rc == 0 && maxlen <= 1) {
        rc := EndLine(usr, rc, maxlen, b, s);
      }
    }
  }

  /** memcpy */
  method CopyBytes(to: array<byte>, off: nat, from: array<byte>, at: nat, n: nat)
    requires to != from && off + n <= to.Length && at + n <= from.Length
    modifies to
    ensures to[..] == Overlay(old(to[..]), off, from[..][at..at + n])
  {
    forall i | 0 <= i < n {
      to[off + i] := from[at + i];
    }
  }

  method StoreByte(to: array<byte>, off: nat, c: byte)
    requires off < to.Length
    modifies to
    ensures to[..] == Overlay(old(to[..]), off, [c])
  {
    to[off] := c;
  }

  lemma OneByte(b: seq<byte>, s: seq<byte>)
    requires |b| == 1 && s != []
    ensures Overlay(b, 0, s[..1])[0] == s[0] && s[..1] == [s[0]]
  {
  }

  lemma TakeFront(p: seq<byte>, ptr: nat, cnt: nat, k: nat, rest: seq<byte>)
    requires ptr + cnt <= |p| && k <= cnt
    ensures (p[ptr..ptr + cnt] + rest)[..k] == p[ptr..ptr + k]
    ensures (p[ptr..ptr + cnt] + rest)[k..] == p[ptr + k..ptr + cnt] + rest
  {
  }
}
