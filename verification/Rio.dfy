/** hw5, csapp: robust I/O over a kernel that interrupts calls and transfers as few bytes as it likes. */
module Rio {
  import opened Bytes
  import opened Integers

  /** What the kernel does with one read or write call; `AtMost(k)` transfers at most `k` bytes, but at least one. */
  datatype Choice = Interrupted | HardError | AtMost(k: nat)

  /** The rest of the kernel's decisions; when they run out it transfers all it can. */
  type Schedule = seq<Choice>

  predicate NoHardError(s: Schedule) {
    HardError !in s
  }

  /** Bytes transferred by one successful call for `n` bytes of which `avail` can be had. */
  function Transfer(c: Choice, n: nat, avail: nat): nat
    requires c.AtMost?
  {
    Min(Min(n, avail), if c.k == 0 then 1 else c.k)
  }

  /** `s` with `data` written over it from `off` on. */
  function Overlay(s: seq<byte>, off: nat, data: seq<byte>): (r: seq<byte>)
    requires off + |data| <= |s|
    ensures |r| == |s|
  {
    s[..off] + data + s[off + |data|..]
  }

  lemma OverlayTwice(s: seq<byte>, off: nat, a: seq<byte>, b: seq<byte>)
    requires off + |a| + |b| <= |s|
    ensures Overlay(Overlay(s, off, a), off + |a|, b) == Overlay(s, off, a + b)
  {
  }

  lemma OverlayNothing(s: seq<byte>, off: nat)
    requires off <= |s|
    ensures Overlay(s, off, []) == s
  {
  }

  // ----- Descriptors

  class Source {
    var stream: seq<byte>
    var schedule: Schedule

    constructor (stream: seq<byte>, schedule: Schedule)
      ensures this.stream == stream && this.schedule == schedule
    {
      this.stream, this.schedule := stream, schedule;
    }

    /** read(2); -1 for an error, with `eintr` telling which. */
    method Read(buf: array<byte>, off: nat, n: nat) returns (r: int, eintr: bool)
      requires off + n <= buf.Length
      modifies this, buf
      ensures -1 <= r <= n
      ensures r == -1 ==> |schedule| < |old(schedule)| && stream == old(stream) && buf[..] == old(buf[..])
      ensures r >= 0 ==> r <= |old(stream)| && stream == old(stream)[r..] && (r == 0 <==> n == 0 || old(stream) == [])
      ensures r >= 0 ==> buf[..] == Overlay(old(buf[..]), off, old(stream)[..r])
      ensures |schedule| <= |old(schedule)| && (NoHardError(old(schedule)) ==> NoHardError(schedule))
      ensures r == -1 && !eintr ==> !NoHardError(old(schedule))
    {
      var c := AtMost(n + 1);
      if schedule != [] {
        c := schedule[0];
        schedule := schedule[1..];
      }
      eintr := c.Interrupted?;
      if !c.AtMost? {
        return -1, eintr;
      }
      var k := Transfer(c, n, |stream|);
      forall i | 0 <= i < k {
        buf[off + i] := stream[i];
      }
      stream := stream[k..];
      return k, false;
    }
  }

  class Sink {
    var sent: seq<byte>
    var schedule: Schedule

    constructor (schedule: Schedule)
      ensures sent == [] && this.schedule == schedule
    {
      sent, this.schedule := [], schedule;
    }

    /** write(2) of `n` bytes at `off`. */
    method Write(buf: array<byte>, off: nat, n: nat) returns (r: int, eintr: bool)
      requires off + n <= buf.Length && n > 0
      modifies this
      ensures -1 <= r <= n && r != 0
      ensures r == -1 ==> |schedule| < |old(schedule)| && sent == old(sent)
      ensures r > 0 ==> sent == old(sent) + buf[off..off + r]
      ensures |schedule| <= |old(schedule)| && (NoHardError(old(schedule)) ==> NoHardError(schedule))
      ensures r == -1 && !eintr ==> !NoHardError(old(schedule))
    {
      var c := AtMost(n);
      if schedule != [] {
        c := schedule[0];
        schedule := schedule[1..];
      }
      eintr := c.Interrupted?;
      if !c.AtMost? {
        return -1, eintr;
      }
      r := Transfer(c, n, n);
      sent := sent + buf[off..off + r];
      return r, false;
    }
  }

  // ----- Unbuffered

  /** `rio_readn`; after a hard error some bytes are in `buf` and gone from the stream. */
  method RioReadN(fd: Source, buf: array<byte>, n: nat) returns (rc: int)
    requires n <= buf.Length
    modifies fd, buf
    ensures NoHardError(old(fd.schedule)) ==> rc >= 0 && NoHardError(fd.schedule)
    ensures rc >= 0 ==>
      rc == Min(n, |old(fd.stream)|) && Got(old(buf[..]), old(fd.stream), rc, buf[..], fd.stream)
    ensures rc < 0 ==> rc == -1 && exists k: nat :: k <= n && Got(old(buf[..]), old(fd.stream), k, buf[..], fd.stream)
  {
    ghost var s, b := fd.stream, buf[..];
    var nleft, at := n, 0;
    OverlayNothing(b, 0);
    while nleft > 0
      invariant 0 <= at <= n && nleft + at == n && Got(b, s, at, buf[..], fd.stream)
      invariant NoHardError(old(fd.schedule)) ==> NoHardError(fd.schedule)
      decreases nleft + |fd.schedule|
    {
      var nread, eintr := ReadMore(fd, buf, at, nleft, b, s);
      if nread < 0 {
        if !eintr {
          return -1;
        }
        nread := 0;
      } else if nread == 0 {
        break;
      }
      nleft, at := nleft - nread, at + nread;
    }
    return n - nleft;
  }

  /** One read call of `rio_readn`. */
  method ReadMore(fd: Source, buf: array<byte>, at: nat, nleft: nat, ghost b: seq<byte>, ghost s: seq<byte>)
    returns (nread: int, eintr: bool)
    requires at + nleft <= buf.Length == |b| && Got(b, s, at, buf[..], fd.stream) && nleft > 0
    modifies fd, buf
    ensures -1 <= nread <= nleft
    ensures Got(b, s, if nread < 0 then at else at + nread, buf[..], fd.stream)
    ensures nread == 0 ==> at == |s|
    ensures |fd.schedule| <= |old(fd.schedule)| && (nread < 0 ==> |fd.schedule| < |old(fd.schedule)|)
    ensures NoHardError(old(fd.schedule)) ==> NoHardError(fd.schedule) && (nread < 0 ==> eintr)
  {
    ghost var b1, s1 := buf[..], fd.stream;
    nread, eintr := fd.Read(buf, at, nleft);
    if nread >= 0 {
      GotMore(b, s, at, b1, s1, nread);
    }
  }

  /** The first `at` bytes of the stream `s` have gone to the front of the buffer, which held `b`. */
  predicate Got(b: seq<byte>, s: seq<byte>, at: nat, b': seq<byte>, s': seq<byte>) {
    at <= |s| && at <= |b| && s' == s[at..] && b' == Overlay(b, 0, s[..at])
  }

  lemma GotMore(b: seq<byte>, s: seq<byte>, at: nat, b1: seq<byte>, s1: seq<byte>, k: nat)
    requires Got(b, s, at, b1, s1) && k <= |s1| && at + k <= |b|
    ensures Got(b, s, at + k, Overlay(b1, at, s1[..k]), s1[k..])
  {
    OverlayTwice(b, 0, s[..at], s1[..k]);
    assert s[..at] + s1[..k] == s[..at + k];
  }

  /** `rio_writen` */
  method RioWriteN(fd: Sink, buf: array<byte>, n: nat) returns (rc: int)
    requires n <= buf.Length
    modifies fd
    ensures NoHardError(old(fd.schedule)) ==> rc == n && NoHardError(fd.schedule)
    ensures rc == n ==> fd.sent == old(fd.sent) + buf[..n]
    ensures rc != n ==> rc == -1 && exists k: nat :: k <= n && fd.sent == old(fd.sent) + buf[..k]
  {
    var nleft, at := n, 0;
    assert fd.sent == old(fd.sent) + buf[..0];
    while nleft > 0
      invariant 0 <= at <= n && nleft + at == n && fd.sent == old(fd.sent) + buf[..at]
      invariant NoHardError(old(fd.schedule)) ==> NoHardError(fd.schedule)
      decreases nleft + |fd.schedule|
    {
      var nwritten, eintr := fd.Write(buf, at, nleft);
      if nwritten <= 0 {
        if !eintr {
          return -1;
        }
        nwritten := 0;
      }
      assert buf[..at] + buf[at..at + nwritten] == buf[..at + nwritten];
      nleft, at := nleft - nwritten, at + nwritten;
    }
    return n;
  }
}
