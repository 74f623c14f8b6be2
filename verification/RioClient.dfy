/** hw5: clients of the robust I/O package, who mix its calls as they like. */
module RioClient {
  import opened Bytes
  import opened Integers
  import opened Rio
  import opened RioLines
  import opened RioBuffered

  datatype Call = ReadBytes(n: nat) | ReadLine(maxlen: nat)

  /** What a call should return when `s` is still to come. */
  function Taken(c: Call, s: seq<byte>): (r: nat)
    ensures r <= |s|
  {
    match c
    case ReadBytes(n) => Min(n, |s|)
    case ReadLine(maxlen) => LineLength(s, Room(maxlen))
  }

  function Chunks(calls: seq<Call>, s: seq<byte>): seq<seq<byte>> {
    if calls == [] then []
    else
      var k := Taken(calls[0], s);
      [s[..k]] + Chunks(calls[1..], s[k..])
  }

  function Left(calls: seq<Call>, s: seq<byte>): seq<byte> {
    if calls == [] then s else Left(calls[1..], s[Taken(calls[0], s)..])
  }

  function Flat(chunks: seq<seq<byte>>): seq<byte> {
    if chunks == [] then [] else chunks[0] + Flat(chunks[1..])
  }

  /** Whatever the calls, they deliver a prefix of the input, in order. */
  lemma {:induction false} ChunksArePrefix(calls: seq<Call>, s: seq<byte>)
    ensures Flat(Chunks(calls, s)) + Left(calls, s) == s
  {
    if calls == [] {
    } else {
      var k := Taken(calls[0], s);
      var rest, left := Chunks(calls[1..], s[k..]), Left(calls[1..], s[k..]);
      ChunksArePrefix(calls[1..], s[k..]);
      FlatFirst(s[..k], rest);
      Rejoined(s, k, Flat(rest), left);
    }
  }

  lemma Rejoined(s: seq<byte>, k: nat, a: seq<byte>, b: seq<byte>)
    requires k <= |s| && a + b == s[k..]
    ensures (s[..k] + a) + b == s
  {
    assert (s[..k] + a) + b == s[..k] + (a + b);
  }

  lemma FlatFirst(chunk: seq<byte>, rest: seq<seq<byte>>)
    ensures Flat([chunk] + rest) == chunk + Flat(rest)
  {
    assert ([chunk] + rest)[1..] == rest;
  }

  /** One call; the bytes delivered are those before the position it returns. */
  method MakeCall(r: RioBuffer, c: Call, usr: array<byte>) returns (chunk: seq<byte>)
    requires r.Valid() && NoHardError(r.fd.schedule) && usr != r.buf
    requires 1 <= usr.Length && (if c.ReadBytes? then c.n else c.maxlen) <= usr.Length
    modifies r, r.fd, r.buf, usr
    ensures r.Valid() && NoHardError(r.fd.schedule)
    ensures chunk == old(r.Unread())[..Taken(c, old(r.Unread()))]
    ensures r.Unread() == old(r.Unread())[Taken(c, old(r.Unread()))..]
    ensures c.ReadLine? && chunk != [] ==> |chunk| < usr.Length && usr[|chunk|] == 0
  {
    ghost var s := r.Unread();
    var rc: int;
    match c {
      case ReadBytes(n) =>
        rc := r.RioReadNB(usr, n);
      case ReadLine(maxlen) =>
        rc := r.RioReadLineB(usr, maxlen);
        LineLengthIs(s, Room(maxlen), rc);
    }
    chunk := usr[..rc];
  }

  /** All the calls, for every split of the input into partial, short and interrupted reads. */
  method MakeCalls(r: RioBuffer, calls: seq<Call>, usr: array<byte>) returns (chunks: seq<seq<byte>>)
    requires r.Valid() && NoHardError(r.fd.schedule) && usr != r.buf && 1 <= usr.Length
    requires forall c :: c in calls ==> (if c.ReadBytes? then c.n else c.maxlen) <= usr.Length
    modifies r, r.fd, r.buf, usr
    ensures r.Valid() && NoHardError(r.fd.schedule)
    ensures chunks == Chunks(calls, old(r.Unread())) && r.Unread() == Left(calls, old(r.Unread()))
    ensures Flat(chunks) + r.Unread() == old(r.Unread())
    decreases |calls|
  {
    ChunksArePrefix(calls, r.Unread());
    chunks := [];
    if calls != [] {
      var first := MakeCall(r, calls[0], usr);
      var rest := MakeCalls(r, calls[1..], usr);
      chunks := [first] + rest;
    }
  }
}
