/** hw2: read_rolodex works inside the file buffer, ending each field with a NUL in place of its newline. */
module RoloReader {
  import opened CStrings
  import opened Wrappers
  import opened Collation
  import opened RoloList
  import opened RoloFile

  const NUL: cchar := 0

  /** The C string at the start of `s`. */
  function CText(s: Text): (r: Text)
    ensures |r| <= |s| && r == s[..|r|] && NUL !in r && (|r| < |s| ==> s[|r|] == NUL)
  {
    CString(s, NUL)
  }

  /** An entry as offsets of C strings in the buffer. */
  datatype Pointers = Pointers(basic: seq<nat>, others: seq<nat>)

  /** A C string with text `t` starts at offset `p` and ends, with its NUL, before `limit`. */
  predicate Points(buf: Text, limit: nat, p: nat, t: Text) {
    p + |t| < limit <= |buf| && buf[p..p + |t|] == t && NUL !in t && buf[p + |t|] == NUL
  }

  predicate AllPoint(buf: Text, limit: nat, ps: seq<nat>, lines: seq<Text>) {
    |ps| == |lines| && forall i | 0 <= i < |ps| :: Points(buf, limit, ps[i], CText(lines[i]))
  }

  predicate EntryPoints(buf: Text, limit: nat, p: Pointers, e: RoloEntry) {
    AllPoint(buf, limit, p.basic, e.basic) && AllPoint(buf, limit, p.others, e.others)
  }

  predicate EntriesPoint(buf: Text, limit: nat, ps: seq<Pointers>, es: seq<RoloEntry>) {
    |ps| == |es| && forall i | 0 <= i < |ps| :: EntryPoints(buf, limit, ps[i], es[i])
  }

  lemma PointsStable(buf: Text, buf': Text, limit: nat, limit': nat, p: nat, t: Text)
    requires Points(buf, limit, p, t) && limit <= limit' <= |buf'| && buf'[..limit] == buf[..limit]
    ensures Points(buf', limit', p, t)
  {
    assert buf'[p..p + |t|] == buf'[..limit][p..p + |t|] == buf[..limit][p..p + |t|] == buf[p..p + |t|];
    assert buf'[p + |t|] == buf'[..limit][p + |t|] == buf[..limit][p + |t|];
  }

  lemma AllPointStable(buf: Text, buf': Text, limit: nat, limit': nat, ps: seq<nat>, lines: seq<Text>)
    requires AllPoint(buf, limit, ps, lines) && limit <= limit' <= |buf'| && limit <= |buf|
    requires buf'[..limit] == buf[..limit]
    ensures AllPoint(buf', limit', ps, lines)
  {
    forall i | 0 <= i < |ps| ensures Points(buf', limit', ps[i], CText(lines[i])) {
      PointsStable(buf, buf', limit, limit', ps[i], CText(lines[i]));
    }
  }

  lemma EntriesPointStable(buf: Text, buf': Text, limit: nat, limit': nat, ps: seq<Pointers>, es: seq<RoloEntry>)
    requires EntriesPoint(buf, limit, ps, es) && limit <= limit' <= |buf'| && limit <= |buf|
    requires buf'[..limit] == buf[..limit]
    ensures EntriesPoint(buf', limit', ps, es)
  {
    forall i | 0 <= i < |ps| ensures EntryPoints(buf', limit', ps[i], es[i]) {
      AllPointStable(buf, buf', limit, limit', ps[i].basic, es[i].basic);
      AllPointStable(buf, buf', limit, limit', ps[i].others, es[i].others);
    }
  }

  /** Reading a C string through its pointer. */
  lemma Dereference(buf: Text, limit: nat, p: nat, t: Text)
    requires Points(buf, limit, p, t)
    ensures CText(buf[p..]) == t
  {
    assert buf[p..][..|t|] == buf[p..p + |t|];
    CStringIs(buf[p..], t, NUL);
  }

  lemma {:induction false} NoLineEnd(s: Text)
    requires forall i | 0 <= i < |s| :: s[i] != NEWLINE
    ensures LineEnd(s) == |s|
  {
    if s == [] {
    } else {
      NoLineEnd(s[1..]);
    }
  }

  /** Moves to the next newline; fails where the program would leave the buffer. */
  method FindNewline(data: array<cchar>, j: nat) returns (k: nat)
    requires j <= data.Length
    ensures k == j + LineEnd(data[..][j..])
  {
    ghost var s := data[..][j..];
    k := j;
    while k < data.Length && data[k] != NEWLINE
      invariant j <= k <= data.Length && forall i | 0 <= i < k - j :: s[i] != NEWLINE
    {
      k := k + 1;
    }
    if k < data.Length {
      LineEndIs(s, k - j);
    } else {
      NoLineEnd(s);
    }
  }

  /** Replaces the newline at `k` by a NUL. */
  method EndLine(data: array<cchar>, k: nat)
    requires k < data.Length
    modifies data
    ensures data[..] == old(data[..])[k := NUL]
  {
    data[k] := NUL;
  }

  /** The field is now a C string with the text of the line, up to a NUL in it. */
  lemma FieldRead(buf: Text, j: nat, k: nat)
    requires j <= k < |buf| && k == j + LineEnd(buf[j..])
    ensures var buf', (line, rest) := buf[k := NUL], ReadLine(buf[j..]).value;
            && buf'[..j] == buf[..j] && buf'[k + 1..] == buf[k + 1..] == rest
            && Points(buf', k + 1, j, CText(line))
  {
    var buf', line := buf[k := NUL], ReadLine(buf[j..]).value.0;
    FieldEnds(buf[j..], line, buf'[j..]);
    var t := CText(line);
    assert buf'[j..j + |t|] == buf'[j..][..|t|] && buf'[j + |t|] == buf'[j..][|t|];
  }

  /** Ending a line with NUL leaves the C string of the line. */
  lemma FieldEnds(s: Text, line: Text, s': Text)
    requires |line| < |s| == |s'| && line == s[..|line|] && s' == s[|line| := NUL]
    ensures var t := CText(line);
            |t| <= |line| && s'[..|t|] == t && s'[|t|] == NUL && NUL !in t
  {
  }

  /** Same before `j` and from `next` on. */
  predicate ChangedWithin(buf: Text, buf': Text, j: nat, next: nat) {
    j <= next <= |buf| == |buf'| && buf'[..j] == buf[..j] && buf'[next..] == buf[next..]
  }

  lemma ChangedFurther(a: Text, b: Text, c: Text, j: nat, k: nat, next: nat)
    requires ChangedWithin(a, b, j, k) && ChangedWithin(b, c, k, next)
    ensures ChangedWithin(a, c, j, next)
  {
    assert c[..j] == c[..k][..j] == b[..k][..j] == b[..j];
    assert a[next..] == a[k..][next - k..] == b[k..][next - k..] == b[next..];
  }

  /** The field loop with `n` rounds to go: buffer, position and field offsets at its end. */
  function FieldLoop(buf: Text, j: nat, n: nat, done: seq<nat>): (r: Option<(Text, nat, seq<nat>)>)
    requires j <= |buf|
    ensures r.Some? ==> |r.value.0| == |buf| && j + n <= r.value.1 <= |buf|
    decreases |buf|, n
  {
    if n == 0 then Some((buf, j, done))
    else
      var k := j + LineEnd(buf[j..]);
      if k == |buf| then None else FieldLoop(buf[k := NUL], k + 1, n - 1, done + [j])
  }

  /** `n` fields in a row. */
  method ReadFields(data: array<cchar>, j: nat, n: nat) returns (ok: bool, ptrs: seq<nat>, next: nat)
    requires j <= data.Length
    modifies data
    ensures ok <==> FieldLoop(old(data[..]), j, n, []).Some?
    ensures ok ==> FieldLoop(old(data[..]), j, n, []) == Some((data[..], next, ptrs))
  {
    ghost var buf, left := data[..], n;
    ptrs, next, ok := [], j, true;
    var i := 0;
    while i < n
      invariant 0 <= i <= n && left == n - i && next <= data.Length && buf == data[..]
      invariant FieldLoop(old(data[..]), j, n, []) == FieldLoop(buf, next, left, ptrs)
    {
      var k := FindNewline(data, next);
      if k == data.Length {
        return false, ptrs, next;
      }
      EndLine(data, k);
      ptrs, next := ptrs + [next], k + 1;
      i := i + 1;
      buf, left := buf[k := NUL], left - 1;
    }
  }

  /** The outcome `r` of a field loop started at `j` fits the lines read before and those read from there. */
  predicate FieldsRead(buf: Text, j: nat, before: seq<Text>, r: Option<(Text, nat, seq<nat>)>,
                       lines: Option<(seq<Text>, Text)>)
  {
    (r.Some? <==> lines.Some?) &&
    (r.Some? ==>
       && ChangedWithin(buf, r.value.0, j, r.value.1) && buf[r.value.1..] == lines.value.1
       && AllPoint(r.value.0, r.value.1, r.value.2, before + lines.value.0))
  }

  function Prepend(line: Text, r: Option<(seq<Text>, Text)>): Option<(seq<Text>, Text)> {
    if r.None? then None else Some(([line] + r.value.0, r.value.1))
  }

  lemma FieldsReadFirst(buf: Text, buf1: Text, j: nat, k: nat, before: seq<Text>, line: Text,
                        r: Option<(Text, nat, seq<nat>)>, lines: Option<(seq<Text>, Text)>)
    requires ChangedWithin(buf, buf1, j, k) && FieldsRead(buf1, k, before + [line], r, lines)
    ensures FieldsRead(buf, j, before, r, Prepend(line, lines))
  {
    if r.Some? {
      ChangedFurther(buf, buf1, r.value.0, j, k, r.value.1);
      assert buf[r.value.1..] == buf[k..][r.value.1 - k..] == buf1[k..][r.value.1 - k..] == buf1[r.value.1..];
      assert before + [line] + lines.value.0 == before + ([line] + lines.value.0);
    }
  }

  lemma FieldAppended(buf: Text, j: nat, k: nat, done: seq<nat>, before: seq<Text>)
    requires AllPoint(buf, j, done, before) && j <= k < |buf| && k == j + LineEnd(buf[j..])
    ensures ReadLine(buf[j..]) == Some((buf[j..k], buf[k + 1..]))
    ensures ChangedWithin(buf, buf[k := NUL], j, k + 1)
    ensures AllPoint(buf[k := NUL], k + 1, done + [j], before + [buf[j..k]])
  {
    FieldRead(buf, j, k);
    assert buf[j..][..k - j] == buf[j..k];
    AllPointStable(buf, buf[k := NUL], j, k + 1, done, before);
  }

  /** One round of the loop, which leaves the outcome `r`, reads the first of the lines that it should read. */
  lemma FieldLoopFirst(buf: Text, j: nat, k: nat, n: nat, before: seq<Text>, r: Option<(Text, nat, seq<nat>)>)
    requires j <= k < |buf| && k == j + LineEnd(buf[j..]) && n > 0
    requires ChangedWithin(buf, buf[k := NUL], j, k + 1) && ReadLine(buf[j..]) == Some((buf[j..k], buf[k + 1..]))
    requires FieldsRead(buf[k := NUL], k + 1, before + [buf[j..k]], r, ReadLines(buf[k + 1..], n - 1))
    ensures FieldsRead(buf, j, before, r, ReadLines(buf[j..], n))
  {
    var rest := ReadLines(buf[k + 1..], n - 1);
    FieldsReadFirst(buf, buf[k := NUL], j, k + 1, before, buf[j..k], r, rest);
    assert ReadLines(buf[j..], n) == Prepend(buf[j..k], rest);
  }

  /** The last round of the loop, or one that runs out of newlines. */
  lemma FieldLoopEnds(buf: Text, j: nat, n: nat, done: seq<nat>, before: seq<Text>)
    requires j <= |buf| && AllPoint(buf, j, done, before) && (n == 0 || j + LineEnd(buf[j..]) == |buf|)
    ensures FieldsRead(buf, j, before, FieldLoop(buf, j, n, done), ReadLines(buf[j..], n))
  {
    assert before + [] == before;
  }

  lemma FieldLoopNext(buf: Text, j: nat, k: nat, n: nat, done: seq<nat>)
    requires j <= k < |buf| && k == j + LineEnd(buf[j..]) && n > 0
    ensures FieldLoop(buf, j, n, done) == FieldLoop(buf[k := NUL], k + 1, n - 1, done + [j])
  {
  }

  /** The loop finds exactly the lines that ReadLines delivers, and leaves each as a C string. */
  lemma {:induction false} FieldLoopReads(buf: Text, j: nat, n: nat, done: seq<nat>, before: seq<Text>)
    requires j <= |buf| && AllPoint(buf, j, done, before)
    ensures FieldsRead(buf, j, before, FieldLoop(buf, j, n, done), ReadLines(buf[j..], n))
    decreases n, 1
  {
    var k := j + LineEnd(buf[j..]);
    if n == 0 || k == |buf| {
      FieldLoopEnds(buf, j, n, done, before);
    } else {
      FieldLoopRound(buf, j, k, n, done, before);
    }
  }

  lemma {:induction false} FieldLoopRound(buf: Text, j: nat, k: nat, n: nat, done: seq<nat>, before: seq<Text>)
    requires j <= k < |buf| && k == j + LineEnd(buf[j..]) && n > 0 && AllPoint(buf, j, done, before)
    ensures FieldsRead(buf, j, before, FieldLoop(buf, j, n, done), ReadLines(buf[j..], n))
    decreases n, 0
  {
    var buf1 := buf[k := NUL];
    FieldAppended(buf, j, k, done, before);
    assert buf1[k + 1..] == buf[k + 1..];
    FieldLoopReads(buf1, k + 1, n - 1, done + [j], before + [buf[j..k]]);
    FieldLoopNext(buf, j, k, n, done);
    FieldLoopFirst(buf, j, k, n, before, FieldLoop(buf, j, n, done));
  }

  // ----- Extra fields are counted before they are cut

  /** The counting loop at `j` with `n` fields counted: their number and the offset after the empty line. */
  function CountLoop(buf: Text, j: nat, n: nat): (r: Option<(nat, nat)>)
    requires j <= |buf|
    ensures r.Some? ==> n < r.value.0 && j + 1 < r.value.1 <= |buf|
    decreases |buf| - j
  {
    var k := j + LineEnd(buf[j..]);
    if k + 1 >= |buf| then None
    else if buf[k + 1] == NEWLINE then Some((n + 1, k + 2))
    else CountLoop(buf, k + 1, n + 1)
  }

  /** From `j` on there are `m` extra fields and an empty line, then what starts at `next`. */
  predicate OthersAt(buf: Text, j: nat, m: nat, next: nat)
    requires j <= |buf|
  {
    var r := ReadOthers(buf[j..]);
    && next <= |buf| && r.Some? && r.value.1 == buf[next..] && m == |r.value.0|
    && ReadLines(buf[j..], m) == Some((r.value.0, [NEWLINE] + buf[next..]))
  }

  lemma LastOther(buf: Text, j: nat, k: nat)
    requires j < |buf| && buf[j] != NEWLINE && k == j + LineEnd(buf[j..]) && k + 1 < |buf| && buf[k + 1] == NEWLINE
    ensures OthersAt(buf, j, 1, k + 2)
  {
    var s, s1 := buf[j..], buf[k + 1..];
    assert s[k - j + 1..] == s1 && s1 == [NEWLINE] + buf[k + 2..] && s1[1..] == buf[k + 2..];
    assert ReadOthers(s1) == Some(([], buf[k + 2..]));
    assert ReadLines(s1, 0) == Some(([], s1));
  }

  lemma OneMoreOther(buf: Text, j: nat, k: nat, m: nat, next: nat)
    requires j < |buf| && buf[j] != NEWLINE && k == j + LineEnd(buf[j..]) && k + 1 < |buf| && m > 0
    requires OthersAt(buf, k + 1, m - 1, next)
    ensures OthersAt(buf, j, m, next)
  {
    assert buf[j..][k - j + 1..] == buf[k + 1..];
  }

  lemma OthersFail(buf: Text, j: nat, k: nat)
    requires j < |buf| && buf[j] != NEWLINE && k == j + LineEnd(buf[j..])
    ensures k + 1 >= |buf| ==> ReadOthers(buf[j..]).None?
    ensures k + 1 < |buf| && ReadOthers(buf[k + 1..]).None? ==> ReadOthers(buf[j..]).None?
  {
    if k + 1 <= |buf| {
      assert buf[j..][k - j + 1..] == buf[k + 1..];
    }
  }

  /** Counting succeeds exactly when the grammar does, with the right number of fields. */
  lemma {:induction false} CountLoopReads(buf: Text, j: nat, n: nat)
    requires j < |buf| && buf[j] != NEWLINE && CountLoop(buf, j, n).None?
    ensures ReadOthers(buf[j..]).None?
    decreases |buf| - j
  {
    var k := j + LineEnd(buf[j..]);
    if k + 1 < |buf| {
      CountLoopReads(buf, k + 1, n + 1);
    }
    OthersFail(buf, j, k);
  }

  lemma {:induction false} CountLoopCounts(buf: Text, j: nat, n: nat, m: nat, next: nat)
    requires j < |buf| && buf[j] != NEWLINE && CountLoop(buf, j, n) == Some((n + m, next))
    ensures OthersAt(buf, j, m, next)
    decreases |buf| - j
  {
    var k := j + LineEnd(buf[j..]);
    if buf[k + 1] == NEWLINE {
      LastOther(buf, j, k);
    } else {
      CountLoopCounts(buf, k + 1, n + 1, m - 1, next);
      OneMoreOther(buf, j, k, m, next);
    }
  }

  method CountFields(data: array<cchar>, start: nat) returns (ok: bool, n: nat, next: nat)
    requires start <= data.Length
    ensures ok <==> CountLoop(data[..], start, 0).Some?
    ensures ok ==> CountLoop(data[..], start, 0) == Some((n, next))
  {
    ghost var buf := data[..];
    var j := start;
    n := 0;
    while true
      invariant start <= j <= data.Length && CountLoop(buf, start, 0) == CountLoop(buf, j, n)
      decreases data.Length - j
    {
      var k := FindNewline(data, j);
      if k + 1 >= data.Length {
        return false, n, j;
      }
      n := n + 1;
      j := k + 1;
      if data[j] == NEWLINE {
        return true, n, j + 1;
      }
    }
  }

  // ----- Entries

  /** One round of the entry loop: buffer, position and pointers afterwards. */
  function EntryLoop(buf: Text, j: nat): (r: Option<(Text, nat, Pointers)>)
    requires j <= |buf|
    ensures r.Some? ==> |r.value.0| == |buf| && j < r.value.1 <= |buf|
  {
    var (buf1, at, basic) :- FieldLoop(buf, j, N_BASIC_FIELDS, []);
    if at == |buf1| then None
    else if buf1[at] == NEWLINE then Some((buf1, at + 1, Pointers(basic, [])))
    else
      var (buf2, next, others) :- OthersLoop(buf1, at);
      Some((buf2, next, Pointers(basic, others)))
  }

  method ReadEntryHere(data: array<cchar>, j: nat) returns (ok: bool, p: Pointers, next: nat)
    requires j <= data.Length
    modifies data
    ensures ok <==> EntryLoop(old(data[..]), j).Some?
    ensures ok ==> EntryLoop(old(data[..]), j) == Some((data[..], next, p))
  {
    var basic, at;
    p, next := Pointers([], []), j;
    ok, basic, at := ReadFields(data, j, N_BASIC_FIELDS);
    if !ok || at == data.Length {
      return false, p, next;
    }
    if data[at] == NEWLINE {
      return true, Pointers(basic, []), at + 1;
    }
    var others;
    ok, others, next := ReadOtherFields(data, at);
    p := Pointers(basic, others);
  }

  method ReadOtherFields(data: array<cchar>, at: nat) returns (ok: bool, others: seq<nat>, next: nat)
    requires at <= data.Length
    modifies data
    ensures ok <==> OthersLoop(old(data[..]), at).Some?
    ensures ok ==> OthersLoop(old(data[..]), at) == Some((data[..], next, others))
  {
    var n, k;
    others := [];
    ok, n, next := CountFields(data, at);
    if ok {
      ok, others, k := ReadFields(data, at, n);
    }
  }

  function FileLoop(buf: Text, j: nat, done: seq<Pointers>): Option<(Text, seq<Pointers>)>
    requires j <= |buf|
    decreases |buf| - j
  {
    if j == |buf| then Some((buf, done))
    else
      var (buf', next, p) :- EntryLoop(buf, j);
      FileLoop(buf', next, done + [p])
  }

  /** `read_rolodex` up to the order check. It fails where the program would read past the end of the buffer. */
  method ReadRolodex(data: array<cchar>) returns (ok: bool, entries: seq<Pointers>)
    modifies data
    ensures ok <==> ReadFile(old(data[..])).Some?
    ensures ok ==> EntriesPoint(data[..], data.Length, entries, ReadFile(old(data[..])).value)
  {
    ghost var buf := data[..];
    entries := [];
    var j := 0;
    FileLoopReads(buf, 0, [], []);
    assert buf[0..] == buf;
    while j < data.Length
      invariant 0 <= j <= data.Length && FileLoop(buf, 0, []) == FileLoop(data[..], j, entries)
    {
      var p;
      ok, p, j := ReadEntryHere(data, j);
      if !ok {
        return;
      }
      entries := entries + [p];
    }
    ok := true;
  }

  /** Counting and cutting the extra fields that start at `at`. */
  function OthersLoop(buf: Text, at: nat): (r: Option<(Text, nat, seq<nat>)>)
    requires at <= |buf|
    ensures r.Some? ==> |r.value.0| == |buf| && at <= r.value.1 <= |buf|
  {
    var (n, next) :- CountLoop(buf, at, 0);
    var (buf', _, others) :- FieldLoop(buf, at, n, []);
    Some((buf', next, others))
  }

  lemma OthersLoopReads(buf: Text, at: nat)
    requires at < |buf| && buf[at] != NEWLINE
    ensures OthersLoop(buf, at).Some? <==> ReadOthers(buf[at..]).Some?
    ensures OthersLoop(buf, at).Some? ==>
      var ((buf', next, others), (lines, rest)) := (OthersLoop(buf, at).value, ReadOthers(buf[at..]).value);
      ChangedWithin(buf, buf', at, next) && buf[next..] == rest && AllPoint(buf', next, others, lines)
  {
    if CountLoop(buf, at, 0).None? {
      CountLoopReads(buf, at, 0);
    } else {
      CountLoopCounts(buf, at, 0, CountLoop(buf, at, 0).value.0, CountLoop(buf, at, 0).value.1);
      OthersCut(buf, at, CountLoop(buf, at, 0).value.0, CountLoop(buf, at, 0).value.1);
    }
  }

  lemma OthersCut(buf: Text, at: nat, n: nat, next: nat)
    requires at <= |buf| && OthersAt(buf, at, n, next)
    ensures FieldLoop(buf, at, n, []).Some?
    ensures var (buf', _, others) := FieldLoop(buf, at, n, []).value;
            ChangedWithin(buf, buf', at, next) && AllPoint(buf', next, others, ReadOthers(buf[at..]).value.0)
  {
    FieldLoopReads(buf, at, n, [], []);
    assert [] + ReadOthers(buf[at..]).value.0 == ReadOthers(buf[at..]).value.0;
    var (buf', k, others) := FieldLoop(buf, at, n, []).value;
    assert |buf[k..]| == 1 + |buf[next..]|;
    assert k + 1 == next;
    assert buf'[k..][1..] == buf'[next..] && buf[k..][1..] == buf[next..];
    AllPointStable(buf', buf', k, next, others, ReadOthers(buf[at..]).value.0);
  }

  lemma EntryLoopReads(buf: Text, j: nat)
    requires j <= |buf|
    ensures EntryLoop(buf, j).Some? <==> ReadEntry(buf[j..]).Some?
    ensures EntryLoop(buf, j).Some? ==>
      var ((buf', next, p), (e, rest)) := (EntryLoop(buf, j).value, ReadEntry(buf[j..]).value);
      ChangedWithin(buf, buf', j, next) && buf[next..] == rest && EntryPoints(buf', next, p, e)
  {
    FieldLoopReads(buf, j, N_BASIC_FIELDS, [], []);
    if FieldLoop(buf, j, N_BASIC_FIELDS, []).Some? {
      var (buf1, at, basic) := FieldLoop(buf, j, N_BASIC_FIELDS, []).value;
      assert buf1[at..] == ReadLines(buf[j..], N_BASIC_FIELDS).value.1;
      assert [] + ReadLines(buf[j..], N_BASIC_FIELDS).value.0 == ReadLines(buf[j..], N_BASIC_FIELDS).value.0;
      if at < |buf1| {
        EntryEnds(buf, j, buf1, at, basic, ReadLines(buf[j..], N_BASIC_FIELDS).value.0);
      }
    }
  }

  lemma EntryEnds(buf: Text, j: nat, buf1: Text, at: nat, basic: seq<nat>, lines: seq<Text>)
    requires ChangedWithin(buf, buf1, j, at) && at < |buf1| && AllPoint(buf1, at, basic, lines)
    ensures buf1[at] == NEWLINE ==>
      ChangedWithin(buf, buf1, j, at + 1) && buf[at + 1..] == buf1[at..][1..] && AllPoint(buf1, at + 1, basic, lines)
    ensures buf1[at] != NEWLINE ==> (OthersLoop(buf1, at).Some? <==> ReadOthers(buf1[at..]).Some?)
    ensures buf1[at] != NEWLINE && OthersLoop(buf1, at).Some? ==>
      var ((buf2, next, others), (more, rest)) := (OthersLoop(buf1, at).value, ReadOthers(buf1[at..]).value);
      && ChangedWithin(buf, buf2, j, next) && buf[next..] == rest
      && AllPoint(buf2, next, basic, lines) && AllPoint(buf2, next, others, more)
  {
    if buf1[at] == NEWLINE {
      assert buf1[at..][1..] == buf1[at + 1..] && buf[at..][1..] == buf[at + 1..];
      AllPointStable(buf1, buf1, at, at + 1, basic, lines);
    } else {
      OthersLoopReads(buf1, at);
      if OthersLoop(buf1, at).Some? {
        var (buf2, next, _) := OthersLoop(buf1, at).value;
        ChangedFurther(buf, buf1, buf2, j, at, next);
        assert buf[at..][next - at..] == buf[next..] && buf1[at..][next - at..] == buf1[next..];
        AllPointStable(buf1, buf2, at, next, basic, lines);
      }
    }
  }

  /** The outcome `r` of the file loop fits the entries `es` read before and those read from the rest. */
  predicate FileRead(r: Option<(Text, seq<Pointers>)>, es: seq<RoloEntry>, rest: Option<seq<RoloEntry>>) {
    (r.Some? <==> rest.Some?) &&
    (r.Some? ==> EntriesPoint(r.value.0, |r.value.0|, r.value.1, es + rest.value))
  }

  lemma EntryAppended(buf: Text, j: nat, buf': Text, next: nat, done: seq<Pointers>, es: seq<RoloEntry>, p: Pointers,
                      e: RoloEntry)
    requires EntriesPoint(buf, j, done, es) && ChangedWithin(buf, buf', j, next) && EntryPoints(buf', next, p, e)
    ensures EntriesPoint(buf', next, done + [p], es + [e])
  {
    EntriesPointStable(buf, buf', j, next, done, es);
  }

  lemma FileReadFirst(r: Option<(Text, seq<Pointers>)>, es: seq<RoloEntry>, e: RoloEntry, rest: Option<seq<RoloEntry>>)
    requires FileRead(r, es + [e], rest)
    ensures FileRead(r, es, if rest.Some? then Some([e] + rest.value) else None)
  {
    if rest.Some? {
      assert es + [e] + rest.value == es + ([e] + rest.value);
    }
  }

  lemma {:induction false} FileLoopReads(buf: Text, j: nat, done: seq<Pointers>, es: seq<RoloEntry>)
    requires j <= |buf| && EntriesPoint(buf, j, done, es)
    ensures FileRead(FileLoop(buf, j, done), es, ReadFile(buf[j..]))
    decreases |buf| - j
  {
    if j == |buf| {
      assert es + [] == es;
    } else {
      EntryLoopReads(buf, j);
      if EntryLoop(buf, j).Some? {
        var (buf', next, p) := EntryLoop(buf, j).value;
        var e := ReadEntry(buf[j..]).value.0;
        EntryAppended(buf, j, buf', next, done, es, p, e);
        assert buf'[next..] == buf[next..];
        FileLoopReads(buf', next, done + [p], es + [e]);
        FileReadFirst(FileLoop(buf', next, done + [p]), es, e, ReadFile(buf[next..]));
      }
    }
  }
}
