/** hw2: the rolodex file format - what reading accepts and delivers, and what writing produces. */
module RoloFile {
  import opened Wrappers
  import opened Collation
  import opened RoloList

  const NEWLINE: cchar := 10

  // ----- Reading

  /** Offset of the first newline, or the length. */
  function LineEnd(s: Text): (k: nat)
    ensures k <= |s|
  {
    if s == [] || s[0] == NEWLINE then 0 else 1 + LineEnd(s[1..])
  }

  lemma {:induction false} LineEndFound(s: Text)
    ensures NEWLINE !in s[..LineEnd(s)] && (LineEnd(s) < |s| ==> s[LineEnd(s)] == NEWLINE)
  {
    if s == [] || s[0] == NEWLINE {
    } else {
      LineEndFound(s[1..]);
      assert s[..LineEnd(s)] == [s[0]] + s[1..][..LineEnd(s[1..])];
    }
  }

  /** The first line and what follows it; None when the scan would run past the end. */
  function ReadLine(s: Text): (r: Option<(Text, Text)>)
    ensures r.Some? ==> |r.value.1| < |s|
  {
    var k := LineEnd(s);
    if k == |s| then None else Some((s[..k], s[k + 1..]))
  }

  function ReadLines(s: Text, n: nat): (r: Option<(seq<Text>, Text)>)
    ensures r.Some? ==> |r.value.0| == n && |r.value.1| + n <= |s|
    decreases |s|, n
  {
    if n == 0 then Some(([], s))
    else
      var (line, s1) :- ReadLine(s);
      var (lines, s2) :- ReadLines(s1, n - 1);
      Some(([line] + lines, s2))
  }

  /** The extra fields, up to and including the empty line that ends an entry. */
  function ReadOthers(s: Text): (r: Option<(seq<Text>, Text)>)
    ensures r.Some? ==> |r.value.1| < |s|
    decreases |s|
  {
    if s == [] then None
    else if s[0] == NEWLINE then Some(([], s[1..]))
    else
      var (line, s1) :- ReadLine(s);
      var (lines, s2) :- ReadOthers(s1);
      Some(([line] + lines, s2))
  }

  function ReadEntry(s: Text): (r: Option<(RoloEntry, Text)>)
    ensures r.Some? ==> |r.value.1| < |s|
  {
    var (basic, s1) :- ReadLines(s, N_BASIC_FIELDS);
    var (others, s2) :- ReadOthers(s1);
    Some((Entry(basic, others), s2))
  }

  /** The whole file; None when some read would go past its end. */
  function ReadFile(s: Text): Option<seq<RoloEntry>>
    decreases |s|
  {
    if s == [] then Some([])
    else
      var (entry, s1) :- ReadEntry(s);
      var entries :- ReadFile(s1);
      Some([entry] + entries)
  }

  // ----- Writing: the text of a value, followed by `tail`

  function LinesText(lines: seq<Text>, tail: Text): Text {
    if lines == [] then tail else lines[0] + ([NEWLINE] + LinesText(lines[1..], tail))
  }

  function EntryText(e: RoloEntry, tail: Text): Text {
    LinesText(e.basic, LinesText(e.others, [NEWLINE] + tail))
  }

  function FileText(entries: seq<RoloEntry>): Text {
    if entries == [] then [] else EntryText(entries[0], FileText(entries[1..]))
  }

  lemma LinesTextFirst(line: Text, lines: seq<Text>, tail: Text)
    ensures LinesText([line] + lines, tail) == line + ([NEWLINE] + LinesText(lines, tail))
  {
    assert ([line] + lines)[1..] == lines;
  }

  lemma FourLines(a: Text, b: Text, c: Text, d: Text, lines: seq<Text>, tail: Text)
    ensures LinesText([a, b, c, d] + lines, tail) ==
            a + ([10] + (b + ([10] + (c + ([10] + (d + ([10] + LinesText(lines, tail))))))))
  {
    assert [a, b, c, d] + lines == [a] + ([b] + ([c] + ([d] + lines)));
    LinesTextFirst(a, [b] + ([c] + ([d] + lines)), tail);
    LinesTextFirst(b, [c] + ([d] + lines), tail);
    LinesTextFirst(c, [d] + lines, tail);
    LinesTextFirst(d, lines, tail);
  }

  /** An entry, character for character: eight lines, one line for each extra field, and an empty line. */
  lemma EntryLayout(a: Text, b: Text, c: Text, d: Text, e: Text, f: Text, g: Text, h: Text,
                    others: seq<Text>, tail: Text)
    ensures EntryText(Entry([a, b, c, d, e, f, g, h], others), tail) ==
            a + ([10] + (b + ([10] + (c + ([10] + (d + ([10] +
            (e + ([10] + (f + ([10] + (g + ([10] + (h + ([10] + LinesText(others, [10] + tail))))))))))))))))
  {
    var rest := LinesText(others, [NEWLINE] + tail);
    assert [a, b, c, d, e, f, g, h] == [a, b, c, d] + ([e, f, g, h] + []);
    FourLines(a, b, c, d, [e, f, g, h] + [], rest);
    FourLines(e, f, g, h, [], rest);
  }

  // ----- What can be stored

  predicate OneLiners(lines: seq<Text>) {
    forall i | 0 <= i < |lines| :: NEWLINE !in lines[i]
  }

  predicate Storable(e: RoloEntry) {
    OneLiners(e.basic) && OneLiners(e.others) && forall i | 0 <= i < |e.others| :: e.others[i] != []
  }

  predicate AllStorable(entries: seq<RoloEntry>) {
    forall i | 0 <= i < |entries| :: Storable(entries[i])
  }

  // ----- Reading what was written

  lemma {:induction false} LineEndIs(s: Text, k: nat)
    requires k < |s| && NEWLINE !in s[..k] && s[k] == NEWLINE
    ensures LineEnd(s) == k
  {
    if k == 0 {
    } else {
      assert s[0] == s[..k][0];
      assert s[1..][..k - 1] == s[..k][1..];
      LineEndIs(s[1..], k - 1);
    }
  }

  lemma ReadLineBack(line: Text, tail: Text)
    requires NEWLINE !in line
    ensures ReadLine(line + ([NEWLINE] + tail)) == Some((line, tail))
  {
    var s := line + ([NEWLINE] + tail);
    assert s[..|line|] == line && s[|line| + 1..] == tail;
    LineEndIs(s, |line|);
  }

  lemma {:induction false} ReadLinesBack(lines: seq<Text>, tail: Text)
    requires OneLiners(lines)
    ensures ReadLines(LinesText(lines, tail), |lines|) == Some((lines, tail))
  {
    if lines == [] {
    } else {
      assert NEWLINE !in lines[0];
      ReadLineBack(lines[0], LinesText(lines[1..], tail));
      ReadLinesBack(lines[1..], tail);
      assert [lines[0]] + lines[1..] == lines;
    }
  }

  lemma {:induction false} ReadOthersBack(lines: seq<Text>, tail: Text)
    requires OneLiners(lines) && forall i | 0 <= i < |lines| :: lines[i] != []
    ensures ReadOthers(LinesText(lines, [NEWLINE] + tail)) == Some((lines, tail))
  {
    if lines == [] {
    } else {
      assert NEWLINE !in lines[0] && lines[0] != [] && lines[0][0] in lines[0];
      ReadLineBack(lines[0], LinesText(lines[1..], [NEWLINE] + tail));
      ReadOthersBack(lines[1..], tail);
      assert [lines[0]] + lines[1..] == lines;
    }
  }

  lemma {:induction false} ReadBack(entries: seq<RoloEntry>)
    requires AllStorable(entries)
    ensures ReadFile(FileText(entries)) == Some(entries)
  {
    if entries == [] {
    } else {
      var e, tail := entries[0], FileText(entries[1..]);
      assert Storable(e);
      ReadLinesBack(e.basic, LinesText(e.others, [NEWLINE] + tail));
      ReadOthersBack(e.others, tail);
      assert ReadEntry(FileText(entries)) == Some((e, tail));
      ReadBack(entries[1..]);
      assert [e] + entries[1..] == entries;
    }
  }

  // ----- Writing what was read

  lemma LineSplit(s: Text)
    requires ReadLine(s).Some?
    ensures var (line, rest) := ReadLine(s).value;
            NEWLINE !in line && s == line + ([NEWLINE] + rest)
  {
    LineEndFound(s);
  }

  lemma OneLinersFirst(line: Text, lines: seq<Text>)
    requires NEWLINE !in line && OneLiners(lines)
    ensures OneLiners([line] + lines)
  {
    forall i | 0 <= i < |lines| + 1 ensures NEWLINE !in ([line] + lines)[i] {
      if i > 0 {
        assert ([line] + lines)[i] == lines[i - 1];
      }
    }
  }

  lemma ReadLinesFirst(s: Text, n: nat, lines: seq<Text>, rest: Text) returns (line: Text, s1: Text, more: seq<Text>)
    requires n > 0 && ReadLines(s, n) == Some((lines, rest))
    ensures ReadLine(s) == Some((line, s1)) && ReadLines(s1, n - 1) == Some((more, rest)) && lines == [line] + more
  {
    line, s1 := ReadLine(s).value.0, ReadLine(s).value.1;
    more := ReadLines(s1, n - 1).value.0;
  }

  lemma {:induction false} LinesWritten(s: Text, n: nat, lines: seq<Text>, rest: Text)
    requires ReadLines(s, n) == Some((lines, rest))
    ensures OneLiners(lines) && s == LinesText(lines, rest)
    decreases n
  {
    if n == 0 {
    } else {
      var line, s1, more := ReadLinesFirst(s, n, lines, rest);
      LineSplit(s);
      LinesWritten(s1, n - 1, more, rest);
      LinesTextFirst(line, more, rest);
      OneLinersFirst(line, more);
    }
  }

  lemma {:induction false} OthersWritten(s: Text)
    requires ReadOthers(s).Some?
    ensures var (lines, rest) := ReadOthers(s).value;
            && OneLiners(lines) && (forall i | 0 <= i < |lines| :: lines[i] != [])
            && s == LinesText(lines, [NEWLINE] + rest)
    decreases |s|
  {
    if s[0] == NEWLINE {
      assert s == [NEWLINE] + s[1..];
    } else {
      LineSplit(s);
      var (line, s1) := ReadLine(s).value;
      OthersWritten(s1);
      LinesTextFirst(line, ReadOthers(s1).value.0, [NEWLINE] + ReadOthers(s1).value.1);
      OneLinersFirst(line, ReadOthers(s1).value.0);
    }
  }

  lemma {:induction false} FileWritten(s: Text)
    requires ReadFile(s).Some?
    ensures AllStorable(ReadFile(s).value) && FileText(ReadFile(s).value) == s
    decreases |s|
  {
    if s == [] {
    } else {
      var (basic, s1) := ReadLines(s, N_BASIC_FIELDS).value;
      LinesWritten(s, N_BASIC_FIELDS, basic, s1);
      OthersWritten(s1);
      var (e, rest) := ReadEntry(s).value;
      assert Storable(e);
      FileWritten(rest);
      assert FileText([e] + ReadFile(rest).value) == EntryText(e, FileText(ReadFile(rest).value));
    }
  }

  /**
   * Main result: reading a file delivers `entries` exactly when the entries can be stored and the file is what
   * writing them produces. In all other cases reading runs past the end of the file.
   */
  lemma ReadIsWriteInverse(s: Text, entries: seq<RoloEntry>)
    ensures ReadFile(s) == Some(entries) <==> AllStorable(entries) && s == FileText(entries)
  {
    if ReadFile(s) == Some(entries) {
      FileWritten(s);
    }
    if AllStorable(entries) && s == FileText(entries) {
      ReadBack(entries);
    }
  }
}
