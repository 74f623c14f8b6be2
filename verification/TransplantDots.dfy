/** hw1: a condition on the stream under which the deserializer cannot leave its target. */
module TransplantDots {
  import opened Bytes
  import opened Climbing
  import opened FileSystems
  import opened Paths
  import opened TransplantConfinement
  import opened TransplantDecoder
  import opened TransplantFormat
  import opened Wrappers

  /** No two adjacent '.' characters. */
  predicate NoDotDot(s: seq<byte>) {
    forall i | 0 <= i < |s| - 1 :: !(s[i] == DOT && s[i + 1] == DOT)
  }

  lemma DropNoDotDot(s: seq<byte>, n: nat)
    requires NoDotDot(s)
    ensures NoDotDot(Drop(s, n))
  {
  }

  /** Neither the parts of a name nor what a buffer takes from a stream have dots that were not there. */
  lemma SliceNoDotDot(s: seq<byte>, i: nat, k: nat)
    requires NoDotDot(s) && i <= k <= |s|
    ensures NoDotDot(s[i..k])
  {
  }

  lemma NameNoDotDot(s: seq<byte>, n: nat)
    requires NoDotDot(s)
    ensures NoDotDot(CStr(Take(s, n)))
  {
    var t := Take(s, n);
    forall i | 0 <= i < |t| - 1 ensures !(t[i] == DOT && t[i + 1] == DOT) {
      assert i + 1 < |s| ==> t[i] == s[i] && t[i + 1] == s[i + 1];
    }
    SliceNoDotDot(t, 0, |CStr(t)|);
  }

  lemma NoDotDotMoves(level: nat, c: seq<byte>)
    requires NoDotDot(c)
    ensures Move(level, c).Some?
  {
    assert |c| == 2 ==> !(c[0] == DOT && c[0 + 1] == DOT);
  }

  lemma LastMoves(name: seq<byte>, k: nat, level: nat)
    requires NoDotDot(name) && k < |name|
    ensures Move(level, name[k + 1..]).Some?
  {
    SliceNoDotDot(name, k + 1, |name|);
    NoDotDotMoves(level, name[k + 1..]);
  }

  lemma {:induction false} NoDotDotInside(name: seq<byte>)
    requires NoDotDot(name)
    ensures Inside(name)
    decreases |name|
  {
    var k := LastSlash(name);
    if k < 0 {
      OneComponent([], name);
      NoDotDotMoves(0, name);
    } else {
      FrontInside(name);
      SliceNoDotDot(name, 0, k);
      NoDotDotInside(name[..k]);
      LastMoves(name, k, Level(name[..k]).value);
    }
  }

  // ----- No name that the decoder finds in such a stream climbs

  lemma AfterFileStays(depth: int, mode: int, s: State)
    requires NoDotDot(s.input)
    ensures NoDotDot(AfterFile(depth, mode, s).input) && AfterFile(depth, mode, s).climbed == s.climbed
  {
    DropNoDotDot(s.input, 3);
    DropNoDotDot(s.input, HEADER_SIZE);
    DropNoDotDot(Drop(s.input, HEADER_SIZE), Count(Number(Drop(s.input, 8), 8), HEADER_SIZE));
  }

  lemma {:induction false} DecodeDirStays(popFirst: bool, depth: int, s: State)
    requires NoDotDot(s.input)
    ensures DecodeDir(popFirst, depth, s).s.climbed == s.climbed
    decreases |s.input|, 0
  {
    if MagicOk(s.input) && Number(Drop(s.input, 4), 4) == depth {
      DropNoDotDot(s.input, HEADER_SIZE);
      DecodeRecordStays(popFirst, depth, CharAt(s.input, 3), Number(Drop(s.input, 8), 8),
                        s.(input := Drop(s.input, HEADER_SIZE)));
    }
  }

  lemma {:induction false} DecodeRecordStays(popFirst: bool, depth: int, kind: int, size: int, s: State)
    requires NoDotDot(s.input)
    ensures DecodeRecord(popFirst, depth, kind, size, s).climbed == s.climbed
    decreases |s.input|, 3
  {
    if kind == DIRECTORY_ENTRY {
      DropNoDotDot(s.input, METADATA_SIZE);
      DecodeEntryStays(popFirst, depth, Number(s.input, 4), Count(size, HEADER_SIZE + METADATA_SIZE),
                       s.(input := Drop(s.input, METADATA_SIZE)));
    } else if kind == START_OF_DIRECTORY {
      DecodeDirStays(popFirst, depth, s);
    } else if kind == END_OF_DIRECTORY {
      DecodeDirStays(popFirst, depth - 1, if popFirst then s.(path := Pop(s.path)) else s);
    }
  }

  lemma {:induction false} DecodeEntryStays(popFirst: bool, depth: int, mode: int, n: nat, s: State)
    requires NoDotDot(s.input)
    ensures DecodeEntry(popFirst, depth, mode, n, s).climbed == s.climbed
    decreases |s.input|, 2
  {
    var name, s0 := CStr(Take(s.input, n)), s.(input := Drop(s.input, n));
    DropNoDotDot(s.input, n);
    NameNoDotDot(s.input, n);
    NoDotDotInside(name);
    DecodeNamedStays(popFirst, depth, mode, PushName(s0, name));
  }

  lemma {:induction false} DecodeNamedStays(popFirst: bool, depth: int, mode: int, s: State)
    requires NoDotDot(s.input)
    ensures DecodeNamed(popFirst, depth, mode, s).climbed == s.climbed
    decreases |s.input|, 1
  {
    var next := AfterFile(depth, mode, s);
    AfterFileStays(depth, mode, s);
    DecodeDirStays(popFirst, depth, next);
    DecodeDirStays(popFirst, depth + 1, next);
  }

  lemma HeadersStay(s: State)
    requires NoDotDot(s.input)
    ensures NoDotDot(AfterHeaders(s).input) && AfterHeaders(s).climbed == s.climbed
  {
    DropNoDotDot(s.input, HEADER_SIZE);
    DropNoDotDot(Drop(s.input, HEADER_SIZE), HEADER_SIZE);
  }

  /**
   * A stream without two adjacent '.' characters cannot make the program touch anything but its target and what is
   * below it, whatever else the stream holds and whatever the file system looks like.
   */
  lemma DotFreeConfined(s: State)
    requires NoDotDot(s.input) && !s.climbed
    ensures var r, made := Deserialize(false, s).s, MakeDirectory(s.files, s.path, 448);
            !r.climbed && Grown(s.files, r.files) && (r.files == s.files || Confined(made, s.path, r.files))
  {
    HeadersStay(s);
    DecodeDirStays(false, 1, AfterHeaders(s));
    DeserializeIs(s);
    DeserializeConfined(s);
  }
}
