/** hw1: what deserializing can reach, for arbitrary streams and for the streams of trees. */
module TransplantConfinement {
  import opened Bytes
  import opened Climbing
  import opened FileSystems
  import opened Paths
  import opened TransplantDecoder
  import opened TransplantFormat
  import opened TransplantRoundTrip
  import opened TransplantTrees
  import opened Wrappers

  /**
   * For every stream: existing nodes stay as they are, and, unless a name climbs, all new ones are the target
   * directory and what is below it.
   */
  lemma DeserializeConfined(s: State)
    ensures var r, made := Deserialize(false, s).s, MakeDirectory(s.files, s.path, 448);
            && Grown(s.files, r.files)
            && (!r.climbed ==> r.files == s.files || Confined(made, s.path, r.files))
  {
    DeserializeIs(s);
    MkdirSettles(s.files, s.path, 448);
    DecodeDirConfined(false, 1, AfterHeaders(s));
  }

  lemma DeserializeIs(s: State)
    ensures var r := Deserialize(false, s).s;
            r.files == s.files || r == DecodeDir(false, 1, AfterHeaders(s)).s
  {
  }

  /** The state in which `deserialize` goes on when the first two headers are right. */
  function AfterHeaders(s: State): State {
    s.(input := Drop(Drop(s.input, HEADER_SIZE), HEADER_SIZE), files := MakeDirectory(s.files, s.path, 448))
  }

  // ----- A name that climbs

  lemma FileIntoDirectory(depth: nat, mode: int, s: State, t: Location, n: seq<byte>, data: seq<byte>)
    requires At(s.files, s.path) == Some(t) && IsDirectory(s.files, t) && IsName(n) && t + [n] !in s.files.nodes
    requires depth < 0x8000_0000 && |data| + HEADER_SIZE < 0x8000_0000_0000_0000
    requires s.input == RecordBytes(Record(FILE_DATA, depth, data))
    ensures var nodes := DecodeNamed(false, depth, mode, PushName(s, n)).files.nodes;
            t + [n] in nodes && nodes[t + [n]] == RegularFile(data)
  {
    EntryTarget(s.files, s.path, t, n);
    assert s.input + [] == s.input;
    FileStep(depth, PushName(s, n), data, []);
    DecodeDirConfined(false, depth, AfterFile(depth, mode, PushName(s, n)));
  }

  /** The records of an entry ".." and of a file entry in it, as DecodeDir finds them at depth 1. */
  function ClimbingRecords(n: seq<byte>, dots: Node, file: Node): seq<byte>
    requires file.File?
  {
    RecordBytes(EntryRecord(1, [DOT, DOT], dots)) +
    (RecordBytes(EntryRecord(2, n, file)) + RecordBytes(Record(FILE_DATA, 2, file.data)))
  }

  /** The entry ".." takes the decoder up, where it finds a directory and goes on at the next depth. */
  lemma DotDotEntry(p: Path, at: Location, s: State, dots: Node, rest: seq<byte>)
    requires At(s.files, p) == Some(at) && IsDirectory(s.files, at) && IsDirectory(s.files, Parent(at))
    requires s.path == p && p != [] && |p| + 3 < PATH_MAX && WellFormedNode(dots)
    requires s.input == RecordBytes(EntryRecord(1, [DOT, DOT], dots)) + rest
    ensures var q := Join(p, [DOT, DOT]);
            && At(s.files, q) == Some(Parent(at))
            && DecodeDir(false, 1, s).s == DecodeDir(false, 2, State(rest, q, s.files, s.overrun, true)).s
  {
    var q := Join(p, [DOT, DOT]);
    OneComponent([], [DOT, DOT]);
    assert PushName(s.(input := rest), [DOT, DOT]) == State(rest, q, s.files, s.overrun, true);
    AtJoin(s.files, p, [DOT, DOT]);
    assert q[|q| - 1] == DOT;
    EntryStep(false, 1, [DOT, DOT], dots, s, rest);
  }

  /** Such a stream makes the decoder create a file beside the directory that it was called for. */
  lemma DotDotEscapes(p: Path, at: Location, files: FileSystem, n: seq<byte>, dots: Node, file: Node)
    requires At(files, p) == Some(at) && at != [] && IsDirectory(files, at) && IsDirectory(files, Parent(at))
    requires p != [] && |p| + 4 + |n| < PATH_MAX && IsName(n) && |n| < NAME_MAX && Parent(at) + [n] !in files.nodes
    requires WellFormedNode(dots) && WellFormedNode(file) && file.File?
    ensures var r := DecodeDir(false, 1, Working(ClimbingRecords(n, dots, file), p, files)).s;
            var k := Parent(at) + [n];
            && k in r.files.nodes && r.files.nodes[k] == RegularFile(file.data)
            && !(at < k) && r.climbed
  {
    var s := Working(ClimbingRecords(n, dots, file), p, files);
    var rest := RecordBytes(EntryRecord(2, n, file)) + RecordBytes(Record(FILE_DATA, 2, file.data));
    DotDotEntry(p, at, s, dots, rest);
    FileArrives(State(rest, Join(p, [DOT, DOT]), files, false, true), Parent(at), n, file);
  }

  lemma FileArrives(s: State, t: Location, n: seq<byte>, file: Node)
    requires At(s.files, s.path) == Some(t) && IsDirectory(s.files, t) && IsName(n) && t + [n] !in s.files.nodes
    requires |n| < NAME_MAX && |Join(s.path, n)| < PATH_MAX && WellFormedNode(file) && file.File? && s.climbed
    requires s.input == RecordBytes(EntryRecord(2, n, file)) + RecordBytes(Record(FILE_DATA, 2, file.data))
    ensures var r := DecodeDir(false, 2, s).s;
            t + [n] in r.files.nodes && r.files.nodes[t + [n]] == RegularFile(file.data) && r.climbed
  {
    var data := RecordBytes(Record(FILE_DATA, 2, file.data));
    EntryStep(false, 2, n, file, s, data);
    FileIntoDirectory(2, file.mode, s.(input := data), t, n, file.data);
    DecodeDirConfined(false, 2, s);
  }

  /** A whole stream of this kind makes the program create a file outside its target directory. */
  lemma {:induction false} TargetEscaped(root: Path, at: Location, files: FileSystem, n: seq<byte>, dots: Node,
                                         file: Node)
    requires At(files, root) == Some(at) && at != [] && IsDirectory(files, at) && IsDirectory(files, Parent(at))
    requires root != [] && |root| + 4 + |n| < PATH_MAX && IsName(n) && |n| < NAME_MAX
    requires Parent(at) + [n] !in files.nodes && WellFormedNode(dots) && WellFormedNode(file) && file.File?
    ensures var r := Deserialize(false, Working(Opened(ClimbingRecords(n, dots, file)), root, files)).s;
            var k := Parent(at) + [n];
            k in r.files.nodes && r.files.nodes[k] == RegularFile(file.data) && !(at < k) && r.climbed
  {
    SettledDirectory(files, files, root);
    OpenStep(false, root, ClimbingRecords(n, dots, file), files);
    DotDotEscapes(root, at, files, n, dots, file);
  }

  // ----- The streams of trees never climb

  /** Modes with a file type and permission bits only, as stat reports them. */
  predicate PlainModes(l: Listing) {
    match l
    case End => true
    case Item(_, node, r) => node.mode < 0x1_0000 && PlainModes(r) && (node.Dir? ==> PlainModes(node.entries))
  }

  /** Decoding `rest` at depth `outer` starts with a record of that depth and never climbs. */
  ghost predicate Safe(outer: nat, rest: seq<byte>) {
    && (exists r: Record, tail: seq<byte> :: Bounded(r) && r.depth == outer && rest == RecordBytes(r) + tail)
    && forall s: State | s.input == rest && !s.climbed :: !DecodeDir(false, outer, s).s.climbed
  }

  lemma SafeDeeper(outer: nat, depth: nat, rest: seq<byte>, s: State)
    requires Safe(outer, rest) && depth != outer && s.input == rest && !s.climbed
    ensures !DecodeDir(false, depth, s).s.climbed
  {
    var r: Record, tail: seq<byte> :| Bounded(r) && r.depth == outer && rest == RecordBytes(r) + tail;
    WrongDepth(false, depth, s, r, tail);
  }

  /** Neither file nor directory can be made at the path, so nothing that follows matters. */
  lemma HopelessEntry(depth: nat, mode: int, s: State, n: seq<byte>)
    requires IsName(n) && !s.climbed && !Found(s.files, Join(s.path, n)) && !CanCreate(s.files, Join(s.path, n))
    ensures !DecodeNamed(false, depth, mode, PushName(s, n)).climbed
  {
    var q, next := Join(s.path, n), AfterFile(depth, mode, PushName(s, n));
    assert q[|q| - 1] == n[|n| - 1];
    assert Strip(q) == q;
    NamesAreInside(n);
    assert next.path == q && next.files == s.files && !next.climbed;
    DecodeDirConfined(false, depth + 1, next);
  }

  lemma NoMagic(depth: int, s: State, mode: nat, size: nat, tail: seq<byte>)
    requires mode < 0x1_0000 && s.input == Metadata(mode, size) + tail
    ensures DecodeDir(false, depth, s).s.climbed == s.climbed
  {
    assert Digit(mode, 3) == Digit(mode / 256, 2) == Digit(mode / 256 / 256, 1) == Digit(0, 1) == 0;
    assert s.input[0] == Metadata(mode, size)[0] == Digit(mode, 3);
  }

  lemma {:induction false} ItemsStay(outer: nat, p: Path, l: Listing, rest: seq<byte>, s: State)
    requires WellFormed(l) && PlainModes(l) && Fits(p, l) && outer + 1 + Height(l) < 0x8000_0000 && Safe(outer, rest)
    requires s.input == Items(outer + 1, l, rest) && !s.climbed
    ensures !DecodeDir(false, outer + 1, s).s.climbed
    decreases l, 0, 2
  {
    if l.End? {
      EndStep(false, outer, s, rest);
    } else {
      var tail := EntryTail(outer + 1, l.node, Items(outer + 1, l.rest, rest));
      ItemsFirst(outer + 1, l, rest);
      EntryStep(false, outer + 1, l.name, l.node, s, tail);
      EntryStaysInside(outer, p, l, rest, s.(input := tail));
    }
  }

  lemma {:induction false} EntryStaysInside(outer: nat, p: Path, l: Listing, rest: seq<byte>, s: State)
    requires WellFormed(l) && PlainModes(l) && Fits(p, l) && outer + 1 + Height(l) < 0x8000_0000 && Safe(outer, rest)
    requires l.Item? && s.input == EntryTail(outer + 1, l.node, Items(outer + 1, l.rest, rest)) && !s.climbed
    ensures !DecodeNamed(false, outer + 1, l.node.mode, PushName(s, l.name)).climbed
    decreases l, 0, 1
  {
    var after := Items(outer + 1, l.rest, rest);
    ItemsSafe(outer, p, l.rest, rest);
    NamesAreInside(l.name);
    if l.node.Dir? {
      DirectoryStaysInside(outer, p, l, after, s);
    } else if l.node.data == [] {
      EmptyFileStaysInside(outer, l, rest, s);
    } else {
      FileStaysInside(outer + 1, l.name, l.node, after, s);
    }
  }

  lemma {:induction false} ItemsSafe(outer: nat, p: Path, l: Listing, rest: seq<byte>)
    requires WellFormed(l) && PlainModes(l) && Fits(p, l) && outer + 1 + Height(l) < 0x8000_0000 && Safe(outer, rest)
    ensures Safe(outer + 1, Items(outer + 1, l, rest))
    decreases l, 1, 0
  {
    var r, tail := NextRecord(outer, l, rest);
    forall s: State | s.input == Items(outer + 1, l, rest) && !s.climbed
      ensures !DecodeDir(false, outer + 1, s).s.climbed
    {
      ItemsStay(outer, p, l, rest, s);
    }
  }

  lemma FileStaysInside(depth: nat, n: seq<byte>, node: Node, after: seq<byte>, s: State)
    requires IsName(n) && WellFormedNode(node) && node.File? && node.data != [] && depth < 0x8000_0000
    requires s.input == EntryTail(depth, node, after) && !s.climbed && Safe(depth, after) && Inside(n)
    ensures !DecodeNamed(false, depth, node.mode, PushName(s, n)).climbed
  {
    var q, r := Join(s.path, n), Record(FILE_DATA, depth, node.data);
    FileStep(depth, PushName(s, n), node.data, after);
    if CanCreate(s.files, q) {
    } else if Found(s.files, q) {
      WrongDepth(false, depth + 1, AfterFile(depth, node.mode, PushName(s, n)), r, after);
    } else {
      HopelessEntry(depth, node.mode, s, n);
    }
  }

  /** An entry without a FILE_DATA record: decoding goes on one level deeper, one header later if the path was new. */
  lemma NotAFileEntry(depth: nat, mode: int, s: State, n: seq<byte>, r: Record, rest: seq<byte>) returns (next: State)
    requires Bounded(r) && r.kind != FILE_DATA && s.input == RecordBytes(r) + rest && !s.climbed && Inside(n)
    ensures DecodeNamed(false, depth, mode, PushName(s, n)) == DecodeDir(false, depth + 1, next).s && !next.climbed
    ensures next.input == s.input || next.input == r.body + rest
  {
    NotAFileStep(depth, PushName(s, n), r, rest);
    next := AfterFile(depth, mode, PushName(s, n));
  }

  /** The decoder has entered an empty file and finds a record of the outer directory, or the middle of one. */
  lemma EmptyFileStops(depth: nat, outer: nat, l: Listing, r: Record, tail: seq<byte>, rest: seq<byte>, next: State)
    requires PlainModes(l) && Bounded(r) && r.depth < depth && outer < depth && Safe(outer, rest) && !next.climbed
    requires r.body == if l.End? then [] else Metadata(l.node.mode, NodeSize(l.node)) + l.name
    requires (l.End? ==> tail == rest) && (next.input == RecordBytes(r) + tail || next.input == r.body + tail)
    ensures !DecodeDir(false, depth, next).s.climbed
  {
    if next.input == RecordBytes(r) + tail {
      WrongDepth(false, depth, next, r, tail);
    } else if l.End? {
      assert [] + rest == rest;
      SafeDeeper(outer, depth, rest, next);
    } else {
      assert r.body + tail == Metadata(l.node.mode, NodeSize(l.node)) + (l.name + tail);
      NoMagic(depth, next, l.node.mode, NodeSize(l.node), l.name + tail);
    }
  }

  lemma EmptyFileStaysInside(outer: nat, l: Listing, rest: seq<byte>, s: State)
    requires WellFormed(l) && PlainModes(l) && l.Item? && l.node.File? && l.node.data == [] && outer + 1 < 0x8000_0000
    requires s.input == Items(outer + 1, l.rest, rest) && !s.climbed && Safe(outer, rest) && Inside(l.name)
    ensures !DecodeNamed(false, outer + 1, l.node.mode, PushName(s, l.name)).climbed
  {
    var r, tail := NextRecord(outer, l.rest, rest);
    var next := NotAFileEntry(outer + 1, l.node.mode, s, l.name, r, tail);
    EmptyFileStops(outer + 1 + 1, outer, l.rest, r, tail, rest, next);
  }

  /** After a subdirectory's entry decoding goes on with the records of the subdirectory. */
  lemma DirectoryGoesOn(depth: nat, n: seq<byte>, node: Node, after: seq<byte>, s: State) returns (next: State)
    requires node.Dir? && depth + 1 < 0x8000_0000 && Inside(n)
    requires s.input == EntryTail(depth, node, after) && !s.climbed
    ensures next.input == Items(depth + 1, node.entries, after) && !next.climbed
    ensures DecodeNamed(false, depth, node.mode, PushName(s, n)) == DecodeDir(false, depth + 1, next).s
  {
    var start, inside := Record(START_OF_DIRECTORY, depth + 1, []), Items(depth + 1, node.entries, after);
    assert [] + inside == inside;
    next := NotAFileEntry(depth, node.mode, s, n, start, inside);
    if next.input == s.input {
      StartStep(false, depth + 1, next, inside);
      next := next.(input := inside);
    }
  }

  lemma {:induction false} DirectoryStaysInside(outer: nat, p: Path, l: Listing, after: seq<byte>, s: State)
    requires WellFormed(l) && PlainModes(l) && Fits(p, l) && l.Item? && l.node.Dir?
    requires outer + 1 + Height(l) < 0x8000_0000 && Safe(outer + 1, after) && Inside(l.name)
    requires s.input == EntryTail(outer + 1, l.node, after) && !s.climbed
    ensures !DecodeNamed(false, outer + 1, l.node.mode, PushName(s, l.name)).climbed
    decreases l, 0, 0
  {
    var next := DirectoryGoesOn(outer + 1, l.name, l.node, after, s);
    ItemsStay(outer + 1, Join(p, l.name), l.node.entries, after, next);
  }

  lemma EndSafe()
    ensures Safe(0, RecordBytes(Record(END_OF_TRANSMISSION, 0, [])))
  {
    var end := Record(END_OF_TRANSMISSION, 0, []);
    assert RecordBytes(end) == RecordBytes(end) + [];
    forall s: State | s.input == RecordBytes(end) && !s.climbed ensures !DecodeDir(false, 0, s).s.climbed {
      EndOfTransmission(false, s);
    }
  }

  /** What a transmission holds after its opening records never climbs. */
  lemma TransmissionStays(outer: nat, depth: nat, root: Path, l: Listing, s: State, r: State)
    requires WellFormed(l) && PlainModes(l) && Fits(root, l) && 1 + Height(l) < 0x8000_0000
    requires outer == 0 && depth == outer + 1 && !s.climbed && r == DecodeDir(false, depth, s).s
    requires s.input == Items(depth, l, RecordBytes(Record(END_OF_TRANSMISSION, 0, [])))
    ensures !r.climbed
  {
    EndSafe();
    ItemsStay(outer, root, l, RecordBytes(Record(END_OF_TRANSMISSION, 0, [])), s);
  }

  /** Deserializing any serialized tree, on any file system, changes nothing but the target and what is below it. */
  lemma TransmissionConfined(root: Path, l: Listing, files: FileSystem)
    requires WellFormed(l) && PlainModes(l) && Fits(root, l) && 1 + Height(l) < 0x8000_0000
    ensures var r, made := Deserialize(false, Transmitted(root, l, files)).s, MakeDirectory(files, root, 448);
            !r.climbed && Grown(files, r.files) && (r.files == files || Confined(made, root, r.files))
  {
    var end, made := RecordBytes(Record(END_OF_TRANSMISSION, 0, [])), MakeDirectory(files, root, 448);
    var s := Transmitted(root, l, files);
    DeserializeStep(false, root, l, files);
    TransmissionStays(0, 1, root, l, Working(Items(1, l, end), root, made), Deserialize(false, s).s);
    DeserializeConfined(s);
  }

  // ----- Entries that follow a directory

  /** All that decoding adds after a directory was made at `at + [n]` is below it. */
  lemma OnlyBelow(depth: int, s: State, at: Location, n: seq<byte>, k: Location)
    requires At(s.files, s.path) == Some(at + [n]) && IsDirectory(s.files, at + [n])
    requires !(at + [n] <= k) && k !in s.files.nodes && !DecodeDir(false, depth, s).s.climbed
    ensures k !in DecodeDir(false, depth, s).s.files.nodes
  {
    SettledDirectory(s.files, s.files, s.path);
    DecodeDirConfined(false, depth, s);
  }

  /** As written, nothing of an entry that follows a directory, at any level, is ever created where it belongs. */
  lemma {:induction false} DisplacedAbsent(outer: nat, p: Path, at: Location, l: Listing, files: FileSystem,
                                           rest: seq<byte>, k: Location)
    requires Ready(outer + 1, p, at, l, files) && Displaced(at, l, k)
    requires !DecodeDir(false, outer + 1, Working(Items(outer + 1, l, rest), p, files)).s.climbed
    ensures k !in DecodeDir(false, outer + 1, Working(Items(outer + 1, l, rest), p, files)).s.files.nodes
    decreases l
  {
    var q, made := at + [l.name], Put(files, at + [l.name], Directory(l.node.mode));
    ReadyFirst(outer + 1, p, at, l, files);
    DirectoryMade(outer + 1, p, at, l, files, l.node.mode);
    DisplacedInListing(at, l, k);
    FlattenParts(at, l, k);
    if l.node.File? && l.node.data != [] {
      FileEntry(false, outer + 1, p, at, l, files, rest);
      DisplacedAbsent(outer, p, at, l.rest, Add(files, FlattenNode(q, l.node)), rest, k);
    } else if l.node.File? {
      DisplacedInListing(at, l.rest, k);
      var input := EmptyFileEntry(false, outer, p, at, l, files, rest);
      OnlyBelow(outer + 1 + 1, Working(input, Join(p, l.name), made), at, l.name, k);
    } else {
      var inside := Items(outer + 1 + 1, l.node.entries, Items(outer + 1, l.rest, rest));
      DirEntry(false, outer + 1, p, at, l, files, rest);
      if InListing(at, l.rest, k) {
        OnlyBelow(outer + 1 + 1, Working(inside, Join(p, l.name), made), at, l.name, k);
      } else {
        ReadyInside(outer + 1, p, at, l, files);
        DisplacedAbsent(outer + 1, Join(p, l.name), q, l.node.entries, made, Items(outer + 1, l.rest, rest), k);
      }
    }
  }

  lemma DisplacedInTree(outer: nat, depth: nat, root: Path, at: Location, l: Listing, made: FileSystem, r: State,
                        k: Location)
    requires PlainModes(l) && 1 + Height(l) < 0x8000_0000 && outer == 0 && depth == outer + 1
    requires Ready(depth, root, at, l, made) && Displaced(at, l, k)
    requires r == DecodeDir(false, depth,
                            Working(Items(depth, l, RecordBytes(Record(END_OF_TRANSMISSION, 0, []))), root, made)).s
    ensures k !in r.files.nodes
  {
    var end := RecordBytes(Record(END_OF_TRANSMISSION, 0, []));
    TransmissionStays(outer, depth, root, l, Working(Items(depth, l, end), root, made), r);
    DisplacedAbsent(outer, root, at, l, made, end, k);
  }

  /** In the tree that the program as written makes, every entry that follows a directory is missing. */
  lemma FollowersMissing(root: Path, at: Location, l: Listing, files: FileSystem, k: Location)
    requires WellFormed(l) && PlainModes(l) && Fits(root, l) && 1 + Height(l) < 0x8000_0000
    requires FreshTarget(root, at, files) && Displaced(at, l, k)
    ensures k !in Deserialize(false, Transmitted(root, l, files)).s.files.nodes
  {
    FreshIsReady(root, at, l, files);
    DeserializeStep(false, root, l, files);
    DisplacedInTree(0, 1, root, at, l, MakeDirectory(files, root, 448),
                    Deserialize(false, Transmitted(root, l, files)).s, k);
  }

  // ----- The smallest tree that does not come back

  /** An empty directory "d" (drwxr-xr-x) and after it a file "f" (-rw-r--r--) of one byte. */
  function DirectoryThenFile(): Listing {
    Item([0x64], Dir(16877, 0, End), Item([0x66], File(33188, [1]), End))
  }

  /** A name that is not in the working directory yet, with nothing below it, is a fresh target. */
  lemma NewTarget(root: Path, files: FileSystem)
    requires IsName(root) && IsDirectory(files, files.cwd)
    requires forall k | k in files.nodes :: !(files.cwd + [root] <= k)
    ensures FreshTarget(root, files.cwd + [root], files)
  {
    var at := files.cwd + [root];
    assert LastSlash(root) < 0 && Strip(root) == root && At(files, root) == Some(at);
    assert at !in files.nodes && Parent(at) == files.cwd;
    MkdirSettles(files, root, 448);
    AtStable(files, MakeDirectory(files, root, 448), root);
    assert MakeDirectory(files, root, 448) == Put(files, at, Directory(448));
  }

  /** The entry `n` is part of the tree, the program as written loses it, and popping first brings all back. */
  predicate Lost(root: Path, at: Location, l: Listing, files: FileSystem, n: seq<byte>) {
    var whole := Add(MakeDirectory(files, root, 448), Flatten(at, l));
    && at + [n] in whole.nodes
    && at + [n] !in Deserialize(false, Transmitted(root, l, files)).s.files.nodes
    && Deserialize(true, Transmitted(root, l, files)).s.files == whole
  }

  lemma FollowerLost(root: Path, at: Location, l: Listing, files: FileSystem, n: seq<byte>)
    requires WellFormed(l) && PlainModes(l) && Fits(root, l) && 1 + Height(l) < 0x8000_0000
    requires FreshTarget(root, at, files) && n in Names(l) && Displaced(at, l, at + [n]) && Rebuilt(true, l)
    ensures Lost(root, at, l, files, n)
  {
    RoundTripExact(true, root, at, l, files);
    FollowersMissing(root, at, l, files, at + [n]);
    EntryFlattened(at, l, n);
  }

  /** In an empty working directory the file "f" is lost. */
  lemma SmallestFailure()
    ensures Lost([0x74], [[0x74]], DirectoryThenFile(), FileSystem([], map[]), [0x66])
  {
    var files, root: Path := FileSystem([], map[]), [0x74];
    assert files.cwd + [root] == [root] && [root] + [[0x66]] == [root, [0x66]];
    NewTarget(root, files);
    SmallTreeFits();
    FollowerLost(root, [root], DirectoryThenFile(), files, [0x66]);
  }

  lemma SmallTreeFits()
    ensures var l := DirectoryThenFile();
            && WellFormed(l) && PlainModes(l) && Fits([0x74], l) && Height(l) == 1
            && Rebuilt(true, l) && [0x66] in Names(l) && Displaced([[0x74]], l, [[0x74], [0x66]])
  {
    var l := DirectoryThenFile();
    assert WellFormedNode(l.node) && WellFormedNode(l.rest.node);
    assert Names(l.rest) == {[0x66]};
    assert Names(l) == {[0x64], [0x66]};
    assert WellFormed(l.rest) && PlainModes(l.rest) && Fits([0x74], l.rest);
    assert Fits(Join([0x74], [0x64]), End);
    assert InListing([[0x74]], l.rest, [[0x74], [0x66]]);
  }
}
