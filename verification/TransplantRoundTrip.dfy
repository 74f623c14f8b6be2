/** hw1: for which trees deserializing the serialized stream rebuilds the tree. */
module TransplantRoundTrip {
  import opened Bytes
  import opened Climbing
  import opened FileSystems
  import opened Paths
  import opened TransplantDecoder
  import opened TransplantFormat
  import opened TransplantTrees
  import opened Wrappers

  /** All names fit `name_buf` and all paths fit `path_buf`. */
  predicate Fits(p: Path, l: Listing)
    decreases l
  {
    match l
    case End => |p| < PATH_MAX
    case Item(n, node, r) =>
      |n| < NAME_MAX && |Join(p, n)| < PATH_MAX && Fits(p, r) && (node.Dir? ==> Fits(Join(p, n), node.entries))
  }

  /** Where the decoder stands when it continues after the END_OF_DIRECTORY record of `l`. */
  function Resume(popFirst: bool, p: Path, l: Listing): Path {
    if popFirst then Pop(p) else Deepest(p, l)
  }

  /** The decoder at work on `input` with nothing gone wrong so far. */
  function Working(input: seq<byte>, p: Path, files: FileSystem): State {
    State(input, p, files, false, false)
  }

  function Add(files: FileSystem, nodes: Nodes): FileSystem {
    files.(nodes := files.nodes + nodes)
  }

  // ----- One record at a time

  lemma EncodedMagic(r: Record, rest: seq<byte>)
    requires Bounded(r)
    ensures var s := RecordBytes(r) + rest;
            && MagicOk(s) && CharAt(s, 3) == r.kind
            && Number(Drop(s, 4), 4) == r.depth
            && Number(Drop(s, 8), 8) == HEADER_SIZE + |r.body|
            && Drop(s, HEADER_SIZE) == r.body + rest
  {
    HeaderFields(r.kind, r.depth, HEADER_SIZE + |r.body|, r.body + rest);
    var s := Header(r.kind, r.depth, HEADER_SIZE + |r.body|) + (r.body + rest);
    assert RecordBytes(r) + rest == s;
    assert s[0] == s[..3][0] && s[1] == s[..3][1] && s[2] == s[..3][2];
  }

  /** `s` starts with a record header that DecodeDir accepts at this depth. */
  predicate HeaderAt(s: seq<byte>, kind: byte, depth: int, size: int, rest: seq<byte>) {
    && MagicOk(s) && CharAt(s, 3) == kind && Number(Drop(s, 4), 4) == depth
    && Number(Drop(s, 8), 8) == size && Drop(s, HEADER_SIZE) == rest
  }

  /** What matters once decoding is over; the path is left wherever unwinding leaves it. */
  predicate Agree(a: State, b: State) {
    a.files == b.files && a.overrun == b.overrun && a.climbed == b.climbed
  }

  lemma EndHeader(popFirst: bool, outer: int, s: State, size: int, rest: seq<byte>)
    requires HeaderAt(s.input, END_OF_DIRECTORY, outer + 1, size, rest)
    ensures var next := s.(input := rest, path := if popFirst then Pop(s.path) else s.path);
            Agree(DecodeDir(popFirst, outer + 1, s).s, DecodeDir(popFirst, outer, next).s)
  {
    assert outer + 1 - 1 == outer;
  }

  lemma EndStep(popFirst: bool, outer: nat, s: State, rest: seq<byte>)
    requires outer + 1 < 0x8000_0000 && s.input == RecordBytes(Record(END_OF_DIRECTORY, outer + 1, [])) + rest
    ensures var next := s.(input := rest, path := if popFirst then Pop(s.path) else s.path);
            Agree(DecodeDir(popFirst, outer + 1, s).s, DecodeDir(popFirst, outer, next).s)
  {
    EncodedMagic(Record(END_OF_DIRECTORY, outer + 1, []), rest);
    assert [] + rest == rest;
    EndHeader(popFirst, outer, s, HEADER_SIZE, rest);
  }

  lemma StartStep(popFirst: bool, depth: nat, s: State, rest: seq<byte>)
    requires depth < 0x8000_0000 && s.input == RecordBytes(Record(START_OF_DIRECTORY, depth, [])) + rest
    ensures DecodeDir(popFirst, depth, s).s == DecodeDir(popFirst, depth, s.(input := rest)).s
  {
    EncodedMagic(Record(START_OF_DIRECTORY, depth, []), rest);
    assert [] + rest == rest;
  }

  lemma HeaderStep(popFirst: bool, depth: int, s: State, kind: byte, size: int, rest: seq<byte>)
    requires HeaderAt(s.input, kind, depth, size, rest)
    ensures DecodeDir(popFirst, depth, s).s == DecodeRecord(popFirst, depth, kind, size, s.(input := rest))
  {
  }

  lemma EntryHeader(popFirst: bool, depth: int, s: State, n: nat, rest: seq<byte>)
    requires HeaderAt(s.input, DIRECTORY_ENTRY, depth, HEADER_SIZE + METADATA_SIZE + n, rest)
    ensures DecodeDir(popFirst, depth, s).s
         == DecodeEntry(popFirst, depth, Number(rest, 4), n, s.(input := Drop(rest, METADATA_SIZE)))
  {
    var size := HEADER_SIZE + METADATA_SIZE + n;
    HeaderStep(popFirst, depth, s, DIRECTORY_ENTRY, size, rest);
    assert Count(size, HEADER_SIZE + METADATA_SIZE) == n;
  }

  lemma NameStep(n: seq<byte>, rest: seq<byte>)
    requires 0 !in n
    ensures CStr(Take(n + rest, |n|)) == n && Drop(n + rest, |n|) == rest
  {
    assert Take(n + rest, |n|) == n;
    CStrOf(n, n);
  }

  lemma EntryDecoded(popFirst: bool, depth: nat, mode: int, n: seq<byte>, s: State, rest: seq<byte>)
    requires 0 !in n && |n| < NAME_MAX && s.input == n + rest
    ensures DecodeEntry(popFirst, depth, mode, |n|, s) ==
            if |Join(s.path, n)| < PATH_MAX then DecodeNamed(popFirst, depth, mode, PushName(s.(input := rest), n))
            else s.(input := rest, overrun := true)
  {
    NameStep(n, rest);
  }

  /** Decoding a DIRECTORY_ENTRY record amounts to pushing the name, making its file or directory, and going on. */
  lemma EntryStep(popFirst: bool, depth: nat, n: seq<byte>, node: Node, s: State, rest: seq<byte>)
    requires depth < 0x8000_0000 && WellFormedNode(node) && 0 !in n && |n| < NAME_MAX
    requires s.input == RecordBytes(EntryRecord(depth, n, node)) + rest
    ensures DecodeDir(popFirst, depth, s).s ==
            if |Join(s.path, n)| < PATH_MAX then DecodeNamed(popFirst, depth, node.mode, PushName(s.(input := rest), n))
            else s.(input := rest, overrun := true)
  {
    var r := EntryRecord(depth, n, node);
    EncodedMagic(r, rest);
    MetadataFields(node.mode, NodeSize(node), n + rest);
    assert r.body + rest == Metadata(node.mode, NodeSize(node)) + (n + rest);
    EntryHeader(popFirst, depth, s, |n|, r.body + rest);
    EntryDecoded(popFirst, depth, node.mode, n, s.(input := n + rest), rest);
  }

  lemma FileStep(depth: nat, s: State, data: seq<byte>, rest: seq<byte>)
    requires depth < 0x8000_0000 && |data| + HEADER_SIZE < 0x8000_0000_0000_0000
    requires s.input == RecordBytes(Record(FILE_DATA, depth, data)) + rest
    ensures FileData(s.input) == RegularFile(data)
    ensures CanCreate(s.files, s.path) ==>
      var files := Create(s.files, s.path, RegularFile(data));
      DecodeFile(depth, s) == Outcome(0, s.(input := rest, path := Pop(s.path), files := files))
    ensures !CanCreate(s.files, s.path) ==> DecodeFile(depth, s).rc == -1
  {
    EncodedMagic(Record(FILE_DATA, depth, data), rest);
    assert Take(data + rest, |data|) == data;
    assert Drop(data + rest, |data|) == rest;
  }

  /** Any other record makes DecodeFile fail after its header, unless the path exists already. */
  lemma NotAFileStep(depth: nat, s: State, r: Record, rest: seq<byte>)
    requires Bounded(r) && r.kind != FILE_DATA && s.input == RecordBytes(r) + rest
    ensures DecodeFile(depth, s) == Outcome(-1, if Found(s.files, s.path) then s else s.(input := r.body + rest))
  {
    EncodedMagic(r, rest);
  }

  /** A record of another depth stops the decoder. */
  lemma WrongDepth(popFirst: bool, depth: int, s: State, r: Record, rest: seq<byte>)
    requires Bounded(r) && r.depth != depth && s.input == RecordBytes(r) + rest
    ensures Agree(DecodeDir(popFirst, depth, s).s, s)
  {
    EncodedMagic(r, rest);
  }

  // ----- Whole listings

  /** The records of a listing, its END_OF_DIRECTORY record, then `rest`. */
  function Items(depth: nat, l: Listing, rest: seq<byte>): seq<byte> {
    Encode(ItemRecords(depth, l), RecordBytes(Record(END_OF_DIRECTORY, depth, [])) + rest)
  }

  /** What follows the record of the first entry, `after` being what follows the entry. */
  function EntryTail(depth: nat, node: Node, after: seq<byte>): seq<byte> {
    match node
    case File(_, data) => if data == [] then after else RecordBytes(Record(FILE_DATA, depth, data)) + after
    case Dir(_, _, d) => RecordBytes(Record(START_OF_DIRECTORY, depth + 1, [])) + Items(depth + 1, d, after)
  }

  lemma ItemsFirst(depth: nat, l: Listing, rest: seq<byte>)
    requires l.Item?
    ensures Items(depth, l, rest) ==
            RecordBytes(EntryRecord(depth, l.name, l.node)) + EntryTail(depth, l.node, Items(depth, l.rest, rest))
  {
    var end := RecordBytes(Record(END_OF_DIRECTORY, depth, [])) + rest;
    var after := Encode(ItemRecords(depth, l.rest), end);
    assert ItemRecords(depth, l)[1..] == NodeRecords(depth, l.node) + ItemRecords(depth, l.rest);
    EncodeAppend(NodeRecords(depth, l.node), ItemRecords(depth, l.rest), end);
    if l.node.Dir? {
      DirEncoded(depth + 1, l.node.entries, after);
    }
  }

  lemma DirEncoded(depth: nat, l: Listing, rest: seq<byte>)
    ensures Encode(DirRecords(depth, l), rest)
         == RecordBytes(Record(START_OF_DIRECTORY, depth, [])) + Items(depth, l, rest)
  {
    var end := Record(END_OF_DIRECTORY, depth, []);
    assert DirRecords(depth, l)[1..] == ItemRecords(depth, l) + [end];
    EncodeAppend(ItemRecords(depth, l), [end], rest);
    assert Encode([end], rest) == RecordBytes(end) + Encode([], rest);
  }

  /** The first record of a listing, or the one that ends it. */
  lemma NextRecord(outer: nat, l: Listing, rest: seq<byte>) returns (r: Record, tail: seq<byte>)
    requires WellFormed(l) && outer + 1 < 0x8000_0000
    ensures Items(outer + 1, l, rest) == RecordBytes(r) + tail && Bounded(r) && r.kind != FILE_DATA
    ensures r.depth == outer + 1
    ensures r.body == if l.End? then [] else Metadata(l.node.mode, NodeSize(l.node)) + l.name
    ensures l.End? ==> tail == rest
  {
    if l.End? {
      r, tail := Record(END_OF_DIRECTORY, outer + 1, []), rest;
    } else {
      r := EntryRecord(outer + 1, l.name, l.node);
      ItemsFirst(outer + 1, l, rest);
      tail := EntryTail(outer + 1, l.node, Items(outer + 1, l.rest, rest));
    }
  }

  /** The decoder stands in the directory `at`, at the right depth, with room for all of `l` and none of it there. */
  predicate Ready(depth: nat, p: Path, at: Location, l: Listing, files: FileSystem) {
    && WellFormed(l) && Fits(p, l) && 1 <= depth <= |p| + 1
    && At(files, p) == Some(at) && IsDirectory(files, at)
    && forall k | k in files.nodes :: !InListing(at, l, k)
  }

  lemma {:induction false} FitsHere(p: Path, l: Listing)
    requires Fits(p, l)
    ensures |p| < PATH_MAX
  {
    if l.End? {
    } else {
      FitsHere(p, l.rest);
    }
  }

  /** A name pushed onto a directory's path leads to the entry of that name. */
  lemma EntryTarget(files: FileSystem, p: Path, at: Location, n: seq<byte>)
    requires At(files, p) == Some(at) && IsDirectory(files, at) && IsName(n)
    ensures Lookup(files, Join(p, n)) == Some(at + [n]) && Strip(Join(p, n)) == Join(p, n)
    ensures CanCreate(files, Join(p, n)) <==> at + [n] !in files.nodes
  {
    AtJoin(files, p, n);
    assert Join(p, n)[|p| + |n|] == n[|n| - 1];
    assert (at + [n])[..|at|] == at;
  }

  lemma ReadyFirst(depth: nat, p: Path, at: Location, l: Listing, files: FileSystem)
    requires Ready(depth, p, at, l, files) && l.Item?
    ensures depth < PATH_MAX && IsName(l.name) && Inside(l.name) && WellFormedNode(l.node)
    ensures CanCreate(files, Join(p, l.name)) && Lookup(files, Join(p, l.name)) == Some(at + [l.name])
    ensures Strip(Join(p, l.name)) == Join(p, l.name)
    ensures Ready(depth, p, at, l.rest, Add(files, FlattenNode(at + [l.name], l.node)))
  {
    var q := at + [l.name];
    FitsHere(p, l);
    NamesAreInside(l.name);
    EntryTarget(files, p, at, l.name);
    Child(at, l.name, q);
    assert InListing(at, l, q);
    NodeAdded(at, l, files);
    AtStable(files, Add(files, FlattenNode(q, l.node)), p);
  }

  lemma NodeAdded(at: Location, l: Listing, files: FileSystem)
    requires WellFormed(l) && l.Item? && forall k | k in files.nodes :: !InListing(at, l, k)
    ensures var files' := Add(files, FlattenNode(at + [l.name], l.node));
            Grown(files, files') && forall k | k in files'.nodes :: !InListing(at, l.rest, k)
  {
    forall k | k in FlattenNode(at + [l.name], l.node) ensures InListing(at, l, k) && !InListing(at, l.rest, k) {
      FlattenNodeKeys(at + [l.name], l.node, k);
      Child(at, l.name, k);
    }
  }

  /** A directory made for the entry is reached by the entry's path. */
  lemma DirectoryMade(depth: nat, p: Path, at: Location, l: Listing, files: FileSystem, mode: int)
    requires Ready(depth, p, at, l, files) && l.Item?
    ensures var made := Put(files, at + [l.name], Directory(mode));
            && made == MakeDirectory(files, Join(p, l.name), mode) && Grown(files, made)
            && At(made, Join(p, l.name)) == Some(at + [l.name])
  {
    ReadyFirst(depth, p, at, l, files);
    AtStable(files, Put(files, at + [l.name], Directory(mode)), Join(p, l.name));
  }

  /** The subdirectory, once it is made. */
  lemma ReadyInside(depth: nat, p: Path, at: Location, l: Listing, files: FileSystem)
    requires Ready(depth, p, at, l, files) && l.Item? && l.node.Dir?
    ensures var made := Put(files, at + [l.name], Directory(l.node.mode));
            && Grown(files, made) && Ready(depth + 1, Join(p, l.name), at + [l.name], l.node.entries, made)
  {
    var q := at + [l.name];
    var made := Put(files, q, Directory(l.node.mode));
    ReadyFirst(depth, p, at, l, files);
    DirectoryMade(depth, p, at, l, files, l.node.mode);
    forall k | k in made.nodes ensures !InListing(q, l.node.entries, k) {
      Child(at, l.name, k);
    }
  }

  lemma FlattenFile(q: Location, node: Node, files: FileSystem)
    requires node.File?
    ensures Add(files, FlattenNode(q, node)) == Put(files, q, RegularFile(node.data))
  {
    assert files.nodes + map[q := RegularFile(node.data)] == files.nodes[q := RegularFile(node.data)];
  }

  lemma NamePushed(s: State, n: seq<byte>)
    requires IsName(n)
    ensures PushName(s, n) == s.(path := Join(s.path, n))
  {
    NameStays(s, n);
  }

  /** A nonempty file is made from its entry and the record behind it. */
  lemma FileMade(depth: nat, p: Path, at: Location, l: Listing, files: FileSystem, input: seq<byte>, after: seq<byte>)
    requires Ready(depth, p, at, l, files) && l.Item? && l.node.File?
    requires input == RecordBytes(Record(FILE_DATA, depth, l.node.data)) + after
    ensures DecodeFile(depth, Working(input, Join(p, l.name), files)) ==
            Outcome(0, Working(after, p, Add(files, FlattenNode(at + [l.name], l.node))))
  {
    ReadyFirst(depth, p, at, l, files);
    PopJoin(p, l.name);
    FlattenFile(at + [l.name], l.node, files);
    FileCreated(depth, Working(input, Join(p, l.name), files), p, at + [l.name], l.node.data, after);
  }

  lemma FileCreated(depth: nat, s: State, p: Path, q: Location, data: seq<byte>, after: seq<byte>)
    requires depth < 0x8000_0000 && |data| + HEADER_SIZE < 0x8000_0000_0000_0000
    requires s.input == RecordBytes(Record(FILE_DATA, depth, data)) + after
    requires CanCreate(s.files, s.path) && Lookup(s.files, s.path) == Some(q) && Pop(s.path) == p
    ensures DecodeFile(depth, s) ==
            Outcome(0, s.(input := after, path := p, files := Put(s.files, q, RegularFile(data))))
  {
    FileStep(depth, s, data, after);
  }

  lemma FileEntry(popFirst: bool, depth: nat, p: Path, at: Location, l: Listing, files: FileSystem, rest: seq<byte>)
    requires Ready(depth, p, at, l, files) && l.Item? && l.node.File? && l.node.data != []
    ensures var files' := Add(files, FlattenNode(at + [l.name], l.node));
            DecodeDir(popFirst, depth, Working(Items(depth, l, rest), p, files)).s ==
            DecodeDir(popFirst, depth, Working(Items(depth, l.rest, rest), p, files')).s
  {
    var after := Items(depth, l.rest, rest);
    var input := EntryTail(depth, l.node, after);
    ItemsFirst(depth, l, rest);
    ReadyFirst(depth, p, at, l, files);
    FileMade(depth, p, at, l, files, input, after);
    NamePushed(Working(input, p, files), l.name);
    EntryStep(popFirst, depth, l.name, l.node, Working(Items(depth, l, rest), p, files), input);
  }

  /** Unless FILE_DATA follows, the decoder makes a directory, skips the next header and goes one level down. */
  lemma EnterStep(popFirst: bool, depth: nat, p: Path, at: Location, l: Listing, files: FileSystem, r: Record,
                  input: seq<byte>, rest: seq<byte>)
    requires Ready(depth, p, at, l, files) && l.Item? && Bounded(r) && r.kind != FILE_DATA
    requires input == RecordBytes(EntryRecord(depth, l.name, l.node)) + (RecordBytes(r) + rest)
    ensures var next := Working(r.body + rest, Join(p, l.name), Put(files, at + [l.name], Directory(l.node.mode)));
            DecodeDir(popFirst, depth, Working(input, p, files)).s == DecodeDir(popFirst, depth + 1, next).s
  {
    ReadyFirst(depth, p, at, l, files);
    NotAFileStep(depth, Working(RecordBytes(r) + rest, Join(p, l.name), files), r, rest);
    EntryStep(popFirst, depth, l.name, l.node, Working(input, p, files), RecordBytes(r) + rest);
  }

  lemma DirEntry(popFirst: bool, depth: nat, p: Path, at: Location, l: Listing, files: FileSystem, rest: seq<byte>)
    requires Ready(depth, p, at, l, files) && l.Item? && l.node.Dir?
    ensures var inside := Items(depth + 1, l.node.entries, Items(depth, l.rest, rest));
            var made := Put(files, at + [l.name], Directory(l.node.mode));
            DecodeDir(popFirst, depth, Working(Items(depth, l, rest), p, files)).s ==
            DecodeDir(popFirst, depth + 1, Working(inside, Join(p, l.name), made)).s
  {
    ItemsFirst(depth, l, rest);
    ReadyFirst(depth, p, at, l, files);
    var inside := Items(depth + 1, l.node.entries, Items(depth, l.rest, rest));
    assert [] + inside == inside;
    var start := Record(START_OF_DIRECTORY, depth + 1, []);
    EnterStep(popFirst, depth, p, at, l, files, start, Items(depth, l, rest), inside);
  }

  lemma FlattenFirst(at: Location, l: Listing, files: FileSystem)
    requires l.Item?
    ensures Add(Add(files, FlattenNode(at + [l.name], l.node)), Flatten(at, l.rest)) == Add(files, Flatten(at, l))
  {
    assert files.nodes + FlattenNode(at + [l.name], l.node) + Flatten(at, l.rest) == files.nodes + Flatten(at, l);
  }

  lemma FlattenDirectory(q: Location, node: Node, files: FileSystem)
    requires node.Dir?
    ensures Add(Put(files, q, Directory(node.mode)), Flatten(q, node.entries)) == Add(files, FlattenNode(q, node))
  {
    assert files.nodes[q := Directory(node.mode)] + Flatten(q, node.entries) == files.nodes + FlattenNode(q, node);
  }

  lemma AddNothing(files: FileSystem)
    ensures Add(files, map[]) == files
  {
    assert files.nodes + map[] == files.nodes;
  }

  lemma DecodeEnd(popFirst: bool, outer: nat, p: Path, at: Location, l: Listing, files: FileSystem, rest: seq<byte>)
    requires Ready(outer + 1, p, at, l, files) && l.End?
    ensures Agree(DecodeDir(popFirst, outer + 1, Working(Items(outer + 1, l, rest), p, files)).s,
                  DecodeDir(popFirst, outer, Working(rest, Resume(popFirst, p, l), Add(files, Flatten(at, l)))).s)
  {
    FitsHere(p, l);
    EndStep(popFirst, outer, Working(Items(outer + 1, l, rest), p, files), rest);
    AddNothing(files);
  }

  /**
   * Decoding a listing that the decoder rebuilds, one level below `outer`: the listing is there, and decoding
   * goes on at Resume.
   */
  lemma {:induction false} DecodeRebuilt(popFirst: bool, outer: nat, p: Path, at: Location, l: Listing,
                                         files: FileSystem, rest: seq<byte>)
    requires Ready(outer + 1, p, at, l, files) && Rebuilt(popFirst, l)
    ensures Agree(DecodeDir(popFirst, outer + 1, Working(Items(outer + 1, l, rest), p, files)).s,
                  DecodeDir(popFirst, outer, Working(rest, Resume(popFirst, p, l), Add(files, Flatten(at, l)))).s)
    decreases l, 1
  {
    if l.End? {
      DecodeEnd(popFirst, outer, p, at, l, files, rest);
    } else if l.node.File? {
      ReadyFirst(outer + 1, p, at, l, files);
      FlattenFirst(at, l, files);
      FileEntry(popFirst, outer + 1, p, at, l, files, rest);
      DecodeRebuilt(popFirst, outer, p, at, l.rest, Add(files, FlattenNode(at + [l.name], l.node)), rest);
    } else {
      DecodeSubdirectory(popFirst, outer, p, at, l, files, rest);
      DecodeAfterDirectory(popFirst, outer, p, at, l, files, rest);
    }
  }

  /** The state in which decoding goes on after a subdirectory that the decoder rebuilds. */
  function Afterwards(popFirst: bool, outer: nat, p: Path, at: Location, l: Listing, files: FileSystem,
                      rest: seq<byte>): State
    requires l.Item? && l.node.Dir?
  {
    Working(Items(outer + 1, l.rest, rest), Resume(popFirst, Join(p, l.name), l.node.entries),
            Add(files, FlattenNode(at + [l.name], l.node)))
  }

  lemma {:induction false} DecodeSubdirectory(popFirst: bool, outer: nat, p: Path, at: Location, l: Listing,
                                              files: FileSystem, rest: seq<byte>)
    requires Ready(outer + 1, p, at, l, files) && l.Item? && l.node.Dir? && Rebuilt(popFirst, l.node.entries)
    ensures Agree(DecodeDir(popFirst, outer + 1, Working(Items(outer + 1, l, rest), p, files)).s,
                  DecodeDir(popFirst, outer + 1, Afterwards(popFirst, outer, p, at, l, files, rest)).s)
    decreases l.node, 2
  {
    var q := at + [l.name];
    var made := Put(files, q, Directory(l.node.mode));
    ReadyInside(outer + 1, p, at, l, files);
    DirEntry(popFirst, outer + 1, p, at, l, files, rest);
    FlattenDirectory(q, l.node, files);
    DecodeRebuilt(popFirst, outer + 1, Join(p, l.name), q, l.node.entries, made, Items(outer + 1, l.rest, rest));
  }

  lemma {:induction false} DecodeAfterDirectory(popFirst: bool, outer: nat, p: Path, at: Location, l: Listing,
                                                files: FileSystem, rest: seq<byte>)
    requires Ready(outer + 1, p, at, l, files) && l.Item? && l.node.Dir? && Rebuilt(popFirst, l)
    ensures Agree(DecodeDir(popFirst, outer + 1, Afterwards(popFirst, outer, p, at, l, files, rest)).s,
                  DecodeDir(popFirst, outer, Working(rest, Resume(popFirst, p, l), Add(files, Flatten(at, l)))).s)
    decreases l, 0
  {
    if popFirst {
      ReadyFirst(outer + 1, p, at, l, files);
      FlattenFirst(at, l, files);
      PopJoin(p, l.name);
      DecodeRebuilt(popFirst, outer, p, at, l.rest, Add(files, FlattenNode(at + [l.name], l.node)), rest);
    } else {
      FitsHere(p, l);
      DecodeAfterLast(outer, p, at, l, files, rest);
    }
  }

  /** As written, when nothing follows the subdirectory. */
  lemma DecodeAfterLast(outer: nat, p: Path, at: Location, l: Listing, files: FileSystem, rest: seq<byte>)
    requires outer + 1 < 0x8000_0000 && l.Item? && l.node.Dir? && l.rest.End?
    ensures Agree(DecodeDir(false, outer + 1, Afterwards(false, outer, p, at, l, files, rest)).s,
                  DecodeDir(false, outer, Working(rest, Deepest(p, l), Add(files, Flatten(at, l)))).s)
  {
    var files' := Add(files, FlattenNode(at + [l.name], l.node));
    var inside := Deepest(Join(p, l.name), l.node.entries);
    FlattenFirst(at, l, files);
    assert Items(outer + 1, l.rest, rest) == RecordBytes(Record(END_OF_DIRECTORY, outer + 1, [])) + rest;
    assert Deepest(p, l) == Deepest(inside, l.rest) == inside;
    assert Add(files', map[]) == files' && Add(files, Flatten(at, l)) == files';
    EndStep(false, outer, Afterwards(false, outer, p, at, l, files, rest), rest);
  }

  // ----- Trees that are not rebuilt

  /** What follows the header that the decoder skips when it takes an empty file for a directory. */
  lemma SkippedHeader(outer: nat, l: Listing, rest: seq<byte>) returns (r: Record, tail: seq<byte>)
    requires WellFormed(l) && outer + 1 < 0x8000_0000 && l.Item? && l.node.File? && l.node.data == []
    ensures Items(outer + 1, l, rest) == RecordBytes(EntryRecord(outer + 1, l.name, l.node)) + (RecordBytes(r) + tail)
    ensures Bounded(r) && r.kind != FILE_DATA && r.depth == outer + 1
    ensures r.body == if l.rest.End? then [] else Metadata(l.rest.node.mode, NodeSize(l.rest.node)) + l.rest.name
    ensures l.rest.End? ==> tail == rest
  {
    ItemsFirst(outer + 1, l, rest);
    r, tail := NextRecord(outer, l.rest, rest);
  }

  /** The decoder takes an empty file for a directory. */
  lemma EmptyFileEntry(popFirst: bool, outer: nat, p: Path, at: Location, l: Listing, files: FileSystem,
                       rest: seq<byte>)
    returns (input: seq<byte>)
    requires Ready(outer + 1, p, at, l, files) && l.Item? && l.node.File? && l.node.data == []
    ensures var s := Working(input, Join(p, l.name), Put(files, at + [l.name], Directory(l.node.mode)));
            DecodeDir(popFirst, outer + 1, Working(Items(outer + 1, l, rest), p, files)).s ==
            DecodeDir(popFirst, outer + 1 + 1, s).s
  {
    FitsHere(p, l);
    var r, tail := SkippedHeader(outer, l, rest);
    EnterStep(popFirst, outer + 1, p, at, l, files, r, Items(outer + 1, l, rest), tail);
    input := r.body + tail;
  }

  /** An empty file comes back as a directory. */
  lemma EmptyFileIsDirectory(popFirst: bool, outer: nat, p: Path, at: Location, l: Listing, files: FileSystem,
                             rest: seq<byte>)
    requires Ready(outer + 1, p, at, l, files) && l.Item? && l.node.File? && l.node.data == []
    ensures var nodes := DecodeDir(popFirst, outer + 1, Working(Items(outer + 1, l, rest), p, files)).s.files.nodes;
            at + [l.name] in nodes && nodes[at + [l.name]].Directory? && Differs(nodes, at, l)
  {
    var q := at + [l.name];
    var input := EmptyFileEntry(popFirst, outer, p, at, l, files, rest);
    DirectoryMade(outer + 1, p, at, l, files, l.node.mode);
    DecodeDirConfined(popFirst, outer + 1 + 1,
                      Working(input, Join(p, l.name), Put(files, at + [l.name], Directory(l.node.mode))));
    FlattenParts(at, l, q);
    Child(at, l.name, q);
    assert q in FlattenNode(q, l.node) && InListing(at, l, q);
  }

  lemma {:induction false} AtDeepest(files: FileSystem, p: Path, at: Location, l: Listing)
    requires WellFormed(l) && DirectoriesLast(l)
    requires At(files, p) == Some(at) && IsDirectory(files, at) && Keeps(Flatten(at, l), files.nodes)
    ensures At(files, Deepest(p, l)) == Some(DeepestAt(at, l)) && IsDirectory(files, DeepestAt(at, l))
    decreases l
  {
    match l
    case End =>
    case Item(n, node, r) =>
      EntryApart(at, l);
      if node.File? {
        AtDeepest(files, p, at, r);
      } else {
        var q := at + [n];
        InsideApart(q, node.entries);
        EntryTarget(files, p, at, n);
        assert FlattenNode(q, node)[q] == Directory(node.mode) && q in Flatten(at, l);
        assert Keeps(FlattenNode(q, node), files.nodes);
        AtDeepest(files, Join(p, n), q, node.entries);
        assert Deepest(p, l) == Deepest(Deepest(Join(p, n), node.entries), End);
      }
  }

  /** Adding a listing that is not there changes nothing else. */
  lemma FlattenGrows(at: Location, l: Listing, files: FileSystem)
    requires forall k | k in files.nodes :: !InListing(at, l, k)
    ensures Grown(files, Add(files, Flatten(at, l)))
  {
    forall k | k in files.nodes ensures k !in Flatten(at, l) {
      if k in Flatten(at, l) {
        FlattenKeys(at, l, k);
      }
    }
  }

  /** Where the decoder as written stands after a subdirectory: in its deepest directory, which holds only files. */
  lemma Displacement(depth: nat, p: Path, at: Location, l: Listing, files: FileSystem)
    requires Ready(depth, p, at, l, files) && l.Item? && l.node.Dir? && Rebuilt(false, l.node.entries)
    ensures var (q, d, t) := (at + [l.name], l.node.entries, DeepestAt(at + [l.name], l.node.entries));
            var files' := Add(files, FlattenNode(q, l.node));
            && At(files', Deepest(Join(p, l.name), d)) == Some(t) && IsDirectory(files', t) && q <= t
            && forall n :: t + [n] in files'.nodes ==> files'.nodes[t + [n]].RegularFile?
  {
    var q, d := at + [l.name], l.node.entries;
    var made, files' := Put(files, q, Directory(l.node.mode)), Add(files, FlattenNode(q, l.node));
    DirectoryMade(depth, p, at, l, files, l.node.mode);
    ReadyInside(depth, p, at, l, files);
    FlattenGrows(q, d, made);
    FlattenDirectory(q, l.node, files);
    AtStable(made, files', Join(p, l.name));
    AtDeepest(files', Join(p, l.name), q, d);
    DeepestHasFiles(q, d);
    forall n | DeepestAt(q, d) + [n] in files'.nodes ensures files'.nodes[DeepestAt(q, d) + [n]].RegularFile? {
      Child(at, l.name, DeepestAt(q, d) + [n]);
      assert InListing(at, l, DeepestAt(q, d) + [n]);
    }
  }

  lemma FollowerMissing(nodes: Nodes, at: Location, l: Listing, n: seq<byte>)
    requires WellFormed(l) && l.Item? && n in Names(l.rest) && at + [n] !in nodes
    ensures Differs(nodes, at, l)
  {
    EntryFlattened(at, l, n);
    assert InListing(at, l, at + [n]);
  }

  lemma StrangerFound(nodes: Nodes, at: Location, l: Listing, k: Location)
    requires WellFormed(l) && l.Item? && at + [l.name] <= k && k in nodes && k !in FlattenNode(at + [l.name], l.node)
    ensures Differs(nodes, at, l)
  {
    FlattenParts(at, l, k);
    Child(at, l.name, k);
    assert InListing(at, l, k);
  }

  /** An entry decoded in a directory that has a file of its name makes no change, whatever comes after it. */
  lemma EntryOnFile(depth: nat, mode: int, s: State, t: Location, n: seq<byte>)
    requires At(s.files, s.path) == Some(t) && IsDirectory(s.files, t) && IsName(n) && !s.climbed
    requires t + [n] in s.files.nodes && s.files.nodes[t + [n]].RegularFile?
    ensures DecodeNamed(false, depth, mode, PushName(s, n)).files == s.files
  {
    var next := AfterFile(depth, mode, PushName(s, n));
    EntryTarget(s.files, s.path, t, n);
    DecodeDirConfined(false, depth + 1, next);
    assert next.files == s.files && next.path == Join(s.path, n);
  }

  /** An entry decoded in a directory that has nothing of its name puts a file or a directory there for good. */
  lemma EntryOnNothing(depth: nat, mode: int, s: State, t: Location, n: seq<byte>)
    requires At(s.files, s.path) == Some(t) && IsDirectory(s.files, t) && IsName(n) && !s.climbed
    requires t + [n] !in s.files.nodes
    ensures t + [n] in DecodeNamed(false, depth, mode, PushName(s, n)).files.nodes
  {
    var next := AfterFile(depth, mode, PushName(s, n));
    EntryTarget(s.files, s.path, t, n);
    var _ := AfterEntryMade(depth, mode, s, n);
    DecodeDirConfined(false, depth, next);
    DecodeDirConfined(false, depth + 1, next);
  }

  /** As written, the entry after a subdirectory is either lost or put into the subdirectory. */
  lemma AfterDirectoryDiffers(outer: nat, p: Path, at: Location, l: Listing, files: FileSystem, rest: seq<byte>)
    requires Ready(outer + 1, p, at, l, files) && l.Item? && l.rest.Item?
    requires l.node.Dir? && Rebuilt(false, l.node.entries)
    ensures var r := DecodeDir(false, outer + 1, Working(Items(outer + 1, l, rest), p, files)).s;
            Differs(r.files.nodes, at, l)
  {
    var s, n := Afterwards(false, outer, p, at, l, files, rest), l.rest.name;
    var t := DeepestAt(at + [l.name], l.node.entries);
    ReadyFirst(outer + 1, p, at, l, files);
    ReadyFirst(outer + 1, p, at, l.rest, s.files);
    DecodeSubdirectory(false, outer, p, at, l, files, rest);
    Displacement(outer + 1, p, at, l, files);
    AfterDirectoryEntry(outer, at, l, s, t, rest);
  }

  lemma AfterDirectoryEntry(outer: nat, at: Location, l: Listing, s: State, t: Location, rest: seq<byte>)
    requires WellFormed(l) && l.Item? && l.rest.Item? && outer < PATH_MAX && |l.rest.name| < NAME_MAX
    requires s == Working(Items(outer + 1, l.rest, rest), s.path, s.files)
    requires At(s.files, s.path) == Some(t) && IsDirectory(s.files, t) && at + [l.name] <= t
    requires forall n :: t + [n] in s.files.nodes ==> s.files.nodes[t + [n]].RegularFile?
    requires at + [l.rest.name] !in s.files.nodes
    requires forall k | at + [l.name] <= k && k !in s.files.nodes :: k !in FlattenNode(at + [l.name], l.node)
    ensures Differs(DecodeDir(false, outer + 1, s).s.files.nodes, at, l)
  {
    var n, node := l.rest.name, l.rest.node;
    var tail := EntryTail(outer + 1, node, Items(outer + 1, l.rest.rest, rest));
    var s' := s.(input := tail);
    ItemsFirst(outer + 1, l.rest, rest);
    EntryStep(false, outer + 1, n, node, s, tail);
    if |Join(s.path, n)| >= PATH_MAX {
      FollowerMissing(s.files.nodes, at, l, n);
    } else if t + [n] in s.files.nodes {
      EntryOnFile(outer + 1, node.mode, s', t, n);
      FollowerMissing(s.files.nodes, at, l, n);
    } else {
      EntryOnNothing(outer + 1, node.mode, s', t, n);
      StrangerFound(DecodeDir(false, outer + 1, s).s.files.nodes, at, l, t + [n]);
    }
  }

  lemma {:induction false} DecodeBroken(popFirst: bool, outer: nat, p: Path, at: Location, l: Listing,
                                        files: FileSystem, rest: seq<byte>)
    requires Ready(outer + 1, p, at, l, files) && !Rebuilt(popFirst, l)
    ensures var r := DecodeDir(popFirst, outer + 1, Working(Items(outer + 1, l, rest), p, files)).s;
            Differs(r.files.nodes, at, l)
    decreases l, 1
  {
    ReadyFirst(outer + 1, p, at, l, files);
    if l.node.Dir? {
      DecodeBrokenDir(popFirst, outer, p, at, l, files, rest);
    } else if l.node.data == [] {
      EmptyFileIsDirectory(popFirst, outer, p, at, l, files, rest);
    } else {
      var files' := Add(files, FlattenNode(at + [l.name], l.node));
      FileEntry(popFirst, outer + 1, p, at, l, files, rest);
      DecodeBroken(popFirst, outer, p, at, l.rest, files', rest);
      var r := DecodeDir(popFirst, outer + 1, Working(Items(outer + 1, l.rest, rest), p, files')).s;
      DiffersRest(r.files.nodes, at, l);
    }
  }

  lemma {:induction false} DecodeBrokenDir(popFirst: bool, outer: nat, p: Path, at: Location, l: Listing,
                                           files: FileSystem, rest: seq<byte>)
    requires Ready(outer + 1, p, at, l, files) && !Rebuilt(popFirst, l) && l.Item? && l.node.Dir?
    ensures var r := DecodeDir(popFirst, outer + 1, Working(Items(outer + 1, l, rest), p, files)).s;
            Differs(r.files.nodes, at, l)
    decreases l, 0
  {
    var q, d, after := at + [l.name], l.node.entries, Items(outer + 1, l.rest, rest);
    ReadyFirst(outer + 1, p, at, l, files);
    if !Rebuilt(popFirst, d) {
      var made := Put(files, q, Directory(l.node.mode));
      ReadyInside(outer + 1, p, at, l, files);
      DirEntry(popFirst, outer + 1, p, at, l, files, rest);
      DecodeBroken(popFirst, outer + 1, Join(p, l.name), q, d, made, after);
      DiffersInside(DecodeDir(popFirst, outer + 1, Working(Items(outer + 1, l, rest), p, files)).s.files.nodes, at, l);
    } else if popFirst {
      RebuiltDirectory(popFirst, l);
      DecodeSubdirectory(popFirst, outer, p, at, l, files, rest);
      PopJoin(p, l.name);
      DecodeBroken(popFirst, outer, p, at, l.rest, Add(files, FlattenNode(q, l.node)), rest);
      DiffersRest(DecodeDir(popFirst, outer + 1, Working(Items(outer + 1, l, rest), p, files)).s.files.nodes, at, l);
    } else {
      RebuiltDirectory(popFirst, l);
      AfterDirectoryDiffers(outer, p, at, l, files, rest);
    }
  }

  // ----- The whole transmission

  /** After mkdir the root path leads to an empty directory, at `at`. */
  predicate FreshTarget(root: Path, at: Location, files: FileSystem) {
    var made := MakeDirectory(files, root, 448);
    At(made, root) == Some(at) && IsDirectory(made, at) && forall k | k in made.nodes :: !(at < k)
  }

  function Transmitted(root: Path, l: Listing, files: FileSystem): State {
    Working(Encode(Transmission(l), []), root, files)
  }

  /** What follows the records that open a transmission. */
  function Opened(items: seq<byte>): seq<byte> {
    RecordBytes(Record(START_OF_TRANSMISSION, 0, [])) + (RecordBytes(Record(START_OF_DIRECTORY, 1, [])) + items)
  }

  lemma OpenStep(popFirst: bool, root: Path, items: seq<byte>, files: FileSystem)
    ensures var s := Working(items, root, MakeDirectory(files, root, 448));
            Deserialize(popFirst, Working(Opened(items), root, files)) == Outcome(0, DecodeDir(popFirst, 1, s).s)
  {
    var sot, sod := Record(START_OF_TRANSMISSION, 0, []), Record(START_OF_DIRECTORY, 1, []);
    EncodedMagic(sot, RecordBytes(sod) + items);
    EncodedMagic(sod, items);
    assert [] + (RecordBytes(sod) + items) == RecordBytes(sod) + items;
    assert [] + items == items;
  }

  lemma DeserializeStep(popFirst: bool, root: Path, l: Listing, files: FileSystem)
    ensures var rest := RecordBytes(Record(END_OF_TRANSMISSION, 0, []));
            var s := Working(Items(1, l, rest), root, MakeDirectory(files, root, 448));
            Deserialize(popFirst, Transmitted(root, l, files)) == Outcome(0, DecodeDir(popFirst, 1, s).s)
  {
    var end := Record(END_OF_TRANSMISSION, 0, []);
    assert Transmission(l)[1..] == DirRecords(1, l) + [end];
    EncodeAppend(DirRecords(1, l), [end], []);
    assert Encode([end], []) == RecordBytes(end) + [] == RecordBytes(end);
    DirEncoded(1, l, RecordBytes(end));
    OpenStep(popFirst, root, Items(1, l, RecordBytes(end)), files);
  }

  lemma EndOfTransmission(popFirst: bool, s: State)
    requires s.input == RecordBytes(Record(END_OF_TRANSMISSION, 0, []))
    ensures Agree(DecodeDir(popFirst, 0, s).s, s)
  {
    var end := Record(END_OF_TRANSMISSION, 0, []);
    EncodedMagic(end, []);
    assert RecordBytes(end) + [] == RecordBytes(end);
  }

  lemma DiffersUnequal(made: FileSystem, at: Location, l: Listing, files: FileSystem)
    requires (forall k | k in made.nodes :: !InListing(at, l, k)) && Differs(files.nodes, at, l)
    ensures files != Add(made, Flatten(at, l))
  {
  }

  lemma FreshIsReady(root: Path, at: Location, l: Listing, files: FileSystem)
    requires WellFormed(l) && Fits(root, l) && FreshTarget(root, at, files)
    ensures Ready(1, root, at, l, MakeDirectory(files, root, 448))
  {
  }

  lemma ItemsExact(popFirst: bool, outer: nat, depth: nat, root: Path, at: Location, l: Listing, made: FileSystem,
                   r: State)
    requires outer == 0 && depth == outer + 1 && Ready(depth, root, at, l, made)
    requires r == DecodeDir(popFirst, depth,
                            Working(Items(depth, l, RecordBytes(Record(END_OF_TRANSMISSION, 0, []))), root, made)).s
    ensures r.files == Add(made, Flatten(at, l)) <==> Rebuilt(popFirst, l)
    ensures Rebuilt(popFirst, l) ==> !r.overrun && !r.climbed
  {
    var rest := RecordBytes(Record(END_OF_TRANSMISSION, 0, []));
    if Rebuilt(popFirst, l) {
      DecodeRebuilt(popFirst, outer, root, at, l, made, rest);
      EndOfTransmission(popFirst, Working(rest, Resume(popFirst, root, l), Add(made, Flatten(at, l))));
    } else {
      DecodeBroken(popFirst, outer, root, at, l, made, rest);
      DiffersUnequal(made, at, l, r.files);
    }
  }

  /**
   * Main result. The deserializer rebuilds a serialized tree on a fresh target exactly when no file is empty and,
   * for the program as written, nothing follows a directory in any listing. It reports success in any case.
   */
  lemma {:induction false} RoundTripExact(popFirst: bool, root: Path, at: Location, l: Listing, files: FileSystem)
    requires WellFormed(l) && Fits(root, l) && FreshTarget(root, at, files)
    ensures var r := Deserialize(popFirst, Transmitted(root, l, files));
            && r.rc == 0
            && (r.s.files == Add(MakeDirectory(files, root, 448), Flatten(at, l)) <==> Rebuilt(popFirst, l))
            && (Rebuilt(popFirst, l) ==> !r.s.overrun && !r.s.climbed)
  {
    FreshIsReady(root, at, l, files);
    DeserializeStep(popFirst, root, l, files);
    ItemsExact(popFirst, 0, 1, root, at, l, MakeDirectory(files, root, 448),
               Deserialize(popFirst, Transmitted(root, l, files)).s);
  }
}
