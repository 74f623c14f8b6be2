/** hw1: the serializer walks a file system through `path_buf` and appends to standard output. */
module Serializers {
  import opened Bytes
  import opened Paths
  import opened TransplantFormat
  import opened PathBuffers

  /** What stat, fgetc and readdir deliver for a path; readdir also lists "." and "..". */
  datatype DiskNode = DiskFile(mode: nat, data: seq<byte>) | DiskDir(mode: nat, size: nat, names: seq<seq<byte>>)

  type Disk = map<Path, DiskNode>

  /** The directory `p` with the readdir entries `names` holds exactly the tree `l`. */
  ghost predicate Mirrors(disk: Disk, p: Path, names: seq<seq<byte>>, l: Listing)
    decreases l, |names|
  {
    if names == [] then l.End?
    else if Ignored(names[0]) then Mirrors(disk, p, names[1..], l)
    else
      && l.Item? && l.name == names[0]
      && MirrorsNode(disk, Join(p, l.name), l.node)
      && Mirrors(disk, p, names[1..], l.rest)
  }

  ghost predicate MirrorsNode(disk: Disk, p: Path, node: Node)
    decreases node, 0
  {
    p in disk &&
    match node
    case File(mode, data) => disk[p] == DiskFile(mode, data)
    case Dir(mode, size, l) =>
      disk[p].DiskDir? && disk[p].mode == mode && disk[p].size == size && Mirrors(disk, p, disk[p].names, l)
  }

  /** Number of files and directories in the tree. */
  function Nodes(l: Listing): nat {
    match l
    case End => 0
    case Item(_, node, r) => 1 + (if node.Dir? then Nodes(node.entries) else 0) + Nodes(r)
  }

  /** Room in `path_buf` for every path of the tree. */
  predicate PathsFit(p: Path, l: Listing)
    decreases l
  {
    match l
    case End => true
    case Item(n, node, r) =>
      |Join(p, n)| < PATH_MAX && PathsFit(p, r) && (node.Dir? ==> PathsFit(Join(p, n), node.entries))
  }

  lemma BigEndianLast(num: int, n: nat)
    requires n >= 1
    ensures BigEndian(num, n) == BigEndian(num / 256, n - 1) + [Digit(num, 0)]
  {
    forall i | 0 <= i < n - 1 ensures BigEndian(num, n)[i] == BigEndian(num / 256, n - 1)[i] {
      assert Digit(num, n - 1 - i) == Digit(num / 256, n - 2 - i);
    }
  }

  /** Writing the records `b` after the records `a`. */
  lemma Written(start: seq<byte>, a: seq<Record>, b: seq<Record>)
    ensures start + Encode(a, []) + Encode(b, []) == start + Encode(a + b, [])
  {
    EncodeAppend(a, b, []);
    EncodeTail(a, Encode(b, []));
  }

  lemma FirstItem(depth: nat, done: seq<Record>, l: Listing)
    requires l.Item?
    ensures done + ([EntryRecord(depth, l.name, l.node)] + NodeRecords(depth, l.node)) + ItemRecords(depth, l.rest)
         == done + ItemRecords(depth, l)
  {
    var e, n, r := [EntryRecord(depth, l.name, l.node)], NodeRecords(depth, l.node), ItemRecords(depth, l.rest);
    assert done + (e + n) + r == done + (e + (n + r));
  }

  lemma AllItems(depth: nat, done: seq<Record>, l: Listing)
    requires done + ItemRecords(depth, End) == [Record(START_OF_DIRECTORY, depth, [])] + ItemRecords(depth, l)
    ensures done + [Record(END_OF_DIRECTORY, depth, [])] == DirRecords(depth, l)
  {
    assert done + [] == done;
  }

  lemma OneRecord(r: Record)
    ensures Encode([r], []) == RecordBytes(r)
    ensures r.body == [] ==> RecordBytes(r) == Header(r.kind, r.depth, HEADER_SIZE)
  {
    assert RecordBytes(r) + [] == RecordBytes(r);
  }

  class Serializer {
    const disk: Disk
    const path: PathBuffer
    var output: seq<byte>

    constructor (disk: Disk, root: Path)
      requires |root| + 2 <= PATH_MAX && 0 !in root
      ensures path.Valid() && path.Value() == root && path.length == |root| && output == [] && this.disk == disk
      ensures fresh(path) && fresh(path.buf)
    {
      this.disk := disk;
      path := new PathBuffer(root);
      output := [];
    }

    method PutChar(c: int)
      modifies this`output
      ensures output == old(output) + [c % 256]
    {
      output := output + [c % 256];
    }

    /** `put_n_bytes`, most significant byte first by recursion. */
    method PutNBytes(num: int, n: nat)
      requires n >= 1
      modifies this`output
      ensures output == old(output) + BigEndian(num, n)
      decreases n
    {
      if n > 1 {
        PutNBytes(num / 256, n - 1);
      }
      PutChar(num);
      BigEndianLast(num, n);
    }

    /** `record_header` */
    method PutHeader(kind: byte, depth: int, size: int)
      modifies this`output
      ensures output == old(output) + Header(kind, depth, size)
    {
      PutChar(0x0C);
      PutChar(0x0D);
      PutChar(0xED);
      PutChar(kind);
      PutNBytes(depth, 4);
      PutNBytes(size, 8);
      assert Header(kind, depth, size) == MAGIC + [kind] + BigEndian(depth, 4) + BigEndian(size, 8);
    }

    /** `serialize_file`: nothing at all for an empty file. */
    method SerializeFile(depth: nat, size: nat, ghost node: Node) returns (rc: int)
      requires path.Valid() && node.File? && |node.data| == size
      requires path.Value() in disk && disk[path.Value()] == DiskFile(node.mode, node.data)
      modifies this`output
      ensures output == old(output) + Encode(NodeRecords(depth, node), []) && rc == 0
    {
      if size == 0 {
        return 0;
      }
      PutHeader(FILE_DATA, depth, size + HEADER_SIZE);
      var data := CurrentData();
      ghost var start := output;
      var left := size;
      while left > 0
        invariant 0 <= left <= size && output == start + data[..size - left]
      {
        PutChar(data[size - left]);
        left := left - 1;
      }
      assert data[..size] == data;
      OneRecord(Record(FILE_DATA, depth, data));
      return 0;
    }

    /** The bytes `fopen(path_buf)` and `fgetc` deliver. */
    method CurrentData() returns (data: seq<byte>)
      requires path.Valid() && path.Value() in disk && disk[path.Value()].DiskFile?
      ensures data == disk[path.Value()].data
    {
      var n := path.StrLength();
      data := disk[path.buf[..n]].data;
    }

    /**
     * `serialize_directory`: writes the records of the tree, comes back with the same path, and leaves
     * `path_length` one too high for every file and directory visited.
     */
    method SerializeDirectory(depth: nat, ghost l: Listing) returns (rc: int)
      requires path.Valid() && WellFormed(l) && PathsFit(path.Value(), l)
      requires path.Value() in disk && disk[path.Value()].DiskDir?
      requires Mirrors(disk, path.Value(), disk[path.Value()].names, l)
      modifies this`output, path, path.buf
      ensures path.Valid() && path.Value() == old(path.Value()) && path.length == old(path.length) + Nodes(l)
      ensures output == old(output) + Encode(DirRecords(depth, l), []) && rc == 0
      decreases l, 1
    {
      var n := path.StrLength();
      var names := disk[path.buf[..n]].names;
      ghost var start, end := Record(START_OF_DIRECTORY, depth, []), Record(END_OF_DIRECTORY, depth, []);
      PutHeader(START_OF_DIRECTORY, depth, HEADER_SIZE);
      OneRecord(start);
      ghost var p, left, done := path.Value(), l, [start];
      var i := 0;
      while i < |names|
        invariant 0 <= i <= |names| && path.Valid() && path.Value() == p
        invariant left == l || left < l
        invariant WellFormed(left) && PathsFit(p, left) && Mirrors(disk, p, names[i..], left)
        invariant output == old(output) + Encode(done, [])
        invariant done + ItemRecords(depth, left) == [start] + ItemRecords(depth, l)
        invariant path.length + Nodes(left) == old(path.length) + Nodes(l)
      {
        if !Ignored(names[i]) {
          ghost var next := [EntryRecord(depth, left.name, left.node)] + NodeRecords(depth, left.node);
          SerializeEntry(depth, names[i], left);
          Written(old(output), done, next);
          FirstItem(depth, done, left);
          done, left := done + next, left.rest;
        }
        i := i + 1;
      }
      PutHeader(END_OF_DIRECTORY, depth, HEADER_SIZE);
      OneRecord(end);
      Written(old(output), done, [end]);
      AllItems(depth, done, l);
      return 0;
    }

    /** One round of the readdir loop. */
    method SerializeEntry(depth: nat, name: seq<byte>, ghost l: Listing)
      requires path.Valid() && l.Item? && l.name == name && WellFormed(l) && PathsFit(path.Value(), l)
      requires MirrorsNode(disk, Join(path.Value(), name), l.node)
      modifies this`output, path, path.buf
      ensures path.Valid() && path.Value() == old(path.Value())
      ensures path.length == old(path.length) + Nodes(l) - Nodes(l.rest)
      ensures output == old(output) + Encode([EntryRecord(depth, name, l.node)] + NodeRecords(depth, l.node), [])
      decreases l, 0
    {
      ghost var p := path.Value();
      CStrOf(name + [0], name);
      var _ := path.Push(name + [0]);
      PopJoin(p, name);
      var n := path.StrLength();
      var stat := disk[path.buf[..n]];
      PutEntry(depth, name, stat.mode, if stat.DiskFile? then |stat.data| else stat.size);
      if IsRegular(stat.mode) {
        var _ := SerializeFile(depth, |stat.data|, l.node);
      } else {
        var _ := SerializeDirectory(depth + 1, l.node.entries);
      }
      var _ := path.Pop();
      OneRecord(EntryRecord(depth, name, l.node));
      Written(old(output), [EntryRecord(depth, name, l.node)], NodeRecords(depth, l.node));
    }

    /** A DIRECTORY_ENTRY record: header, metadata, name. */
    method PutEntry(depth: nat, name: seq<byte>, mode: nat, size: nat)
      modifies this`output
      ensures output == old(output) + RecordBytes(Record(DIRECTORY_ENTRY, depth, Metadata(mode, size) + name))
    {
      PutHeader(DIRECTORY_ENTRY, depth, HEADER_SIZE + METADATA_SIZE + |name|);
      PutNBytes(mode, 4);
      PutNBytes(size, 8);
      assert Metadata(mode, size) == BigEndian(mode, 4) + BigEndian(size, 8);
      ghost var start := output;
      var k := 0;
      while k < |name|
        invariant 0 <= k <= |name| && output == start + name[..k]
      {
        PutChar(name[k]);
        k := k + 1;
      }
      assert name[..|name|] == name;
    }

    /** `serialize`: the whole transmission of the directory in `path_buf`. */
    method Serialize(ghost l: Listing) returns (rc: int)
      requires path.Valid() && WellFormed(l) && PathsFit(path.Value(), l)
      requires path.Value() in disk && disk[path.Value()].DiskDir?
      requires Mirrors(disk, path.Value(), disk[path.Value()].names, l)
      modifies this`output, path, path.buf
      ensures path.Valid() && path.Value() == old(path.Value()) && path.length == old(path.length) + Nodes(l)
      ensures output == old(output) + Encode(Transmission(l), []) && rc == 0
    {
      ghost var start, end := Record(START_OF_TRANSMISSION, 0, []), Record(END_OF_TRANSMISSION, 0, []);
      PutHeader(START_OF_TRANSMISSION, 0, HEADER_SIZE);
      OneRecord(start);
      var _ := SerializeDirectory(1, l);
      Written(old(output), [start], DirRecords(1, l));
      PutHeader(END_OF_TRANSMISSION, 0, HEADER_SIZE);
      OneRecord(end);
      Written(old(output), [start] + DirRecords(1, l), [end]);
      assert [start] + DirRecords(1, l) + [end] == Transmission(l);
      return 0;
    }
  }
}
