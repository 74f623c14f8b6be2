/** hw1: the deserializer as written, on `path_buf`, `name_buf` and standard input, against its specification. */
module Deserializers {
  import opened Bytes
  import opened Climbing
  import opened FileSystems
  import opened Paths
  import opened TransplantFormat
  import opened PathBuffers
  import opened TransplantDecoder

  class Deserializer {
    const path: PathBuffer
    const nameBuf: array<byte>
    var input: seq<byte>
    var files: FileSystem
    var overrun: bool
    ghost var climbed: bool

    /** Between records `name_buf` is all zero. */
    ghost predicate Valid()
      reads this, path, path.buf, nameBuf
    {
      && path.Valid() && nameBuf.Length == NAME_MAX && nameBuf != path.buf
      && (!overrun ==> forall i | 0 <= i < NAME_MAX :: nameBuf[i] == 0)
    }

    ghost function Abs(): State
      reads this, path, path.buf
    {
      State(input, path.Value(), files, overrun, climbed)
    }

    constructor (input: seq<byte>, root: Path, files: FileSystem)
      requires |root| + 2 <= PATH_MAX && 0 !in root
      ensures Valid() && Abs() == State(input, root, files, false, false)
      ensures fresh(path) && fresh(path.buf) && fresh(nameBuf)
    {
      path := new PathBuffer(root);
      nameBuf := new byte[NAME_MAX](_ => 0);
      this.input, this.files, overrun, climbed := input, files, false, false;
    }

    method GetChar() returns (c: int)
      modifies this`input
      ensures c == CharAt(old(input), 0) && input == Drop(old(input), 1)
    {
      c := CharAt(input, 0);
      input := Drop(input, 1);
    }

    method VerifyMagicHeader() returns (ok: bool)
      modifies this`input
      ensures ok == MagicOk(old(input)) && input == Drop(old(input), 3)
    {
      var c1 := GetChar();
      var c2 := GetChar();
      DropDrop(old(input), 1, 1);
      var c3 := GetChar();
      DropDrop(old(input), 1, 0);
      DropDrop(old(input), 2, 0);
      DropDrop(old(input), 2, 1);
      ok := c1 == 0x0C && c2 == 0x0D && c3 == 0xED;
    }

    method GetNChars(n: nat) returns (res: int)
      modifies this`input
      ensures res == Number(old(input), n) && input == Drop(old(input), n)
    {
      res := 0;
      var i := 0;
      while i < n
        invariant 0 <= i <= n && res == Number(old(input), i) && input == Drop(old(input), i)
      {
        DropDrop(old(input), i, 0);
        DropDrop(old(input), i, 1);
        var c := GetChar();
        res := Wrap64(res * 256 + c);
        i := i + 1;
      }
    }

    /** The first half of a record header: magic, and if that is right type and depth. */
    method OpenHeader() returns (magic: bool, kind: int, depth: int)
      modifies this`input
      ensures magic == MagicOk(old(input))
      ensures magic ==> kind == CharAt(old(input), 3) && depth == Number(Drop(old(input), 4), 4)
      ensures input == Drop(old(input), if magic then 8 else 3)
    {
      ghost var s := input;
      magic := VerifyMagicHeader();
      if magic {
        DropDrop(s, 3, 0);
        DropDrop(s, 3, 1);
        DropDrop(s, 4, 4);
        kind := GetChar();
        depth := GetNChars(4);
      } else {
        kind, depth := 0, 0;
      }
    }

    /** The second half: the record size. */
    method GetSize(ghost start: seq<byte>) returns (size: int)
      requires input == Drop(start, 8)
      modifies this`input
      ensures size == Number(Drop(start, 8), 8) && input == Drop(start, HEADER_SIZE)
    {
      DropDrop(start, 8, 8);
      size := GetNChars(8);
    }

    /** `n` characters as `char`s, as the copy loops store them. */
    method GetData(n: nat) returns (data: seq<byte>)
      modifies this`input
      ensures data == Take(old(input), n) && input == Drop(old(input), n)
    {
      data := [];
      while |data| < n
        invariant |data| <= n && data == Take(old(input), |data|) && input == Drop(old(input), |data|)
      {
        DropDrop(old(input), |data|, 0);
        DropDrop(old(input), |data|, 1);
        var c := GetChar();
        data := data + [if c < 0 then 255 else c];
      }
    }

    method CurrentPath() returns (p: Path)
      requires path.Valid()
      ensures p == path.Value()
    {
      var n := path.StrLength();
      p := path.buf[..n];
    }

    /** `deserialize_file` */
    method DeserializeFile(depth: int) returns (rc: int)
      requires Valid()
      modifies this`input, this`files, path, path.buf
      ensures Valid() && Outcome(rc, Abs()) == DecodeFile(depth, old(Abs()))
    {
      var p := CurrentPath();
      if Found(files, p) {
        return -1;
      }
      var magic, kind, recordDepth := OpenHeader();
      if !magic {
        return -1;
      }
      var size := GetSize(old(input));
      if FILE_DATA != kind || recordDepth != depth || !CanCreate(files, p) {
        return -1;
      }
      MakeFile(p, Count(size, HEADER_SIZE));
      return 0;
    }

    /** The file `p` gets the next `n` characters. */
    method MakeFile(p: Path, n: nat)
      requires Valid() && p == path.Value() && CanCreate(files, p)
      modifies this`input, this`files, path, path.buf
      ensures Valid()
      ensures var s := old(Abs());
              Abs() == s.(input := Drop(s.input, n), path := Paths.Pop(s.path),
                          files := Create(s.files, s.path, RegularFile(Take(s.input, n))))
    {
      var data := GetData(n);
      files := Create(files, p, RegularFile(data));
      var _ := path.Pop();
    }

    /** Copies the name into `name_buf`. */
    method FillName(n: nat)
      requires n <= NAME_MAX == nameBuf.Length && forall i | 0 <= i < NAME_MAX :: nameBuf[i] == 0
      modifies this`input, nameBuf
      ensures input == Drop(old(input), n)
      ensures CStr(nameBuf[..]) == CStr(Take(old(input), n))
      ensures |CStr(nameBuf[..])| < NAME_MAX ==> 0 in nameBuf[..]
      ensures forall i | n <= i < NAME_MAX :: nameBuf[i] == 0
    {
      var i := 0;
      while i < n
        invariant 0 <= i <= n && input == Drop(old(input), i)
        invariant nameBuf[..i] == Take(old(input), i)
        invariant forall j | i <= j < NAME_MAX :: nameBuf[j] == 0
      {
        DropDrop(old(input), i, 0);
        DropDrop(old(input), i, 1);
        var c := GetChar();
        nameBuf[i] := if c < 0 then 255 else c;
        i := i + 1;
      }
      NameInBuffer(nameBuf[..], Take(old(input), n));
    }

    method ClearName(n: nat)
      requires n <= NAME_MAX == nameBuf.Length && forall i | n <= i < NAME_MAX :: nameBuf[i] == 0
      modifies nameBuf
      ensures forall i | 0 <= i < NAME_MAX :: nameBuf[i] == 0
    {
      var i := 0;
      while i < n
        invariant 0 <= i <= n
        invariant forall j | 0 <= j < i || n <= j < NAME_MAX :: nameBuf[j] == 0
      {
        nameBuf[i] := 0;
        i := i + 1;
      }
    }

    /** Reads a name and pushes it; `name_buf` is zero again afterwards unless something overran. */
    method PushName(n: nat)
      requires Valid() && !overrun
      modifies this`input, this`overrun, this`climbed, path, path.buf, nameBuf
      ensures Valid()
      ensures var s, name := old(Abs()), CStr(Take(old(input), n));
              Abs() == if n > NAME_MAX then s.(overrun := true)
                       else if |name| == NAME_MAX || |Join(s.path, name)| >= PATH_MAX then
                         s.(input := Drop(s.input, n), overrun := true)
                       else TransplantDecoder.PushName(s.(input := Drop(s.input, n)), name)
    {
      if n > NAME_MAX {
        overrun := true;
        return;
      }
      FillName(n);
      var p := CurrentPath();
      var name := CStr(nameBuf[..]);
      if |name| == NAME_MAX || |Join(p, name)| >= PATH_MAX {
        overrun := true;
        return;
      }
      climbed := climbed || Climbs(files, p, name);
      var _ := path.Push(nameBuf[..]);
      ClearName(n);
    }

    /** `deserialize_directory` */
    method DeserializeDirectory(depth: int) returns (rc: int)
      requires Valid() && !overrun
      modifies this`input, this`files, this`overrun, this`climbed, path, path.buf, nameBuf
      ensures Valid() && Outcome(rc, Abs()) == DecodeDir(false, depth, old(Abs()))
      decreases |input|, 0
    {
      ghost var s := Abs();
      var magic, kind, recordDepth := OpenHeader();
      if !magic {
        return -1;
      }
      if recordDepth != depth {
        return -1;
      }
      var size := GetSize(old(input));
      DeserializeRecord(depth, kind, size);
      return 0;
    }

    /** The record after its header. */
    method DeserializeRecord(depth: int, kind: int, size: int)
      requires Valid() && !overrun
      modifies this`input, this`files, this`overrun, this`climbed, path, path.buf, nameBuf
      ensures Valid() && Abs() == DecodeRecord(false, depth, kind, size, old(Abs()))
      decreases |input|, 3
    {
      if kind == DIRECTORY_ENTRY {
        DeserializeEntry(depth, size);
      } else if kind == START_OF_DIRECTORY {
        var _ := DeserializeDirectory(depth);
      } else if kind == END_OF_DIRECTORY {
        var _ := DeserializeDirectory(depth - 1);
        var _ := path.Pop();
      }
    }

    /** The DIRECTORY_ENTRY branch. */
    method DeserializeEntry(depth: int, size: int)
      requires Valid() && !overrun
      modifies this`input, this`files, this`overrun, this`climbed, path, path.buf, nameBuf
      ensures Valid()
      ensures var s := old(Abs());
              Abs() == DecodeEntry(false, depth, Number(s.input, 4), Count(size, HEADER_SIZE + METADATA_SIZE),
                                   s.(input := Drop(s.input, METADATA_SIZE)))
      decreases |input|, 2
    {
      ghost var s := Abs();
      DropDrop(input, 4, 8);
      var mode := GetNChars(4);
      var _ := GetNChars(8);
      assert Abs() == s.(input := Drop(s.input, METADATA_SIZE));
      PushName(Count(size, HEADER_SIZE + METADATA_SIZE));
      if overrun {
        return;
      }
      DeserializeNamed(depth, mode);
    }

    /** The rest of the branch, once the name is pushed. */
    method DeserializeNamed(depth: int, mode: int)
      requires Valid() && !overrun
      modifies this`input, this`files, this`overrun, this`climbed, path, path.buf, nameBuf
      ensures Valid() && Abs() == DecodeNamed(false, depth, mode, old(Abs()))
      decreases |input|, 1
    {
      var rc := DeserializeFile(depth);
      if rc == -1 {
        var p := CurrentPath();
        files := MakeDirectory(files, p, mode);
        var _ := DeserializeDirectory(depth + 1);
      } else {
        var _ := DeserializeDirectory(depth);
      }
    }

    /** `deserialize` */
    method Run() returns (rc: int)
      requires Valid() && !overrun
      modifies this`input, this`files, this`overrun, this`climbed, path, path.buf, nameBuf
      ensures Valid() && Outcome(rc, Abs()) == Deserialize(false, old(Abs()))
    {
      var ok := Expect(0, START_OF_TRANSMISSION);
      if !ok {
        return -1;
      }
      ok := Expect(1, START_OF_DIRECTORY);
      if !ok {
        return -1;
      }
      var p := CurrentPath();
      files := MakeDirectory(files, p, 448);
      var _ := DeserializeDirectory(1);
      return 0;
    }

    /** Reads a header of the given depth and kind, as `deserialize` does for the first two records. */
    method Expect(depth: int, kind: byte) returns (ok: bool)
      modifies this`input
      ensures ok == Expected(old(input), depth, kind) && input == Unread(old(input), depth)
    {
      var magic, k, recordDepth := OpenHeader();
      ok := magic && recordDepth == depth;
      if ok {
        var _ := GetSize(old(input));
        ok := k == kind;
      }
    }
  }

  /** The C string in a zero-padded buffer is the C string of the bytes put there. */
  lemma NameInBuffer(buf: seq<byte>, name: seq<byte>)
    requires |name| <= |buf| && buf[..|name|] == name && forall i | |name| <= i < |buf| :: buf[i] == 0
    ensures CStr(buf) == CStr(name)
    ensures |CStr(buf)| < |buf| ==> 0 in buf
  {
    var t := CStr(name);
    assert t <= buf;
    CStrOf(buf, t);
  }
}
