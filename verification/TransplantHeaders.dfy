/** hw1: the bytes of headers, as the program writes them and as it must find them. */
module TransplantHeaders {
  import opened Bytes
  import opened FileSystems
  import opened Paths
  import opened TransplantFormat
  import opened TransplantDecoder

  // ----- Writing

  lemma HeaderBytes(kind: byte, depth: nat, size: nat)
    ensures Header(kind, depth, size) == [0x0C, 0x0D, 0xED, kind] + BigEndian(depth, 4) + BigEndian(size, 8)
  {
  }

  lemma EntryBody(mode: nat, size: nat)
    ensures Metadata(mode, size) == BigEndian(mode, 4) + BigEndian(size, 8)
  {
  }

  /** A record with the bytes written out. */
  function Raw(kind: byte, depth: nat, body: seq<byte>): seq<byte> {
    [0x0C, 0x0D, 0xED, kind] + BigEndian(depth, 4) + BigEndian(16 + |body|, 8) + body
  }

  lemma RawRecord(r: Record)
    ensures RecordBytes(r) == Raw(r.kind, r.depth, r.body)
  {
    HeaderBytes(r.kind, r.depth, HEADER_SIZE + |r.body|);
  }

  lemma RawFirst(r: Record, rs: seq<Record>, tail: seq<byte>)
    ensures Encode([r] + rs, tail) == Raw(r.kind, r.depth, r.body) + Encode(rs, tail)
  {
    RawRecord(r);
    assert ([r] + rs)[1..] == rs;
  }

  /** The transmission of a directory that holds one nonempty file, byte for byte. */
  lemma OneFileTransmission(n: seq<byte>, mode: nat, data: seq<byte>)
    requires data != []
    ensures Encode(Transmission(Item(n, File(mode, data), End)), []) ==
            Raw(0, 0, []) + (Raw(2, 1, []) + (
            Raw(4, 1, BigEndian(mode, 4) + BigEndian(|data|, 8) + n) + (Raw(5, 1, data) + (
            Raw(3, 1, []) + Raw(1, 0, [])))))
  {
    var r0, r1, r5 := Record(0, 0, []), Record(2, 1, []), Record(1, 0, []);
    var r2 := EntryRecord(1, n, File(mode, data));
    var r3, r4 := Record(5, 1, data), Record(3, 1, []);
    var l := Item(n, File(mode, data), End);
    assert ItemRecords(1, l) == [r2] + ([r3] + []);
    assert Transmission(l) == [r0] + ([r1] + ([r2] + ([r3] + ([r4] + ([r5] + [])))));
    EntryBody(mode, |data|);
    RawFirst(r5, [], []);
    RawFirst(r4, [r5] + [], []);
    RawFirst(r3, [r4] + ([r5] + []), []);
    RawFirst(r2, [r3] + ([r4] + ([r5] + [])), []);
    RawFirst(r1, [r2] + ([r3] + ([r4] + ([r5] + []))), []);
    RawFirst(r0, [r1] + ([r2] + ([r3] + ([r4] + ([r5] + [])))), []);
  }

  // ----- Reading

  lemma FourChars(s: seq<byte>)
    ensures Number(s, 4) == ((CharAt(s, 0) * 256 + CharAt(s, 1)) * 256 + CharAt(s, 2)) * 256 + CharAt(s, 3)
  {
    assert Number(s, 1) == CharAt(s, 0);
    assert Number(s, 2) == CharAt(s, 0) * 256 + CharAt(s, 1);
    assert Number(s, 3) == (CharAt(s, 0) * 256 + CharAt(s, 1)) * 256 + CharAt(s, 2);
  }

  lemma FourBytesRead(s: seq<byte>, v: nat)
    requires |s| >= 4 && Number(s, 4) == v
    ensures s[..4] == BigEndian(v, 4)
  {
    FourChars(s);
    FourDigits(v);
    var a: int, b: int, c: int := s[0], s[1], s[2];
    assert v / 256 == (a * 256 + b) * 256 + c;
    assert v / 256 / 256 == a * 256 + b;
    assert v / 256 / 256 / 256 == a;
  }

  lemma FourBytesThere(s: seq<byte>, v: nat)
    requires Number(s, 4) == v && v % 256 != 255
    ensures |s| >= 4
  {
    FourChars(s);
  }

  /** Four bytes read as a number are that number's bytes, if the end of the input cannot pass for the last of them. */
  lemma NumberBytes(s: seq<byte>, v: nat)
    requires v < 0x1_0000_0000 && v % 256 != 255
    ensures Number(s, 4) == v <==> |s| >= 4 && s[..4] == BigEndian(v, 4)
  {
    if Number(s, 4) == v {
      FourBytesThere(s, v);
      FourBytesRead(s, v);
    }
    if |s| >= 4 && s[..4] == BigEndian(v, 4) {
      Pow256Values();
      NumberOfDigits(v, 4, s);
    }
  }

  /** The end of the input counts as -1: a depth can be read from three bytes exactly when it ends in 0xFF. */
  lemma EndReadAsByteExact(v: nat)
    requires v < 0xFFFF_FFFF
    ensures (forall s: seq<byte> | Number(s, 4) == v :: |s| >= 4 && s[..4] == BigEndian(v, 4)) <==> v % 256 != 255
  {
    if v % 256 != 255 {
      forall s: seq<byte> | Number(s, 4) == v ensures |s| >= 4 && s[..4] == BigEndian(v, 4) {
        NumberBytes(s, v);
      }
    } else {
      var x := v / 256 + 1;
      var s: seq<byte> := [x / 256 / 256, x / 256 % 256, x % 256];
      FourChars(s);
      assert Number(s, 4) == v && |s| < 4;
    }
  }

  /** A header of a given kind and depth is accepted exactly by its first eight bytes; the size is not looked at. */
  lemma ExpectedBytes(input: seq<byte>, depth: nat, kind: byte)
    requires depth < 0x1_0000_0000 && depth % 256 != 255
    ensures Expected(input, depth, kind) <==>
              |input| >= 8 && input[..8] == [0x0C, 0x0D, 0xED, kind] + BigEndian(depth, 4)
  {
    NumberBytes(Drop(input, 4), depth);
    if |input| >= 8 {
      assert Drop(input, 4)[..4] == input[4..8];
      assert input[..8] == input[..4] + input[4..8];
    }
  }

  /**
   * `deserialize` reports success exactly for streams that start with a START_OF_TRANSMISSION header of depth 0 and a
   * START_OF_DIRECTORY header of depth 1, whatever their sizes and whatever follows.
   */
  lemma SuccessExact(popFirst: bool, s: State)
    ensures var r, t := Deserialize(popFirst, s).rc, s.input;
            && (r == 0 || r == -1)
            && (r == 0 <==> |t| >= 24 && t[..8] == [0x0C, 0x0D, 0xED, 0, 0, 0, 0, 0] &&
                            t[16..24] == [0x0C, 0x0D, 0xED, 2, 0, 0, 0, 1])
  {
    var t := s.input;
    FourDigits(0);
    FourDigits(1);
    assert BigEndian(0, 4) == [0, 0, 0, 0] && BigEndian(1, 4) == [0, 0, 0, 1];
    ExpectedBytes(t, 0, START_OF_TRANSMISSION);
    ExpectedBytes(Drop(t, HEADER_SIZE), 1, START_OF_DIRECTORY);
    if |t| >= 24 {
      assert Drop(t, HEADER_SIZE)[..8] == t[16..24];
    }
  }

  lemma MagicBytes(t: seq<byte>)
    ensures MagicOk(t) <==> [0x0C, 0x0D, 0xED] <= t
    ensures MAGIC == [0x0C, 0x0D, 0xED]
  {
    if |t| >= 3 {
      assert t[..3] == [t[0], t[1], t[2]];
    }
  }

  /**
   * `deserialize_directory` goes on exactly behind a header of its depth, and stops at a record that is neither an
   * entry nor a start or end of a directory, leaving everything behind its header unread.
   */
  lemma DirectoryGoesOnExact(popFirst: bool, depth: nat, s: State)
    requires depth < 0x1_0000_0000 && depth % 256 != 255
    ensures var r, t := DecodeDir(popFirst, depth, s), s.input;
            && (r.rc == 0 || r.rc == -1)
            && (r.rc == 0 <==> |t| >= 8 && t[..3] == [0x0C, 0x0D, 0xED] && t[4..8] == BigEndian(depth, 4))
            && (r.rc == -1 ==> r.s == s.(input := Drop(t, if MAGIC <= t then 8 else 3)))
            && (r.rc == 0 && t[3] !in {2, 3, 4} ==> r.s == s.(input := Drop(t, 16)))
  {
    var t := s.input;
    NumberBytes(Drop(t, 4), depth);
    if |t| >= 8 {
      assert Drop(t, 4)[..4] == t[4..8];
    }
    MagicBytes(t);
  }

  /** `deserialize_file` succeeds exactly where a file can be made and a FILE_DATA header of its depth comes next. */
  lemma FileMadeExact(depth: nat, s: State)
    requires depth < 0x1_0000_0000 && depth % 256 != 255
    ensures var r, t := DecodeFile(depth, s), s.input;
            && (r.rc == 0 || r.rc == -1)
            && (r.rc == 0 <==>
                CanCreate(s.files, s.path) && |t| >= 8 && t[..8] == [0x0C, 0x0D, 0xED, 5] + BigEndian(depth, 4))
            && (r.rc == -1 ==>
                r.s == if Found(s.files, s.path) then s else s.(input := Drop(t, if MAGIC <= t then 16 else 3)))
  {
    ExpectedBytes(s.input, depth, FILE_DATA);
    MagicBytes(s.input);
  }

  /** A file whose data break off is made all the same, each missing byte as 0xFF, and counts as a success. */
  lemma CutFile(depth: nat, n: nat, part: seq<byte>, s: State)
    requires depth < 0x1_0000_0000 && n + 16 < 0x8000_0000_0000_0000 && |part| <= n
    requires s.input == Header(5, depth, n + 16) + part && CanCreate(s.files, s.path)
    ensures var file := RegularFile(part + seq(n - |part|, _ => 255));
            DecodeFile(depth, s) ==
            Outcome(0, s.(input := [], path := Pop(s.path), files := Create(s.files, s.path, file)))
  {
    HeaderFields(5, depth, n + 16, part);
    CutHeader(s.input, depth, n + 16, part);
    assert Take(part, n) == part + seq(n - |part|, _ => 255);
  }

  lemma CutHeader(input: seq<byte>, depth: nat, size: nat, rest: seq<byte>)
    requires input == Header(5, depth, size) + rest
    ensures MagicOk(input) && CharAt(input, 3) == FILE_DATA
  {
    assert input[..4] == Header(5, depth, size)[..4];
    assert input[0] == input[..4][0] && input[1] == input[..4][1] && input[2] == input[..4][2];
  }
}
