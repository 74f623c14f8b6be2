/** hw1: file trees and the record stream that represents them. */
module TransplantFormat {
  import opened Bytes
  import opened Paths
  import opened Wrappers

  const MAGIC: seq<byte> := [0x0C, 0x0D, 0xED]
  const START_OF_TRANSMISSION: byte := 0
  const END_OF_TRANSMISSION: byte := 1
  const START_OF_DIRECTORY: byte := 2
  const END_OF_DIRECTORY: byte := 3
  const DIRECTORY_ENTRY: byte := 4
  const FILE_DATA: byte := 5
  const HEADER_SIZE := 16
  const METADATA_SIZE := 12
  const NAME_MAX := 255
  const PATH_MAX := 4096

  /** A file or directory, with the `st_mode` (and for directories `st_size`) that stat reports. */
  datatype Node =
    | File(mode: nat, data: seq<byte>)
    | Dir(mode: nat, size: nat, entries: Listing)

  /** The entries of a directory in readdir order, without "." and "..". */
  datatype Listing = End | Item(name: seq<byte>, node: Node, rest: Listing)

  /** S_ISREG */
  predicate IsRegular(mode: nat) {
    mode / 4096 % 16 == 8
  }

  function Names(l: Listing): set<seq<byte>> {
    match l
    case End => {}
    case Item(n, _, r) => {n} + Names(r)
  }

  predicate WellFormed(l: Listing) {
    match l
    case End => true
    case Item(n, node, r) =>
      && IsName(n) && |n| <= NAME_MAX && n !in Names(r)
      && WellFormedNode(node) && WellFormed(r)
  }

  predicate WellFormedNode(node: Node) {
    match node
    case File(mode, data) =>
      mode < 0x1_0000_0000 && IsRegular(mode) && |data| + HEADER_SIZE < 0x8000_0000_0000_0000
    case Dir(mode, size, l) =>
      mode < 0x1_0000_0000 && !IsRegular(mode) && size < 0x8000_0000_0000_0000 && WellFormed(l)
  }

  /** Levels of directories below this listing. */
  function Height(l: Listing): nat {
    match l
    case End => 0
    case Item(_, node, r) =>
      var h := if node.Dir? then 1 + Height(node.entries) else 0;
      if h < Height(r) then Height(r) else h
  }

  // ----- Records

  datatype Record = Record(kind: byte, depth: nat, body: seq<byte>)

  function HeaderByte(kind: byte, depth: int, size: int, i: nat): byte
    requires i < HEADER_SIZE
  {
    if i < 3 then MAGIC[i]
    else if i == 3 then kind
    else if i < 8 then Digit(depth, 7 - i)
    else Digit(size, 15 - i)
  }

  function Header(kind: byte, depth: int, size: int): (h: seq<byte>)
    ensures |h| == HEADER_SIZE
  {
    seq(HEADER_SIZE, i requires 0 <= i < HEADER_SIZE => HeaderByte(kind, depth, size, i))
  }

  function RecordBytes(r: Record): (s: seq<byte>)
    ensures |s| == HEADER_SIZE + |r.body|
  {
    Header(r.kind, r.depth, HEADER_SIZE + |r.body|) + r.body
  }

  /** The bytes of `rs`, followed by `tail`. */
  function Encode(rs: seq<Record>, tail: seq<byte>): seq<byte> {
    if rs == [] then tail else RecordBytes(rs[0]) + Encode(rs[1..], tail)
  }

  function NodeSize(node: Node): nat {
    if node.File? then |node.data| else node.size
  }

  function Metadata(mode: int, size: int): (m: seq<byte>)
    ensures |m| == METADATA_SIZE
  {
    seq(METADATA_SIZE, i requires 0 <= i < METADATA_SIZE => if i < 4 then Digit(mode, 3 - i) else Digit(size, 11 - i))
  }

  function EntryRecord(depth: nat, name: seq<byte>, node: Node): Record {
    Record(DIRECTORY_ENTRY, depth, Metadata(node.mode, NodeSize(node)) + name)
  }

  function NodeRecords(depth: nat, node: Node): seq<Record>
    decreases node, 1
  {
    match node
    case File(_, data) => if data == [] then [] else [Record(FILE_DATA, depth, data)]
    case Dir(_, _, l) => DirRecords(depth + 1, l)
  }

  function DirRecords(depth: nat, l: Listing): seq<Record>
    decreases l, 1
  {
    [Record(START_OF_DIRECTORY, depth, [])] + (ItemRecords(depth, l) + [Record(END_OF_DIRECTORY, depth, [])])
  }

  function ItemRecords(depth: nat, l: Listing): seq<Record>
    decreases l, 0
  {
    match l
    case End => []
    case Item(n, node, r) => [EntryRecord(depth, n, node)] + (NodeRecords(depth, node) + ItemRecords(depth, r))
  }

  /** Everything `serialize` writes for a directory with these entries. */
  function Transmission(l: Listing): seq<Record> {
    [Record(START_OF_TRANSMISSION, 0, [])] + (DirRecords(1, l) + [Record(END_OF_TRANSMISSION, 0, [])])
  }

  lemma {:induction false} EncodeAppend(a: seq<Record>, b: seq<Record>, tail: seq<byte>)
    ensures Encode(a + b, tail) == Encode(a, Encode(b, tail))
  {
    if a == [] {
      assert a + b == b;
    } else {
      EncodeAppend(a[1..], b, tail);
      assert (a + b)[1..] == a[1..] + b;
    }
  }

  lemma {:induction false} EncodeTail(rs: seq<Record>, tail: seq<byte>)
    ensures Encode(rs, tail) == Encode(rs, []) + tail
  {
    if rs == [] {
    } else {
      EncodeTail(rs[1..], tail);
    }
  }

  // ----- Reading a header back

  lemma HeaderFields(kind: byte, depth: nat, size: nat, rest: seq<byte>)
    requires depth < 0x1_0000_0000 && size < 0x8000_0000_0000_0000
    ensures var s := Header(kind, depth, size) + rest;
            && s[..3] == MAGIC && s[3] == kind
            && Number(Drop(s, 4), 4) == depth
            && Number(Drop(s, 8), 8) == size
            && Drop(s, HEADER_SIZE) == rest
  {
    Pow256Values();
    var s := Header(kind, depth, size) + rest;
    NumberOfDigits(depth, 4, s[4..]);
    NumberOfDigits(size, 8, s[8..]);
  }

  lemma MetadataFields(mode: nat, size: nat, rest: seq<byte>)
    requires mode < 0x1_0000_0000 && size < 0x8000_0000_0000_0000
    ensures var s := Metadata(mode, size) + rest;
            && Number(s, 4) == mode
            && Number(Drop(s, 4), 8) == size
            && Drop(s, METADATA_SIZE) == rest
  {
    Pow256Values();
    var s := Metadata(mode, size) + rest;
    NumberOfDigits(mode, 4, s);
    NumberOfDigits(size, 8, s[4..]);
  }

  // ----- Unique decodability: record boundaries follow from the size fields alone

  predicate Bounded(r: Record) {
    r.depth < 0x1_0000_0000 && HEADER_SIZE + |r.body| < 0x8000_0000_0000_0000
  }

  predicate AllBounded(rs: seq<Record>) {
    forall i | 0 <= i < |rs| :: Bounded(rs[i])
  }

  /** Splits a byte stream into records, hopping from header to header by the size fields. */
  function Scan(s: seq<byte>): Option<seq<Record>>
    decreases |s|
  {
    if s == [] then Some([])
    else if |s| < HEADER_SIZE || s[..3] != MAGIC then None
    else
      var size := Number(s[8..], 8);
      if size < HEADER_SIZE || size > |s| || Number(s[4..], 4) < 0 then None
      else
        var rs :- Scan(s[size..]);
        Some([Record(s[3], Number(s[4..], 4), s[HEADER_SIZE..size])] + rs)
  }

  lemma {:induction false} ScanRecovers(rs: seq<Record>)
    requires AllBounded(rs)
    ensures Scan(Encode(rs, [])) == Some(rs)
  {
    if rs == [] {
    } else {
      var r := rs[0];
      assert Bounded(r);
      var tail := Encode(rs[1..], []);
      var s := Encode(rs, []);
      assert s == Header(r.kind, r.depth, HEADER_SIZE + |r.body|) + (r.body + tail);
      HeaderFields(r.kind, r.depth, HEADER_SIZE + |r.body|, r.body + tail);
      ScanRecovers(rs[1..]);
      assert s[HEADER_SIZE + |r.body|..] == tail;
      assert s[HEADER_SIZE..HEADER_SIZE + |r.body|] == r.body;
      assert Drop(s, 4) == s[4..] && Drop(s, 8) == s[8..];
      assert [r] + rs[1..] == rs;
    }
  }

  /** Every record's size field fits its 8 bytes, and its depth field its 4 bytes. */
  lemma {:induction false} ItemRecordsBounded(depth: nat, l: Listing)
    requires WellFormed(l) && depth + Height(l) < 0x8000_0000
    ensures AllBounded(ItemRecords(depth, l))
    decreases l
  {
    match l
    case End =>
    case Item(n, node, rest) =>
      ItemRecordsBounded(depth, rest);
      if node.Dir? {
        ItemRecordsBounded(depth + 1, node.entries);
      }
      assert Bounded(EntryRecord(depth, n, node));
      assert AllBounded(NodeRecords(depth, node));
  }

  // ----- START and END records nest like parentheses

  /** The nesting depth after `rs`, or None as soon as a record has the wrong depth. */
  function Nesting(depth: nat, rs: seq<Record>): Option<nat>
    decreases |rs|
  {
    if rs == [] then Some(depth)
    else
      var r := rs[0];
      if r.kind == START_OF_DIRECTORY then
        if r.depth == depth + 1 then Nesting(depth + 1, rs[1..]) else None
      else if r.depth != depth then None
      else if r.kind == END_OF_DIRECTORY then
        if depth > 0 then Nesting(depth - 1, rs[1..]) else None
      else Nesting(depth, rs[1..])
  }

  lemma {:induction false} NestingAppend(depth: nat, a: seq<Record>, b: seq<Record>)
    ensures Nesting(depth, a).None? ==> Nesting(depth, a + b).None?
    ensures Nesting(depth, a).Some? ==> Nesting(depth, a + b) == Nesting(Nesting(depth, a).value, b)
    decreases |a|
  {
    if a == [] {
      assert a + b == b;
    } else {
      assert (a + b)[1..] == a[1..] + b;
      var r := a[0];
      NestingAppend(if r.kind == START_OF_DIRECTORY then depth + 1
                    else if r.kind == END_OF_DIRECTORY && depth > 0 then depth - 1 else depth, a[1..], b);
    }
  }

  lemma {:induction false} ItemsNest(depth: nat, l: Listing)
    ensures Nesting(depth, ItemRecords(depth, l)) == Some(depth)
    ensures Nesting(depth, DirRecords(depth + 1, l)) == Some(depth)
    decreases l, 1
  {
    ItemsNestAt(depth, l);
    ItemsNestAt(depth + 1, l);
    NestingAppend(depth + 1, ItemRecords(depth + 1, l), [Record(END_OF_DIRECTORY, depth + 1, [])]);
  }

  lemma {:induction false} ItemsNestAt(depth: nat, l: Listing)
    ensures Nesting(depth, ItemRecords(depth, l)) == Some(depth)
    decreases l, 0
  {
    match l
    case End =>
    case Item(n, node, rest) =>
      ItemsNestAt(depth, rest);
      if node.Dir? {
        ItemsNest(depth, node.entries);
      }
      NestingAppend(depth, NodeRecords(depth, node), ItemRecords(depth, rest));
  }

  /** At every prefix of a transmission the records carry the right depth; at the end all directories are closed. */
  lemma TransmissionNests(l: Listing, k: nat)
    requires k <= |Transmission(l)|
    ensures Nesting(0, Transmission(l)) == Some(0)
    ensures Nesting(0, Transmission(l)[..k]).Some?
  {
    ItemsNest(0, l);
    NestingAppend(0, DirRecords(1, l), [Record(END_OF_TRANSMISSION, 0, [])]);
    var t := Transmission(l);
    assert t[..k] + t[k..] == t;
    NestingAppend(0, t[..k], t[k..]);
  }

  // ----- Different trees give different streams

  lemma {:induction false} NodeRecordsInjective(depth: nat, m: Node, n: Node, a: seq<Record>, b: seq<Record>)
    requires WellFormedNode(m) && WellFormedNode(n)
    requires m.mode == n.mode && NodeSize(m) == NodeSize(n)
    requires NodeRecords(depth, m) + a == NodeRecords(depth, n) + b
    ensures m == n && a == b
    decreases m, 1
  {
    var s := NodeRecords(depth, m) + a;
    match m
    case File(_, data) =>
      assert |NodeRecords(depth, m)| == |NodeRecords(depth, n)|;
      assert a == s[|NodeRecords(depth, m)|..] == b;
      if data != [] {
        assert s[0] == Record(FILE_DATA, depth, data) == Record(FILE_DATA, depth, n.data);
      }
    case Dir(_, _, l) =>
      var e := Record(END_OF_DIRECTORY, depth + 1, []);
      assert s[1..] == ItemRecords(depth + 1, l) + ([e] + a);
      assert s[1..] == ItemRecords(depth + 1, n.entries) + ([e] + b);
      ItemRecordsInjective(depth + 1, l, n.entries, a, b);
  }

  lemma {:induction false} EntryInjective(depth: nat, x: seq<byte>, m: Node, y: seq<byte>, n: Node)
    requires WellFormedNode(m) && WellFormedNode(n)
    requires EntryRecord(depth, x, m) == EntryRecord(depth, y, n)
    ensures x == y && m.mode == n.mode && NodeSize(m) == NodeSize(n)
  {
    MetadataFields(m.mode, NodeSize(m), x);
    MetadataFields(n.mode, NodeSize(n), y);
  }

  lemma {:induction false} ItemRecordsInjective(depth: nat, l: Listing, r: Listing, a: seq<Record>, b: seq<Record>)
    requires WellFormed(l) && WellFormed(r)
    requires var e := Record(END_OF_DIRECTORY, depth, []);
             ItemRecords(depth, l) + ([e] + a) == ItemRecords(depth, r) + ([e] + b)
    ensures l == r && a == b
    decreases l, 0
  {
    var e := Record(END_OF_DIRECTORY, depth, []);
    var s := ItemRecords(depth, l) + ([e] + a);
    var t := ItemRecords(depth, r) + ([e] + b);
    assert s[0] == t[0];
    if l.End? {
      assert r.End?;
      assert a == s[1..] == b;
    } else {
      assert s[0] == EntryRecord(depth, l.name, l.node);
      assert r.Item?;
      assert t[0] == EntryRecord(depth, r.name, r.node);
      EntryInjective(depth, l.name, l.node, r.name, r.node);
      var a' := ItemRecords(depth, l.rest) + ([e] + a);
      var b' := ItemRecords(depth, r.rest) + ([e] + b);
      assert s[1..] == NodeRecords(depth, l.node) + a';
      assert t[1..] == NodeRecords(depth, r.node) + b';
      NodeRecordsInjective(depth, l.node, r.node, a', b');
      ItemRecordsInjective(depth, l.rest, r.rest, a, b);
    }
  }

  /** The size fields alone recover the record boundaries of a transmission. */
  lemma TransmissionScans(l: Listing)
    requires WellFormed(l) && 1 + Height(l) < 0x8000_0000
    ensures Scan(Encode(Transmission(l), [])) == Some(Transmission(l))
  {
    ItemRecordsBounded(1, l);
    ScanRecovers(Transmission(l));
  }

  lemma TransmissionItems(l: Listing)
    ensures Transmission(l)[2..] ==
            ItemRecords(1, l) + ([Record(END_OF_DIRECTORY, 1, [])] + [Record(END_OF_TRANSMISSION, 0, [])])
  {
  }

  /** No two trees, empty files included, have the same byte stream. */
  lemma TransmissionInjective(l: Listing, r: Listing)
    requires WellFormed(l) && WellFormed(r)
    requires 1 + Height(l) < 0x8000_0000 && 1 + Height(r) < 0x8000_0000
    requires Encode(Transmission(l), []) == Encode(Transmission(r), [])
    ensures l == r
  {
    TransmissionScans(l);
    TransmissionScans(r);
    var z := [Record(END_OF_TRANSMISSION, 0, [])];
    TransmissionItems(l);
    TransmissionItems(r);
    ItemRecordsInjective(1, l, r, z, z);
  }
}
