/** hw1: the deserializer as a function of its state, and what it can and cannot do to the file system. */
module TransplantDecoder {
  import opened Bytes
  import opened Climbing
  import opened FileSystems
  import opened Paths
  import opened TransplantFormat
  import opened Wrappers

  /**
   * `overrun` records that a write would have gone past `name_buf` or `path_buf`; `climbed`, that a name leading
   * out of a directory was pushed onto that directory's path.
   */
  datatype State = State(input: seq<byte>, path: Path, files: FileSystem, overrun: bool, climbed: bool)

  datatype Outcome = Outcome(rc: int, s: State)

  // ----- The decoder

  predicate MagicOk(input: seq<byte>) {
    CharAt(input, 0) == 0x0C && CharAt(input, 1) == 0x0D && CharAt(input, 2) == 0xED
  }

  function Count(size: int, fixedPart: nat): nat {
    if size > fixedPart then size - fixedPart else 0
  }

  /** The file that the FILE_DATA record at the front of the input makes. */
  function FileData(input: seq<byte>): Inode {
    RegularFile(Take(Drop(input, HEADER_SIZE), Count(Number(Drop(input, 8), 8), HEADER_SIZE)))
  }

  function DecodeFile(depth: int, s: State): (r: Outcome)
    ensures |r.s.input| <= |s.input|
  {
    var rest := Drop(s.input, HEADER_SIZE);
    if Found(s.files, s.path) then
      Outcome(-1, s)
    else if !MagicOk(s.input) then
      Outcome(-1, s.(input := Drop(s.input, 3)))
    else if CharAt(s.input, 3) != FILE_DATA || Number(Drop(s.input, 4), 4) != depth || !CanCreate(s.files, s.path) then
      Outcome(-1, s.(input := rest))
    else
      var n := Count(Number(Drop(s.input, 8), 8), HEADER_SIZE);
      var files := Create(s.files, s.path, FileData(s.input));
      Outcome(0, s.(input := Drop(rest, n), path := Pop(s.path), files := files))
  }

  /** A name that leads out of a directory is pushed onto the directory's path. */
  predicate Climbs(files: FileSystem, p: Path, name: seq<byte>) {
    var at := At(files, p);
    at.Some? && IsDirectory(files, at.value) && !Inside(name)
  }

  /** path_push, once the name is known to fit */
  function PushName(s: State, name: seq<byte>): State {
    s.(path := Join(s.path, name), climbed := s.climbed || Climbs(s.files, s.path, name))
  }

  /** The name of an entry never climbs. */
  lemma NameStays(s: State, name: seq<byte>)
    requires IsName(name)
    ensures PushName(s, name).climbed == s.climbed
  {
    NamesAreInside(name);
  }

  /**
   * `deserialize_directory`. With `popFirst` it is the corrected version, which leaves a directory before it
   * continues with the parent's records; without it, the program as written, which pops after continuing.
   */
  function DecodeDir(popFirst: bool, depth: int, s: State): Outcome
    decreases |s.input|, 0
  {
    if !MagicOk(s.input) then
      Outcome(-1, s.(input := Drop(s.input, 3)))
    else if Number(Drop(s.input, 4), 4) != depth then
      Outcome(-1, s.(input := Drop(s.input, 8)))
    else
      var kind, size := CharAt(s.input, 3), Number(Drop(s.input, 8), 8);
      Outcome(0, DecodeRecord(popFirst, depth, kind, size, s.(input := Drop(s.input, HEADER_SIZE))))
  }

  /** The record after its header. */
  function DecodeRecord(popFirst: bool, depth: int, kind: int, size: int, s: State): State
    decreases |s.input|, 3
  {
    if kind == DIRECTORY_ENTRY then
      DecodeEntry(popFirst, depth, Number(s.input, 4), Count(size, HEADER_SIZE + METADATA_SIZE),
                  s.(input := Drop(s.input, METADATA_SIZE)))
    else if kind == START_OF_DIRECTORY then
      DecodeDir(popFirst, depth, s).s
    else if kind == END_OF_DIRECTORY then
      if popFirst then
        DecodeDir(popFirst, depth - 1, s.(path := Pop(s.path))).s
      else
        var r := DecodeDir(popFirst, depth - 1, s).s;
        r.(path := Pop(r.path))
    else
      s
  }

  /** The DIRECTORY_ENTRY branch, once header and metadata are read; the name has `n` bytes. */
  function DecodeEntry(popFirst: bool, depth: int, mode: int, n: nat, s: State): State
    decreases |s.input|, 2
  {
    var name := CStr(Take(s.input, n));
    var afterName := Drop(s.input, n);
    if n > NAME_MAX then
      s.(overrun := true)
    else if |name| == NAME_MAX || |Join(s.path, name)| >= PATH_MAX then
      s.(input := afterName, overrun := true)
    else
      DecodeNamed(popFirst, depth, mode, PushName(s.(input := afterName), name))
  }

  /** The state once a file, or else a directory, has been made at the path of an entry. */
  function AfterFile(depth: int, mode: int, s: State): (next: State)
    ensures |next.input| <= |s.input|
  {
    var f := DecodeFile(depth, s);
    if f.rc == -1 then f.s.(files := MakeDirectory(f.s.files, f.s.path, mode)) else f.s
  }

  /** The rest of the branch, once the name is pushed. */
  function DecodeNamed(popFirst: bool, depth: int, mode: int, s: State): State
    decreases |s.input|, 1
  {
    DecodeDir(popFirst, if DecodeFile(depth, s).rc == -1 then depth + 1 else depth, AfterFile(depth, mode, s)).s
  }

  /** A record header of the expected depth and kind. */
  predicate Expected(input: seq<byte>, depth: int, kind: byte) {
    MagicOk(input) && Number(Drop(input, 4), 4) == depth && CharAt(input, 3) == kind
  }

  /** What is left unread after looking at a header: reading stops where it is wrong. */
  function Unread(input: seq<byte>, depth: int): seq<byte> {
    Drop(input, if !MagicOk(input) then 3 else if Number(Drop(input, 4), 4) != depth then 8 else HEADER_SIZE)
  }

  /** `deserialize` */
  function Deserialize(popFirst: bool, s: State): Outcome {
    var first, second := s.input, Drop(s.input, HEADER_SIZE);
    if !Expected(first, 0, START_OF_TRANSMISSION) then
      Outcome(-1, s.(input := Unread(first, 0)))
    else if !Expected(second, 1, START_OF_DIRECTORY) then
      Outcome(-1, s.(input := Unread(second, 1)))
    else
      var files := MakeDirectory(s.files, s.path, 448);
      Outcome(0, DecodeDir(popFirst, 1, s.(input := Drop(second, HEADER_SIZE), files := files)).s)
  }

  // ----- On every input: existing nodes stay, and without climbing new ones appear only below the current directory

  /** No directory stands at the path. */
  predicate Dead(files: FileSystem, p: Path) {
    At(files, p).None? || !IsDirectory(files, At(files, p).value)
  }

  /** mkdir has been tried on the path, or would not work. */
  predicate Settled(files: FileSystem, p: Path) {
    !CanCreate(files, Strip(p))
  }

  /** All new nodes are strictly below `at`. */
  predicate Adds(before: FileSystem, at: Location, after: FileSystem) {
    Grown(before, after) && forall k | k in after.nodes && k !in before.nodes :: at < k
  }

  /** All new nodes are strictly below the directory at `p`; without one there are none. */
  predicate Confined(before: FileSystem, p: Path, after: FileSystem) {
    if Dead(before, p) then after == before else Adds(before, At(before, p).value, after)
  }

  /** Nothing that was there is changed, and a climb is not forgotten. */
  predicate Later(s: State, r: State) {
    Grown(s.files, r.files) && (s.climbed ==> r.climbed)
  }

  /** As long as no name climbs, all changes are confined; and where there is no directory nothing happens at all. */
  predicate Tame(s: State, r: State) {
    && (!r.climbed ==> Confined(s.files, s.path, r.files))
    && (Dead(s.files, s.path) ==> r.files == s.files && r.climbed == s.climbed)
  }

  /** The decoder has stayed below `p` and stands at or below it, or at no directory. */
  predicate Stays(before: FileSystem, p: Path, next: State) {
    && Confined(before, p, next.files) && Settled(next.files, next.path)
    && (!Dead(next.files, next.path) ==>
          !Dead(before, p) && At(before, p).value <= At(next.files, next.path).value)
  }

  lemma ConfinedTwice(before: FileSystem, p: Path, next: State, after: FileSystem)
    requires Stays(before, p, next) && Confined(next.files, next.path, after)
    ensures Confined(before, p, after)
  {
  }

  lemma {:induction false} StripInside(name: seq<byte>)
    requires Inside(name)
    ensures Inside(Strip(name))
  {
    if name == [] || name[|name| - 1] != SLASH {
    } else {
      var k := LastSlash(name);
      assert k == |name| - 1 && name[k + 1..] == [];
      LastComponent([], name);
      StripInside(name[..k]);
    }
  }

  /** Names pushed onto a directory that do not climb lead to places at or below it. */
  lemma TargetInside(files: FileSystem, p: Path, name: seq<byte>)
    requires !Dead(files, p) && Inside(name) && At(files, Join(p, name)).Some?
    ensures At(files, p).value <= At(files, Join(p, name)).value
  {
    JoinLands(files, p, At(files, p).value, name);
    LandsBelow(At(files, p).value, name);
  }

  lemma DeadEntry(files: FileSystem, p: Path, name: seq<byte>)
    requires Dead(files, p) && Settled(files, p)
    ensures var q := Join(p, name);
            Dead(files, q) && Settled(files, q) && !CanCreate(files, q)
  {
    JoinDead(files, p, name);
    StripJoin(p, name);
    JoinDead(files, p, Strip(name));
  }

  /** A directory that is there stays there, and mkdir fails on it. */
  lemma SettledDirectory(before: FileSystem, after: FileSystem, p: Path)
    requires Grown(before, after) && !Dead(before, p)
    ensures !Dead(after, p) && At(after, p) == At(before, p) && Settled(after, p)
  {
    AtStable(before, after, p);
    AtStrip(after, p);
  }

  lemma PutBelow(files: FileSystem, at: Location, q: Path, node: Inode)
    requires IsDirectory(files, at) && CanCreate(files, q) && at <= Lookup(files, q).value
    ensures Adds(files, at, Create(files, q, node))
  {
    var target := Lookup(files, q).value;
    assert target != at && target == at + target[|at|..];
  }

  /** What a new file is made in is a directory. */
  lemma ParentLive(files: FileSystem, q: Path)
    requires CanCreate(files, q) && LastSlash(q) >= 0
    ensures !Dead(files, Pop(q))
  {
  }

  /** path_pop after a name leads back to a directory at or below the one it was pushed onto. */
  lemma PopInside(files: FileSystem, p: Path, name: seq<byte>)
    requires !Dead(files, p) && Inside(name)
    ensures CanCreate(files, Join(p, name)) ==>
      !Dead(files, Pop(Join(p, name))) && At(files, p).value <= At(files, Pop(Join(p, name))).value
  {
    if CanCreate(files, Join(p, name)) {
      LastSlashJoin(p, name);
      ParentLive(files, Join(p, name));
      PopJoined(p, name);
      if LastSlash(name) >= 0 {
        LastComponent([], name);
        PrefixInside(files, p, name[..LastSlash(name)]);
      }
    }
  }

  lemma PrefixInside(files: FileSystem, p: Path, name: seq<byte>)
    requires !Dead(files, p) && Inside(name)
    ensures !Dead(files, Join(p, name)) ==> At(files, p).value <= At(files, Join(p, name)).value
  {
    if !Dead(files, Join(p, name)) {
      TargetInside(files, p, name);
    }
  }

  lemma FileStays(files: FileSystem, p: Path, name: seq<byte>, node: Inode, next: State)
    requires !Dead(files, p) && Inside(name) && CanCreate(files, Join(p, name))
    requires next.files == Create(files, Join(p, name), node) && next.path == Pop(Join(p, name))
    ensures Stays(files, p, next)
  {
    TargetInside(files, p, name);
    PutBelow(files, At(files, p).value, Join(p, name), node);
    PopInside(files, p, name);
    SettledDirectory(files, next.files, Pop(Join(p, name)));
  }

  lemma StripTarget(files: FileSystem, p: Path, name: seq<byte>)
    requires !Dead(files, p) && CanCreate(files, Strip(Join(p, name)))
    ensures Strip(Join(p, name)) == Join(p, Strip(name))
  {
    StripJoin(p, name);
    SettledDirectory(files, files, p);
  }

  /** A path that mkdir has just been tried on is settled. */
  lemma MkdirSettles(files: FileSystem, p: Path, mode: int)
    ensures Grown(files, MakeDirectory(files, p, mode)) && Settled(MakeDirectory(files, p, mode), p)
  {
    if CanCreate(files, Strip(p)) {
      AtStable(files, MakeDirectory(files, p, mode), Strip(p));
    }
  }

  lemma MkdirInside(files: FileSystem, p: Path, name: seq<byte>, mode: int)
    requires !Dead(files, p) && Inside(name)
    ensures Adds(files, At(files, p).value, MakeDirectory(files, Join(p, name), mode))
  {
    var target := Strip(Join(p, name));
    if CanCreate(files, target) {
      StripTarget(files, p, name);
      StripInside(name);
      TargetInside(files, p, Strip(name));
      PutBelow(files, At(files, p).value, target, Directory(mode));
    }
  }

  /** After mkdir the decoder stands at or below the directory, or at none. */
  lemma DirectoryStays(files: FileSystem, p: Path, name: seq<byte>, mode: int, next: State)
    requires !Dead(files, p) && Inside(name)
    requires next.path == Join(p, name) && next.files == MakeDirectory(files, Join(p, name), mode)
    ensures Stays(files, p, next)
  {
    MkdirInside(files, p, name, mode);
    MkdirSettles(files, Join(p, name), mode);
    SettledDirectory(files, next.files, p);
    if !Dead(next.files, Join(p, name)) {
      TargetInside(next.files, p, name);
    }
  }

  /**
   * Whatever the input, decoding never changes an existing node; and as written (`path_pop` only while unwinding)
   * it creates nodes only below the directory it was called for, unless a name climbs.
   */
  lemma {:induction false} DecodeDirConfined(popFirst: bool, depth: int, s: State)
    ensures var r := DecodeDir(popFirst, depth, s).s;
            Later(s, r) && (!popFirst && Settled(s.files, s.path) ==> Tame(s, r))
    decreases |s.input|, 0
  {
    if MagicOk(s.input) && Number(Drop(s.input, 4), 4) == depth {
      DecodeRecordConfined(popFirst, depth, CharAt(s.input, 3), Number(Drop(s.input, 8), 8),
                           s.(input := Drop(s.input, HEADER_SIZE)));
    }
  }

  lemma {:induction false} DecodeRecordConfined(popFirst: bool, depth: int, kind: int, size: int, s: State)
    ensures var r := DecodeRecord(popFirst, depth, kind, size, s);
            Later(s, r) && (!popFirst && Settled(s.files, s.path) ==> Tame(s, r))
    decreases |s.input|, 2
  {
    if kind == DIRECTORY_ENTRY {
      DecodeEntryConfined(popFirst, depth, Number(s.input, 4), Count(size, HEADER_SIZE + METADATA_SIZE),
                          s.(input := Drop(s.input, METADATA_SIZE)));
    } else if kind == START_OF_DIRECTORY {
      DecodeDirConfined(popFirst, depth, s);
    } else if kind == END_OF_DIRECTORY {
      if popFirst {
        DecodeDirConfined(popFirst, depth - 1, s.(path := Pop(s.path)));
      } else {
        DecodeDirConfined(popFirst, depth - 1, s);
      }
    }
  }

  /** What has become of the file system and the path after an entry, `file` or directory. */
  predicate EntryMade(file: bool, files: FileSystem, q: Path, mode: int, node: Inode, next: State) {
    if file then CanCreate(files, q) && next.path == Pop(q) && next.files == Create(files, q, node)
    else next.path == q && next.files == MakeDirectory(files, q, mode)
  }

  /** `deserialize_file` makes the file of the record and pops its name, or changes nothing but the input. */
  lemma FileOutcome(depth: int, s: State)
    ensures var r := DecodeFile(depth, s);
            && (r.rc == 0 || r.rc == -1) && r.s.climbed == s.climbed
            && (r.rc == 0 ==>
                CanCreate(s.files, s.path) && r.s.path == Pop(s.path) &&
                r.s.files == Create(s.files, s.path, FileData(s.input)))
            && (r.rc == -1 ==> r.s.path == s.path && r.s.files == s.files)
  {
  }

  lemma AfterFileMade(depth: int, mode: int, s: State, r: Outcome)
    requires r == DecodeFile(depth, s)
    ensures var next := AfterFile(depth, mode, s);
            EntryMade(r.rc == 0, s.files, s.path, mode, FileData(s.input), next) && next.climbed == s.climbed
  {
    FileOutcome(depth, s);
  }

  lemma AfterEntryMade(depth: int, mode: int, s: State, name: seq<byte>) returns (file: bool)
    ensures var next := AfterFile(depth, mode, PushName(s, name));
            && EntryMade(file, s.files, Join(s.path, name), mode, FileData(s.input), next)
            && next.climbed == PushName(s, name).climbed
  {
    var r := DecodeFile(depth, PushName(s, name));
    AfterFileMade(depth, mode, PushName(s, name), r);
    file := r.rc == 0;
  }

  lemma LiveEntryStays(file: bool, files: FileSystem, p: Path, name: seq<byte>, mode: int, node: Inode, next: State)
    requires !Dead(files, p) && Inside(name) && EntryMade(file, files, Join(p, name), mode, node, next)
    ensures Stays(files, p, next)
  {
    if file {
      FileStays(files, p, name, node, next);
    } else {
      DirectoryStays(files, p, name, mode, next);
    }
  }

  predicate TameEntry(s: State, next: State) {
    && (!next.climbed ==> Stays(s.files, s.path, next))
    && (Dead(s.files, s.path) ==>
          next.files == s.files && next.climbed == s.climbed && Dead(s.files, next.path) && Settled(s.files, next.path))
  }

  /** What comes after a tame entry is tame if it would be by itself. */
  lemma TameTwice(s: State, next: State, r: State)
    requires TameEntry(s, next) && Later(next, r) && (Settled(next.files, next.path) ==> Tame(next, r))
    ensures Tame(s, r)
  {
    if !r.climbed {
      ConfinedTwice(s.files, s.path, next, r.files);
    }
  }

  lemma EntryStays(depth: int, mode: int, s: State, name: seq<byte>)
    ensures var next := AfterFile(depth, mode, PushName(s, name));
            Later(s, next) && (Settled(s.files, s.path) ==> TameEntry(s, next))
  {
    var q, next := Join(s.path, name), AfterFile(depth, mode, PushName(s, name));
    var file := AfterEntryMade(depth, mode, s, name);
    MkdirSettles(s.files, q, mode);
    if Settled(s.files, s.path) {
      if Dead(s.files, s.path) {
        DeadEntry(s.files, s.path, name);
      } else if !next.climbed {
        LiveEntryStays(file, s.files, s.path, name, mode, FileData(s.input), next);
      }
    }
  }

  lemma {:induction false} DecodeEntryConfined(popFirst: bool, depth: int, mode: int, n: nat, s: State)
    ensures var r := DecodeEntry(popFirst, depth, mode, n, s);
            Later(s, r) && (!popFirst && Settled(s.files, s.path) ==> Tame(s, r))
    decreases |s.input|, 1
  {
    var name, s0 := CStr(Take(s.input, n)), s.(input := Drop(s.input, n));
    if n <= NAME_MAX && |name| < NAME_MAX && |Join(s.path, name)| < PATH_MAX {
      var next := AfterFile(depth, mode, PushName(s0, name));
      var depth' := if DecodeFile(depth, PushName(s0, name)).rc == -1 then depth + 1 else depth;
      var r := DecodeDir(popFirst, depth', next).s;
      assert DecodeEntry(popFirst, depth, mode, n, s) == r;
      EntryStays(depth, mode, s0, name);
      DecodeDirConfined(popFirst, depth', next);
      if !popFirst && Settled(s.files, s.path) {
        TameTwice(s0, next, r);
      }
    }
  }
}
