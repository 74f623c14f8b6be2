/**
 * hw1: the file system behind the path strings. Nodes are found by their location, the names on the way from "/";
 * path resolution goes through existing directories only and takes empty components, "." and ".." into account.
 */
module FileSystems {
  import opened Bytes
  import opened Paths
  import opened Wrappers

  type Location = seq<seq<byte>>

  datatype Inode = RegularFile(data: seq<byte>) | Directory(mode: int)

  type Nodes = map<Location, Inode>

  /** The node of "/" itself is left implicit. */
  datatype FileSystem = FileSystem(cwd: Location, nodes: Nodes)

  predicate Exists(fs: FileSystem, at: Location) {
    at == [] || at in fs.nodes
  }

  predicate IsDirectory(fs: FileSystem, at: Location) {
    at == [] || (at in fs.nodes && fs.nodes[at].Directory?)
  }

  function Parent(at: Location): Location {
    if at == [] then [] else at[..|at| - 1]
  }

  // ----- Path resolution

  /** Where one component leads from a directory. */
  function Step(at: Location, c: seq<byte>): Location {
    if c == [] || c == [DOT] then at
    else if c == [DOT, DOT] then Parent(at)
    else at + [c]
  }

  function Enter(fs: FileSystem, at: Option<Location>, c: seq<byte>): Option<Location> {
    if at.Some? && IsDirectory(fs, at.value) then Some(Step(at.value, c)) else None
  }

  /**
   * Where a path leads; its last component need not exist. The empty path stands for "/" here, because that is
   * where a name goes that is pushed onto it.
   */
  function At(fs: FileSystem, p: Path): Option<Location>
    decreases |p|
  {
    var k := LastSlash(p);
    if p == [] then Some([])
    else if k < 0 then Enter(fs, Some(fs.cwd), p)
    else Enter(fs, At(fs, p[..k]), p[k + 1..])
  }

  /** Path resolution as system calls do it: the empty path leads nowhere. */
  function Lookup(fs: FileSystem, p: Path): Option<Location> {
    if p == [] then None else At(fs, p)
  }

  /** stat succeeds. */
  predicate Found(fs: FileSystem, p: Path) {
    Lookup(fs, p).Some? && Exists(fs, Lookup(fs, p).value)
  }

  predicate CanCreate(fs: FileSystem, p: Path) {
    var at := Lookup(fs, p);
    at.Some? && !Exists(fs, at.value) && IsDirectory(fs, Parent(at.value))
  }

  function Put(fs: FileSystem, at: Location, node: Inode): FileSystem {
    fs.(nodes := fs.nodes[at := node])
  }

  /** The new node that a path names. */
  function Create(fs: FileSystem, p: Path, node: Inode): FileSystem
    requires CanCreate(fs, p)
  {
    Put(fs, Lookup(fs, p).value, node)
  }

  /** mkdir, which does not mind '/'s at the end */
  function MakeDirectory(fs: FileSystem, p: Path, mode: int): FileSystem {
    if CanCreate(fs, Strip(p)) then Create(fs, Strip(p), Directory(mode)) else fs
  }

  lemma AtJoin(fs: FileSystem, p: Path, name: seq<byte>)
    requires SLASH !in name
    ensures At(fs, Join(p, name)) == Enter(fs, At(fs, p), name)
  {
    PopJoin(p, name);
    assert Join(p, name)[..|p|] == p && Join(p, name)[|p| + 1..] == name;
  }

  lemma AtSplit(fs: FileSystem, q: Path, k: nat, front: Path, last: seq<byte>)
    requires LastSlash(q) == k && q[..k] == front && q[k + 1..] == last
    ensures At(fs, q) == Enter(fs, At(fs, front), last)
  {
  }

  lemma AtJoinSplit(fs: FileSystem, p: Path, name: seq<byte>)
    requires LastSlash(name) >= 0
    ensures var k := LastSlash(name);
            At(fs, Join(p, name)) == Enter(fs, At(fs, Join(p, name[..k])), name[k + 1..])
  {
    var k := LastSlash(name);
    LastSlashJoin(p, name);
    JoinPrefix(p, name);
    AtSplit(fs, Join(p, name), |p| + 1 + k, Join(p, name[..k]), name[k + 1..]);
  }

  /** '/'s at the end of a path that leads somewhere make no difference. */
  lemma {:induction false} AtStrip(fs: FileSystem, p: Path)
    requires At(fs, p).Some?
    ensures At(fs, Strip(p)) == At(fs, p)
  {
    if p == [] || p[|p| - 1] != SLASH {
    } else {
      assert p[|p|..] == [];
      AtStrip(fs, p[..|p| - 1]);
    }
  }

  // ----- A file system that only gains nodes

  predicate Keeps(before: Nodes, after: Nodes) {
    forall k | k in before :: k in after && after[k] == before[k]
  }

  predicate Grown(before: FileSystem, after: FileSystem) {
    after.cwd == before.cwd && Keeps(before.nodes, after.nodes)
  }

  lemma {:induction false} AtStable(before: FileSystem, after: FileSystem, p: Path)
    requires Grown(before, after) && At(before, p).Some?
    ensures At(after, p) == At(before, p)
    decreases |p|
  {
    var k := LastSlash(p);
    if p == [] || k < 0 {
    } else {
      AtStable(before, after, p[..k]);
    }
  }

  // ----- Pushing a name

  lemma EnterDead(fs: FileSystem, at: Option<Location>, c: seq<byte>)
    requires at.None? || !IsDirectory(fs, at.value)
    ensures Enter(fs, at, c).None?
  {
  }

  /** The target of an entry lies strictly inside its directory exactly when the entry's name is one. */
  lemma EntryInsideExact(fs: FileSystem, p: Path, at: Location, name: seq<byte>)
    requires At(fs, p) == Some(at) && IsDirectory(fs, at) && SLASH !in name && 0 !in name
    ensures Lookup(fs, Join(p, name)).Some?
    ensures at < Lookup(fs, Join(p, name)).value <==> IsName(name)
  {
    AtJoin(fs, p, name);
  }

  /** Below something that is not a directory nothing can be reached, whatever is pushed. */
  lemma {:induction false} JoinDead(fs: FileSystem, p: Path, name: seq<byte>)
    requires At(fs, p).None? || !IsDirectory(fs, At(fs, p).value)
    ensures At(fs, Join(p, name)).None?
    decreases |name|
  {
    var k := LastSlash(name);
    if k < 0 {
      AtJoin(fs, p, name);
      EnterDead(fs, At(fs, p), name);
    } else {
      AtJoinSplit(fs, p, name);
      JoinDead(fs, p, name[..k]);
      EnterDead(fs, At(fs, Join(p, name[..k])), name[k + 1..]);
    }
  }
}
