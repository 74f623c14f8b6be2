/** hw1: file trees as nodes of a file system, and which trees a decoder can rebuild. */
module TransplantTrees {
  import opened Bytes
  import opened FileSystems
  import opened Paths
  import opened TransplantFormat

  /** What the entries of the directory `at` look like: every name and content, and the mode of every directory. */
  function Flatten(at: Location, l: Listing): Nodes
    decreases l
  {
    match l
    case End => map[]
    case Item(n, node, r) => FlattenNode(at + [n], node) + Flatten(at, r)
  }

  function FlattenNode(at: Location, node: Node): Nodes
    decreases node
  {
    match node
    case File(_, data) => map[at := RegularFile(data)]
    case Dir(mode, _, l) => map[at := Directory(mode)] + Flatten(at, l)
  }

  predicate NoEmptyFiles(l: Listing) {
    match l
    case End => true
    case Item(_, File(_, data), r) => data != [] && NoEmptyFiles(r)
    case Item(_, Dir(_, _, d), r) => NoEmptyFiles(d) && NoEmptyFiles(r)
  }

  /** In every listing nothing follows a directory. */
  predicate DirectoriesLast(l: Listing) {
    match l
    case End => true
    case Item(_, File(_, _), r) => DirectoriesLast(r)
    case Item(_, Dir(_, _, d), r) => r.End? && DirectoriesLast(d)
  }

  /** The trees that a decoder rebuilds. */
  predicate Rebuilt(popFirst: bool, l: Listing) {
    NoEmptyFiles(l) && (popFirst || DirectoriesLast(l))
  }

  lemma RebuiltDirectory(popFirst: bool, l: Listing)
    requires l.Item? && l.node.Dir? && Rebuilt(popFirst, l.node.entries)
    ensures Rebuilt(popFirst, l) <==> if popFirst then Rebuilt(popFirst, l.rest) else l.rest.End?
  {
    assert NoEmptyFiles(l) == (NoEmptyFiles(l.node.entries) && NoEmptyFiles(l.rest));
    assert DirectoriesLast(l) == (l.rest.End? && DirectoriesLast(l.node.entries));
    assert NoEmptyFiles(End);
  }

  // ----- Locations that belong to a listing

  /** `k` is an entry of `l`, a listing of the directory `at`, or below one. */
  predicate InListing(at: Location, l: Listing, k: Location) {
    at < k && k[|at|] in Names(l)
  }

  lemma Child(at: Location, n: seq<byte>, k: Location)
    ensures at + [n] <= k <==> at < k && k[|at|] == n
  {
    if at < k {
      assert k == at + k[|at|..];
    }
  }

  lemma {:induction false} FlattenKeys(at: Location, l: Listing, k: Location)
    requires k in Flatten(at, l)
    ensures InListing(at, l, k)
    decreases l
  {
    if k in Flatten(at, l.rest) {
      FlattenKeys(at, l.rest, k);
    } else {
      FlattenNodeKeys(at + [l.name], l.node, k);
      Child(at, l.name, k);
    }
  }

  lemma {:induction false} FlattenNodeKeys(at: Location, node: Node, k: Location)
    requires k in FlattenNode(at, node)
    ensures at <= k
    decreases node
  {
    if k == at {
    } else {
      FlattenKeys(at, node.entries, k);
    }
  }

  lemma {:induction false} EntryFlattened(at: Location, l: Listing, n: seq<byte>)
    requires n in Names(l)
    ensures at + [n] in Flatten(at, l)
  {
    if n == l.name {
      assert at + [n] in FlattenNode(at + [n], l.node);
    } else {
      EntryFlattened(at, l.rest, n);
    }
  }

  // ----- The entries of a listing do not interfere

  predicate SameAt(a: Nodes, b: Nodes, k: Location) {
    (k in a <==> k in b) && (k in a ==> a[k] == b[k])
  }

  /** On an entry and below it the listing is the entry, and elsewhere it is the other entries. */
  lemma FlattenParts(at: Location, l: Listing, k: Location)
    requires WellFormed(l) && l.Item?
    ensures at + [l.name] <= k ==> SameAt(Flatten(at, l), FlattenNode(at + [l.name], l.node), k)
    ensures !(at + [l.name] <= k) ==> SameAt(Flatten(at, l), Flatten(at, l.rest), k)
    ensures InListing(at, l.rest, k) ==> !(at + [l.name] <= k)
  {
    Child(at, l.name, k);
    if k in FlattenNode(at + [l.name], l.node) {
      FlattenNodeKeys(at + [l.name], l.node, k);
    }
    if k in Flatten(at, l.rest) {
      FlattenKeys(at, l.rest, k);
    }
  }

  lemma EntryApart(at: Location, l: Listing)
    requires WellFormed(l) && l.Item?
    ensures FlattenNode(at + [l.name], l.node).Keys !! Flatten(at, l.rest).Keys
  {
    forall k | k in FlattenNode(at + [l.name], l.node) ensures k !in Flatten(at, l.rest) {
      FlattenNodeKeys(at + [l.name], l.node, k);
      Child(at, l.name, k);
      if k in Flatten(at, l.rest) {
        FlattenKeys(at, l.rest, k);
      }
    }
  }

  lemma InsideApart(at: Location, l: Listing)
    ensures at !in Flatten(at, l)
  {
    if at in Flatten(at, l) {
      FlattenKeys(at, l, at);
    }
  }

  // ----- A file system that does not hold the listing

  /** Some place that belongs to the listing holds something else than the listing has there, or holds nothing. */
  ghost predicate Differs(nodes: Nodes, at: Location, l: Listing) {
    exists k :: InListing(at, l, k) && !SameAt(nodes, Flatten(at, l), k)
  }

  lemma DiffersRest(nodes: Nodes, at: Location, l: Listing)
    requires WellFormed(l) && l.Item? && Differs(nodes, at, l.rest)
    ensures Differs(nodes, at, l)
  {
    var k :| InListing(at, l.rest, k) && !SameAt(nodes, Flatten(at, l.rest), k);
    FlattenParts(at, l, k);
    assert InListing(at, l, k);
  }

  lemma DiffersInside(nodes: Nodes, at: Location, l: Listing)
    requires WellFormed(l) && l.Item? && l.node.Dir? && Differs(nodes, at + [l.name], l.node.entries)
    ensures Differs(nodes, at, l)
  {
    var q, d := at + [l.name], l.node.entries;
    var k :| InListing(q, d, k) && !SameAt(nodes, Flatten(q, d), k);
    FlattenParts(at, l, k);
    Child(at, l.name, k);
    assert InListing(at, l, k);
  }

  // ----- Where decoding as written gets stuck

  /** The directory in which the decoder as written stands at the end of a listing. */
  function Deepest(p: Path, l: Listing): Path
    decreases l
  {
    match l
    case End => p
    case Item(n, File(_, _), r) => Deepest(p, r)
    case Item(n, Dir(_, _, d), r) => Deepest(Deepest(Join(p, n), d), r)
  }

  function DeepestAt(at: Location, l: Listing): Location
    decreases l
  {
    match l
    case End => at
    case Item(n, File(_, _), r) => DeepestAt(at, r)
    case Item(n, Dir(_, _, d), r) => DeepestAt(DeepestAt(at + [n], d), r)
  }

  /** If nothing follows a directory, the deepest one is part of the tree and has only files in it. */
  lemma {:induction false} DeepestHasFiles(at: Location, l: Listing)
    requires WellFormed(l) && DirectoriesLast(l)
    ensures var t := DeepestAt(at, l);
            && at <= t && (t == at || (t in Flatten(at, l) && Flatten(at, l)[t].Directory?))
            && forall n :: t + [n] in Flatten(at, l) ==> Flatten(at, l)[t + [n]].RegularFile?
    decreases l
  {
    match l
    case End =>
    case Item(n, File(_, _), r) => DeepestHasFiles(at, r);
    case Item(n, Dir(_, _, d), r) =>
      DeepestHasFiles(at + [n], d);
      InsideApart(at + [n], d);
      assert Flatten(at, r) == map[];
      assert Flatten(at, l) == FlattenNode(at + [n], l.node);
  }

  /** `k` belongs to an entry that follows a directory, in the listing of `at` or in one below it. */
  predicate Displaced(at: Location, l: Listing, k: Location)
    decreases l
  {
    match l
    case End => false
    case Item(n, File(_, _), r) => Displaced(at, r, k)
    case Item(n, Dir(_, _, d), r) => InListing(at, r, k) || Displaced(at + [n], d, k)
  }

  lemma {:induction false} DisplacedInListing(at: Location, l: Listing, k: Location)
    requires Displaced(at, l, k)
    ensures InListing(at, l, k)
    decreases l
  {
    match l
    case End =>
    case Item(n, File(_, _), r) => DisplacedInListing(at, r, k);
    case Item(n, Dir(_, _, d), r) =>
      if !InListing(at, r, k) {
        DisplacedInListing(at + [n], d, k);
        Child(at, n, k);
      }
  }
}
