/** hw2: the doubly linked list of entries, relinked in place. */
module RoloList {
  import opened Collation
  import opened RoloSort

  const N_BASIC_FIELDS := 8

  datatype RawEntry = Entry(basic: seq<Text>, others: seq<Text>)

  type RoloEntry = e: RawEntry | |e.basic| == N_BASIC_FIELDS witness Entry([[], [], [], [], [], [], [], []], [])

  class Link {
    var entry: RoloEntry
    var matched: bool
    var prev: Link?
    var next: Link?

    constructor (entry: RoloEntry)
      ensures this.entry == entry && prev == null && next == null && !matched
    {
      this.entry, matched, prev, next := entry, false, null, null;
    }

    function Name(): Text
      reads this`entry
    {
      entry.basic[0]
    }
  }

  /** compare_links */
  method CompareLinks(l1: Link, l2: Link) returns (r: int)
    ensures r == Compare(l1.Name(), l2.Name())
  {
    r := NocaseCompare(l1.entry.basic[0], l2.entry.basic[0]);
  }

  ghost predicate Distinct(links: seq<Link>) {
    forall i, j | 0 <= i < j < |links| :: links[i] != links[j]
  }

  ghost predicate LinkedAt(links: seq<Link>, i: nat)
    requires i < |links|
    reads links`prev, links`next
  {
    && links[i].prev == (if i == 0 then null else links[i - 1])
    && links[i].next == (if i + 1 == |links| then null else links[i + 1])
  }

  ghost predicate NextAt(links: seq<Link>, i: nat)
    requires i < |links|
    reads links`next
  {
    links[i].next == if i + 1 == |links| then null else links[i + 1]
  }

  ghost function Items(links: seq<Link>): (r: seq<Item<Link>>)
    reads links
    ensures |r| == |links|
  {
    seq(|links|, i requires 0 <= i < |links| reads links => Item(links[i], links[i].Name()))
  }

  /** Relinking leaves names alone. */
  twostate lemma ItemsSame(ls: seq<Link>)
    requires forall i | 0 <= i < |ls| :: old(ls[i].entry) == ls[i].entry
    ensures Items(ls) == old(Items(ls))
  {
  }

  class Rolodex {
    var begin: Link?
    var end: Link?
    ghost var links: seq<Link>

    /** Begin_Rlist, End_Rlist and all prev and next fields describe exactly `links`. */
    ghost predicate Linked()
      reads this, links`prev, links`next
    {
      && Distinct(links)
      && (links == [] ==> begin == null)
      && (links != [] ==> begin == links[0] && end == links[|links| - 1])
      && forall i | 0 <= i < |links| :: LinkedAt(links, i)
    }

    constructor ()
      ensures Linked() && links == []
    {
      begin, end, links := null, null, [];
    }

    /** The loop of `rolo_insert`: the first element greater than `x`, null at the end of the list. */
    method FindPlace(x: Link) returns (rptr: Link?, ghost k: nat)
      requires Linked()
      ensures k == Place(Items(links), Item(x, x.Name()))
      ensures rptr == if k < |links| then links[k] else null
    {
      k, rptr := 0, begin;
      while rptr != null
        invariant 0 <= k <= |links| && rptr == if k < |links| then links[k] else null
        invariant forall i | 0 <= i < k :: Before(Items(links)[i], Item(x, x.Name()))
        decreases |links| - k
      {
        var c := CompareLinks(rptr, x);
        if c == 1 {
          PlaceIs(Items(links), Item(x, x.Name()), k);
          return;
        }
        assert LinkedAt(links, k);
        rptr := rptr.next;
        k := k + 1;
      }
      PlaceIs(Items(links), Item(x, x.Name()), k);
    }

    /** Puts `x` in front of `rptr`. */
    method LinkBefore(rptr: Link, x: Link, ghost k: nat)
      requires Linked() && x !in links && k < |links| && rptr == links[k]
      modifies this, links`prev, links`next, x`prev, x`next
      ensures Linked() && links == old(links)[..k] + [x] + old(links)[k..]
    {
      ghost var ls := links;
      assert LinkedAt(ls, k) && (k > 0 ==> LinkedAt(ls, k - 1));
      x.prev, x.next := rptr.prev, rptr;
      if rptr.prev != null {
        rptr.prev.next := x;
      } else {
        begin := x;
      }
      rptr.prev := x;
      links := ls[..k] + [x] + ls[k..];
      forall i | 0 <= i < |links| ensures LinkedAt(links, i) {
        if i != k {
          ghost var j := if i < k then i else i - 1;
          assert links[i] == ls[j] && old(LinkedAt(ls, j));
        }
      }
    }

    /** Puts `x` at the end of a nonempty list. */
    method LinkLast(x: Link)
      requires Linked() && x !in links && links != []
      modifies this, links`prev, links`next, x`prev, x`next
      ensures Linked() && links == old(links) + [x]
    {
      ghost var ls := links;
      end.next := x;
      x.prev, x.next := end, null;
      end := x;
      links := ls + [x];
      forall i | 0 <= i < |links| ensures LinkedAt(links, i) {
        if i < |ls| {
          assert links[i] == ls[i] && old(LinkedAt(ls, i));
        }
      }
    }

    /** Adds an element at the end, as `read_rolodex` does. */
    method Append(x: Link)
      requires Linked() && x !in links
      modifies this, links`prev, links`next, x`prev, x`next
      ensures Linked() && links == old(links) + [x]
    {
      if begin == null {
        begin, end, links := x, x, [x];
        x.prev, x.next := null, null;
      } else {
        LinkLast(x);
      }
    }

    /** `rolo_insert` with compare_links */
    method RoloInsert(x: Link)
      requires Linked() && x !in links
      modifies this, links`prev, links`next, x`prev, x`next
      ensures Linked() && Items(links) == Insert(old(Items(links)), Item(x, x.Name()))
      ensures var k := Place(old(Items(links)), Item(x, x.Name()));
              links == old(links)[..k] + [x] + old(links)[k..]
    {
      ghost var ls := links;
      var rptr, k := FindPlace(x);
      LinkAt(rptr, x, k);
      ItemsSame(ls);
      ItemsWith(ls, k, x);
    }

    /** The three ways `rolo_insert` links `x` in. */
    method LinkAt(rptr: Link?, x: Link, ghost k: nat)
      requires Linked() && x !in links && k <= |links| && rptr == if k < |links| then links[k] else null
      modifies this, links`prev, links`next, x`prev, x`next
      ensures Linked() && links == old(links)[..k] + [x] + old(links)[k..]
    {
      if begin == null {
        begin, end, links := x, x, [x];
        x.prev, x.next := null, null;
      } else if rptr != null {
        LinkBefore(rptr, x, k);
      } else {
        LinkLast(x);
      }
    }

    /** `rolo_delete`: takes `x`, the element at `k`, out of the list; its own links stay. */
    method RoloDelete(x: Link, ghost k: nat)
      requires Linked() && k < |links| && links[k] == x
      modifies this, links`prev, links`next
      ensures Linked() && links == old(links)[..k] + old(links)[k + 1..]
    {
      ghost var ls := links;
      assert LinkedAt(ls, k) && (k > 0 ==> LinkedAt(ls, k - 1)) && (k + 1 < |ls| ==> LinkedAt(ls, k + 1));
      if x.next == null && x.prev == null {
        begin, end := null, null;
      } else if x.prev == null {
        begin := x.next;
        begin.prev := null;
      } else if x.next == null {
        end := x.prev;
        end.next := null;
      } else {
        x.prev.next := x.next;
        x.next.prev := x.prev;
      }
      links := ls[..k] + ls[k + 1..];
      forall i | 0 <= i < |links| ensures LinkedAt(links, i) {
        ghost var j := if i < k then i else i + 1;
        assert links[i] == ls[j] && old(LinkedAt(ls, j));
      }
    }

    /** `rolo_reorder`: empties the list and inserts its elements again, front to back. */
    method RoloReorder()
      requires Linked()
      modifies this, links`prev, links`next
      ensures Linked() && Items(links) == Sort(old(Items(links)))
    {
      ghost var ls := links;
      var rptr := begin;
      forall i | 0 <= i < |ls| ensures NextAt(ls, i) {
        assert LinkedAt(ls, i);
      }
      begin := null;
      links := [];
      ReinsertAll(ls, rptr);
      ItemsSame(ls);
    }

    /** `rolo_reorder` has inserted the first `n` elements of the old list `ls`; the others have their next fields. */
    ghost predicate Reordering(ls: seq<Link>, xs: seq<Item<Link>>, n: nat)
      reads this, links, ls`next
    {
      && Linked() && Distinct(ls) && |xs| == |ls| && n <= |ls|
      && AllIn(links, ls[..n]) && Items(links) == Sort(xs[..n])
      && forall i | n <= i < |ls| :: NextAt(ls, i)
    }

    /** The loop of `rolo_reorder`. */
    method ReinsertAll(ghost ls: seq<Link>, first: Link?)
      requires links == [] && Reordering(ls, Items(ls), 0) && first == if ls == [] then null else ls[0]
      modifies this, ls`prev, ls`next
      ensures Linked() && Items(links) == Sort(Items(ls))
    {
      ghost var xs, n := Items(ls), 0;
      var rptr := first;
      while rptr != null
        invariant Reordering(ls, xs, n) && xs == Items(ls) && rptr == if n < |ls| then ls[n] else null
        decreases |ls| - n
      {
        assert NextAt(ls, n);
        var oldLink := rptr.next;
        AllInPrefix(links, ls, n);
        Reinsert(ls, xs, n, rptr);
        rptr := oldLink;
        n := n + 1;
      }
      assert xs[..n] == xs;
    }

    /** One round of `rolo_reorder`: the elements after `x` in the old list are not touched. */
    method Reinsert(ghost ls: seq<Link>, ghost xs: seq<Item<Link>>, ghost n: nat, x: Link)
      requires Reordering(ls, xs, n) && n < |ls| && x == ls[n] && xs[n] == Item(x, x.Name())
      modifies this, links`prev, links`next, x`prev, x`next
      ensures Reordering(ls, xs, n + 1)
    {
      LaterElement(ls, n, n);
      RoloInsert(x);
      assert xs[..n + 1][..n] == xs[..n];
      forall i | 0 <= i < |links| ensures links[i] in ls[..n + 1] {
        assert ls[..n + 1] == ls[..n] + [x];
      }
      forall i | n < i < |ls| ensures NextAt(ls, i) {
        LaterElement(ls, n, i);
        assert ls[i] !in old(links) && old(NextAt(ls, i));
      }
    }

    /** The order check of `read_rolodex`, for a nonempty list; true means that reorder_file gets set. */
    method OutOfOrder() returns (reorder: bool)
      requires Linked() && begin != null
      ensures reorder <==> !Sorted(Items(links))
    {
      reorder := false;
      assert LinkedAt(links, 0);
      var rptr := begin.next;
      ghost var n := 1;
      while rptr != null
        invariant 1 <= n <= |links| && rptr == if n < |links| then links[n] else null
        invariant reorder <==> exists i :: 0 < i < n && !Before(Items(links)[i - 1], Items(links)[i])
        decreases |links| - n
      {
        assert LinkedAt(links, n);
        var c := CompareLinks(rptr.prev, rptr);
        if c == 1 {
          reorder := true;
          assert !Before(Items(links)[n - 1], Items(links)[n]);
        }
        rptr := rptr.next;
        n := n + 1;
      }
      AdjacentIsSorted(Items(links));
    }

    /** A confirmed update (`rolo_update_mode`): the entry is replaced, and moved if the flag is set. */
    method ConfirmUpdate(x: Link, ghost k: nat, entry: RoloEntry, nameChanged: bool)
      requires Linked() && k < |links| && links[k] == x
      modifies this, links`prev, links`next, x`entry
      ensures Linked() && Items(links) == Confirm(old(Items(links)), k, entry.basic[0], nameChanged)
      ensures x.entry == entry
    {
      ghost var ls, ys := links, Rename(Items(links), k, entry.basic[0]);
      x.entry := entry;
      assert Items(links) == ys;
      if nameChanged {
        RoloDelete(x, k);
        assert Items(links) == Remove(ys, k);
        RoloInsert(x);
      }
    }

    /** `match_link` on a basic field, after the flag has been cleared. */
    method MatchLink(x: Link, field: nat, search: Text) returns (found: bool)
      requires field < N_BASIC_FIELDS
      modifies x`matched
      ensures x.matched == found && (found <==> Contains(x.entry.basic[field], search))
    {
      x.matched := false;
      var at := StrNCSearch(x.entry.basic[field], search);
      ContainsMatch(x.entry.basic[field], search);
      if at >= 0 {
        x.matched := true;
      }
      found := at >= 0;
    }

    /** `find_all_matches` has seen `n` elements; `hits` says which elements of the list match. */
    ghost predicate Searched(hits: seq<bool>, n: nat, count: nat, first: Link?)
      reads this, links`matched
    {
      && |hits| == |links| && n <= |links|
      && (forall i | 0 <= i < n :: links[i].matched == hits[i])
      && count == CountTrue(hits[..n]) && (count == 0 <==> FirstTrue(hits[..n]) == n)
      && first == if FirstTrue(hits[..n]) < n then links[FirstTrue(hits[..n])] else null
    }

    /** `find_all_matches` on a basic field; `first` is null when there is no match. */
    method FindAllMatches(field: nat, search: Text) returns (count: nat, first: Link?)
      requires Linked() && field < N_BASIC_FIELDS
      modifies links`matched
      ensures Searched(old(Hits(links, field, search)), |links|, count, first)
    {
      count, first := SearchList(field, search, Hits(links, field, search));
    }

    /** Its loop. */
    method SearchList(field: nat, search: Text, ghost hits: seq<bool>) returns (count: nat, first: Link?)
      requires Linked() && field < N_BASIC_FIELDS && |hits| == |links|
      requires forall i | 0 <= i < |links| :: hits[i] == Contains(links[i].entry.basic[field], search)
      modifies links`matched
      ensures Searched(hits, |links|, count, first)
    {
      count, first := 0, null;
      var rlist := begin;
      ghost var n := 0;
      while rlist != null
        invariant n <= |links| && rlist == if n < |links| then links[n] else null
        invariant Searched(hits, n, count, first)
        decreases |links| - n
      {
        count, first := MatchNth(n, rlist, field, search, hits, count, first);
        assert LinkedAt(links, n);
        rlist := rlist.next;
        n := n + 1;
      }
    }

    /** One round of `find_all_matches`: only the flag of element `n` changes. */
    method MatchNth(ghost n: nat, x: Link, field: nat, search: Text, ghost hits: seq<bool>, count: nat, first: Link?)
      returns (count': nat, first': Link?)
      requires Linked() && field < N_BASIC_FIELDS && n < |links| && x == links[n]
      requires Searched(hits, n, count, first) && hits[n] == Contains(x.entry.basic[field], search)
      modifies x`matched
      ensures Searched(hits, n + 1, count', first')
    {
      count', first' := count, first;
      var found := MatchLink(x, field, search);
      CountNext(hits, n);
      if found {
        if count == 0 {
          first' := x;
        }
        count' := count + 1;
      }
    }
  }

  /** For every element: does the field contain `search` up to case? */
  ghost function Hits(links: seq<Link>, field: nat, search: Text): (r: seq<bool>)
    requires field < N_BASIC_FIELDS
    reads links
    ensures |r| == |links|
  {
    seq(|links|, i requires 0 <= i < |links| reads links => Contains(links[i].entry.basic[field], search))
  }

  function CountTrue(hits: seq<bool>): nat {
    if hits == [] then 0 else CountTrue(hits[..|hits| - 1]) + if hits[|hits| - 1] then 1 else 0
  }

  /** Index of the first true element, or the length. */
  function FirstTrue(hits: seq<bool>): (k: nat)
    ensures k <= |hits| && (k < |hits| ==> hits[k]) && forall j | 0 <= j < k :: !hits[j]
  {
    if hits == [] || hits[0] then 0 else 1 + FirstTrue(hits[1..])
  }

  lemma CountNext(hits: seq<bool>, n: nat)
    requires n < |hits|
    ensures CountTrue(hits[..n + 1]) == CountTrue(hits[..n]) + if hits[n] then 1 else 0
    ensures FirstTrue(hits[..n + 1]) ==
      if FirstTrue(hits[..n]) < n then FirstTrue(hits[..n]) else if hits[n] then n else n + 1
  {
    assert hits[..n + 1][..n] == hits[..n];
    var j, k := FirstTrue(hits[..n]), FirstTrue(hits[..n + 1]);
    assert j < n ==> hits[..n + 1][j];
    assert k < n ==> hits[..n][k];
    assert k == n ==> hits[..n + 1][n];
  }

  ghost predicate AllIn(a: seq<Link>, b: seq<Link>) {
    forall i | 0 <= i < |a| :: a[i] in b
  }

  lemma AllInPrefix(a: seq<Link>, b: seq<Link>, n: nat)
    requires n <= |b| && AllIn(a, b[..n])
    ensures AllIn(a, b)
  {
  }

  lemma LaterElement(ls: seq<Link>, n: nat, i: nat)
    requires Distinct(ls) && n <= i < |ls|
    ensures ls[i] !in ls[..n]
  {
  }

  lemma ItemsWith(ls: seq<Link>, k: nat, x: Link)
    requires k <= |ls|
    ensures Items(ls[..k] + [x] + ls[k..]) == Items(ls)[..k] + [Item(x, x.Name())] + Items(ls)[k..]
  {
  }

  lemma {:induction false} PlaceIs<T>(xs: seq<Item<T>>, x: Item<T>, k: nat)
    requires k <= |xs| && (forall i | 0 <= i < k :: Before(xs[i], x)) && (k < |xs| ==> !Before(xs[k], x))
    ensures Place(xs, x) == k
  {
    if k == 0 {
    } else {
      PlaceIs(xs[1..], x, k - 1);
    }
  }
}
