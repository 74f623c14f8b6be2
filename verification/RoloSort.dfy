/** hw2: what rolo_insert, rolo_delete and rolo_reorder do to the sequence of entries. */
module RoloSort {
  import opened Collation

  /** A list element `id` whose entry has this name. */
  datatype Item<T> = Item(id: T, name: Text)

  predicate Before(x: Item, y: Item) {
    Compare(x.name, y.name) != 1
  }

  predicate Sorted(xs: seq<Item>) {
    forall i, j | 0 <= i < j < |xs| :: Before(xs[i], xs[j])
  }

  predicate AdjacentSorted(xs: seq<Item>) {
    forall i | 0 < i < |xs| :: Before(xs[i - 1], xs[i])
  }

  /** Index of the first element that is greater than `x`, or the length. */
  function Place<T>(xs: seq<Item<T>>, x: Item<T>): (k: nat)
    ensures k <= |xs| && (forall i | 0 <= i < k :: Before(xs[i], x)) && (k < |xs| ==> !Before(xs[k], x))
  {
    if xs == [] || !Before(xs[0], x) then 0 else 1 + Place(xs[1..], x)
  }

  function Insert<T>(xs: seq<Item<T>>, x: Item<T>): seq<Item<T>> {
    var k := Place(xs, x);
    xs[..k] + [x] + xs[k..]
  }

  /** Inserting the elements of `xs` one by one into the empty list. */
  function Sort<T>(xs: seq<Item<T>>): seq<Item<T>> {
    if xs == [] then [] else Insert(Sort(xs[..|xs| - 1]), xs[|xs| - 1])
  }

  function Remove<T>(xs: seq<Item<T>>, k: nat): seq<Item<T>>
    requires k < |xs|
  {
    xs[..k] + xs[k + 1..]
  }

  // ----- The order

  /** In a sorted list no name precedes one in front of it in the alphabet. */
  lemma SortedMeans(xs: seq<Item>)
    ensures Sorted(xs) <==> forall i, j | 0 <= i < j < |xs| :: !Precedes(xs[j].name, xs[i].name)
  {
    forall i, j | 0 <= i < j < |xs| ensures Before(xs[i], xs[j]) <==> !Precedes(xs[j].name, xs[i].name) {
      CompareMeans(xs[i].name, xs[j].name);
    }
  }

  lemma BeforeTransitive(x: Item, y: Item, z: Item)
    requires Before(x, y) && Before(y, z)
    ensures Before(x, z)
  {
    CompareReversed(x.name, y.name);
    CompareReversed(y.name, z.name);
    CompareTransitive(x.name, y.name, z.name);
  }

  lemma BeforeTotal(x: Item, y: Item)
    ensures Before(x, y) || Before(y, x)
  {
    CompareReversed(x.name, y.name);
  }

  /** Checking neighbours, as read_rolodex does, decides whether the whole list is sorted. */
  lemma AdjacentIsSorted(xs: seq<Item>)
    ensures AdjacentSorted(xs) <==> Sorted(xs)
  {
    if AdjacentSorted(xs) {
      forall i, j | 0 <= i < j < |xs| ensures Before(xs[i], xs[j]) {
        AdjacentChain(xs, i, j);
      }
    }
  }

  lemma {:induction false} AdjacentChain(xs: seq<Item>, i: nat, j: nat)
    requires AdjacentSorted(xs) && i < j < |xs|
    ensures Before(xs[i], xs[j])
    decreases j
  {
    if i + 1 == j {
    } else {
      AdjacentChain(xs, i, j - 1);
      assert Before(xs[j - 1], xs[j]);
      BeforeTransitive(xs[i], xs[j - 1], xs[j]);
    }
  }

  // ----- Insertion

  lemma InsertSorted<T>(xs: seq<Item<T>>, x: Item<T>)
    requires Sorted(xs)
    ensures Sorted(Insert(xs, x))
  {
    var k, ys := Place(xs, x), Insert(xs, x);
    forall i | k <= i < |xs| ensures Before(x, xs[i]) {
      BeforeTotal(x, xs[k]);
      if k < i {
        BeforeTransitive(x, xs[k], xs[i]);
      }
    }
    forall i, j | 0 <= i < j < |ys| ensures Before(ys[i], ys[j]) {
      if i != k && j != k {
        assert Before(xs[if i < k then i else i - 1], xs[if j < k then j else j - 1]);
      }
    }
  }

  lemma InsertMultiset<T>(xs: seq<Item<T>>, x: Item<T>)
    ensures multiset(Insert(xs, x)) == multiset(xs) + multiset{x}
  {
    var k := Place(xs, x);
    assert xs == xs[..k] + xs[k..];
  }

  /** The elements with the same name as `name` up to case, in list order. */
  function Select<T>(xs: seq<Item<T>>, name: Text): seq<Item<T>> {
    if xs == [] then []
    else Select(xs[..|xs| - 1], name) + if Compare(xs[|xs| - 1].name, name) == 0 then [xs[|xs| - 1]] else []
  }

  lemma {:induction false} SelectAppend<T>(xs: seq<Item<T>>, ys: seq<Item<T>>, name: Text)
    ensures Select(xs + ys, name) == Select(xs, name) + Select(ys, name)
  {
    if ys == [] {
      assert xs + ys == xs;
    } else {
      assert (xs + ys)[..|xs + ys| - 1] == xs + ys[..|ys| - 1];
      SelectAppend(xs, ys[..|ys| - 1], name);
    }
  }

  lemma {:induction false} SelectNone<T>(xs: seq<Item<T>>, name: Text)
    requires forall i | 0 <= i < |xs| :: Compare(xs[i].name, name) != 0
    ensures Select(xs, name) == []
  {
    if xs == [] {
    } else {
      SelectNone(xs[..|xs| - 1], name);
    }
  }

  /** Among equal names a new element comes last. */
  lemma InsertStable<T>(xs: seq<Item<T>>, x: Item<T>, name: Text)
    requires Sorted(xs)
    ensures Select(Insert(xs, x), name) == Select(xs, name) + Select([x], name)
  {
    var k := Place(xs, x);
    assert xs == xs[..k] + xs[k..];
    SelectAppend(xs[..k] + [x], xs[k..], name);
    SelectAppend(xs[..k], [x], name);
    SelectAppend(xs[..k], xs[k..], name);
    SelectBothEmpty(xs, x, name);
    Swap(Select(xs[..k], name), Select([x], name), Select(xs[k..], name));
  }

  lemma Swap<T>(a: seq<T>, x: seq<T>, b: seq<T>)
    requires x == [] || b == []
    ensures a + x + b == a + b + x
  {
  }

  /** Nothing from the place of `x` on has the name of `x`. */
  lemma SelectBothEmpty<T>(xs: seq<Item<T>>, x: Item<T>, name: Text)
    requires Sorted(xs)
    ensures Select([x], name) == [] || Select(xs[Place(xs, x)..], name) == []
  {
    var k := Place(xs, x);
    if Compare(x.name, name) == 0 {
      forall i | 0 <= i < |xs[k..]| ensures Compare(xs[k..][i].name, name) != 0 {
        GreaterThanEqual(xs, k, k + i, x, name);
      }
      SelectNone(xs[k..], name);
    } else {
      SelectNone([x], name);
    }
  }

  lemma GreaterThanEqual<T>(xs: seq<Item<T>>, k: nat, i: nat, x: Item<T>, name: Text)
    requires Sorted(xs) && k <= i < |xs| && !Before(xs[k], x) && Compare(x.name, name) == 0
    ensures Compare(xs[i].name, name) != 0
  {
    var y := xs[i].name;
    CompareReversed(xs[k].name, x.name);
    CompareReversed(xs[k].name, y);
    CompareReversed(y, name);
    CompareReversed(x.name, name);
    if k < i {
      assert Before(xs[k], xs[i]);
    } else {
      CompareZero(y, y);
    }
    CompareTransitive(x.name, xs[k].name, y);
    if Compare(y, name) == 0 {
      CompareTransitive(y, name, x.name);
      CompareReversed(x.name, y);
    }
  }

  /** Main result: reordering is a stable sort. */
  lemma {:induction false} SortStable<T>(xs: seq<Item<T>>, name: Text)
    ensures Sorted(Sort(xs))
    ensures multiset(Sort(xs)) == multiset(xs)
    ensures Select(Sort(xs), name) == Select(xs, name)
  {
    if xs == [] {
    } else {
      var ys, x := xs[..|xs| - 1], xs[|xs| - 1];
      SortStable(ys, name);
      InsertSorted(Sort(ys), x);
      InsertMultiset(Sort(ys), x);
      InsertStable(Sort(ys), x, name);
      assert xs == ys + [x];
      SelectAppend(ys, [x], name);
    }
  }

  lemma {:induction false} PlaceAtEnd<T>(xs: seq<Item<T>>, x: Item<T>)
    requires forall i | 0 <= i < |xs| :: Before(xs[i], x)
    ensures Place(xs, x) == |xs| && Insert(xs, x) == xs + [x]
  {
    if xs == [] {
    } else {
      PlaceAtEnd(xs[1..], x);
    }
  }

  /** A sorted list is left as it is. */
  lemma {:induction false} SortIdempotent<T>(xs: seq<Item<T>>)
    requires Sorted(xs)
    ensures Sort(xs) == xs
  {
    if xs == [] {
    } else {
      SortIdempotent(xs[..|xs| - 1]);
      PlaceAtEnd(xs[..|xs| - 1], xs[|xs| - 1]);
    }
  }

  // ----- Renaming an entry, taking it out and inserting it again

  /** `xs` after element `k` got another name. */
  function Rename<T>(xs: seq<Item<T>>, k: nat, name: Text): seq<Item<T>>
    requires k < |xs|
  {
    xs[k := Item(xs[k].id, name)]
  }

  /** A confirmed update: the renamed element is moved only when the name-changed flag is set. */
  function Confirm<T>(xs: seq<Item<T>>, k: nat, name: Text, nameChanged: bool): seq<Item<T>>
    requires k < |xs|
  {
    var ys := Rename(xs, k, name);
    if nameChanged then Insert(Remove(ys, k), ys[k]) else ys
  }

  /** A list is sorted again after an update exactly when the flag is set or the new name happens to fit in place. */
  lemma {:induction false} ConfirmSortedExact<T>(xs: seq<Item<T>>, k: nat, name: Text, nameChanged: bool)
    requires k < |xs| && Sorted(xs)
    ensures Sorted(Confirm(xs, k, name, nameChanged)) <==> nameChanged || Sorted(Rename(xs, k, name))
    ensures multiset(Confirm(xs, k, name, nameChanged)) ==
            multiset(xs) - multiset{xs[k]} + multiset{Item(xs[k].id, name)}
  {
    var ys := Rename(xs, k, name);
    var zs := Remove(ys, k);
    assert xs == xs[..k] + [xs[k]] + xs[k + 1..];
    assert ys == xs[..k] + [ys[k]] + xs[k + 1..];
    assert zs == xs[..k] + xs[k + 1..];
    if nameChanged {
      forall i, j | 0 <= i < j < |zs| ensures Before(zs[i], zs[j]) {
        assert Before(xs[if i < k then i else i + 1], xs[if j < k then j else j + 1]);
      }
      InsertSorted(zs, ys[k]);
      InsertMultiset(zs, ys[k]);
    }
  }
}
