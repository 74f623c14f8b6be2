/** hw2: an update session, which edits a copy of an entry and, when confirmed, puts it into the list. */
module RoloUpdate {
  import opened Collation
  import opened RoloSort
  import opened RoloList
  import opened Wrappers

  /**
   * One round of the update menu: a basic field is chosen and gets a value, unless none is given in the end; or the
   * user-defined fields are changed, unless no value is given.
   */
  datatype Edit = Basic(field: nat, value: Option<Text>) | UserDefined(others: Option<seq<Text>>)

  const NAME_FIELD := 0

  /** The menu does not offer the last basic field, the time stamp. */
  predicate Offered(e: Edit) {
    e.Basic? ==> e.field < N_BASIC_FIELDS - 1
  }

  /** The edit gives basic field `f` a value. */
  predicate Gives(e: Edit, f: nat) {
    e.Basic? && e.field == f && e.value.Some?
  }

  predicate Renamed(edits: seq<Edit>) {
    exists i :: 0 <= i < |edits| && Gives(edits[i], NAME_FIELD)
  }

  predicate ChangesSomething(e: Edit) {
    if e.Basic? then e.value.Some? else e.others.Some?
  }

  /** Of the basic fields chosen, the name was chosen last. */
  predicate NameChosenLast(edits: seq<Edit>) {
    exists j :: 0 <= j < |edits| && edits[j].Basic? && edits[j].field == NAME_FIELD &&
      forall k | j < k < |edits| :: !edits[k].Basic?
  }

  // ----- What a session makes of the entry and of the name-changed flag

  /** Basic field `f`, which held `text`, after the edits. */
  function EditedField(f: nat, text: Text, edits: seq<Edit>): Text {
    if edits == [] then text
    else if Gives(edits[|edits| - 1], f) then edits[|edits| - 1].value.value
    else EditedField(f, text, edits[..|edits| - 1])
  }

  /** A field keeps its text if no edit gives it another, and otherwise has the text of the last edit that does. */
  lemma {:induction false} EditedFieldIs(f: nat, text: Text, edits: seq<Edit>)
    ensures (forall i | 0 <= i < |edits| :: !Gives(edits[i], f)) ==> EditedField(f, text, edits) == text
    ensures forall i | 0 <= i < |edits| && Gives(edits[i], f) && (forall k | i < k < |edits| :: !Gives(edits[k], f)) ::
              EditedField(f, text, edits) == edits[i].value.value
  {
    if edits == [] || Gives(edits[|edits| - 1], f) {
    } else {
      EditedFieldIs(f, text, edits[..|edits| - 1]);
    }
  }

  /** Every choice of a basic field overwrites the flag. */
  function NameChangedFlag(edits: seq<Edit>): bool {
    if edits == [] then false
    else if edits[|edits| - 1].Basic? then edits[|edits| - 1].field == NAME_FIELD
    else NameChangedFlag(edits[..|edits| - 1])
  }

  lemma {:induction false} FlagMeans(edits: seq<Edit>)
    ensures NameChangedFlag(edits) <==> NameChosenLast(edits)
  {
    if edits == [] {
    } else {
      var last, most := |edits| - 1, edits[..|edits| - 1];
      FlagMeans(most);
      if edits[last].Basic? {
        assert edits[last].field == NAME_FIELD ==> NameChosenLast(edits);
      } else {
        if NameChosenLast(most) {
          var j :| 0 <= j < |most| && most[j].Basic? && most[j].field == NAME_FIELD &&
                   forall k | j < k < |most| :: !most[k].Basic?;
          assert edits[j] == most[j] && forall k | j < k < last :: edits[k] == most[k];
        }
        if NameChosenLast(edits) {
          var j :| 0 <= j < |edits| && edits[j].Basic? && edits[j].field == NAME_FIELD &&
                   forall k | j < k < |edits| :: !edits[k].Basic?;
          assert most[j] == edits[j] && forall k | j < k < last :: most[k] == edits[k];
        }
      }
    }
  }

  // ----- The session

  /** The rounds of the menu: `copy` is the new entry with a new time stamp. */
  method EditEntry(entry: RoloEntry, time: Text, edits: seq<Edit>)
    returns (copy: RoloEntry, updated: bool, nameChanged: bool)
    requires forall i | 0 <= i < |edits| :: Offered(edits[i])
    ensures forall f | 0 <= f < N_BASIC_FIELDS - 1 :: copy.basic[f] == EditedField(f, entry.basic[f], edits)
    ensures copy.basic[N_BASIC_FIELDS - 1] == time
    ensures updated <==> exists i :: 0 <= i < |edits| && ChangesSomething(edits[i])
    ensures nameChanged <==> NameChosenLast(edits)
  {
    copy, updated, nameChanged := entry.(basic := entry.basic[N_BASIC_FIELDS - 1 := time]), false, false;
    for i := 0 to |edits|
      invariant forall f | 0 <= f < N_BASIC_FIELDS - 1 :: copy.basic[f] == EditedField(f, entry.basic[f], edits[..i])
      invariant copy.basic[N_BASIC_FIELDS - 1] == time && nameChanged == NameChangedFlag(edits[..i])
      invariant updated <==> exists j :: 0 <= j < i && ChangesSomething(edits[j])
    {
      assert edits[..i + 1][..i] == edits[..i] && Offered(edits[i]);
      match edits[i]
      case Basic(field, value) =>
        nameChanged := field == NAME_FIELD;
        if value.Some? {
          copy := copy.(basic := copy.basic[field := value.value]);
          updated := true;
        }
      case UserDefined(others) =>
        if others.Some? {
          copy := copy.(others := others.value);
          updated := true;
        }
    }
    assert edits[..|edits|] == edits;
    FlagMeans(edits);
  }

  /** The list after a confirmed session on its element `k`. */
  function Updated<T>(xs: seq<Item<T>>, k: nat, edits: seq<Edit>): seq<Item<T>>
    requires k < |xs|
  {
    Confirm(xs, k, EditedField(NAME_FIELD, xs[k].name, edits), NameChangedFlag(edits))
  }

  /** One session of `rolo_update_mode`; with nothing changed or without a confirmation it leaves the list alone. */
  method RoloUpdateMode(rolo: Rolodex, x: Link, ghost k: nat, time: Text, edits: seq<Edit>, confirmed: bool)
    returns (changed: bool)
    requires rolo.Linked() && k < |rolo.links| && rolo.links[k] == x
    requires forall i | 0 <= i < |edits| :: Offered(edits[i])
    modifies rolo, rolo.links`prev, rolo.links`next, x`entry
    ensures rolo.Linked() && (changed <==> confirmed && exists i :: 0 <= i < |edits| && ChangesSomething(edits[i]))
    ensures changed ==> Items(rolo.links) == Updated(old(Items(rolo.links)), k, edits)
    ensures changed ==> forall f | 0 <= f < N_BASIC_FIELDS - 1 ::
              x.entry.basic[f] == EditedField(f, old(x.entry).basic[f], edits)
    ensures !changed ==> x.entry == old(x.entry) && rolo.links == old(rolo.links)
  {
    var copy, updated, nameChanged := EditEntry(x.entry, time, edits);
    FlagMeans(edits);
    changed := updated && confirmed;
    if changed {
      assert Items(rolo.links)[k] == Item(x, x.entry.basic[0]);
      rolo.ConfirmUpdate(x, k, copy, nameChanged);
    }
  }

  // ----- Exactly which sessions keep the list sorted

  lemma NameAfterEdits(name: Text, other: Text, edits: seq<Edit>)
    ensures !Renamed(edits) ==> EditedField(NAME_FIELD, name, edits) == name
    ensures Renamed(edits) ==> EditedField(NAME_FIELD, name, edits) == EditedField(NAME_FIELD, other, edits)
  {
    EditedFieldIs(NAME_FIELD, name, edits);
    EditedFieldIs(NAME_FIELD, other, edits);
    if Renamed(edits) {
      var i := LastRename(edits);
    }
  }

  lemma {:induction false} LastRename(edits: seq<Edit>) returns (i: nat)
    requires Renamed(edits)
    ensures i < |edits| && Gives(edits[i], NAME_FIELD) && forall k | i < k < |edits| :: !Gives(edits[k], NAME_FIELD)
  {
    i := |edits| - 1;
    if Gives(edits[i], NAME_FIELD) {
    } else {
      i := LastRename(edits[..i]);
    }
  }

  lemma UpdateSorted<T>(xs: seq<Item<T>>, k: nat, edits: seq<Edit>)
    requires k < |xs| && Sorted(xs) && (Renamed(edits) ==> NameChosenLast(edits))
    ensures Sorted(Updated(xs, k, edits))
  {
    var name := EditedField(NAME_FIELD, xs[k].name, edits);
    FlagMeans(edits);
    ConfirmSortedExact(xs, k, name, NameChangedFlag(edits));
    NameAfterEdits(xs[k].name, [], edits);
    if !Renamed(edits) {
      assert Rename(xs, k, name) == xs;
    }
  }

  ghost predicate KeepsEveryListSorted(edits: seq<Edit>) {
    forall xs: seq<Item<int>>, k: nat | k < |xs| && Sorted(xs) :: Sorted(Updated(xs, k, edits))
  }

  /** Two entries of one name; the second is renamed to something smaller and stays where it is. */
  lemma ForgottenRename(edits: seq<Edit>)
    requires Renamed(edits) && !NameChosenLast(edits)
    ensures !KeepsEveryListSorted(edits)
  {
    var name := EditedField(NAME_FIELD, [], edits);
    var longer := name + [65];
    var xs := [Item(0, longer), Item(1, longer)];
    FlagMeans(edits);
    NameAfterEdits(longer, [], edits);
    CompareReversed(longer, longer);
    PrefixSmaller(name, 65);
    CompareReversed(name, longer);
    assert Sorted(xs);
    assert Updated(xs, 1, edits) == [Item(0, longer), Item(1, name)];
    assert !Before(Updated(xs, 1, edits)[0], Updated(xs, 1, edits)[1]);
  }

  lemma {:induction false} PrefixSmaller(s: Text, c: cchar)
    ensures Compare(s, s + [c]) == -1
  {
    if s == [] {
    } else {
      PrefixSmaller(s[1..], c);
      assert (s + [c])[1..] == s[1..] + [c];
    }
  }

  /**
   * Update sessions keep every sorted list sorted exactly when, should the name have been given, no other basic field
   * was chosen after it was last chosen.
   */
  lemma UpdateSortedExact(edits: seq<Edit>)
    ensures KeepsEveryListSorted(edits) <==> (Renamed(edits) ==> NameChosenLast(edits))
  {
    if Renamed(edits) && !NameChosenLast(edits) {
      ForgottenRename(edits);
    } else {
      forall xs: seq<Item<int>>, k: nat | k < |xs| && Sorted(xs) ensures Sorted(Updated(xs, k, edits)) {
        UpdateSorted(xs, k, edits);
      }
    }
  }
}
