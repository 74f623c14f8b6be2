/** hw2: from the file to the list at startup, and from the list to the file. */
module RoloStore {
  import opened Wrappers
  import opened Collation
  import opened RoloSort
  import opened RoloList
  import opened RoloFile
  import opened RoloReader

  /** The C strings of some lines. */
  function Clip(lines: seq<Text>): (r: seq<Text>)
    ensures |r| == |lines|
  {
    seq(|lines|, i requires 0 <= i < |lines| => CText(lines[i]))
  }

  function Strings(buf: Text, ptrs: seq<nat>): (r: seq<Text>)
    ensures |r| == |ptrs|
  {
    seq(|ptrs|, i requires 0 <= i < |ptrs| => if ptrs[i] <= |buf| then CText(buf[ptrs[i]..]) else [])
  }

  lemma StringsAt(buf: Text, limit: nat, ptrs: seq<nat>, lines: seq<Text>)
    requires AllPoint(buf, limit, ptrs, lines)
    ensures Strings(buf, ptrs) == Clip(lines)
  {
    forall i | 0 <= i < |ptrs| ensures Strings(buf, ptrs)[i] == Clip(lines)[i] {
      Dereference(buf, limit, ptrs[i], CText(lines[i]));
    }
  }

  /** The entries the program sees: C strings, so cut at a NUL if the file holds one. */
  function Seen(e: RoloEntry): RoloEntry {
    Entry(Clip(e.basic), Clip(e.others))
  }

  ghost predicate Shows(links: seq<Link>, es: seq<RoloEntry>)
    reads links
  {
    |links| == |es| && forall i | 0 <= i < |links| :: links[i].entry == Seen(es[i])
  }

  /**
   * Startup: reads the file into the empty list, in file order, and reorders a list that is out of order
   * unless the rolodex is only read.
   */
  method Startup(data: array<cchar>, rolo: Rolodex, readOnly: bool)
    returns (ok: bool, reordered: bool, ghost loaded: seq<Link>)
    requires rolo.Linked() && rolo.links == []
    modifies data, rolo
    ensures ok <==> ReadFile(old(data[..])).Some?
    ensures ok ==> rolo.Linked() && Shows(loaded, ReadFile(old(data[..])).value)
    ensures ok ==> Items(rolo.links) == if reordered then Sort(Items(loaded)) else Items(loaded)
    ensures ok ==> (reordered <==> !readOnly && !Sorted(Items(loaded)))
    ensures ok && !readOnly ==> Sorted(Items(rolo.links))
  {
    var entries;
    reordered, loaded := false, [];
    ok, entries := ReadRolodex(data);
    if !ok || |entries| == 0 {
      return;
    }
    LoadList(data[..], entries, ReadFile(old(data[..])).value, rolo);
    loaded := rolo.links;
    reordered := ReorderIfNeeded(rolo, readOnly);
  }

  method ReorderIfNeeded(rolo: Rolodex, readOnly: bool) returns (reordered: bool)
    requires rolo.Linked() && rolo.begin != null
    modifies rolo, rolo.links`prev, rolo.links`next
    ensures rolo.Linked() && Items(old(rolo.links)) == old(Items(rolo.links))
    ensures Items(rolo.links) == if reordered then Sort(old(Items(rolo.links))) else old(Items(rolo.links))
    ensures reordered <==> !readOnly && !Sorted(old(Items(rolo.links)))
    ensures !readOnly ==> Sorted(Items(rolo.links))
  {
    ghost var ls := rolo.links;
    reordered := rolo.OutOfOrder();
    if reordered && !readOnly {
      rolo.RoloReorder();
      ItemsSame(ls);
      SortStable(old(Items(rolo.links)), []);
    } else {
      reordered := false;
    }
  }

  /** An element for the entry whose fields are at the pointers. */
  method MakeLink(buf: Text, p: Pointers, ghost e: RoloEntry) returns (x: Link)
    requires EntryPoints(buf, |buf|, p, e)
    ensures fresh(x) && x.entry == Seen(e)
  {
    StringsAt(buf, |buf|, p.basic, e.basic);
    StringsAt(buf, |buf|, p.others, e.others);
    x := new Link(Entry(Strings(buf, p.basic), Strings(buf, p.others)));
  }

  method LoadList(buf: Text, entries: seq<Pointers>, ghost es: seq<RoloEntry>, rolo: Rolodex)
    requires rolo.Linked() && rolo.links == [] && entries != [] && EntriesPoint(buf, |buf|, entries, es)
    modifies rolo
    ensures rolo.Linked() && Shows(rolo.links, es) && fresh(rolo.links) && rolo.begin != null
  {
    var i := 0;
    while i < |entries|
      invariant 0 <= i <= |entries| && rolo.Linked() && fresh(rolo.links) && Shows(rolo.links, es[..i])
    {
      var x := MakeLink(buf, entries[i], es[i]);
      rolo.Append(x);
      i := i + 1;
    }
    assert es[..i] == es;
  }

  // ----- Writing

  ghost function Entries(links: seq<Link>): (r: seq<RoloEntry>)
    reads links
    ensures |r| == |links|
  {
    seq(|links|, i requires 0 <= i < |links| reads links => links[i].entry)
  }

  /** Lines with their newlines, as fprintf prints them one by one. */
  method WriteLines(out: Text, lines: seq<Text>, ghost tail: Text) returns (out': Text)
    ensures out' + tail == out + LinesText(lines, tail)
  {
    out' := out;
    var j := 0;
    while j < |lines|
      invariant 0 <= j <= |lines| && out' + LinesText(lines[j..], tail) == out + LinesText(lines, tail)
    {
      ghost var more := LinesText(lines[j + 1..], tail);
      assert lines[j..][0] == lines[j] && lines[j..][1..] == lines[j + 1..];
      Associate(out', lines[j], more);
      out' := out' + lines[j] + [NEWLINE];
      j := j + 1;
    }
    assert lines[j..] == [];
  }

  lemma Associate(a: Text, line: Text, more: Text)
    ensures a + (line + ([NEWLINE] + more)) == a + line + [NEWLINE] + more
  {
  }

  lemma FileTextAt(es: seq<RoloEntry>, n: nat)
    requires n < |es|
    ensures FileText(es[n..]) == LinesText(es[n].basic, LinesText(es[n].others, [NEWLINE] + FileText(es[n + 1..])))
  {
    assert es[n..][0] == es[n] && es[n..][1..] == es[n + 1..];
  }

  /** `write_rolo_list` */
  method WriteRoloList(rolo: Rolodex) returns (out: Text)
    requires rolo.Linked()
    ensures out == FileText(Entries(rolo.links))
  {
    ghost var es, n := Entries(rolo.links), 0;
    out := [];
    var rptr := rolo.begin;
    while rptr != null
      invariant 0 <= n <= |es| && rptr == if n < |es| then rolo.links[n] else null
      invariant out + FileText(es[n..]) == FileText(es)
      decreases |es| - n
    {
      ghost var rest := FileText(es[n + 1..]);
      FileTextAt(es, n);
      var e := rptr.entry;
      out := WriteLines(out, e.basic, LinesText(e.others, [NEWLINE] + rest));
      out := WriteLines(out, e.others, [NEWLINE] + rest);
      assert out + ([NEWLINE] + rest) == out + [NEWLINE] + rest;
      out := out + [NEWLINE];
      assert LinkedAt(rolo.links, n);
      rptr := rptr.next;
      n := n + 1;
    }
    assert out + [] == out;
  }

  // ----- Load and save

  predicate NoNuls(lines: seq<Text>) {
    forall i | 0 <= i < |lines| :: NUL !in lines[i]
  }

  lemma {:induction false} LinesNoNuls(lines: seq<Text>, tail: Text)
    requires NUL !in LinesText(lines, tail)
    ensures NoNuls(lines) && NUL !in tail
  {
    if lines == [] {
    } else {
      var more := LinesText(lines[1..], tail);
      var s := lines[0] + ([NEWLINE] + more);
      assert forall i | 0 <= i < |lines[0]| :: lines[0][i] == s[i];
      assert forall i | 0 <= i < |more| :: more[i] == s[|lines[0]| + 1 + i];
      LinesNoNuls(lines[1..], tail);
      assert forall i | 0 < i < |lines| :: lines[i] == lines[1..][i - 1];
    }
  }

  lemma ClipNothing(lines: seq<Text>)
    requires NoNuls(lines)
    ensures Clip(lines) == lines
  {
    forall i | 0 <= i < |lines| ensures CText(lines[i]) == lines[i] {
      assert NUL !in lines[i];
    }
  }

  /** The program sees the entries of a file without NULs as they are. */
  lemma {:induction false} FileNoNuls(es: seq<RoloEntry>)
    requires NUL !in FileText(es)
    ensures forall i | 0 <= i < |es| :: Seen(es[i]) == es[i]
  {
    if es == [] {
    } else {
      var e, tail := es[0], FileText(es[1..]);
      LinesNoNuls(e.basic, LinesText(e.others, [NEWLINE] + tail));
      LinesNoNuls(e.others, [NEWLINE] + tail);
      assert forall i | 0 <= i < |tail| :: tail[i] == ([NEWLINE] + tail)[i + 1];
      ClipNothing(e.basic);
      ClipNothing(e.others);
      FileNoNuls(es[1..]);
      assert forall i | 0 < i < |es| :: es[i] == es[1..][i - 1];
    }
  }

  lemma SameLinks(links: seq<Link>, loaded: seq<Link>)
    requires Items(links) == Items(loaded)
    ensures links == loaded
  {
    forall i | 0 <= i < |links| ensures links[i] == loaded[i] {
      assert Items(links)[i].id == Items(loaded)[i].id;
    }
  }

  lemma NoNulsFirst(lines: seq<Text>)
    requires lines != []
    ensures NoNuls(lines) <==> NUL !in lines[0] && NoNuls(lines[1..])
  {
    assert forall i | 0 < i < |lines| :: lines[i] == lines[1..][i - 1];
  }

  lemma CutShorter(t: Text)
    ensures |CText(t)| <= |t| && (|CText(t)| == |t| <==> NUL !in t)
  {
    assert |CText(t)| == |t| ==> t == t[..|t|] == CText(t);
  }

  lemma {:induction false} ClipShorter(lines: seq<Text>, tail: Text, tail': Text)
    requires |tail'| <= |tail|
    ensures |LinesText(Clip(lines), tail')| <= |LinesText(lines, tail)|
    ensures !NoNuls(lines) || |tail'| < |tail| ==> |LinesText(Clip(lines), tail')| < |LinesText(lines, tail)|
    decreases |lines|
  {
    if lines == [] {
    } else {
      ClipShorter(lines[1..], tail, tail');
      assert Clip(lines)[1..] == Clip(lines[1..]);
      NoNulsFirst(lines);
      CutShorter(lines[0]);
    }
  }

  ghost predicate WithoutNuls(es: seq<RoloEntry>) {
    forall i | 0 <= i < |es| :: NoNuls(es[i].basic) && NoNuls(es[i].others)
  }

  function AllSeen(es: seq<RoloEntry>): (r: seq<RoloEntry>)
    ensures |r| == |es|
  {
    seq(|es|, i requires 0 <= i < |es| => Seen(es[i]))
  }

  /** Writing what the program sees of a file that holds a NUL gives a shorter file. */
  lemma {:induction false} SeenShorter(es: seq<RoloEntry>)
    ensures |FileText(AllSeen(es))| <= |FileText(es)|
    ensures !WithoutNuls(es) ==> |FileText(AllSeen(es))| < |FileText(es)|
  {
    if es == [] {
    } else {
      var e, more := es[0], es[1..];
      var tail, tail' := [NEWLINE] + FileText(more), [NEWLINE] + FileText(AllSeen(more));
      SeenShorter(more);
      assert AllSeen(es)[1..] == AllSeen(more) && AllSeen(es)[0] == Seen(e);
      assert forall i | 0 < i < |es| :: es[i] == more[i - 1];
      ClipShorter(e.others, tail, tail');
      ClipShorter(e.basic, LinesText(e.others, tail), LinesText(Clip(e.others), tail'));
    }
  }

  lemma {:induction false} LinesHaveNoNul(lines: seq<Text>, tail: Text)
    requires NoNuls(lines) && NUL !in tail
    ensures NUL !in LinesText(lines, tail)
  {
    if lines == [] {
    } else {
      assert forall i | 0 < i < |lines| :: lines[i] == lines[1..][i - 1];
      assert NUL !in lines[0];
      LinesHaveNoNul(lines[1..], tail);
    }
  }

  lemma {:induction false} FileHasNoNul(es: seq<RoloEntry>)
    requires WithoutNuls(es)
    ensures NUL !in FileText(es)
  {
    if es == [] {
    } else {
      assert forall i | 0 < i < |es| :: es[i] == es[1..][i - 1];
      FileHasNoNul(es[1..]);
      LinesHaveNoNul(es[0].others, [NEWLINE] + FileText(es[1..]));
      LinesHaveNoNul(es[0].basic, LinesText(es[0].others, [NEWLINE] + FileText(es[1..])));
    }
  }

  /** What the program sees of a file gives the file back exactly when it holds no NUL. */
  lemma SeenExact(es: seq<RoloEntry>)
    ensures FileText(AllSeen(es)) == FileText(es) <==> NUL !in FileText(es)
  {
    SeenShorter(es);
    if NUL !in FileText(es) {
      FileNoNuls(es);
      assert AllSeen(es) == es;
    } else if WithoutNuls(es) {
      FileHasNoNul(es);
    }
  }

  /**
   * Starting up on a well-formed file and saving a list that was in order reproduces the file exactly when it holds
   * no NUL; otherwise the fields are cut.
   */
  method LoadThenSave(data: array<cchar>, rolo: Rolodex, readOnly: bool) returns (ok: bool, reordered: bool, out: Text)
    requires rolo.Linked() && rolo.links == []
    modifies data, rolo
    ensures ok <==> ReadFile(old(data[..])).Some?
    ensures ok && !reordered ==> (out == old(data[..]) <==> NUL !in old(data[..]))
  {
    ghost var loaded;
    out := [];
    ok, reordered, loaded := Startup(data, rolo, readOnly);
    if ok {
      ghost var es := ReadFile(old(data[..])).value;
      FileWritten(old(data[..]));
      SeenExact(es);
      out := WriteRoloList(rolo);
      if !reordered {
        SameLinks(rolo.links, loaded);
        assert Entries(loaded) == AllSeen(es);
      }
    }
  }

  /**
   * Saving a list of storable entries without NULs and starting up on the file gives an equal list exactly if the list
   * is in order or only read.
   */
  method SaveThenLoad(rolo: Rolodex, readOnly: bool) returns (ok: bool, copy: Rolodex)
    requires rolo.Linked() && AllStorable(Entries(rolo.links))
    requires forall i | 0 <= i < |rolo.links| :: Seen(Entries(rolo.links)[i]) == Entries(rolo.links)[i]
    ensures ok && copy.Linked()
    ensures Entries(copy.links) == Entries(rolo.links) <==> readOnly || Sorted(Items(rolo.links))
  {
    ghost var es := Entries(rolo.links);
    var out := WriteRoloList(rolo);
    ReadBack(es);
    var reordered;
    ghost var loaded;
    ok, reordered, copy, loaded := StartupOn(out, es, readOnly);
    if readOnly || Sorted(Items(rolo.links)) {
      SameNames(rolo.links, loaded);
      SameLinks(copy.links, loaded);
    } else {
      SortedApart(rolo.links, copy.links);
    }
  }

  method StartupOn(text: Text, ghost es: seq<RoloEntry>, readOnly: bool)
    returns (ok: bool, reordered: bool, copy: Rolodex, ghost loaded: seq<Link>)
    requires ReadFile(text) == Some(es) && forall i | 0 <= i < |es| :: Seen(es[i]) == es[i]
    ensures ok && copy.Linked() && Entries(loaded) == es
    ensures readOnly || Sorted(Items(loaded)) ==> Items(copy.links) == Items(loaded)
    ensures !readOnly ==> Sorted(Items(copy.links))
  {
    var data := new cchar[|text|](i requires 0 <= i < |text| => text[i]);
    assert data[..] == text;
    copy := new Rolodex();
    ok, reordered, loaded := Startup(data, copy, readOnly);
    assert Entries(loaded) == es;
  }

  lemma SortedApart(a: seq<Link>, b: seq<Link>)
    requires !Sorted(Items(a)) && Sorted(Items(b))
    ensures Entries(a) != Entries(b)
  {
    if Entries(a) == Entries(b) {
      SameNames(a, b);
    }
  }

  /** Equal entries are in order in both lists or in neither. */
  lemma SameNames(a: seq<Link>, b: seq<Link>)
    requires Entries(a) == Entries(b)
    ensures Sorted(Items(a)) <==> Sorted(Items(b))
  {
    forall i | 0 <= i < |a| ensures Items(a)[i].name == Items(b)[i].name {
      assert Entries(a)[i] == Entries(b)[i];
    }
    if Sorted(Items(a)) {
      forall i, j | 0 <= i < j < |b| ensures Before(Items(b)[i], Items(b)[j]) {
        assert Before(Items(a)[i], Items(a)[j]);
      }
    }
    if Sorted(Items(b)) {
      forall i, j | 0 <= i < j < |a| ensures Before(Items(a)[i], Items(a)[j]) {
        assert Before(Items(b)[i], Items(b)[j]);
      }
    }
  }
}
