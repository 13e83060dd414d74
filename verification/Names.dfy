/** The names of the packages here: `qpkg`'s reading of the directory its lists are in,
    an insertion sort into a table of fixed size. */
module Names {
  import opened Bytes

  const MAX_PACKAGES := 64
  const MAX_NAME := 48

  datatype DirEntry = DirEntry(name: Bytes, isDir: bool)

  /** Byte strings compare as slices do: by the first difference, then by length. */
  predicate Greater(a: Bytes, b: Bytes)
    decreases |a|
  {
    a != [] && (b == [] || a[0] > b[0] || (a[0] == b[0] && Greater(a[1..], b[1..])))
  }

  predicate Accepted(e: DirEntry) {
    !(e.name != [] && e.name[0] == DOT) && |e.name| <= MAX_NAME && !e.isDir
  }

  /** Where `name` goes in a sorted list, searched for from the end. */
  function Place(s: seq<Bytes>, name: Bytes): (at: nat)
    ensures at <= |s|
  {
    if s == [] || !Greater(s[|s| - 1], name) then |s| else Place(s[..|s| - 1], name)
  }

  lemma PlaceBefore(s: seq<Bytes>, name: Bytes, at: nat)
    requires 0 < at <= |s| && Greater(s[at - 1], name)
    ensures Place(s[..at], name) == Place(s[..at - 1], name)
  {
    assert s[..at][..at - 1] == s[..at - 1];
  }

  lemma PlaceHere(s: seq<Bytes>, name: Bytes, at: nat)
    requires at <= |s| && (at > 0 ==> !Greater(s[at - 1], name))
    ensures Place(s[..at], name) == at
  {
  }

  function Inserted(s: seq<Bytes>, name: Bytes): (r: seq<Bytes>) {
    s[..Place(s, name)] + [name] + s[Place(s, name)..]
  }

  /** The table after reading some entries: what is accepted, as long as there is room. */
  function TableOf(s: seq<Bytes>, entries: seq<DirEntry>): seq<Bytes>
    decreases |entries|
  {
    if entries == [] then s
    else if Accepted(entries[0]) && |s| < MAX_PACKAGES then TableOf(Inserted(s, entries[0].name), entries[1..])
    else TableOf(s, entries[1..])
  }

  function Flat(pages: seq<seq<DirEntry>>): seq<DirEntry> {
    if pages == [] then [] else pages[0] + Flat(pages[1..])
  }

  lemma OneEntry(s: seq<Bytes>, page: seq<DirEntry>, i: nat, later: seq<DirEntry>)
    requires i < |page|
    ensures TableOf(s, page[i..] + later) ==
            if Accepted(page[i]) && |s| < MAX_PACKAGES then TableOf(Inserted(s, page[i].name), page[i + 1..] + later)
            else TableOf(s, page[i + 1..] + later)
  {
    var rest := page[i..] + later;
    assert rest[0] == page[i] && rest[1..] == page[i + 1..] + later;
  }

  /** A list with what is at and after a place moved one place up, and `hole` left there. */
  function Shifted(s: seq<Bytes>, at: nat, hole: Bytes): seq<Bytes>
    requires at <= |s|
  {
    s[..at] + [hole] + s[at..]
  }

  lemma NothingShifted(s: seq<Bytes>, hole: Bytes)
    ensures s + [hole] == Shifted(s, |s|, hole) && s[..|s|] == s
  {
  }

  /** One step of making room: the name before the hole moves into it. */
  lemma ShiftOne(s: seq<Bytes>, at: nat, hole: Bytes, name: Bytes)
    requires 0 < at <= |s|
    ensures var held := Shifted(s, at, hole);
            && held[at - 1] == s[at - 1]
            && held[at := held[at - 1]] == Shifted(s, at - 1, s[at - 1])
    ensures Greater(s[at - 1], name) ==> Place(s[..at], name) == Place(s[..at - 1], name)
  {
    hide Greater, Place;
    if Greater(s[at - 1], name) {
      PlaceBefore(s, name, at);
    }
  }

  lemma FillIn(s: seq<Bytes>, at: nat, hole: Bytes, name: Bytes)
    requires at <= |s| && Place(s[..at], name) == Place(s, name)
    requires at > 0 ==> !Greater(Shifted(s, at, hole)[at - 1], name)
    ensures Shifted(s, at, hole)[at := name] == Inserted(s, name)
  {
    PlaceHere(s, name, at);
  }

  class Table {
    var names: array<Bytes>
    var count: nat

    ghost predicate Valid() reads this { names.Length == MAX_PACKAGES && count <= MAX_PACKAGES }

    ghost function Contents(): seq<Bytes>
      reads this, names
      requires Valid()
    {
      names[..count]
    }

    /** `pages` is what the server answers, page by page, up to the last or to the first
        it fails to give. */
    constructor Read(pages: seq<seq<DirEntry>>)
      ensures Valid() && Contents() == TableOf([], Flat(pages))
    {
      names := new Bytes[MAX_PACKAGES];
      count := 0;
      new;
      for p := 0 to |pages|
        invariant fresh(names) && Valid()
        invariant TableOf(Contents(), Flat(pages[p..])) == TableOf([], Flat(pages))
      {
        var page := pages[p];
        ghost var later := Flat(pages[p + 1..]);
        assert pages[p..][1..] == pages[p + 1..];
        for i := 0 to |page|
          invariant fresh(names) && Valid()
          invariant TableOf(Contents(), page[i..] + later) == TableOf([], Flat(pages))
        {
          hide Inserted, TableOf;
          OneEntry(Contents(), page, i, later);
          var e := page[i];
          if (e.name != [] && e.name[0] == DOT) || |e.name| > MAX_NAME || count == MAX_PACKAGES || e.isDir {
            continue;
          }
          Insert(e.name);
        }
        assert page[|page|..] + later == later;
      }
    }

    method Insert(name: Bytes)
      requires Valid() && count < MAX_PACKAGES
      modifies this`count, names
      ensures Valid() && names == old(names)
      ensures Contents() == Inserted(old(Contents()), name)
    {
      hide Place, Greater;
      ghost var was := Contents();
      var at := count;
      assert names[..count + 1] == was + [names[count]];
      NothingShifted(was, names[count]);
      while at > 0 && Greater(names[at - 1], name)
        invariant 0 <= at <= count < names.Length
        invariant names[..count + 1] == Shifted(was, at, names[at])
        invariant Place(was[..at], name) == Place(was, name)
      {
        ghost var held := names[..count + 1];
        assert held[at - 1] == names[at - 1] && held[at] == names[at];
        ShiftOne(was, at, held[at], name);
        names[at] := names[at - 1];
        assert names[..count + 1] == held[at := held[at - 1]];
        at := at - 1;
      }
      ghost var held := names[..count + 1];
      assert at > 0 ==> held[at - 1] == names[at - 1];
      FillIn(was, at, held[at], name);
      names[at] := name;
      count := count + 1;
      assert Contents() == held[at := name];
    }
  }

  // ---- The table is in order, and is what was there ----

  /** The bytes are the same up to a place, and the first has the greater there. */
  ghost predicate Later(a: Bytes, b: Bytes) {
    exists k :: 0 <= k < |a| && k < |b| && a[..k] == b[..k] && a[k] > b[k]
  }

  /** Bytes are greater than others exactly when those are a beginning of them, and not all of
      them, or have the lesser byte where the two first differ. */
  lemma {:induction false} GreaterExactly(a: Bytes, b: Bytes)
    ensures Greater(a, b) <==> (b <= a && b != a) || Later(a, b)
    decreases |a|
  {
    hide Later;
    if a != [] && b != [] {
      assert a == [a[0]] + a[1..] && b == [b[0]] + b[1..];
      if a[0] == b[0] {
        GreaterExactly(a[1..], b[1..]);
        LaterFirst(a, b);
        PartFirst(a, b);
      } else {
        LaterApart(a, b);
      }
    } else {
      LaterOfNone(a, b);
    }
  }

  lemma LaterOfNone(a: Bytes, b: Bytes)
    requires a == [] || b == []
    ensures !Later(a, b)
  {
  }

  lemma LaterFirst(a: Bytes, b: Bytes)
    requires a != [] && b != [] && a[0] == b[0]
    ensures Later(a, b) <==> Later(a[1..], b[1..])
  {
    if k :| 0 <= k < |a| && k < |b| && a[..k] == b[..k] && a[k] > b[k] {
      assert a[1..][..k - 1] == a[..k][1..] && b[1..][..k - 1] == b[..k][1..];
      assert a[1..][k - 1] > b[1..][k - 1];
    }
    if k :| 0 <= k < |a| - 1 && k < |b| - 1 && a[1..][..k] == b[1..][..k] && a[1..][k] > b[1..][k] {
      assert a[..k + 1] == [a[0]] + a[1..][..k] && b[..k + 1] == [b[0]] + b[1..][..k];
      assert a[k + 1] > b[k + 1];
    }
  }

  lemma PartFirst(a: Bytes, b: Bytes)
    requires a != [] && b != [] && a[0] == b[0]
    ensures b <= a && b != a <==> b[1..] <= a[1..] && b[1..] != a[1..]
  {
    assert a == [a[0]] + a[1..] && b == [b[0]] + b[1..];
    assert b <= a ==> b[1..] == a[1..][..|b| - 1];
  }

  lemma LaterApart(a: Bytes, b: Bytes)
    requires a != [] && b != [] && a[0] != b[0]
    ensures Later(a, b) <==> a[0] > b[0]
    ensures !(b <= a)
  {
    assert a[..0] == b[..0];
    assert forall k :: 0 < k < |a| && k < |b| && a[..k] == b[..k] ==> a[..k][0] == b[..k][0];
  }

  /** A name in the table is one of the directory's: a file's, of no more than forty-eight bytes,
      that does not begin with a dot. And any such name is there, if there are no more than
      sixty-four. */
  lemma {:induction false} InTableExactly(entries: seq<DirEntry>, name: Bytes)
    ensures name in TableOf([], entries) ==> exists e :: e in entries && e.name == name && IsName(e)
    ensures |entries| <= 64 ==> forall e :: e in entries && IsName(e) ==> e.name in TableOf([], entries)
  {
    hide Accepted;
    TableIsComplete([], entries);
    var table, accepted := TableOf([], entries), AcceptedNames(entries);
    assert multiset(table) == multiset(FirstFew(accepted, 64));
    if name in table {
      assert name in multiset(table);
      assert name in FirstFew(accepted, 64);
      assert name in accepted;
      AcceptedAre(entries, name);
    }
    if |entries| <= 64 {
      forall e | e in entries && IsName(e) ensures e.name in table {
        AcceptedAre(entries, e.name);
        assert e.name in multiset(table);
      }
    }
  }

  predicate IsName(e: DirEntry) {
    !e.isDir && |e.name| <= 48 && (e.name != [] ==> e.name[0] != 46)
  }

  lemma {:induction false} AcceptedAre(entries: seq<DirEntry>, name: Bytes)
    ensures name in AcceptedNames(entries) <==> exists e :: e in entries && e.name == name && IsName(e)
    ensures |AcceptedNames(entries)| <= |entries|
    decreases |entries|
  {
    if entries != [] {
      AcceptedAre(entries[1..], name);
      assert entries[0] in entries;
      assert forall e :: e in entries <==> e == entries[0] || e in entries[1..];
    }
  }

  lemma {:induction false} GreaterTransitive(a: Bytes, b: Bytes, c: Bytes)
    requires !Greater(a, b) && !Greater(b, c)
    ensures !Greater(a, c)
    decreases |a|
  {
    if a != [] && c != [] && a[0] == c[0] {
      GreaterTransitive(a[1..], b[1..], c[1..]);
    }
  }

  lemma {:induction false} GreaterOneWay(a: Bytes, b: Bytes)
    requires Greater(a, b)
    ensures !Greater(b, a)
    decreases |a|
  {
    if b != [] && a[0] == b[0] {
      GreaterOneWay(a[1..], b[1..]);
    }
  }

  ghost predicate Sorted(s: seq<Bytes>) {
    forall i, j :: 0 <= i < j < |s| ==> !Greater(s[i], s[j])
  }

  lemma {:induction false} PlaceSplits(s: seq<Bytes>, name: Bytes)
    requires Sorted(s)
    ensures forall i :: 0 <= i < Place(s, name) ==> !Greater(s[i], name)
    ensures forall i :: Place(s, name) <= i < |s| ==> !Greater(name, s[i])
  {
    var n := |s|;
    if s == [] {
    } else if !Greater(s[n - 1], name) {
      forall i | 0 <= i < n - 1 ensures !Greater(s[i], name) {
        GreaterTransitive(s[i], s[n - 1], name);
      }
    } else {
      GreaterOneWay(s[n - 1], name);
      PlaceSplits(s[..n - 1], name);
    }
  }

  lemma InsertedSorted(s: seq<Bytes>, name: Bytes)
    requires Sorted(s)
    ensures Sorted(Inserted(s, name))
  {
    PlaceSplits(s, name);
  }

  lemma InsertedContents(s: seq<Bytes>, name: Bytes)
    ensures multiset(Inserted(s, name)) == multiset(s) + multiset{name}
    ensures |Inserted(s, name)| == |s| + 1
  {
    var at := Place(s, name);
    assert s == s[..at] + s[at..];
  }

  function AcceptedNames(entries: seq<DirEntry>): seq<Bytes> {
    if entries == [] then []
    else (if Accepted(entries[0]) then [entries[0].name] else []) + AcceptedNames(entries[1..])
  }

  function FirstFew(s: seq<Bytes>, room: nat): seq<Bytes> {
    if |s| <= room then s else s[..room]
  }

  lemma {:induction false} TableIsSorted(s: seq<Bytes>, entries: seq<DirEntry>)
    requires Sorted(s)
    ensures Sorted(TableOf(s, entries))
    decreases |entries|
  {
    hide Sorted, Inserted;
    if entries != [] {
      InsertedSorted(s, entries[0].name);
      TableIsSorted(Inserted(s, entries[0].name), entries[1..]);
      TableIsSorted(s, entries[1..]);
    }
  }

  /** The table holds exactly the accepted names, each as often as it was there - the
      first sixty-four of them when there are more. */
  lemma {:induction false} TableIsComplete(s: seq<Bytes>, entries: seq<DirEntry>)
    requires |s| <= MAX_PACKAGES
    ensures |TableOf(s, entries)| <= MAX_PACKAGES
    ensures multiset(TableOf(s, entries)) ==
            multiset(s) + multiset(FirstFew(AcceptedNames(entries), MAX_PACKAGES - |s|))
    decreases |entries|
  {
    hide Inserted, Accepted, FirstFew;
    if entries == [] {
      FirstFewOfNone(MAX_PACKAGES - |s|);
    } else {
      var e, rest := entries[0], AcceptedNames(entries[1..]);
      var room := MAX_PACKAGES - |s|;
      if !Accepted(e) {
        TableIsComplete(s, entries[1..]);
        assert AcceptedNames(entries) == rest;
      } else if room == 0 {
        TableIsComplete(s, entries[1..]);
        FirstFewOfNoRoom(AcceptedNames(entries));
        FirstFewOfNoRoom(rest);
      } else {
        InsertedContents(s, e.name);
        TableIsComplete(Inserted(s, e.name), entries[1..]);
        FirstFewFirst(e.name, rest, room);
      }
    }
  }

  lemma FirstFewOfNone(room: nat)
    ensures FirstFew([], room) == []
  {
  }

  lemma FirstFewOfNoRoom(s: seq<Bytes>)
    ensures FirstFew(s, 0) == []
  {
  }

  lemma FirstFewFirst(name: Bytes, rest: seq<Bytes>, room: nat)
    requires room > 0
    ensures multiset(FirstFew([name] + rest, room)) == multiset{name} + multiset(FirstFew(rest, room - 1))
  {
    assert FirstFew([name] + rest, room) == [name] + FirstFew(rest, room - 1);
  }
}
