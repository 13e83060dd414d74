/** Which package a file is from: decided once, when the lists are written. */
module Ownership {
  import opened Bytes
  import opened PackageList
  import Crc
  import Names

  type Content = b: Bytes | |b| < U64 witness []

  /** A file of the stage under its image path: a link, or bytes with what a program among
      them asks for. */
  datatype Staged = Staged(path: Bytes, link: bool, data: Content, asks: seq<(Bytes, Bytes)>)

  datatype Conf = Conf(name: Bytes, set_: Bytes, about: Bytes, dirs: seq<(Bytes, Bytes)>)

  /** The configuration: its packages in order, and what each one's patterns match. */
  datatype Rules = Rules(confs: seq<Conf>, claims: (nat, Bytes) -> bool, yours: (nat, Bytes) -> bool)

  function Sum(data: Bytes): u32 {
    Crc.Checksum(data) as int
  }

  // ---- Giving the files out ----

  /** The first package from `p` on that claims a path; past the last when none does. */
  function FirstClaim(rules: Rules, path: Bytes, p: nat): (owner: nat)
    requires p <= |rules.confs|
    ensures p <= owner <= |rules.confs|
    ensures forall q :: p <= q < owner ==> !rules.claims(q, path)
    ensures owner < |rules.confs| ==> rules.claims(owner, path)
    decreases |rules.confs| - p
  {
    if p == |rules.confs| || rules.claims(p, path) then p else FirstClaim(rules, path, p + 1)
  }

  function AsksOf(asks: seq<(Bytes, Bytes)>): seq<Entry> {
    if asks == [] then [] else [Asks(asks[0].0, asks[0].1)] + AsksOf(asks[1..])
  }

  function Records(rules: Rules, p: nat, s: Staged): seq<Entry> {
    if s.link then [Points([SLASH] + s.path)]
    else [Owns(rules.yours(p, s.path), Sum(s.data), |s.data|, [SLASH] + s.path)] + AsksOf(s.asks)
  }

  /** The records of package `p`: those of the files it is the first to claim. */
  function Given(rules: Rules, p: nat, staged: seq<Staged>): seq<Entry> {
    if staged == [] then [] else
      var s := staged[|staged| - 1];
      Given(rules, p, staged[..|staged| - 1])
      + if FirstClaim(rules, s.path, 0) == p then Records(rules, p, s) else []
  }

  /** A package's list gains the records of what it is first to claim, and no other list
      changes. */
  lemma GivenOneMore(rules: Rules, lists: seq<seq<Entry>>, after: seq<seq<Entry>>, staged: seq<Staged>, i: nat,
                     owner: nat)
    requires i < |staged| && owner < |lists| && owner == FirstClaim(rules, staged[i].path, 0)
    requires forall p :: 0 <= p < |lists| ==> lists[p] == Given(rules, p, staged[..i])
    requires after == lists[owner := lists[owner] + Records(rules, owner, staged[i])]
    ensures forall p :: 0 <= p < |after| ==> after[p] == Given(rules, p, staged[..i + 1])
  {
    hide FirstClaim, Records;
    var upTo := staged[..i + 1];
    assert upTo[..i] == staged[..i] && upTo[i] == staged[i];
  }

  method Claimant(rules: Rules, path: Bytes) returns (owner: nat)
    ensures owner == FirstClaim(rules, path, 0)
  {
    owner := 0;
    while owner < |rules.confs| && !rules.claims(owner, path)
      invariant owner <= |rules.confs| && FirstClaim(rules, path, owner) == FirstClaim(rules, path, 0)
    {
      owner := owner + 1;
    }
  }

  /** The staging tool's loop: nothing, when some file has no claimant. */
  method GiveOut(rules: Rules, staged: seq<Staged>) returns (r: Option<seq<seq<Entry>>>)
    ensures r.None? <==> exists s :: s in staged && FirstClaim(rules, s.path, 0) == |rules.confs|
    ensures r.Some? ==> |r.value| == |rules.confs|
    ensures r.Some? ==> forall p :: 0 <= p < |r.value| ==> r.value[p] == Given(rules, p, staged)
  {
    var n := |rules.confs|;
    var lists: seq<seq<Entry>> := seq(n, _ => []);
    for i := 0 to |staged|
      invariant |lists| == n
      invariant forall p :: 0 <= p < n ==> lists[p] == Given(rules, p, staged[..i])
      invariant forall j :: 0 <= j < i ==> FirstClaim(rules, staged[j].path, 0) < n
    {
      hide Given, Records, FirstClaim;
      var s := staged[i];
      var owner := Claimant(rules, s.path);
      if owner == n {
        assert s in staged;
        return None;
      }
      ghost var before := lists;
      lists := lists[owner := lists[owner] + Records(rules, owner, s)];
      GivenOneMore(rules, before, lists, staged, i, owner);
    }
    assert staged[..|staged|] == staged;
    r := Some(lists);
  }

  // ---- What a package is given ----

  /** How many records there are to a file. */
  function HowMany(s: Staged): nat {
    if s.link then 1 else 1 + |s.asks|
  }

  /** And to all those a package is the first to claim. */
  function Count(rules: Rules, p: nat, staged: seq<Staged>): nat {
    if staged == [] then 0 else
      var s := staged[|staged| - 1];
      Count(rules, p, staged[..|staged| - 1]) + if FirstClaim(rules, s.path, 0) == p then HowMany(s) else 0
  }

  /** A file's records from a place on: a link's says where it is; another's says whose it is to
      change, its checksum, its length and where it is, and after that what it asks for. */
  ghost predicate HasRecords(records: seq<Entry>, at: nat, s: Staged, yours: bool) {
    && at + HowMany(s) <= |records|
    && (s.link ==> records[at] == Points([47] + s.path))
    && (!s.link ==> records[at] == Owns(yours, Crc.Checksum(s.data) as int, |s.data|, [47] + s.path))
    && (!s.link ==> forall j :: 0 <= j < |s.asks| ==> records[at + 1 + j] == Asks(s.asks[j].0, s.asks[j].1))
  }

  lemma {:induction false} AsksOfIs(asks: seq<(Bytes, Bytes)>)
    ensures |AsksOf(asks)| == |asks|
    ensures forall j :: 0 <= j < |asks| ==> AsksOf(asks)[j] == Asks(asks[j].0, asks[j].1)
    decreases |asks|
  {
    if asks != [] {
      AsksOfIs(asks[1..]);
    }
  }

  lemma RecordsAre(rules: Rules, p: nat, s: Staged, before: seq<Entry>)
    ensures |Records(rules, p, s)| == HowMany(s)
    ensures HasRecords(before + Records(rules, p, s), |before|, s, rules.yours(p, s.path))
  {
    AsksOfIs(s.asks);
  }

  /** A package's list has, for each file it is the first to claim, that file's records after
      those of the files before it, and nothing else. */
  lemma {:induction false} GivenExactly(rules: Rules, p: nat, staged: seq<Staged>)
    ensures |Given(rules, p, staged)| == Count(rules, p, staged)
    ensures forall i :: 0 <= i < |staged| && FirstClaim(rules, staged[i].path, 0) == p ==>
      HasRecords(Given(rules, p, staged), Count(rules, p, staged[..i]), staged[i], rules.yours(p, staged[i].path))
    decreases |staged|
  {
    hide Records, FirstClaim, HasRecords, HowMany;
    if staged != [] {
      var n := |staged| - 1;
      var before := staged[..n];
      GivenExactly(rules, p, before);
      var given := Given(rules, p, before);
      RecordsAre(rules, p, staged[n], given);
      forall i | 0 <= i < n && FirstClaim(rules, staged[i].path, 0) == p
        ensures HasRecords(Given(rules, p, staged), Count(rules, p, staged[..i]), staged[i],
                           rules.yours(p, staged[i].path))
      {
        assert before[i] == staged[i] && before[..i] == staged[..i];
        StillHasRecords(given, Given(rules, p, staged), Count(rules, p, before[..i]), before[i],
                        rules.yours(p, before[i].path));
      }
    }
  }

  lemma StillHasRecords(records: seq<Entry>, more: seq<Entry>, at: nat, s: Staged, yours: bool)
    requires HasRecords(records, at, s, yours) && records <= more
    ensures HasRecords(more, at, s, yours)
  {
  }

  // ---- Every file once, and by its first claimant ----

  function Listed(e: Entry): Option<Bytes> {
    match e
    case Owns(_, _, _, path) => Some(path)
    case Points(path) => Some(path)
    case _ => None
  }

  /** The files and links some records list. */
  function ListedIn(records: seq<Entry>): seq<Bytes> {
    if records == [] then []
    else (if Listed(records[0]).Some? then [Listed(records[0]).value] else []) + ListedIn(records[1..])
  }

  function Times(staged: seq<Staged>, path: Bytes): nat {
    if staged == [] then 0
    else Times(staged[..|staged| - 1], path) + if staged[|staged| - 1].path == path then 1 else 0
  }

  ghost predicate DistinctPaths(staged: seq<Staged>) {
    forall i, j :: 0 <= i < j < |staged| ==> staged[i].path != staged[j].path
  }

  lemma ListedFirst(records: seq<Entry>)
    ensures ListedIn(records) ==
            if records == [] then []
            else (if Listed(records[0]).Some? then [Listed(records[0]).value] else []) + ListedIn(records[1..])
  {
  }

  lemma {:induction false} ListedInConcat(a: seq<Entry>, b: seq<Entry>)
    ensures ListedIn(a + b) == ListedIn(a) + ListedIn(b)
    decreases |a|
  {
    hide ListedIn, Listed;
    ListedFirst(a);
    if a == [] {
      assert a + b == b;
    } else {
      ListedFirst(a + b);
      assert (a + b)[1..] == a[1..] + b;
      ListedInConcat(a[1..], b);
    }
  }

  lemma {:induction false} AsksListNothing(asks: seq<(Bytes, Bytes)>)
    ensures ListedIn(AsksOf(asks)) == []
    decreases |asks|
  {
    if asks != [] {
      AsksListNothing(asks[1..]);
      assert AsksOf(asks)[1..] == AsksOf(asks[1..]);
    }
  }

  lemma RecordsListOne(rules: Rules, p: nat, s: Staged)
    ensures ListedIn(Records(rules, p, s)) == [[SLASH] + s.path]
  {
    AsksListNothing(s.asks);
    var records := Records(rules, p, s);
    assert records[1..] == if s.link then [] else AsksOf(s.asks);
  }

  lemma {:induction false} ListedAsOftenAsStaged(rules: Rules, p: nat, staged: seq<Staged>, path: Bytes)
    ensures multiset(ListedIn(Given(rules, p, staged)))[[SLASH] + path] ==
            if p == FirstClaim(rules, path, 0) then Times(staged, path) else 0
    decreases |staged|
  {
    hide Records, FirstClaim;
    if staged != [] {
      var before, s := staged[..|staged| - 1], staged[|staged| - 1];
      ListedAsOftenAsStaged(rules, p, before, path);
      if FirstClaim(rules, s.path, 0) == p {
        RecordsListOne(rules, p, s);
        ListedInConcat(Given(rules, p, before), Records(rules, p, s));
        SlashInjective(s.path, path);
      } else {
        assert Given(rules, p, staged) == Given(rules, p, before);
      }
    }
  }

  lemma SlashInjective(a: Bytes, b: Bytes)
    ensures [SLASH] + a == [SLASH] + b <==> a == b
  {
    assert ([SLASH] + a)[1..] == a && ([SLASH] + b)[1..] == b;
  }

  lemma {:induction false} StagedOnce(staged: seq<Staged>, i: nat)
    requires i < |staged| && DistinctPaths(staged)
    ensures Times(staged, staged[i].path) == 1
    decreases |staged|
  {
    var n := |staged| - 1;
    if i == n {
      NotStaged(staged[..n], staged[n].path);
    } else {
      StagedOnce(staged[..n], i);
    }
  }

  lemma {:induction false} NotStaged(staged: seq<Staged>, path: Bytes)
    requires forall s :: s in staged ==> s.path != path
    ensures Times(staged, path) == 0
    decreases |staged|
  {
    if staged != [] {
      assert staged[|staged| - 1] in staged;
      NotStaged(staged[..|staged| - 1], path);
    }
  }

  /** With distinct paths, each staged file is listed exactly once over all the packages,
      and that once by the first package that claims it. */
  lemma ListedOnceByFirstClaimant(rules: Rules, p: nat, staged: seq<Staged>, i: nat)
    requires i < |staged| && DistinctPaths(staged)
    ensures multiset(ListedIn(Given(rules, p, staged)))[[SLASH] + staged[i].path] ==
            if p == FirstClaim(rules, staged[i].path, 0) then 1 else 0
  {
    ListedAsOftenAsStaged(rules, p, staged, staged[i].path);
    StagedOnce(staged, i);
  }

  // ---- Asking who owns a file ----

  predicate OwnsPath(line: Line, path: Bytes) {
    match line
    case File(_, _, p) => p == path
    case Yours(_, _, p) => p == path
    case Link(p) => p == path
    case _ => false
  }

  predicate AnyOwns(lines: seq<Line>, path: Bytes) {
    exists i :: 0 <= i < |lines| && OwnsPath(lines[i], path)
  }

  predicate Lists(list: Bytes, path: Bytes) {
    AnyOwns(Lines(list), path)
  }

  // ---- What the lists written for a stage answer ----

  lemma OneOwns(e: Entry, path: Bytes)
    requires e.Owns? || e.Points? || e.Asks?
    ensures var line := ReadLine(Render(e)); line.Some? && (OwnsPath(line.value, path) <==> Listed(e) == Some(path))
  {
    hide Render, ReadLine;
    if e.Asks? {
      AsksBack(e.path, e.what);
    } else {
      ReadBack(e);
    }
  }

  lemma {:induction false} RecordsOwn(records: seq<Entry>, path: Bytes)
    requires Kinds(records)
    ensures AnyOwns(ReadEntries(records), path) <==> path in ListedIn(records)
    decreases |records|
  {
    hide Render, ReadLine, OwnsPath, Listed;
    if records != [] {
      var e, rest := records[0], records[1..];
      assert e in records && records == [e] + rest;
      RecordsOwn(rest, path);
      OneOwns(e, path);
      ReadFirst(e, rest);
      AnyOwnsFirst(ReadLine(Render(e)).value, ReadEntries(rest), path);
    }
  }

  lemma AnyOwnsFirst(line: Line, rest: seq<Line>, path: Bytes)
    ensures AnyOwns([line] + rest, path) <==> OwnsPath(line, path) || AnyOwns(rest, path)
  {
    hide OwnsPath;
    var all := [line] + rest;
    if OwnsPath(line, path) {
      assert all[0] == line;
    }
    if AnyOwns(rest, path) {
      var i :| 0 <= i < |rest| && OwnsPath(rest[i], path);
      assert all[i + 1] == rest[i];
    }
  }

  lemma AnyOwnsConcat(a: seq<Line>, b: seq<Line>, path: Bytes)
    ensures AnyOwns(a + b, path) <==> AnyOwns(a, path) || AnyOwns(b, path)
  {
    hide OwnsPath;
    if AnyOwns(a, path) {
      var i :| 0 <= i < |a| && OwnsPath(a[i], path);
      assert (a + b)[i] == a[i];
    }
    if AnyOwns(b, path) {
      var i :| 0 <= i < |b| && OwnsPath(b[i], path);
      assert (a + b)[|a| + i] == b[i];
    }
  }

  /** A package's list owns exactly what its records list - whatever else is on a line of
      it, so long as it stays on one line. */
  lemma WrittenListLists(p: Package, path: Bytes)
    requires Plain(p)
    ensures Lists(Text(Entries(p)), path) <==> path in ListedIn(p.records)
  {
    hide Text, Entries, Lined, ReadEntries, ListedIn;
    PlainLines(p);
    WantsAreDirs(p.dirs);
    var wants, records := ReadEntries(Wants(p.dirs)), ReadEntries(p.records);
    AnyOwnsConcat(Sayings(p), wants + records, path);
    AnyOwnsConcat(wants, records, path);
    RecordsOwn(p.records, path);
  }

  function Built(rules: Rules, version: Bytes, staged: seq<Staged>, p: nat): Package
    requires p < |rules.confs|
  {
    var c := rules.confs[p];
    Package(c.name, version, c.set_, c.about, c.dirs, Given(rules, p, staged))
  }

  predicate HasList(p: Package) {
    p.records != [] || p.dirs != []
  }

  /** The lists the staging tool leaves, by name; a package with nothing has none. */
  function Written(rules: Rules, version: Bytes, staged: seq<Staged>, upTo: nat): map<Bytes, Bytes>
    requires upTo <= |rules.confs|
    decreases upTo
  {
    if upTo == 0 then map[] else
      var p := Built(rules, version, staged, upTo - 1);
      var before := Written(rules, version, staged, upTo - 1);
      if HasList(p) then before[p.name := Text(Entries(p))] else before
  }

  ghost predicate DistinctNames(confs: seq<Conf>) {
    forall i, j :: 0 <= i < j < |confs| ==> confs[i].name != confs[j].name
  }

  lemma {:induction false} WrittenHas(rules: Rules, version: Bytes, staged: seq<Staged>, upTo: nat, p: nat)
    requires upTo <= |rules.confs| && p < |rules.confs| && DistinctNames(rules.confs)
    ensures var name := rules.confs[p].name; var lists := Written(rules, version, staged, upTo);
            var built := Built(rules, version, staged, p);
            if p < upTo && HasList(built) then name in lists && lists[name] == Text(Entries(built)) else name !in lists
    decreases upTo
  {
    hide Text, Entries;
    if upTo > 0 {
      WrittenHas(rules, version, staged, upTo - 1, p);
      assert p != upTo - 1 ==> rules.confs[p].name != rules.confs[upTo - 1].name;
    }
  }

  lemma {:induction false} WrittenOnly(rules: Rules, version: Bytes, staged: seq<Staged>, upTo: nat, name: Bytes)
    requires upTo <= |rules.confs| && name in Written(rules, version, staged, upTo)
    ensures exists p :: 0 <= p < upTo && rules.confs[p].name == name
    decreases upTo
  {
    hide Text, Entries, Given, HasList;
    if name != rules.confs[upTo - 1].name {
      assert name in Written(rules, version, staged, upTo - 1);
      WrittenOnly(rules, version, staged, upTo - 1, name);
    } else {
      assert rules.confs[upTo - 1].name == name;
    }
  }

  /** A package has a list if and only if it wants a directory or is the first to claim a file;
      and it is the list of its own records. */
  lemma WrittenExactly(rules: Rules, version: Bytes, staged: seq<Staged>, p: nat)
    requires p < |rules.confs| && DistinctNames(rules.confs)
    ensures var name, lists := rules.confs[p].name, Written(rules, version, staged, |rules.confs|);
      && (name in lists <==>
            rules.confs[p].dirs != [] || exists s :: s in staged && FirstClaim(rules, s.path, 0) == p)
      && (name in lists ==> lists[name] == Text(Entries(Built(rules, version, staged, p))))
  {
    hide Text, Entries, FirstClaim, Given;
    WrittenHas(rules, version, staged, |rules.confs|, p);
    GivenSomething(rules, p, staged);
  }

  lemma {:induction false} GivenSomething(rules: Rules, p: nat, staged: seq<Staged>)
    ensures Given(rules, p, staged) != [] <==> exists s :: s in staged && FirstClaim(rules, s.path, 0) == p
    decreases |staged|
  {
    hide FirstClaim;
    if staged != [] {
      var before, last := staged[..|staged| - 1], staged[|staged| - 1];
      GivenSomething(rules, p, before);
      assert staged == before + [last] && last in staged;
      assert forall s :: s in staged <==> s in before || s == last;
    }
  }

  /** What the names in a configuration have to be for `qpkg` to find their lists. */
  predicate Nameable(name: Bytes) {
    name != [] && SLASH !in name && name[0] != DOT && |name| <= Names.MAX_NAME
  }

  /** A directory as the server lists it: the lists there, each once, in any order. */
  ghost predicate Listing(entries: seq<Names.DirEntry>, lists: map<Bytes, Bytes>) {
    && (forall e :: e in entries ==> !e.isDir && e.name in lists)
    && (forall name :: name in lists ==> Names.DirEntry(name, false) in entries)
    && |entries| <= Names.MAX_PACKAGES
  }

  lemma {:induction false} AcceptedHas(entries: seq<Names.DirEntry>, name: Bytes)
    requires forall e :: e in entries ==> Names.Accepted(e)
    ensures |Names.AcceptedNames(entries)| == |entries|
    ensures name in Names.AcceptedNames(entries) <==> exists e :: e in entries && e.name == name
    decreases |entries|
  {
    if entries != [] {
      AcceptedHas(entries[1..], name);
      assert entries[0] in entries;
      assert forall e :: e in entries <==> e == entries[0] || e in entries[1..];
    }
  }

  lemma TableHas(entries: seq<Names.DirEntry>, lists: map<Bytes, Bytes>, name: Bytes)
    requires Listing(entries, lists) && forall n :: n in lists ==> Nameable(n)
    ensures name in Names.TableOf([], entries) <==> name in lists
  {
    var table := Names.TableOf([], entries);
    Names.TableIsComplete([], entries);
    AcceptedHas(entries, name);
    assert Names.FirstFew(Names.AcceptedNames(entries), Names.MAX_PACKAGES) == Names.AcceptedNames(entries);
    assert multiset(table) == multiset(Names.AcceptedNames(entries));
    assert name in table <==> name in multiset(table);
    if name in lists {
      assert Names.DirEntry(name, false) in entries;
    }
  }

  lemma {:induction false} GivenKinds(rules: Rules, p: nat, staged: seq<Staged>)
    ensures Kinds(Given(rules, p, staged))
    decreases |staged|
  {
    if staged != [] {
      GivenKinds(rules, p, staged[..|staged| - 1]);
      AsksKinds(staged[|staged| - 1].asks);
    }
  }

  lemma {:induction false} AsksKinds(asks: seq<(Bytes, Bytes)>)
    ensures Kinds(AsksOf(asks))
    decreases |asks|
  {
    if asks != [] {
      AsksKinds(asks[1..]);
    }
  }

  /** The list of one package, as it is written, has a staged file's path if and only if the
      package is the first that claims it - which then has a list. */
  lemma WhatOnePackageAnswers(rules: Rules, version: Bytes, staged: seq<Staged>, i: nat, p: nat)
    requires i < |staged| && DistinctPaths(staged) && DistinctNames(rules.confs) && p < |rules.confs|
    requires Lined(Entries(Built(rules, version, staged, p)))
    ensures var lists := Written(rules, version, staged, |rules.confs|); var name := rules.confs[p].name;
            var path, owner := [SLASH] + staged[i].path, FirstClaim(rules, staged[i].path, 0);
            && (name in lists ==> (Lists(lists[name], path) <==> p == owner))
            && (name in lists ==> lists[name] == Text(Entries(Built(rules, version, staged, p))))
            && (p == owner ==> name in lists)
  {
    hide Text, Entries, Lined, Kinds, Lists, Given, FirstClaim, ListedIn;
    var path, built := [SLASH] + staged[i].path, Built(rules, version, staged, p);
    WrittenHas(rules, version, staged, |rules.confs|, p);
    ListedOnceByFirstClaimant(rules, p, staged, i);
    GivenKinds(rules, p, staged);
    WrittenListLists(built, path);
    var paths := ListedIn(built.records);
    assert path in paths <==> multiset(paths)[path] > 0;
    if p == FirstClaim(rules, staged[i].path, 0) && built.records == [] {
      NothingListed();
    }
  }

  lemma NothingListed()
    ensures ListedIn([]) == []
  {
  }
}
