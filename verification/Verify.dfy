/** `qpkg verify`: the files that are here against what their packages' lists say was
    built. */
module Verify {
  import opened Bytes
  import opened FileServer
  import Crc
  import Ownership
  import PackageList
  import Strap

  /** A file's length and checksum, or why there is none. */
  datatype Measured = Found(size: nat, sum: bv32) | Denied | Unreadable | Unanswered

  /** The file a path leads to here. */
  ghost function FileAt(tree: Tree, path: Bytes): Option<Bytes> {
    if Join([SLASH], path).None? then None else
      var p := Walk(tree, [], Parts(Join([SLASH], path).value), true, MAX_LINKS);
      if p.Some? && p.value in tree && tree[p.value].FileNode? then Some(tree[p.value].data) else None
  }

  /** Read a file to its end, page by page, however the server cuts it. A file whose
      offsets do not fit thirty-two bits has no end. */
  method MeasureFile(server: Server, table: array<bv32>, handle: Path, patience: nat) returns (r: Measured)
    requires Crc.IsTable(table[..]) && handle in server.tree && server.tree[handle].FileNode?
    ensures var data := server.tree[handle].data;
            && (r.Found? ==> r == Found(|data|, Crc.Checksum(data)) && |data| < U32)
            && (r.Unanswered? ==> |data| >= U32 || |data| >= patience)
    ensures server.willing ==> r.Found? || r.Unanswered?
  {
    hide Walk, Crc.Run, Crc.Checksum;
    ghost var data := server.tree[handle].data;
    var left: nat, at: nat, sum := patience, 0, Crc.START;
    RunOfNone(data);
    while true
      invariant left + at >= patience
      invariant |data| < U32 ==> at <= |data| && sum == Crc.Run(Crc.START, data[..at])
      decreases left
    {
      if left == 0 {
        return Measured.Unanswered;
      }
      left := left - 1;
      var page := server.Read(handle, Strap.PAGE, at % U32);
      if !page.Ok? {
        var denied := server.Declines();
        return if denied then Denied else Unreadable;
      }
      if page.value == [] {
        break;
      }
      if |data| < U32 {
        RunOfPage(data, at, page.value);
      }
      sum := Crc.Add(table, sum, page.value);
      at := at + |page.value|;
    }
    RunOfAll(data);
    r := Found(at, Crc.Not(sum));
  }

  /** The register one page further into a file. */
  lemma RunOfPage(data: Bytes, at: nat, page: Bytes)
    requires at + |page| <= |data| && page == data[at..at + |page|]
    ensures Crc.Run(Crc.START, data[..at + |page|]) == Crc.Run(Crc.Run(Crc.START, data[..at]), page)
  {
    hide Crc.Run;
    Crc.RunConcat(Crc.START, data[..at], page);
    assert data[..at] + page == data[..at + |page|];
  }

  lemma RunOfAll(data: Bytes)
    ensures Crc.Not(Crc.Run(Crc.START, data[..|data|])) == Crc.Checksum(data)
  {
    hide Crc.Run;
    assert data[..|data|] == data;
  }

  lemma RunOfNone(data: Bytes)
    ensures Crc.Run(Crc.START, data[..0]) == Crc.START
  {
    assert data[..0] == [];
  }

  method Measure(server: Server, table: array<bv32>, path: Bytes, patience: nat) returns (r: Measured)
    requires Crc.IsTable(table[..])
    ensures r.Found? ==> var data := FileAt(server.tree, path);
              data.Some? && r == Found(|data.value|, Crc.Checksum(data.value)) && |data.value| < U32
    ensures r.Unanswered? ==> var data := FileAt(server.tree, path);
              data.Some? && (|data.value| >= U32 || |data.value| >= patience)
    ensures server.willing ==> !r.Denied? && (r.Unreadable? <==> FileAt(server.tree, path).None?)
  {
    hide Walk, Crc.Checksum, Crc.IsTable;
    var whole := Join([SLASH], path);
    if whole.None? {
      return Unreadable;
    }
    var handle := server.Open(whole.value, true);
    if !handle.Ok? || handle.value !in server.tree || !server.tree[handle.value].FileNode? {
      var denied := server.Declines();
      return if denied then Denied else Unreadable;
    }
    r := MeasureFile(server, table, handle.value, patience);
  }

  /** The file a line lists is what was built; one that is its owner's to change need only
      be there, or be kept from this reader. */
  ghost predicate AsBuilt(tree: Tree, line: PackageList.Line) {
    line.File? ==>
      var data := FileAt(tree, line.path);
      data.Some? && |data.value| == line.size && Ownership.Sum(data.value) == line.crc
  }

  /** All that a line asks for: a file that is its owner's to change has to be there. */
  ghost predicate Right(tree: Tree, line: PackageList.Line) {
    AsBuilt(tree, line) && (line.Yours? ==> FileAt(tree, line.path).Some?)
  }

  /** A listed file whose offsets come round again, or that takes more answers than there
      are. */
  ghost predicate TooBig(tree: Tree, line: PackageList.Line, patience: nat) {
    (line.File? || line.Yours?) &&
    var data := FileAt(tree, line.path);
    data.Some? && (|data.value| >= U32 || |data.value| >= patience)
  }

  /** One package's lines: how many files are not as built, and whether any was refused. */
  method VerifyLines(server: Server, table: array<bv32>, lines: seq<PackageList.Line>, patience: nat)
    returns (bad: nat, refused: bool)
    requires Crc.IsTable(table[..])
    ensures bad == 0 ==> forall line :: line in lines ==> AsBuilt(server.tree, line)
    ensures bad > 0 && !refused ==> exists line :: line in lines && !AsBuilt(server.tree, line)
    ensures server.willing && bad == 0 ==> forall line :: line in lines ==> Right(server.tree, line)
    ensures server.willing && bad > 0 ==>
              exists line :: line in lines && (!Right(server.tree, line) || TooBig(server.tree, line, patience))
  {
    bad, refused := 0, false;
    for i := 0 to |lines|
      invariant bad == 0 ==> forall j :: 0 <= j < i ==> AsBuilt(server.tree, lines[j])
      invariant bad > 0 && !refused ==> exists line :: line in lines && !AsBuilt(server.tree, line)
      invariant server.willing && bad == 0 ==> forall j :: 0 <= j < i ==> Right(server.tree, lines[j])
      invariant server.willing && bad > 0 ==>
                  exists line :: line in lines && (!Right(server.tree, line) || TooBig(server.tree, line, patience))
    {
      hide FileAt, Crc.Checksum;
      var line := lines[i];
      if !line.File? && !line.Yours? {
        continue;
      }
      var yours := line.Yours?;
      var found := Measure(server, table, line.path, patience);
      if found.Found? && found.size == line.size && found.sum as int == line.crc {
        continue;
      }
      if yours && (found.Found? || found.Denied?) {
        continue;
      }
      if !found.Found? {
        refused := true;
      } else {
        assert !AsBuilt(server.tree, line);
      }
      assert server.willing ==> !Right(server.tree, line) || TooBig(server.tree, line, patience);
      bad := bad + 1;
    }
  }

  /** A package whose list can be had has every file as it was built. */
  ghost predicate PackageAsBuilt(tree: Tree, name: Bytes) {
    && Strap.Held(tree, name).Some?
    && forall line :: line in PackageList.Lines(Strap.Held(tree, name).value) ==> AsBuilt(tree, line)
  }

  /** A package whose list can be had has all its list asks for. */
  ghost predicate PackageRight(tree: Tree, name: Bytes) {
    Strap.Held(tree, name).Some? ==>
      forall line :: line in PackageList.Lines(Strap.Held(tree, name).value) ==> Right(tree, line)
  }

  ghost predicate PackageBig(tree: Tree, name: Bytes, patience: nat) {
    Strap.Held(tree, name).Some? &&
    exists line :: line in PackageList.Lines(Strap.Held(tree, name).value) && TooBig(tree, line, patience)
  }

  /** What is asked about is here, and all of it is right. */
  ghost predicate AllRight(tree: Tree, names: seq<Bytes>, wanted: seq<Bytes>) {
    && (forall name :: name in wanted ==> name in names)
    && (forall name :: name in names && (wanted == [] || name in wanted) ==> PackageRight(tree, name))
  }

  /** The whole of it: success is saying that no file of any package asked about, whose
      list could be read, is other than what was built; and failure, when nothing was
      refused, that some package named is not here or some file is not as built. With a
      server that refuses nothing it could do, and no listed file of four gigabytes, it
      succeeds exactly when all is right. */
  method VerifyAll(server: Server, names: seq<Bytes>, wanted: seq<Bytes>, patience: nat)
    returns (ok: bool, refused: bool, unread: seq<Bytes>)
    ensures ok ==> forall name :: name in wanted ==> name in names
    ensures ok ==> forall name :: name in names && (wanted == [] || name in wanted) && name !in unread
                     ==> PackageAsBuilt(server.tree, name)
    ensures !ok && !refused ==> (exists name :: name in wanted && name !in names)
                                || exists name :: name in names && !PackageAsBuilt(server.tree, name)
    ensures server.willing && (forall name :: name in names ==> !PackageBig(server.tree, name, patience)) ==>
              (ok <==> AllRight(server.tree, names, wanted))
  {
    hide Strap.Held, AsBuilt, PackageList.Lines, Right, TooBig;
    ok, refused, unread := true, false, [];
    var table := Crc.New();
    for i := 0 to |wanted|
      invariant forall j :: 0 <= j < i ==> wanted[j] in names
    {
      if wanted[i] !in names {
        return false, false, [];
      }
    }
    var record := new byte[PackageList.RECORD_MAX];
    for i := 0 to |names|
      invariant Crc.IsTable(table[..])
      invariant ok ==> forall j :: 0 <= j < i && (wanted == [] || names[j] in wanted) && names[j] !in unread
                         ==> PackageAsBuilt(server.tree, names[j])
      invariant !ok && !refused ==> exists name :: name in names && !PackageAsBuilt(server.tree, name)
      invariant server.willing && ok ==> forall j :: 0 <= j < i && (wanted == [] || names[j] in wanted)
                                           ==> PackageRight(server.tree, names[j])
      invariant server.willing && !ok ==> exists name :: name in names && (wanted == [] || name in wanted) &&
                                                         (!PackageRight(server.tree, name)
                                                          || PackageBig(server.tree, name, patience))
    {
      if wanted != [] && names[i] !in wanted {
        continue;
      }
      var list := Strap.Load(server, names[i], record);
      if list.None? {
        unread := unread + [names[i]];
        continue;
      }
      var bad, some := VerifyLines(server, table, PackageList.Lines(list.value), patience);
      assert bad > 0 && !some ==> !PackageAsBuilt(server.tree, names[i]);
      if server.willing && bad > 0 {
        OneBadLine(server.tree, names[i], patience);
      }
      refused := refused || some;
      ok := ok && bad == 0;
    }
  }

  lemma OneBadLine(tree: Tree, name: Bytes, patience: nat)
    requires Strap.Held(tree, name).Some?
    requires exists line :: line in PackageList.Lines(Strap.Held(tree, name).value)
                            && (!Right(tree, line) || TooBig(tree, line, patience))
    ensures !PackageRight(tree, name) || PackageBig(tree, name, patience)
  {
  }

  // ---- From the stage to here ----

  /** A staged file that is a program's or the system's own - not its owner's to change -
      has a line in its package's list that a changed file cannot answer: not one of
      another length, and not one changed within thirty-two consecutive bits. */
  lemma ChangesAreCaught(rules: Ownership.Rules, version: Bytes, staged: seq<Ownership.Staged>, i: nat,
                         tree: Tree, name: Bytes, now: Bytes, from: nat, to: nat)
    requires i < |staged| && !staged[i].link
    requires var owner := Ownership.FirstClaim(rules, staged[i].path, 0);
             && owner < |rules.confs| && !rules.yours(owner, staged[i].path)
             && PackageList.Lined(PackageList.Entries(Ownership.Built(rules, version, staged, owner)))
             && Strap.Held(tree, name) ==
                Some(PackageList.Text(PackageList.Entries(Ownership.Built(rules, version, staged, owner))))
    requires FileAt(tree, [SLASH] + staged[i].path) == Some(now) && now != staged[i].data
    requires |now| == |staged[i].data| ==>
               && from <= to <= 8 * |now| && to - from <= 32
               && Crc.Stream(now)[..from] == Crc.Stream(staged[i].data)[..from]
               && Crc.Stream(now)[to..] == Crc.Stream(staged[i].data)[to..]
    ensures !PackageAsBuilt(tree, name)
  {
    hide FileAt, Strap.Held, PackageList.Lines, PackageList.Text, PackageList.ReadEntries, PackageList.Lined,
         Crc.Checksum, Crc.Stream;
    var s := staged[i];
    var owner := Ownership.FirstClaim(rules, s.path, 0);
    var built := Ownership.Built(rules, version, staged, owner);
    var line := PackageList.File(Ownership.Sum(s.data), |s.data|, [SLASH] + s.path);
    GivenHas(rules, owner, staged, i);
    Ownership.GivenKinds(rules, owner, staged);
    PackageList.PlainLines(built);
    ReadEntriesHave(built.records, PackageList.Owns(false, Ownership.Sum(s.data), |s.data|, [SLASH] + s.path));
    assert line in PackageList.Lines(Strap.Held(tree, name).value);
    if AsBuilt(tree, line) {
      SumInjective(now, s.data);
      Crc.BurstChangesChecksum(now, s.data, from, to);
    }
  }

  lemma SumInjective(a: Bytes, b: Bytes)
    requires Ownership.Sum(a) == Ownership.Sum(b)
    ensures Crc.Checksum(a) == Crc.Checksum(b)
  {
    hide Crc.Checksum;
    WordBack(Crc.Checksum(a));
    WordBack(Crc.Checksum(b));
  }

  lemma WordBack(x: bv32)
    ensures (x as int) as bv32 == x
  {
  }

  lemma {:induction false} GivenHas(rules: Ownership.Rules, p: nat, staged: seq<Ownership.Staged>, i: nat)
    requires i < |staged| && !staged[i].link && Ownership.FirstClaim(rules, staged[i].path, 0) == p
    ensures PackageList.Owns(rules.yours(p, staged[i].path), Ownership.Sum(staged[i].data), |staged[i].data|,
                             [SLASH] + staged[i].path)
            in Ownership.Given(rules, p, staged)
    decreases |staged|
  {
    hide Ownership.FirstClaim, Ownership.Sum;
    var n := |staged| - 1;
    if i < n {
      GivenHas(rules, p, staged[..n], i);
    } else {
      var owns := PackageList.Owns(rules.yours(p, staged[i].path), Ownership.Sum(staged[i].data), |staged[i].data|,
                                   [SLASH] + staged[i].path);
      assert Ownership.Records(rules, p, staged[i])[0] == owns;
    }
  }

  lemma {:induction false} ReadEntriesHave(records: seq<PackageList.Entry>, e: PackageList.Entry)
    requires e in records && e.Owns?
    ensures PackageList.Meaning(e).value in PackageList.ReadEntries(records)
    decreases |records|
  {
    hide PackageList.ReadLine, PackageList.Render, PackageList.ReadEntries;
    PackageList.ReadFirst(records[0], records[1..]);
    assert records == [records[0]] + records[1..];
    if records[0] == e {
      PackageList.ReadBack(e);
    } else {
      ReadEntriesHave(records[1..], e);
    }
  }
}
