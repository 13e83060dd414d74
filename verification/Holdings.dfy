/** Holdings: what is in the files of a stage when a build has come to its end, said of its
    paths and their contents. */
module Holdings {
  import opened Bytes
  import opened Staging

  // ---- Files put in ----

  /** No later entry is for the same path. */
  predicate LastOfPath(entries: seq<File>, i: nat) {
    i < |entries| && forall j :: i < j < |entries| ==> entries[j].path != entries[i].path
  }

  lemma {:induction false} PutHas(files: Files, entries: seq<File>, i: nat)
    requires LastOfPath(entries, i)
    ensures entries[i].path in Put(files, entries) && Put(files, entries)[entries[i].path] == entries[i].content
    decreases |entries|
  {
    hide Paths;
    var more := files[entries[0].path := entries[0].content];
    if i == 0 {
      NotAmong(entries[1..], entries[0].path);
    } else {
      PutHas(more, entries[1..], i - 1);
    }
  }

  lemma {:induction false} NotAmong(entries: seq<File>, p: Path)
    requires forall j :: 0 <= j < |entries| ==> entries[j].path != p
    ensures p !in Paths(entries)
    decreases |entries|
  {
    if entries != [] {
      NotAmong(entries[1..], p);
    }
  }

  lemma {:induction false} Among(entries: seq<File>, i: nat)
    requires i < |entries|
    ensures entries[i].path in Paths(entries)
  {
    assert Paths(entries)[i] == entries[i].path;
  }

  lemma {:induction false} InsideIs(dir: string, entries: seq<File>, i: nat)
    requires i < |entries|
    ensures Inside(dir, entries)[i] == File(dir + entries[i].path, entries[i].content)
    decreases |entries|
  {
    if i > 0 {
      InsideIs(dir, entries[1..], i - 1);
    }
  }

  lemma LastInside(dir: string, entries: seq<File>, i: nat)
    requires LastOfPath(entries, i)
    ensures LastOfPath(Inside(dir, entries), i)
  {
    var inside := Inside(dir, entries);
    forall j | i < j < |inside| ensures inside[j].path != inside[i].path {
      SameAfter(dir, entries[i].path, entries[j].path);
    }
  }

  lemma SameAfter(dir: string, a: string, b: string)
    ensures dir + a == dir + b <==> a == b
  {
    assert (dir + a)[|dir|..] == a && (dir + b)[|dir|..] == b;
  }

  /** What is put inside a directory has the contents it was given there, and nothing else is
      in it that was not there before. */
  lemma PutInside(files: Files, dir: string, entries: seq<File>)
    ensures forall i: nat :: LastOfPath(entries, i) ==>
      dir + entries[i].path in Put(files, Inside(dir, entries)) &&
      Put(files, Inside(dir, entries))[dir + entries[i].path] == entries[i].content
    ensures forall p :: p in Put(files, Inside(dir, entries)) && p !in files ==>
      exists i :: 0 <= i < |entries| && p == dir + entries[i].path
  {
    hide Put, Inside, Paths;
    var inside := Inside(dir, entries);
    forall i: nat | LastOfPath(entries, i)
      ensures dir + entries[i].path in Put(files, inside)
      ensures Put(files, inside)[dir + entries[i].path] == entries[i].content
    {
      InsideIs(dir, entries, i);
      LastInside(dir, entries, i);
      PutHas(files, inside, i);
    }
    forall p | p in Put(files, inside) && p !in files
      ensures exists i :: 0 <= i < |entries| && p == dir + entries[i].path
    {
      var k :| 0 <= k < |Paths(inside)| && Paths(inside)[k] == p;
      InsideIs(dir, entries, k);
    }
  }

  // ---- Lists, caches, and what is generated ----

  /** At the end of a build the directory of lists holds what the package lister gave for the
      rest of the stage: each list under its name, and no other. */
  ghost predicate HasLists(r: State, o: Options) {
    var given := o.lists(NotUnder(r.files, DATABASE));
    given.Some? && HasJust(r.files, DATABASE, given.value)
  }

  /** The directory holds these files, each with its content, and no other. */
  ghost predicate HasJust(files: Files, dir: string, entries: seq<File>) {
    && (forall i: nat :: LastOfPath(entries, i) ==>
          dir + entries[i].path in files && files[dir + entries[i].path] == entries[i].content)
    && (forall p :: p in files && Under(p, dir) ==> exists i :: 0 <= i < |entries| && p == dir + entries[i].path)
  }

  lemma JustPut(files: Files, dir: string, entries: seq<File>)
    ensures HasJust(Put(NotUnder(files, dir), Inside(dir, entries)), dir, entries)
    ensures NotUnder(Put(NotUnder(files, dir), Inside(dir, entries)), dir) == NotUnder(files, dir)
  {
    hide Put, Inside, Paths, Under, LastOfPath;
    var before, after := NotUnder(files, dir), Put(NotUnder(files, dir), Inside(dir, entries));
    PutInside(before, dir, entries);
    AreInside(dir, entries);
    assert forall p :: p in before ==> !Under(p, dir);
    assert NotUnder(after, dir).Keys == before.Keys;
  }

  lemma ListsAreThere(s: State, o: Options)
    requires Listed(s, o).1
    ensures HasLists(Listed(s, o).0, o)
  {
    hide Put, Inside, Under, HasJust;
    JustPut(s.files, DATABASE, o.lists(NotUnder(s.files, DATABASE)).value);
  }

  /** And the directory of caches what the cache builder gave, where caches are built. */
  ghost predicate HasCaches(r: State, o: Options) {
    FONTS in r.files && o.fontTool ==> HasJust(r.files, CACHE, o.caches(Outside(NotUnder(r.files, CACHE))))
  }

  lemma CachesAreThere(s: State, o: Options)
    requires Cached(s, o).1
    ensures HasCaches(Cached(s, o).0, o)
  {
    hide Put, Inside, Under, HasJust, Paths;
    JustPut(s.files, CACHE, o.caches(Outside(NotUnder(s.files, CACHE))));
    FontsAreElsewhere();
    if FONTS in s.files && o.fontTool {
      assert FONTS in NotUnder(s.files, CACHE);
    }
  }

  lemma FontsAreElsewhere()
    ensures !Under(FONTS, CACHE) && !Generated(FONTS)
  {
    FontsAreNotOpen(true);
    assert CACHE[0] == 'v' && FONTS[0] == 'e';
  }

  /** Files that are the same but for what is generated have the same caches. */
  lemma SameCaches(a: State, b: State, o: Options)
    requires HasCaches(a, o) && forall p :: !Generated(p) ==> SameAt(a.files, b.files, p)
    ensures HasCaches(b, o)
  {
    hide Under, Generated, LastOfPath;
    FontsAreElsewhere();
    assert SameAt(a.files, b.files, FONTS);
    forall p | Under(p, CACHE) ensures !Generated(p) && SameAt(a.files, b.files, p) {
      CachesAreElsewhere(p);
    }
    var x, y := Outside(NotUnder(a.files, CACHE)), Outside(NotUnder(b.files, CACHE));
    forall p ensures p in x <==> p in y {
      assert !Generated(p) ==> SameAt(a.files, b.files, p);
    }
    forall p | p in x ensures x[p] == y[p] {
      assert SameAt(a.files, b.files, p);
    }
    assert x == y;
    assert FONTS in b.files && o.fontTool ==> HasJust(a.files, CACHE, o.caches(x));
    if FONTS in b.files && o.fontTool {
      SameDirectory(a.files, b.files, CACHE, o.caches(x));
    }
  }

  lemma SameDirectory(a: Files, b: Files, dir: string, entries: seq<File>)
    requires HasJust(a, dir, entries) && forall p :: Under(p, dir) ==> SameAt(a, b, p)
    ensures HasJust(b, dir, entries)
  {
    hide Under;
    forall i: nat | LastOfPath(entries, i)
      ensures dir + entries[i].path in b && b[dir + entries[i].path] == entries[i].content
    {
      InDirectory(dir, entries[i].path);
      assert SameAt(a, b, dir + entries[i].path);
    }
    forall p | p in b && Under(p, dir) ensures exists i :: 0 <= i < |entries| && p == dir + entries[i].path {
      assert SameAt(a, b, p);
    }
  }

  lemma InDirectory(dir: string, name: Path)
    ensures Under(dir + name, dir)
  {
  }

  /** The sweep goes by what is in the stage, its sample is the text it is, and cargo is told
      what it should be with a development set and nothing without. */
  ghost predicate HasGenerated(r: State, o: Options) {
    && SWEEP in r.files && r.files[SWEEP] == o.sweep(Outside(r.files))
    && SAMPLE in r.files && |r.files[SAMPLE]| == |SAMPLE_TEXT|
    && (forall i :: 0 <= i < |SAMPLE_TEXT| ==> r.files[SAMPLE][i] == SAMPLE_TEXT[i] as int % 256)
    && (CARGO in r.files <==> o.toolchain) && (o.toolchain ==> r.files[CARGO] == o.cargo)
  }

  lemma GeneratedElsewhere()
    ensures SWEEP != SAMPLE && CARGO != SWEEP && CARGO != SAMPLE
    ensures !Under(SWEEP, DATABASE) && !Under(SAMPLE, DATABASE) && !Under(CARGO, DATABASE)
    ensures !Under(SWEEP, CACHE) && !Under(SAMPLE, CACHE) && !Under(CARGO, CACHE)
  {
    assert SWEEP[0] == SAMPLE[0] == 'e' && CARGO[0] == '.' && DATABASE[0] == CACHE[0] == 'v';
    assert |SWEEP| == 17 && |SAMPLE| == 18;
  }

  /** At the end of a build that ends: the lists, the caches and what is generated are what
      the tools that make them gave for this stage, contents and all. */
  lemma FinishedHolds(s: State, ours: Bytes, o: Options)
    requires Finished(s, ours, o).1
    ensures var r := Finished(s, ours, o).0; HasLists(r, o) && HasCaches(r, o) && HasGenerated(r, o)
  {
    hide Moved, Cached, Swept, Listed, Configured, HasLists, HasCaches, HasGenerated, Generated, Outside;
    var configured := Configured(Moved(s, ours, o.toolchain), o);
    var cached := Cached(configured, o).0;
    var swept := Swept(cached, o);
    var r := Listed(swept, o).0;
    CachesAreThere(configured, o);
    ListsAreThere(swept, o);
    forall p | !Generated(p) ensures SameAt(cached.files, r.files, p) {
      SweptAndListedElsewhere(cached, o, p);
    }
    SameCaches(cached, r, o);
    GeneratedIsThere(s, ours, o);
  }

  lemma SweptAndListedElsewhere(s: State, o: Options, p: Path)
    requires !Generated(p)
    ensures SameAt(s.files, Listed(Swept(s, o), o).0.files, p)
  {
    hide Listed, Outside, Ascii, Under;
    ListedElsewhere(Swept(s, o), o, p);
  }

  lemma GeneratedIsThere(s: State, ours: Bytes, o: Options)
    requires Finished(s, ours, o).1
    ensures HasGenerated(Finished(s, ours, o).0, o)
  {
    hide Moved, Cached, Listed, Under, Outside;
    var configured := Configured(Moved(s, ours, o.toolchain), o);
    var cached := Cached(configured, o).0;
    var swept := Swept(cached, o);
    var r := Listed(swept, o).0;
    GeneratedElsewhere();
    CachedElsewhere(configured, o, CARGO);
    ListedElsewhere(swept, o, CARGO);
    ListedElsewhere(swept, o, SWEEP);
    ListedElsewhere(swept, o, SAMPLE);
    OutsideIsSame(cached, o);
  }

  lemma OutsideIsSame(s: State, o: Options)
    ensures Outside(Listed(Swept(s, o), o).0.files) == Outside(s.files)
  {
    hide Listed, Swept, Generated;
    var a, b := s.files, Listed(Swept(s, o), o).0.files;
    forall p | !Generated(p) ensures SameAt(a, b, p) {
      SweptAndListedElsewhere(s, o, p);
    }
    assert forall p :: p in Outside(a) ==> SameAt(a, b, p);
    assert forall p :: p in Outside(b) ==> SameAt(a, b, p);
    assert Outside(a) == Outside(b);
  }

  /** What a finished build leaves in the directories it fills itself: the lister's lists, made of
      all the stage but the lists; the cache builder's caches, where there is a configuration
      and a builder; the sweep over all but what every build writes anew; and what cargo is
      told, with a development set. Each with its content, and no other file. */
  lemma WhatIsMadeIsThere(s: State, base: Base, o: Options)
    requires Staged(s, base, o).1
    ensures var files := Staged(s, base, o).0.files;
      var listed: Files := map p: Path | p in files && !("var/lib/qpkg/" <= p) :: files[p];
      o.lists(listed).Some? && HasJust(files, "var/lib/qpkg/", o.lists(listed).value)
    ensures var files := Staged(s, base, o).0.files;
      var read: Files := map p: Path | p in files && !Anew(p) && !("var/cache/fontconfig/" <= p) :: files[p];
      "etc/fonts/fonts.conf" in files && o.fontTool ==> HasJust(files, "var/cache/fontconfig/", o.caches(read))
    ensures var files := Staged(s, base, o).0.files;
      var swept: Files := map p: Path | p in files && !Anew(p) :: files[p];
      "etc/hostile.tests" in files && files["etc/hostile.tests"] == o.sweep(swept)
    ensures var files := Staged(s, base, o).0.files;
      && "etc/hostile-sample" in files && Says(files["etc/hostile-sample"], SAMPLE_TEXT)
      && (".cargo/config.toml" in files <==> o.toolchain)
      && (o.toolchain ==> files[".cargo/config.toml"] == o.cargo)
  {
    hide Filled, Begun, Installed, Forgotten, Finished, HasJust;
    var r := Staged(s, base, o).0;
    FinishedHolds(Filled(Begun(s, base, o), o).0, base[ASSEMBLER], o);
    ReadByTools(r.files);
  }

  /** What every build writes anew: two files of the sweep, one of cargo's, and the lists. */
  predicate Anew(p: Path) {
    p == "etc/hostile-sample" || p == "etc/hostile.tests" || p == ".cargo/config.toml" || "var/lib/qpkg/" <= p
  }

  lemma AnewIsGenerated(p: Path)
    ensures Anew(p) <==> Generated(p)
  {
  }

  predicate Says(content: Bytes, text: string) {
    |content| == |text| && forall i :: 0 <= i < |text| ==> content[i] == text[i] as int % 256
  }

  lemma ReadByTools(files: Files)
    ensures (map p: Path | p in files && !("var/lib/qpkg/" <= p) :: files[p]) == NotUnder(files, DATABASE)
    ensures (map p: Path | p in files && !Anew(p) && !("var/cache/fontconfig/" <= p) :: files[p]) ==
            Outside(NotUnder(files, CACHE))
    ensures (map p: Path | p in files && !Anew(p) :: files[p]) == Outside(files)
  {
    forall p: Path ensures Anew(p) <==> Generated(p) {
      AnewIsGenerated(p);
    }
    var a: Files := map p: Path | p in files && !Anew(p) && !("var/cache/fontconfig/" <= p) :: files[p];
    var b: Files := map p: Path | p in files && !Anew(p) :: files[p];
    assert a.Keys == Outside(NotUnder(files, CACHE)).Keys && b.Keys == Outside(files).Keys;
  }

  // ---- Overlays ----

  /** The file is the overlay's, and no later file of this overlay or of a later one has its path. */
  ghost predicate LastLaid(overlays: seq<Overlay>, d: nat, k: nat) {
    && d < |overlays| && overlays[d].Tree? && LastOfPath(overlays[d].files, k)
    && NotLaid(overlays[d + 1..], overlays[d].files[k].path)
  }

  ghost predicate NotLaid(overlays: seq<Overlay>, p: Path) {
    forall d, k :: 0 <= d < |overlays| && overlays[d].Tree? && 0 <= k < |overlays[d].files| ==>
      overlays[d].files[k].path != p
  }

  lemma {:induction false} OverlaidKeeps(s: State, overlays: seq<Overlay>, p: Path)
    requires NotLaid(overlays, p)
    ensures SameAt(Overlaid(s, overlays).0.files, s.files, p)
    decreases |overlays|
  {
    hide Put, Paths;
    if overlays != [] && overlays[0].Tree? {
      var o := overlays[0];
      assert forall k :: 0 <= k < |o.files| ==> overlays[0].files[k].path != p;
      NotAmong(o.files, p);
      assert NotLaid(overlays[1..], p);
      OverlaidKeeps(OverlaidBy(s, o.files), overlays[1..], p);
    }
  }

  lemma {:induction false} OverlaysGrow(s: State, overlays: seq<Overlay>)
    ensures var r := Overlaid(s, overlays).0;
      s.overlays <= r.overlays && r.suites == s.suites && r.clients == s.clients
    decreases |overlays|
  {
    hide Put, Paths;
    if overlays != [] && overlays[0].Tree? {
      OverlaysGrow(OverlaidBy(s, overlays[0].files), overlays[1..]);
    }
  }

  lemma {:induction false} OverlaidHas(s: State, overlays: seq<Overlay>, d: nat, k: nat)
    requires Overlaid(s, overlays).1 && LastLaid(overlays, d, k)
    ensures var r := Overlaid(s, overlays).0;
      var file := overlays[d].files[k];
      file.path in r.files && r.files[file.path] == file.content && file.path in r.overlays
    decreases |overlays|
  {
    hide Put, Paths, NotLaid;
    assert overlays[0].Tree? && overlays[0].whole;
    var next, rest := OverlaidBy(s, overlays[0].files), overlays[1..];
    if d == 0 {
      LaidLast(s, overlays[0].files, k);
      OverlaidKeeps(next, rest, overlays[0].files[k].path);
      OverlaysGrow(next, rest);
    } else {
      assert rest[d - 1] == overlays[d] && rest[d..] == overlays[d + 1..];
      OverlaidHas(next, rest, d - 1, k);
    }
  }

  lemma LaidLast(s: State, entries: seq<File>, k: nat)
    requires LastOfPath(entries, k)
    ensures var r := OverlaidBy(s, entries);
      var file := entries[k];
      file.path in r.files && r.files[file.path] == file.content && file.path in r.overlays
  {
    PutHas(s.files, entries, k);
    Among(entries, k);
  }

  // ---- Test suites ----

  /** Where a file of a test suite goes, by its name: a list among the configuration, a shared
      library among the libraries, and any other file that may be run among the commands. */
  ghost predicate Lands(c: Candidate, p: Path) {
    if exists stem: string :: c.name == stem + ".tests" then p == "etc/" + c.name
    else if exists stem: string :: c.name == "lib" + stem + ".so" then p == "usr/lib/" + c.name
    else c.runs && p == "usr/bin/" + c.name
  }

  lemma LandsInItsPlace(c: Candidate, p: Path)
    ensures Lands(c, p) <==> SuitePlace(c) == Some(p)
  {
    IsList(c.name);
    IsLibrary(c.name);
  }

  lemma IsList(name: string)
    ensures EndsWith(name, ".tests") <==> exists stem: string :: name == stem + ".tests"
  {
    if EndsWith(name, ".tests") {
      assert name == name[..|name| - 6] + ".tests";
    }
  }

  lemma IsLibrary(name: string)
    ensures |name| >= 6 && "lib" <= name && EndsWith(name, ".so") <==>
            exists stem: string :: name == "lib" + stem + ".so"
  {
    if |name| >= 6 && "lib" <= name && EndsWith(name, ".so") {
      assert name == "lib" + name[3..|name| - 3] + ".so";
    }
    if stem: string :| name == "lib" + stem + ".so" {
      assert name[|name| - 3..] == ".so" && name[..3] == "lib";
    }
  }

  /** The candidate lands there, and no later one of its suite or of a later suite does. */
  ghost predicate LastLanded(suites: seq<seq<Candidate>>, d: nat, k: nat, p: Path) {
    d < |suites| && LastOfSuite(suites[d], k, p) && NotLanded(suites[d + 1..], p)
  }

  ghost predicate LastOfSuite(suite: seq<Candidate>, k: nat, p: Path) {
    k < |suite| && Lands(suite[k], p) && NoneLands(suite[k + 1..], p)
  }

  ghost predicate NoneLands(suite: seq<Candidate>, p: Path) {
    forall k :: 0 <= k < |suite| ==> !Lands(suite[k], p)
  }

  ghost predicate NotLanded(suites: seq<seq<Candidate>>, p: Path) {
    forall d :: 0 <= d < |suites| ==> NoneLands(suites[d], p)
  }

  lemma {:induction false} NotOfSuite(suite: seq<Candidate>, p: Path)
    requires NoneLands(suite, p)
    ensures p !in Paths(SuiteFiles(suite))
    decreases |suite|
  {
    hide Lands, SuitePlace;
    if suite != [] {
      LandsInItsPlace(suite[0], p);
      NotOfSuite(suite[1..], p);
      FirstOfSuite(suite);
    }
  }

  lemma FirstOfSuite(suite: seq<Candidate>)
    requires suite != []
    ensures var place, rest := SuitePlace(suite[0]), SuiteFiles(suite[1..]);
      SuiteFiles(suite) == if place.Some? then [File(place.value, suite[0].content)] + rest else rest
    ensures var place, rest := SuitePlace(suite[0]), Paths(SuiteFiles(suite[1..]));
      Paths(SuiteFiles(suite)) == if place.Some? then [place.value] + rest else rest
  {
    var place, rest := SuitePlace(suite[0]), SuiteFiles(suite[1..]);
    if place.Some? {
      OneMore(map[], File(place.value, suite[0].content), rest);
    }
  }

  lemma {:induction false} SuiteHas(files: Files, suite: seq<Candidate>, k: nat, p: Path)
    requires LastOfSuite(suite, k, p)
    ensures p in Put(files, SuiteFiles(suite)) && Put(files, SuiteFiles(suite))[p] == suite[k].content
    ensures p in Paths(SuiteFiles(suite))
    decreases |suite|
  {
    hide Lands, SuitePlace, SuiteFiles, Paths, NoneLands;
    FirstOfSuite(suite);
    var place, rest := SuitePlace(suite[0]), SuiteFiles(suite[1..]);
    if place.Some? {
      OneMore(files, File(place.value, suite[0].content), rest);
    }
    if k == 0 {
      LandsInItsPlace(suite[0], p);
      NotOfSuite(suite[1..], p);
    } else {
      assert suite[1..][k..] == suite[k + 1..];
      SuiteHas(if place.Some? then files[place.value := suite[0].content] else files, suite[1..], k - 1, p);
    }
  }

  lemma {:induction false} SuitedKeeps(s: State, suites: seq<seq<Candidate>>, p: Path)
    requires NotLanded(suites, p)
    ensures SameAt(Suited(s, suites).files, s.files, p)
    ensures Suited(s, suites).clients == s.clients && s.suites <= Suited(s, suites).suites
    decreases |suites|
  {
    hide Put, Paths, SuiteFiles, NoneLands;
    if suites != [] {
      NotOfSuite(suites[0], p);
      var entries := SuiteFiles(suites[0]);
      SuitedKeeps(s.(files := Put(s.files, entries), suites := s.suites + Paths(entries)), suites[1..], p);
    }
  }

  lemma {:induction false} SuitedHas(s: State, suites: seq<seq<Candidate>>, d: nat, k: nat, p: Path)
    requires LastLanded(suites, d, k, p)
    ensures var r := Suited(s, suites);
      p in r.files && r.files[p] == suites[d][k].content && p in r.suites
    decreases |suites|
  {
    hide Put, Paths, SuiteFiles, NotLanded, LastOfSuite;
    var entries := SuiteFiles(suites[0]);
    var next := s.(files := Put(s.files, entries), suites := s.suites + Paths(entries));
    if d == 0 {
      SuiteHas(s.files, suites[0], k, p);
      SuitedKeeps(next, suites[1..], p);
    } else {
      assert suites[1..][d..] == suites[d + 1..];
      SuitedHas(next, suites[1..], d - 1, k, p);
    }
  }

  // ---- Clients ----

  /** No file the glob takes goes there. */
  ghost predicate NotShared(share: seq<File>, p: Path) {
    forall k :: 0 <= k < |share| && !("share/." <= share[k].path) ==> "usr/" + share[k].path != p
  }

  ghost predicate LastShared(share: seq<File>, k: nat) {
    k < |share| && !("share/." <= share[k].path) && NotShared(share[k + 1..], "usr/" + share[k].path)
  }

  lemma {:induction false} NotOfShare(share: seq<File>, p: Path)
    requires NotShared(share, p)
    ensures p !in Paths(Inside("usr/", Globbed(share)))
    decreases |share|
  {
    if share != [] {
      NotOfShare(share[1..], p);
      FirstShared(share);
    }
  }

  lemma FirstShared(share: seq<File>)
    requires share != []
    ensures var rest := Inside("usr/", Globbed(share[1..]));
      Inside("usr/", Globbed(share)) ==
        if "share/." <= share[0].path then rest else [File("usr/" + share[0].path, share[0].content)] + rest
    ensures var rest := Paths(Inside("usr/", Globbed(share[1..])));
      Paths(Inside("usr/", Globbed(share))) ==
        if "share/." <= share[0].path then rest else ["usr/" + share[0].path] + rest
  {
    hide Put, Inside, Paths, Globbed;
    var first, rest := share[0], Globbed(share[1..]);
    FirstGlobbed(share);
    if !("share/." <= first.path) {
      FirstInside("usr/", first, rest);
      OneMore(map[], File("usr/" + first.path, first.content), Inside("usr/", rest));
    }
  }

  lemma FirstGlobbed(share: seq<File>)
    requires share != []
    ensures Globbed(share) ==
            if "share/." <= share[0].path then Globbed(share[1..]) else [share[0]] + Globbed(share[1..])
  {
  }

  lemma FirstInside(dir: string, first: File, rest: seq<File>)
    ensures Inside(dir, [first] + rest) == [File(dir + first.path, first.content)] + Inside(dir, rest)
  {
    assert ([first] + rest)[1..] == rest;
  }

  lemma {:induction false} ShareHas(files: Files, share: seq<File>, k: nat)
    requires LastShared(share, k)
    ensures var p, r := "usr/" + share[k].path, Put(files, Inside("usr/", Globbed(share)));
      p in r && r[p] == share[k].content
    decreases |share|
  {
    hide Globbed, Inside, Paths, NotShared, Put;
    FirstShared(share);
    var rest := Inside("usr/", Globbed(share[1..]));
    var taken := !("share/." <= share[0].path);
    if taken {
      OneMore(files, File("usr/" + share[0].path, share[0].content), rest);
    }
    if k == 0 {
      NotOfShare(share[1..], "usr/" + share[0].path);
    } else {
      assert share[1..][k..] == share[k + 1..];
      ShareHas(if taken then files["usr/" + share[0].path := share[0].content] else files, share[1..], k - 1);
    }
  }

  ghost predicate NotClient(programs: seq<Candidate>, p: Path) {
    forall k :: 0 <= k < |programs| && programs[k].runs ==> "usr/bin/" + programs[k].name != p
  }

  ghost predicate LastClient(programs: seq<Candidate>, k: nat) {
    k < |programs| && programs[k].runs && NotClient(programs[k + 1..], "usr/bin/" + programs[k].name)
  }

  lemma {:induction false} NotOfClients(programs: seq<Candidate>, p: Path)
    requires NotClient(programs, p)
    ensures p !in Paths(Programs(programs))
    decreases |programs|
  {
    if programs != [] {
      NotOfClients(programs[1..], p);
      OneProgram(map[], programs, 0);
    }
  }

  lemma {:induction false} ClientsHave(files: Files, programs: seq<Candidate>, k: nat)
    requires LastClient(programs, k)
    ensures var p := "usr/bin/" + programs[k].name;
      && p in Put(files, Programs(programs)) && Put(files, Programs(programs))[p] == programs[k].content
      && p in Paths(Programs(programs))
    decreases |programs|
  {
    hide Programs, Paths, NotClient;
    assert programs[0..] == programs;
    OneProgram(files, programs, 0);
    if k == 0 {
      NotOfClients(programs[1..], "usr/bin/" + programs[0].name);
    } else {
      assert programs[1..][k..] == programs[k + 1..];
      var next := if programs[0].runs then files[BIN + programs[0].name := programs[0].content] else files;
      ClientsHave(next, programs[1..], k - 1);
    }
  }

  // ---- A whole build ----

  /** No later step has the path for its own. */
  ghost predicate Settled(r: State, o: Options, p: Path) {
    && !Anew(p)
    && !("var/cache/fontconfig/" <= p && "etc/fonts/fonts.conf" in r.files && o.fontTool)
    && (o.toolchain ==> p != "usr/bin/as" && p != "usr/x86_64-quark/bin/as")
  }

  lemma SettledStays(s: State, ours: Bytes, o: Options, p: Path)
    requires Finished(s, ours, o).1 && Settled(Finished(s, ours, o).0, o, p)
    ensures var r := Finished(s, ours, o).0;
      && SameAt(r.files, s.files, p)
      && r.clients == s.clients && r.suites == s.suites && s.overlays <= r.overlays
  {
    hide Finished, Anew, Generated;
    AnewIsGenerated(p);
    FontsAreElsewhere();
    FontsStay(s, ours, o);
    FinishedElsewhere(s, ours, o, FONTS);
    FinishedElsewhere(s, ours, o, p);
  }

  /** The stage when the clients have been put in. */
  function WithClients(s: State, o: Options): State {
    var s := if o.coreutils.Build? then Cored(s, o.coreutils.programs) else s;
    if o.clients.Some? then Cliented(s, o.clients.value) else s
  }

  lemma FilledFrom(s: State, o: Options)
    requires Filled(s, o).1
    ensures Filled(s, o) == Overlaid(Suited(WithClients(s, o), o.suites), o.overlays)
  {
    hide Cored, Cliented, Suited, Overlaid;
  }

  /** Each file of an overlay is there and written down, with its content, unless it is laid
      over: by a later file of that path, or by a step that has the path for its own. */
  lemma OverlayIsThere(s: State, base: Base, o: Options, d: nat, k: nat)
    requires Staged(s, base, o).1 && LastLaid(o.overlays, d, k)
    ensures var r := Staged(s, base, o).0;
      var file := o.overlays[d].files[k];
      Settled(r, o, file.path) ==>
        file.path in r.files && r.files[file.path] == file.content && file.path in r.overlays
  {
    hide Filled, Begun, Installed, Forgotten, Finished, WithClients, Settled, Suited, Overlaid, NotLaid;
    var begun := Begun(s, base, o);
    var filled, p := Filled(begun, o).0, o.overlays[d].files[k].path;
    FilledFrom(begun, o);
    OverlaidHas(Suited(WithClients(begun, o), o.suites), o.overlays, d, k);
    if Settled(Staged(s, base, o).0, o, p) {
      SettledStays(filled, base[ASSEMBLER], o, p);
    }
  }

  /** Each file of a test suite is where its name says, with its content, and written down,
      unless a later one goes there too, or an overlay or a later step has the path. */
  lemma SuiteFileIsThere(s: State, base: Base, o: Options, d: nat, k: nat, p: Path)
    requires Staged(s, base, o).1 && LastLanded(o.suites, d, k, p) && NotLaid(o.overlays, p)
    ensures var r := Staged(s, base, o).0;
      Settled(r, o, p) ==> p in r.files && r.files[p] == o.suites[d][k].content && p in r.suites
  {
    hide Filled, Begun, Installed, Forgotten, Finished, WithClients, Settled, Suited, Overlaid, NotLaid, LastOfSuite;
    var begun := Begun(s, base, o);
    var filled := Filled(begun, o).0;
    FilledFrom(begun, o);
    var suited := Suited(WithClients(begun, o), o.suites);
    SuitedHas(WithClients(begun, o), o.suites, d, k, p);
    OverlaidKeeps(suited, o.overlays, p);
    OverlaysGrow(suited, o.overlays);
    if Settled(Staged(s, base, o).0, o, p) {
      SettledStays(filled, base[ASSEMBLER], o, p);
    }
  }

  /** What neither a suite nor an overlay nor a later step has the path of is as the clients
      left it. */
  lemma ClientsStay(s: State, base: Base, o: Options, p: Path)
    requires Staged(s, base, o).1 && NotLanded(o.suites, p) && NotLaid(o.overlays, p)
    ensures var r, c := Staged(s, base, o).0, WithClients(Begun(s, base, o), o);
      Settled(r, o, p) ==> SameAt(r.files, c.files, p) && r.clients == c.clients
  {
    hide Filled, Begun, Installed, Forgotten, Finished, WithClients, Settled, Suited, Overlaid, NotLaid, NotLanded;
    var begun := Begun(s, base, o);
    FilledFrom(begun, o);
    var c := WithClients(begun, o);
    SuitedKeeps(c, o.suites, p);
    OverlaidKeeps(Suited(c, o.suites), o.overlays, p);
    OverlaysGrow(Suited(c, o.suites), o.overlays);
    if Settled(Staged(s, base, o).0, o, p) {
      SettledStays(Filled(begun, o).0, base[ASSEMBLER], o, p);
    }
  }

  /** Each file of the clients' data that the glob takes is under usr with its content, and
      written down, unless a later one, a suite, an overlay or a later step has the path. */
  lemma ShareIsThere(s: State, base: Base, o: Options, k: nat)
    requires Staged(s, base, o).1 && o.clients.Some? && LastShared(o.clients.value.share, k)
    requires var p := "usr/" + o.clients.value.share[k].path; NotLanded(o.suites, p) && NotLaid(o.overlays, p)
    ensures var r, file := Staged(s, base, o).0, o.clients.value.share[k];
      var p := "usr/" + file.path;
      Settled(r, o, p) ==> p in r.files && r.files[p] == file.content && p in r.clients
  {
    hide Staged, Settled, Begun, Cored, Put, Paths, Inside, Globbed, Programs, NotLaid, NotLanded, LastOfPath;
    var begun := Begun(s, base, o);
    var cored := if o.coreutils.Build? then Cored(begun, o.coreutils.programs) else begun;
    var share := o.clients.value.share;
    ShareHas(Put(cored.files, Programs(o.clients.value.programs)), share, k);
    InsideIs("usr/", share, k);
    Among(Inside("usr/", share), k);
    ClientsStay(s, base, o, "usr/" + share[k].path);
  }

  /** And each of their programs among the commands. */
  lemma ClientIsThere(s: State, base: Base, o: Options, k: nat, p: Path)
    requires Staged(s, base, o).1 && o.clients.Some? && LastClient(o.clients.value.programs, k)
    requires p == "usr/bin/" + o.clients.value.programs[k].name
    requires NotShared(o.clients.value.share, p) && NotLanded(o.suites, p) && NotLaid(o.overlays, p)
    ensures var r := Staged(s, base, o).0;
      Settled(r, o, p) ==> p in r.files && r.files[p] == o.clients.value.programs[k].content && p in r.clients
  {
    hide Staged, Settled, Begun, Cored, Put, Paths, Inside, Globbed, Programs, NotLaid, NotLanded, NotShared;
    var begun := Begun(s, base, o);
    var cored := if o.coreutils.Build? then Cored(begun, o.coreutils.programs) else begun;
    ClientsHave(cored.files, o.clients.value.programs, k);
    NotOfShare(o.clients.value.share, p);
    ClientsStay(s, base, o, p);
  }

  /** A development set's `as` is moved to binutils' directory for the target, and written
      down there, if it is not this system's own, which has its place. */
  lemma AssemblerIsMoved(s: State, base: Base, o: Options, d: nat, k: nat)
    requires Staged(s, base, o).1 && o.toolchain && LastLaid(o.overlays, d, k)
    requires o.overlays[d].files[k].path == "usr/bin/as" && o.overlays[d].files[k].content != base["usr/bin/as"]
    ensures var r := Staged(s, base, o).0;
      && "usr/bin/as" in r.files && r.files["usr/bin/as"] == base["usr/bin/as"]
      && "usr/x86_64-quark/bin/as" in r.files && "usr/x86_64-quark/bin/as" in r.overlays
      && r.files["usr/x86_64-quark/bin/as"] == o.overlays[d].files[k].content
  {
    hide Filled, Begun, Installed, Forgotten, Finished, WithClients, Suited, Overlaid, NotLaid, Generated;
    var begun := Begun(s, base, o);
    FilledFrom(begun, o);
    OverlaidHas(Suited(WithClients(begun, o), o.suites), o.overlays, d, k);
    AsStays(base, s, o);
    BinutilsIsElsewhere();
    var filled := Filled(begun, o).0;
    FinishedElsewhere(filled, base[ASSEMBLER], o, BINUTILS_ASSEMBLER);
    var moved := Moved(filled, base[ASSEMBLER], true);
    assert moved.overlays[|filled.overlays|] == BINUTILS_ASSEMBLER;
  }

  lemma BinutilsIsElsewhere()
    ensures !Generated(BINUTILS_ASSEMBLER) && !Under(BINUTILS_ASSEMBLER, CACHE)
  {
    assert BINUTILS_ASSEMBLER[0] == 'u' && CACHE[0] == DATABASE[0] == 'v';
    assert SAMPLE[0] == SWEEP[0] == 'e' && CARGO[0] == '.';
  }

  /** Each program the coreutils record names is the coreutils build's of that name, unless
      a later step has put its own there. */
  lemma CoreutilIsThere(s: State, base: Base, o: Options, i: nat)
    requires Staged(s, base, o).1 && i < |Staged(s, base, o).0.coreutils|
    requires var p := "usr/bin/" + Staged(s, base, o).0.coreutils[i];
      && NotLanded(o.suites, p) && NotLaid(o.overlays, p)
      && (o.clients.Some? ==> NotClient(o.clients.value.programs, p) && NotShared(o.clients.value.share, p))
    ensures o.coreutils.Build?
    ensures var r := Staged(s, base, o).0;
      var p := "usr/bin/" + r.coreutils[i];
      Settled(r, o, p) ==> p in r.files && FromCoreutils(o.coreutils.programs, r.coreutils[i], r.files[p])
  {
    hide Filled, Finished, Settled, Cored, NotLaid, NotLanded, NotShared, NotClient, Installed, Forgotten;
    hide Put, Paths, Inside, Globbed, Programs, Taken;
    var begun := Begun(s, base, o);
    var r := Staged(s, base, o).0;
    FilledRecords(begun, o);
    FinishedRecords(Filled(begun, o).0, base[ASSEMBLER], o);
    assert begun.coreutils == [];
    var programs := o.coreutils.programs;
    CoredExactly(begun, programs);
    var cored := Cored(begun, programs);
    assert FromBuild(begun, cored, programs, i);
    var p := BIN + r.coreutils[i];
    if o.clients.Some? {
      NotOfClients(o.clients.value.programs, p);
      NotOfShare(o.clients.value.share, p);
    }
    ClientsStay(s, base, o, p);
  }

  ghost predicate FromCoreutils(programs: seq<Candidate>, name: Path, content: Bytes) {
    exists k :: 0 <= k < |programs| && programs[k].runs && programs[k].content == content &&
                name == if programs[k].name == "ginstall" then "install" else programs[k].name
  }

  /** And a file of the base install is the base's where no later step goes: a file of the
      clients' data that the glob passes over is written down and not copied. */
  lemma BaseShowsThrough(s: State, base: Base, o: Options, p: Path)
    requires Staged(s, base, o).1 && p in base && NotLanded(o.suites, p) && NotLaid(o.overlays, p)
    requires o.clients.Some? ==> NotClient(o.clients.value.programs, p) && NotShared(o.clients.value.share, p)
    requires forall i :: 0 <= i < |s.coreutils| ==> "usr/bin/" + s.coreutils[i] != p
    ensures var r := Staged(s, base, o).0;
      Settled(r, o, p) ==> p in r.files && r.files[p] == base[p]
  {
    hide Filled, Finished, Begun, Settled, Cored, NotLaid, NotLanded, NotShared, NotClient, Installed, Forgotten;
    hide Put, Paths, Inside, Globbed, Programs, Sourced;
    var begun := Begun(s, base, o);
    BaseFileIsBackExactly(s, base, o, p);
    if o.coreutils.Build? {
      MoreKnown(begun, p, true, true);
      CoredKeeps(begun, o.coreutils.programs, p, true);
    }
    if o.clients.Some? {
      NotOfClients(o.clients.value.programs, p);
      NotOfShare(o.clients.value.share, p);
    }
    ClientsStay(s, base, o, p);
  }

  /** A name is taken by a command of that name, or of that name in capitals with .ELF after it. */
  lemma TakenInCapitals(files: Files, name: Path, capitals: string)
    requires |capitals| == |name|
    requires forall i :: 0 <= i < |name| ==> (
      capitals[i] as int == if 97 <= name[i] as int <= 122 then name[i] as int - 32 else name[i] as int)
    ensures Taken(files, name) <==> "usr/bin/" + name in files || "usr/bin/" + capitals + ".ELF" in files
  {
    assert Upper(name) == capitals;
  }
}
