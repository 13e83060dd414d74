/** Staging: a root filesystem put together in one directory, build after build. What a
    build takes from elsewhere it writes down, and the next build takes it back out by
    those records before it begins. */
module Staging {
  import opened Bytes

  type Path = s: string | s != "" witness "."
  type Files = map<Path, Bytes>

  /** A file of a tree, under its path in the stage. */
  datatype File = File(path: Path, content: Bytes)

  /** A file of a build directory, and whether it is a program to be staged: one that may
      be run and, of a coreutils build, starts at this system's load address. */
  datatype Candidate = Candidate(name: Path, content: Bytes, runs: bool)

  /** A coreutils build, and whether every program of it could be copied or only these. */
  datatype Coreutils = NoCoreutils | NotADirectory | Build(programs: seq<Candidate>, whole: bool)
  datatype Clients = Clients(programs: seq<Candidate>, share: seq<File>)

  /** An overlay that is not there, or the files of one: all of them, or those before the
      first that could not be copied. */
  datatype Overlay = Missing | Tree(files: seq<File>, whole: bool)

  /** What the stage holds, and the four records at the top of it. */
  datatype State = State(
    files: Files,
    clients: seq<Path>,
    suites: seq<Path>,
    overlays: seq<Path>,
    coreutils: seq<Path>)

  const EMPTY := State(map[], [], [], [], [])

  /** What a build was asked for. The tools that read the stage to write what they write
      are given as what they would write for it. */
  datatype Options = Options(
    installed: Option<set<Path>>,          // where the base install stops, if it does
    coreutils: Coreutils,
    clients: Option<Clients>,
    suites: seq<seq<Candidate>>,
    overlays: seq<Overlay>,
    toolchain: bool,
    cargo: Bytes,
    fontTool: bool,
    caches: Files -> seq<File>,
    cacheStops: bool,                      // whether the cache builder fails, with those written
    conf: bool,                            // whether packages.conf can be read
    sweep: Files -> Bytes,
    lists: Files -> Option<seq<File>>)

  /** A base install: what the kernel and the userland are made of on the day of a build.
      The command `as` is of every one. */
  type Base = b: Files | ASSEMBLER in b witness LEAST

  const LEAST: Files := map[ASSEMBLER := []]

  /** One build: its base install, and what it was asked for. */
  datatype Order = Order(base: Base, asked: Options)

  const BIN := "usr/bin/"
  const ASSEMBLER: Path := "usr/bin/as"
  const BINUTILS_ASSEMBLER: Path := "usr/x86_64-quark/bin/as"
  const CARGO: Path := ".cargo/config.toml"
  const FONTS: Path := "etc/fonts/fonts.conf"
  const CACHE := "var/cache/fontconfig/"
  const SAMPLE: Path := "etc/hostile-sample"
  const SWEEP: Path := "etc/hostile.tests"
  const DATABASE := "var/lib/qpkg/"
  const SAMPLE_TEXT := "A file for the hostile-argument sweep to read, write and ruin.\n"

  // ---- Files put in and taken out ----

  function Under(p: Path, dir: string): bool { dir <= p }

  function Without(files: Files, paths: seq<Path>): (r: Files)
    ensures forall p :: p in r <==> p in files && p !in paths
    ensures forall p :: p in r ==> r[p] == files[p]
    decreases |paths|
  {
    if paths == [] then files else Without(files - {paths[0]}, paths[1..])
  }

  function Paths(entries: seq<File>): (paths: seq<Path>)
    ensures |paths| == |entries| && forall i :: 0 <= i < |entries| ==> paths[i] == entries[i].path
  {
    if entries == [] then [] else [entries[0].path] + Paths(entries[1..])
  }

  function Put(files: Files, entries: seq<File>): (r: Files)
    ensures forall p :: p in r <==> p in files || p in Paths(entries)
    ensures forall p :: p in files && p !in Paths(entries) ==> r[p] == files[p]
    decreases |entries|
  {
    if entries == [] then files else Put(files[entries[0].path := entries[0].content], entries[1..])
  }

  function Inside(dir: string, entries: seq<File>): (r: seq<File>)
    ensures |r| == |entries| && forall i :: 0 <= i < |r| ==> r[i].path == dir + entries[i].path
  {
    if entries == [] then [] else [File(dir + entries[0].path, entries[0].content)] + Inside(dir, entries[1..])
  }

  function InBin(names: seq<Path>): (r: seq<Path>)
    ensures |r| == |names| && forall i :: 0 <= i < |r| ==> r[i] == BIN + names[i]
  {
    if names == [] then [] else [BIN + names[0]] + InBin(names[1..])
  }

  function NotUnder(files: Files, dir: string): Files {
    map p | p in files && !Under(p, dir) :: files[p]
  }

  // ---- The steps of a build ----

  function Forgotten(s: State): State {
    State(Without(Without(Without(s.files, s.clients), s.suites), s.overlays), [], [], [], s.coreutils)
  }

  function Installed(s: State, base: Files, upTo: Option<set<Path>>): State {
    s.(files := s.files + if upTo.None? then base else (map p | p in base && p in upTo.value :: base[p]))
  }

  function Uncored(s: State): State {
    s.(files := Without(s.files, InBin(s.coreutils)), coreutils := [])
  }

  function Uppered(c: char): char { if 'a' <= c <= 'z' then c - 'a' + 'A' else c }

  function Upper(name: string): (r: string)
    ensures |r| == |name|
  {
    seq(|name|, i requires 0 <= i < |name| => Uppered(name[i]))
  }

  /** coreutils' install is called ginstall where it was built. */
  function StagedAs(name: Path): Path { if name == "ginstall" then "install" else name }

  /** Whether the stage has a program of that name already, under either of its names. */
  predicate Taken(files: Files, name: Path) {
    BIN + name in files || BIN + Upper(name) + ".ELF" in files
  }

  function CoredBy(s: State, c: Candidate): State {
    var name := StagedAs(c.name);
    if !c.runs || Taken(s.files, name) then s
    else s.(files := s.files[BIN + name := c.content], coreutils := s.coreutils + [name])
  }

  function Cored(s: State, programs: seq<Candidate>): State
    decreases |programs|
  {
    if programs == [] then s else Cored(CoredBy(s, programs[0]), programs[1..])
  }

  function Programs(candidates: seq<Candidate>): seq<File> {
    if candidates == [] then [] else
      (if candidates[0].runs then [File(BIN + candidates[0].name, candidates[0].content)] else [])
      + Programs(candidates[1..])
  }

  /** A glob takes no name that begins with a dot, and the record takes them all. */
  function Globbed(share: seq<File>): seq<File> {
    if share == [] then [] else (if Under(share[0].path, "share/.") then [] else [share[0]]) + Globbed(share[1..])
  }

  function Cliented(s: State, clients: Clients): State {
    var files := Put(s.files, Programs(clients.programs));
    s.(files := Put(files, Inside("usr/", Globbed(clients.share))),
       clients := s.clients + Paths(Programs(clients.programs)) + Paths(Inside("usr/", clients.share)))
  }

  predicate EndsWith(name: string, end: string) {
    |end| <= |name| && name[|name| - |end|..] == end
  }

  /** Where a test suite's file goes, if it goes anywhere. */
  function SuitePlace(c: Candidate): Option<Path> {
    if EndsWith(c.name, ".tests") then Some("etc/" + c.name)
    else if |c.name| >= 6 && "lib" <= c.name && EndsWith(c.name, ".so") then Some("usr/lib/" + c.name)
    else if c.runs then Some(BIN + c.name)
    else None
  }

  function SuiteFiles(suite: seq<Candidate>): seq<File> {
    if suite == [] then [] else
      var place := SuitePlace(suite[0]);
      (if place.Some? then [File(place.value, suite[0].content)] else []) + SuiteFiles(suite[1..])
  }

  function Suited(s: State, suites: seq<seq<Candidate>>): State
    decreases |suites|
  {
    if suites == [] then s else
      var entries := SuiteFiles(suites[0]);
      Suited(s.(files := Put(s.files, entries), suites := s.suites + Paths(entries)), suites[1..])
  }

  function OverlaidBy(s: State, entries: seq<File>): State {
    s.(files := Put(s.files, entries), overlays := s.overlays + Paths(entries))
  }

  /** Up to the first directory that is not there, or the first file that cannot be copied. */
  function Overlaid(s: State, overlays: seq<Overlay>): (State, bool)
    decreases |overlays|
  {
    if overlays == [] then (s, true)
    else if overlays[0].Missing? then (s, false)
    else if !overlays[0].whole then (OverlaidBy(s, overlays[0].files), false)
    else Overlaid(OverlaidBy(s, overlays[0].files), overlays[1..])
  }

  /** binutils' assembler out of the way of this system's program of that name. */
  function Moved(s: State, ours: Bytes, toolchain: bool): State {
    if !toolchain || (ASSEMBLER in s.files && s.files[ASSEMBLER] == ours) then s
    else
      var files := if ASSEMBLER in s.files
                   then (s.files - {ASSEMBLER})[BINUTILS_ASSEMBLER := s.files[ASSEMBLER]]
                   else s.files;
      s.(files := files[ASSEMBLER := ours], overlays := s.overlays + [BINUTILS_ASSEMBLER])
  }

  function Configured(s: State, o: Options): State {
    s.(files := if o.toolchain then s.files[CARGO := o.cargo] else s.files - {CARGO})
  }

  /** The caches are written down when they are all there, and not before. */
  function Cached(s: State, o: Options): (State, bool) {
    if FONTS !in s.files || !o.fontTool then (s, true)
    else
      var files := NotUnder(s.files, CACHE);
      var caches := Inside(CACHE, o.caches(Outside(files)));
      if o.cacheStops then (s.(files := Put(files, caches)), false)
      else (s.(files := Put(files, caches), overlays := s.overlays + Paths(caches)), true)
  }

  function Swept(s: State, o: Options): State {
    s.(files := s.files[SAMPLE := Ascii(SAMPLE_TEXT)][SWEEP := o.sweep(Outside(s.files))])
  }

  function Listed(s: State, o: Options): (State, bool) {
    if !o.conf then (s, false) else
    var files := NotUnder(s.files, DATABASE);
    var lists := o.lists(files);
    if lists.None? then (s.(files := files), false)
    else (s.(files := Put(files, Inside(DATABASE, lists.value))), true)
  }

  /** What every build writes anew, or takes out. */
  predicate Generated(p: Path) {
    p == CARGO || p == SAMPLE || p == SWEEP || Under(p, DATABASE)
  }

  /** What the tools that read the stage go by. */
  function Outside(files: Files): Files {
    map p | p in files && !Generated(p) :: files[p]
  }

  function Begun(s: State, base: Files, o: Options): State {
    Uncored(Installed(Forgotten(s), base, None))
  }

  function Filled(s: State, o: Options): (State, bool) {
    var s := if o.coreutils.Build? then Cored(s, o.coreutils.programs) else s;
    if o.coreutils.Build? && !o.coreutils.whole then (s, false) else
    var s := if o.clients.Some? then Cliented(s, o.clients.value) else s;
    Overlaid(Suited(s, o.suites), o.overlays)
  }

  function Finished(s: State, ours: Bytes, o: Options): (State, bool) {
    var (s, ok) := Cached(Configured(Moved(s, ours, o.toolchain), o), o);
    if !ok then (s, false) else Listed(Swept(s, o), o)
  }

  /** A build, and whether it came to its end. */
  function Staged(s: State, base: Base, o: Options): (State, bool) {
    if o.installed.Some? then (Installed(Forgotten(s), base, o.installed), false)
    else
      var s := Begun(s, base, o);
      if o.coreutils.NotADirectory? then (s, false)
      else
        var (s, ok) := Filled(s, o);
        if !ok then (s, false) else Finished(s, base[ASSEMBLER], o)
  }

  /** One build after another into the same directory, from nothing. */
  function After(history: seq<Order>): State
    decreases |history|
  {
    if history == [] then EMPTY else
      var n := |history| - 1;
      Staged(After(history[..n]), history[n].base, history[n].asked).0
  }

  // ---- What every build keeps ----

  ghost predicate Recorded(s: State, p: Path) {
    p in s.clients || p in s.suites || p in s.overlays || p in InBin(s.coreutils)
  }

  /** A file is there for a known reason, or is written down, or generated. */
  ghost predicate Sourced(s: State, p: Path, known: bool) {
    p in s.files ==> known || Recorded(s, p) || Generated(p)
  }

  /** Whatever is in the stage is the base install's, or written down, or generated - or, if
      a cache builder has failed, a stray cache. */
  ghost predicate Accounted(s: State, base: Files, stray: bool) {
    forall p :: Sourced(s, p, p in base || (stray && Under(p, CACHE)))
  }

  /** No coreutils program is written down in a place of the base install's. */
  ghost predicate NoneTaken(s: State, base: Files) {
    forall p :: p in InBin(s.coreutils) ==> p !in base
  }

  ghost predicate Kept(s: State, base: Files, stray: bool) {
    Accounted(s, base, stray) && NoneTaken(s, base)
  }

  lemma {:induction false} InBinGrows(names: seq<Path>, name: Path)
    ensures InBin(names + [name]) == InBin(names) + [BIN + name]
    decreases |names|
  {
    if names == [] {
      assert names + [name] == [name];
    } else {
      assert (names + [name])[1..] == names[1..] + [name];
      InBinGrows(names[1..], name);
    }
  }

  lemma BegunSourced(s: State, base: Files, o: Options, p: Path, known: bool)
    requires Sourced(s, p, known) && (p in base ==> known)
    ensures Sourced(Installed(Forgotten(s), base, o.installed), p, known)
    ensures Sourced(Begun(s, base, o), p, known)
  {
    hide Without;
    assert InBin([]) == [];
  }

  lemma CoredBySourced(s: State, c: Candidate, p: Path, known: bool)
    requires Sourced(s, p, known)
    ensures Sourced(CoredBy(s, c), p, known)
    ensures p in s.files ==> p in CoredBy(s, c).files && CoredBy(s, c).files[p] == s.files[p]
  {
    hide InBin, Generated, Upper;
    InBinGrows(s.coreutils, StagedAs(c.name));
  }

  /** A coreutils build takes nothing's place. */
  lemma {:induction false} CoredKeeps(s: State, programs: seq<Candidate>, p: Path, known: bool)
    requires Sourced(s, p, known)
    ensures Sourced(Cored(s, programs), p, known)
    ensures p in s.files ==> p in Cored(s, programs).files && Cored(s, programs).files[p] == s.files[p]
    decreases |programs|
  {
    hide Sourced, CoredBy;
    if programs != [] {
      CoredBySourced(s, programs[0], p, known);
      CoredKeeps(CoredBy(s, programs[0]), programs[1..], p, known);
    }
  }

  lemma {:induction false} GlobbedAreShared(share: seq<File>, p: Path)
    ensures p in Paths(Inside("usr/", Globbed(share))) ==> p in Paths(Inside("usr/", share))
    decreases |share|
  {
    if share != [] {
      GlobbedAreShared(share[1..], p);
    }
  }

  lemma ClientedSourced(s: State, clients: Clients, p: Path, known: bool)
    requires Sourced(s, p, known)
    ensures Sourced(Cliented(s, clients), p, known)
  {
    hide Put, Paths, Inside, Globbed, Programs, InBin, Generated;
    GlobbedAreShared(clients.share, p);
  }

  lemma {:induction false} SuitedSourced(s: State, suites: seq<seq<Candidate>>, p: Path, known: bool)
    requires Sourced(s, p, known)
    ensures Sourced(Suited(s, suites), p, known)
    decreases |suites|
  {
    hide Put, Paths, SuiteFiles, InBin, Generated;
    if suites != [] {
      var entries := SuiteFiles(suites[0]);
      SuitedSourced(s.(files := Put(s.files, entries), suites := s.suites + Paths(entries)), suites[1..], p, known);
    }
  }

  lemma {:induction false} OverlaidSourced(s: State, overlays: seq<Overlay>, p: Path, known: bool)
    requires Sourced(s, p, known)
    ensures Sourced(Overlaid(s, overlays).0, p, known)
    decreases |overlays|
  {
    hide Put, Paths, InBin, Generated;
    if overlays != [] && overlays[0].Tree? {
      OverlaidSourced(OverlaidBy(s, overlays[0].files), overlays[1..], p, known);
    }
  }

  lemma FilledSourced(s: State, o: Options, p: Path, known: bool)
    requires Sourced(s, p, known)
    ensures Sourced(Filled(s, o).0, p, known)
  {
    hide Cored, Cliented, Suited, Overlaid, Sourced;
    var s := s;
    if o.coreutils.Build? {
      CoredKeeps(s, o.coreutils.programs, p, known);
      s := Cored(s, o.coreutils.programs);
      if !o.coreutils.whole {
        return;
      }
    }
    if o.clients.Some? {
      ClientedSourced(s, o.clients.value, p, known);
      s := Cliented(s, o.clients.value);
    }
    SuitedSourced(s, o.suites, p, known);
    OverlaidSourced(Suited(s, o.suites), o.overlays, p, known);
  }

  lemma MovedSourced(s: State, ours: Bytes, o: Options, p: Path, known: bool)
    requires Sourced(s, p, known) && (p == ASSEMBLER ==> known)
    ensures Sourced(Configured(Moved(s, ours, o.toolchain), o), p, known)
  {
    hide InBin;
  }

  lemma AreInside(dir: string, entries: seq<File>)
    ensures forall p :: p in Paths(Inside(dir, entries)) ==> Under(p, dir)
  {
    var inside := Inside(dir, entries);
    assert forall i :: 0 <= i < |inside| ==> Under(Paths(inside)[i], dir);
  }

  /** Caches are new or written down, unless their builder fails. */
  lemma CachedSourced(s: State, o: Options, p: Path, known: bool)
    requires Sourced(s, p, known)
    ensures Cached(s, o).1 || !Under(p, CACHE) ==> Sourced(Cached(s, o).0, p, known)
    ensures Cached(s, o).1 && Under(p, CACHE) && FONTS in s.files && o.fontTool ==>
              Sourced(Cached(s, o).0, p, false)
    ensures !Cached(s, o).1 ==> o.cacheStops
  {
    hide InBin, Put, Paths, Inside, Outside, Under, Generated;
    AreInside(CACHE, o.caches(Outside(NotUnder(s.files, CACHE))));
  }

  lemma SweptSourced(s: State, o: Options, p: Path, known: bool)
    requires Sourced(s, p, known)
    ensures Sourced(Swept(s, o), p, known)
  {
    hide InBin, Outside, Ascii;
  }

  lemma ListedSourced(s: State, o: Options, p: Path, known: bool)
    requires Sourced(s, p, known)
    ensures Sourced(Listed(s, o).0, p, known)
  {
    hide InBin, Put, Paths, Inside, Under;
    var lists := o.lists(NotUnder(s.files, DATABASE));
    if lists.Some? {
      AreInside(DATABASE, lists.value);
    }
  }

  lemma FinishedSourced(s: State, ours: Bytes, o: Options, p: Path, known: bool)
    requires Sourced(s, p, known) && (p == ASSEMBLER ==> known)
    ensures var (r, ok) := Finished(s, ours, o);
            Sourced(r, p, known || (!ok && o.cacheStops && Under(p, CACHE)))
  {
    hide Sourced, Moved, Configured, Cached, Swept, Listed, Under;
    MovedSourced(s, ours, o, p, known);
    var configured := Configured(Moved(s, ours, o.toolchain), o);
    CachedSourced(configured, o, p, known);
    var cached := Cached(configured, o).0;
    if Cached(configured, o).1 || !Under(p, CACHE) {
      SweptSourced(cached, o, p, known);
      ListedSourced(Swept(cached, o), o, p, known);
      MoreKnown(Finished(s, ours, o).0, p, known, true);
    } else {
      MoreKnown(cached, p, true, true);
    }
  }

  lemma MoreKnown(s: State, p: Path, known: bool, more: bool)
    ensures Sourced(s, p, known) && (known ==> more) ==> Sourced(s, p, more)
    ensures Sourced(s, p, true)
  {
  }

  /** A build leaves no file without its reason, but that a cache builder may fail. */
  lemma StagedSourced(s: State, base: Base, o: Options, p: Path, known: bool)
    requires Sourced(s, p, known) && (p in base ==> known)
    ensures var (r, ok) := Staged(s, base, o);
            Sourced(r, p, known || (!ok && o.cacheStops && Under(p, CACHE)))
  {
    hide Sourced, Begun, Installed, Forgotten, Filled, Finished, Under;
    BegunSourced(s, base, o, p, known);
    var begun := Begun(s, base, o);
    FilledSourced(begun, o, p, known);
    FinishedSourced(Filled(begun, o).0, base[ASSEMBLER], o, p, known);
    var r := Staged(s, base, o).0;
    MoreKnown(r, p, known, true);
  }

  // ---- Coreutils and the base ----

  lemma {:induction false} CoredTakesNone(s: State, programs: seq<Candidate>, p: Path)
    requires p in s.files && p !in InBin(s.coreutils)
    ensures p !in InBin(Cored(s, programs).coreutils)
    decreases |programs|
  {
    hide InBin, Upper;
    if programs != [] {
      var c := programs[0];
      InBinGrows(s.coreutils, StagedAs(c.name));
      CoredTakesNone(CoredBy(s, c), programs[1..], p);
    }
  }

  lemma {:induction false} SuitedRecords(s: State, suites: seq<seq<Candidate>>)
    ensures Suited(s, suites).coreutils == s.coreutils
    decreases |suites|
  {
    hide Put, Paths, SuiteFiles;
    if suites != [] {
      var entries := SuiteFiles(suites[0]);
      SuitedRecords(s.(files := Put(s.files, entries), suites := s.suites + Paths(entries)), suites[1..]);
    }
  }

  lemma {:induction false} OverlaidRecords(s: State, overlays: seq<Overlay>)
    ensures Overlaid(s, overlays).0.coreutils == s.coreutils
    decreases |overlays|
  {
    if overlays != [] && overlays[0].Tree? {
      OverlaidRecords(OverlaidBy(s, overlays[0].files), overlays[1..]);
    }
  }

  lemma FilledRecords(s: State, o: Options)
    ensures Filled(s, o).0.coreutils ==
            if o.coreutils.Build? then Cored(s, o.coreutils.programs).coreutils else s.coreutils
  {
    hide Cored, Suited, Overlaid, Put, Paths, Programs, Inside, Globbed;
    var s := if o.coreutils.Build? then Cored(s, o.coreutils.programs) else s;
    if !(o.coreutils.Build? && !o.coreutils.whole) {
      var s := if o.clients.Some? then Cliented(s, o.clients.value) else s;
      SuitedRecords(s, o.suites);
      OverlaidRecords(Suited(s, o.suites), o.overlays);
    }
  }

  lemma FinishedRecords(s: State, ours: Bytes, o: Options)
    ensures Finished(s, ours, o).0.coreutils == s.coreutils
  {
    hide Put, Paths, Inside, Outside, NotUnder, Ascii;
  }

  /** A build stages no coreutils program in a place of its base install's, unless one was
      staged there already. */
  lemma StagedTakesNone(s: State, base: Base, o: Options, p: Path)
    requires p in base && p !in InBin(s.coreutils)
    ensures p !in InBin(Staged(s, base, o).0.coreutils)
  {
    hide Without, Filled, Finished;
    assert InBin([]) == [];
    var begun := Begun(s, base, o);
    FilledRecords(begun, o);
    FinishedRecords(Filled(begun, o).0, base[ASSEMBLER], o);
    if o.coreutils.Build? {
      CoredTakesNone(begun, o.coreutils.programs, p);
    }
  }

  // ---- Over a history ----

  /** Some build of a history may have had its cache builder fail. */
  predicate CachesStopped(history: seq<Order>) {
    exists i :: 0 <= i < |history| && history[i].asked.cacheStops
  }

  /** Some build of a history had the file in its base install. */
  ghost predicate Brought(history: seq<Order>, p: Path) {
    exists i :: 0 <= i < |history| && p in history[i].base
  }

  /** And some build had not. */
  ghost predicate Lacked(history: seq<Order>, p: Path) {
    exists i :: 0 <= i < |history| && p !in history[i].base
  }

  /** Whatever builds there have been, those that stopped halfway among them, and whatever
      base install each had: a file in the stage was in one of those, or is written down,
      or generated, or is a stray cache; and where a coreutils program is written down
      there was a base install without a file of its own there. */
  lemma {:induction false} EveryHistoryKeeps(history: seq<Order>, p: Path)
    ensures Sourced(After(history), p, Brought(history, p) || (CachesStopped(history) && Under(p, CACHE)))
    ensures p in InBin(After(history).coreutils) ==> Lacked(history, p)
    decreases |history|
  {
    if history == [] {
      assert InBin([]) == [];
    } else {
      hide Staged, Sourced, InBin, Under;
      var n := |history| - 1;
      var before, last := history[..n], history[n];
      assert last == history[n];
      EveryHistoryKeeps(before, p);
      assert Brought(before, p) ==> Brought(history, p);
      assert Lacked(before, p) ==> Lacked(history, p);
      assert CachesStopped(before) ==> CachesStopped(history);
      assert last.asked.cacheStops ==> CachesStopped(history);
      var known := Brought(history, p) || (CachesStopped(history) && Under(p, CACHE));
      MoreKnown(After(before), p, Brought(before, p) || (CachesStopped(before) && Under(p, CACHE)), known);
      StagedSourced(After(before), last.base, last.asked, p, known);
      if p in last.base && p !in InBin(After(before).coreutils) {
        StagedTakesNone(After(before), last.base, last.asked, p);
      }
    }
  }

  /** Every build had the same files in its base install, if not with the same contents. */
  ghost predicate SameNames(history: seq<Order>, base: Base) {
    forall i :: 0 <= i < |history| ==> history[i].base.Keys == base.Keys
  }

  /** After such builds all that is there is accounted for, and nothing is taken. */
  lemma SameNamesKeep(history: seq<Order>, base: Base)
    requires SameNames(history, base)
    ensures Kept(After(history), base, CachesStopped(history))
  {
    hide After, CachesStopped, InBin;
    var s, stray := After(history), CachesStopped(history);
    forall p
      ensures Sourced(s, p, p in base || (stray && Under(p, CACHE)))
      ensures p in InBin(s.coreutils) ==> p !in base
    {
      EveryHistoryKeeps(history, p);
    }
  }

  lemma StrayOrNot(s: State, base: Files, stray: bool, more: bool)
    requires Kept(s, base, stray)
    ensures (stray ==> more) ==> Kept(s, base, more)
  {
    forall p
      ensures (stray ==> more) ==> Sourced(s, p, p in base || (more && Under(p, CACHE)))
    {
      assert Sourced(s, p, p in base || (stray && Under(p, CACHE)));
    }
  }

  lemma AssemblerIsNotTaken(history: seq<Order>)
    ensures ASSEMBLER !in InBin(After(history).coreutils)
  {
    EveryHistoryKeeps(history, ASSEMBLER);
  }

  // ---- What came before does not matter ----

  /** What may still differ so late in a build: at first whatever is generated, then not
      cargo's file, then only the package lists. And stray caches, where there may be any. */
  predicate Open(left: nat, p: Path, stray: bool) {
    (left >= 1 && Under(p, DATABASE)) || (left >= 2 && (p == SAMPLE || p == SWEEP)) || (left >= 3 && p == CARGO)
    || (stray && Under(p, CACHE))
  }

  ghost predicate SameAt(a: Files, b: Files, p: Path) {
    (p in a <==> p in b) && (p in a ==> a[p] == b[p])
  }

  ghost predicate SameFiles(a: Files, b: Files, left: nat, stray: bool) {
    forall p :: !Open(left, p, stray) ==> SameAt(a, b, p)
  }

  ghost predicate Alike(a: State, b: State, left: nat, stray: bool) {
    && SameFiles(a.files, b.files, left, stray)
    && a.clients == b.clients && a.suites == b.suites && a.overlays == b.overlays && a.coreutils == b.coreutils
  }

  lemma {:induction false} SamePut(a: Files, b: Files, entries: seq<File>, left: nat, stray: bool)
    requires SameFiles(a, b, left, stray)
    ensures SameFiles(Put(a, entries), Put(b, entries), left, stray)
    decreases |entries|
  {
    if entries != [] {
      hide Open;
      var p, content := entries[0].path, entries[0].content;
      SamePut(a[p := content], b[p := content], entries[1..], left, stray);
    }
  }

  /** A file of the base install is back when a build begins to fill the stage if and only
      if no coreutils program was staged under its name: such names are taken out after the
      base install is put in. */
  lemma BaseFileIsBackExactly(s: State, base: Base, o: Options, p: Path)
    requires p in base
    ensures (p in Begun(s, base, o).files && Begun(s, base, o).files[p] == base[p]) <==> p !in InBin(s.coreutils)
  {
    hide Without;
  }

  /** So the stage begins as it would from nothing, but for what is generated, if and only if
      nothing of the base install was taken and all that is there is accounted for. */
  lemma BaseIsBackExactly(s: State, base: Base, o: Options, stray: bool)
    ensures Alike(Begun(s, base, o), Begun(EMPTY, base, o), 3, stray) <==> Kept(s, base, stray)
  {
    hide Kept, Alike, Begun;
    if Kept(s, base, stray) {
      BaseIsBack(s, base, o, stray);
    }
    if Alike(Begun(s, base, o), Begun(EMPTY, base, o), 3, stray) {
      BackIsKept(s, base, o, stray);
    }
  }

  lemma BaseIsBack(s: State, base: Files, o: Options, stray: bool)
    requires Kept(s, base, stray)
    ensures Alike(Begun(s, base, o), Begun(EMPTY, base, o), 3, stray)
  {
    hide Without;
    assert InBin([]) == [];
    var a, b := Begun(s, base, o).files, Begun(EMPTY, base, o).files;
    forall p | !Open(3, p, stray)
      ensures SameAt(a, b, p)
    {
      assert !Generated(p);
      assert Sourced(s, p, p in base || (stray && Under(p, CACHE)));
      assert p in base ==> p !in InBin(s.coreutils);
    }
  }

  lemma BackIsKept(s: State, base: Files, o: Options, stray: bool)
    requires Alike(Begun(s, base, o), Begun(EMPTY, base, o), 3, stray)
    ensures Kept(s, base, stray)
  {
    hide InBin, Begun, Open, SameAt, Sourced;
    var a, b := Begun(s, base, o).files, Begun(EMPTY, base, o).files;
    forall p
      ensures Sourced(s, p, p in base || (stray && Under(p, CACHE)))
      ensures p in InBin(s.coreutils) ==> p !in base
    {
      assert !Open(3, p, stray) ==> SameAt(a, b, p);
      SameIsKept(s, base, o, stray, p);
    }
  }

  lemma SameIsKept(s: State, base: Files, o: Options, stray: bool, p: Path)
    requires !Open(3, p, stray) ==> SameAt(Begun(s, base, o).files, Begun(EMPTY, base, o).files, p)
    ensures Sourced(s, p, p in base || (stray && Under(p, CACHE)))
    ensures p in InBin(s.coreutils) ==> p !in base
  {
    hide Without, Open;
    assert InBin([]) == [];
    if p in InBin(s.coreutils) {
      var i :| 0 <= i < |s.coreutils| && p == InBin(s.coreutils)[i];
      BinIsNotOpen(s.coreutils[i], stray);
    } else if Open(3, p, stray) {
      OpenIsKnown(p, stray);
    }
  }

  lemma OpenIsKnown(p: Path, stray: bool)
    requires Open(3, p, stray)
    ensures Generated(p) || (stray && Under(p, CACHE))
  {
  }

  lemma {:induction false} CoredAlike(a: State, b: State, programs: seq<Candidate>, stray: bool)
    requires Alike(a, b, 3, stray)
    ensures Alike(Cored(a, programs), Cored(b, programs), 3, stray)
    decreases |programs|
  {
    hide Alike, CoredBy;
    if programs != [] {
      CoredByAlike(a, b, programs[0], stray);
      CoredAlike(CoredBy(a, programs[0]), CoredBy(b, programs[0]), programs[1..], stray);
    }
  }

  lemma CoredByAlike(a: State, b: State, c: Candidate, stray: bool)
    requires Alike(a, b, 3, stray)
    ensures Alike(CoredBy(a, c), CoredBy(b, c), 3, stray)
  {
    var name := StagedAs(c.name);
    BinIsNotOpen(name, stray);
    BinIsNotOpen(Upper(name) + ".ELF", stray);
    hide Open, Upper;
    assert BIN + (Upper(name) + ".ELF") == BIN + Upper(name) + ".ELF";
    assert SameAt(a.files, b.files, BIN + name) && SameAt(a.files, b.files, BIN + Upper(name) + ".ELF");
  }

  lemma BinIsNotOpen(name: string, stray: bool)
    ensures !Open(3, BIN + name, stray)
  {
    var p := BIN + name;
    assert p[0] == 'u';
    assert DATABASE[0] == CACHE[0] == 'v' && CARGO[0] == '.' && SAMPLE[0] == 'e' && SWEEP[0] == 'e';
  }

  lemma {:induction false} SuitedAlike(a: State, b: State, suites: seq<seq<Candidate>>, stray: bool)
    requires Alike(a, b, 3, stray)
    ensures Alike(Suited(a, suites), Suited(b, suites), 3, stray)
    decreases |suites|
  {
    hide Put, SuiteFiles, SameFiles;
    if suites != [] {
      var entries := SuiteFiles(suites[0]);
      SamePut(a.files, b.files, entries, 3, stray);
      SuitedAlike(a.(files := Put(a.files, entries), suites := a.suites + Paths(entries)),
                  b.(files := Put(b.files, entries), suites := b.suites + Paths(entries)), suites[1..], stray);
    }
  }

  lemma ClientedAlike(a: State, b: State, clients: Clients, stray: bool)
    requires Alike(a, b, 3, stray)
    ensures Alike(Cliented(a, clients), Cliented(b, clients), 3, stray)
  {
    hide Put, SameFiles, Inside, Globbed, Programs, Paths;
    var programs, share := Programs(clients.programs), Inside("usr/", Globbed(clients.share));
    SamePut(a.files, b.files, programs, 3, stray);
    SamePut(Put(a.files, programs), Put(b.files, programs), share, 3, stray);
  }

  lemma {:induction false} OverlaidAlike(a: State, b: State, overlays: seq<Overlay>, stray: bool)
    requires Alike(a, b, 3, stray)
    ensures Overlaid(a, overlays).1 == Overlaid(b, overlays).1
    ensures Alike(Overlaid(a, overlays).0, Overlaid(b, overlays).0, 3, stray)
    decreases |overlays|
  {
    hide Put, SameFiles, Paths;
    if overlays != [] && overlays[0].Tree? {
      var entries := overlays[0].files;
      SamePut(a.files, b.files, entries, 3, stray);
      OverlaidAlike(OverlaidBy(a, entries), OverlaidBy(b, entries), overlays[1..], stray);
    }
  }

  lemma FilledAlike(a: State, b: State, o: Options, stray: bool)
    requires Alike(a, b, 3, stray)
    ensures Filled(a, o).1 == Filled(b, o).1
    ensures Alike(Filled(a, o).0, Filled(b, o).0, 3, stray)
  {
    hide Alike, Cored, Cliented, Suited, Overlaid;
    var a, b := a, b;
    if o.coreutils.Build? {
      CoredAlike(a, b, o.coreutils.programs, stray);
      a, b := Cored(a, o.coreutils.programs), Cored(b, o.coreutils.programs);
      if !o.coreutils.whole {
        return;
      }
    }
    if o.clients.Some? {
      ClientedAlike(a, b, o.clients.value, stray);
      a, b := Cliented(a, o.clients.value), Cliented(b, o.clients.value);
    }
    SuitedAlike(a, b, o.suites, stray);
    OverlaidAlike(Suited(a, o.suites), Suited(b, o.suites), o.overlays, stray);
  }

  lemma MovedAlike(a: State, b: State, ours: Bytes, o: Options, stray: bool)
    requires Alike(a, b, 3, stray)
    ensures Alike(Configured(Moved(a, ours, o.toolchain), o), Configured(Moved(b, ours, o.toolchain), o), 2, stray)
  {
    BinIsNotOpen("as", stray);
    assert BIN + "as" == ASSEMBLER;
    assert SameAt(a.files, b.files, ASSEMBLER);
    forall p | !Open(2, p, stray)
      ensures SameAt(Configured(Moved(a, ours, o.toolchain), o).files,
                     Configured(Moved(b, ours, o.toolchain), o).files, p)
    {
      assert p != CARGO ==> SameAt(a.files, b.files, p);
    }
  }

  lemma OutsideAlike(a: Files, b: Files, left: nat)
    requires left <= 3 && SameFiles(a, b, left, false)
    ensures Outside(a) == Outside(b)
  {
    forall p
      ensures p in Outside(a) <==> p in Outside(b)
      ensures p in Outside(a) && p in Outside(b) ==> Outside(a)[p] == Outside(b)[p]
    {
      assert !Open(left, p, false) ==> SameAt(a, b, p);
    }
  }

  lemma FontsAreNotOpen(stray: bool)
    ensures !Open(3, FONTS, stray) && FONTS != ASSEMBLER && FONTS != BINUTILS_ASSEMBLER && FONTS != CARGO
  {
    assert DATABASE[0] == CACHE[0] == 'v' && FONTS[0] == 'e' && CARGO[0] == '.' && |FONTS| == 20 && |SAMPLE| == 18
           && |SWEEP| == 17;
    assert ASSEMBLER[0] == BINUTILS_ASSEMBLER[0] == 'u';
  }

  /** The cache builder starts with none, so that where it runs no stray one is left. */
  lemma CachedAlike(a: State, b: State, o: Options, stray: bool)
    requires Alike(a, b, 2, stray)
    ensures Cached(a, o).1 == Cached(b, o).1
    ensures Alike(Cached(a, o).0, Cached(b, o).0, 2, stray && !(FONTS in b.files && o.fontTool))
  {
    hide Put, Inside, Outside, Paths, Under;
    FontsAreNotOpen(stray);
    assert !Open(2, FONTS, stray);
    assert SameAt(a.files, b.files, FONTS);
    if FONTS in b.files && o.fontTool {
      var a', b' := NotUnder(a.files, CACHE), NotUnder(b.files, CACHE);
      forall p | !Open(2, p, false)
        ensures SameAt(a', b', p)
      {
        assert !Under(p, CACHE) ==> SameAt(a.files, b.files, p);
      }
      OutsideAlike(a', b', 2);
      SamePut(a', b', Inside(CACHE, o.caches(Outside(a'))), 2, false);
    }
  }

  lemma SweptAlike(a: State, b: State, o: Options)
    requires Alike(a, b, 2, false)
    ensures Alike(Swept(a, o), Swept(b, o), 1, false)
  {
    hide Outside, Ascii;
    OutsideAlike(a.files, b.files, 2);
    forall p | !Open(1, p, false)
      ensures SameAt(Swept(a, o).files, Swept(b, o).files, p)
    {
      assert !Open(2, p, false) ==> SameAt(a.files, b.files, p);
    }
  }

  lemma ListedAlike(a: State, b: State, o: Options)
    requires Alike(a, b, 1, false)
    ensures Listed(a, o).1 == Listed(b, o).1 && (Listed(a, o).1 ==> Listed(a, o) == Listed(b, o))
  {
    hide Put, Inside;
    var a', b' := NotUnder(a.files, DATABASE), NotUnder(b.files, DATABASE);
    forall p
      ensures SameAt(a', b', p)
    {
      assert !Open(1, p, false) ==> SameAt(a.files, b.files, p);
    }
    assert forall p :: p in a' ==> SameAt(a', b', p);
    assert forall p :: p in b' ==> SameAt(a', b', p);
    assert a' == b';
  }

  /** From there on nothing is left of what may have differed. */
  lemma FinishedAlike(a: State, b: State, ours: Bytes, o: Options, stray: bool)
    requires Alike(a, b, 3, stray) && (stray ==> FONTS in b.files && o.fontTool)
    ensures Finished(a, ours, o).1 == Finished(b, ours, o).1
    ensures Finished(a, ours, o).1 ==> Finished(a, ours, o) == Finished(b, ours, o)
  {
    hide Alike, Cached, Swept, Listed;
    MovedAlike(a, b, ours, o, stray);
    FontsStay(b, ours, o);
    hide Moved, Configured;
    var ca, cb := Configured(Moved(a, ours, o.toolchain), o), Configured(Moved(b, ours, o.toolchain), o);
    CachedAlike(ca, cb, o, stray);
    if Cached(ca, o).1 {
      SweptAlike(Cached(ca, o).0, Cached(cb, o).0, o);
      ListedAlike(Swept(Cached(ca, o).0, o), Swept(Cached(cb, o).0, o), o);
    }
  }

  lemma FontsStay(s: State, ours: Bytes, o: Options)
    ensures FONTS in Configured(Moved(s, ours, o.toolchain), o).files <==> FONTS in s.files
  {
    FontsAreNotOpen(false);
  }

  /** Whether a build comes to building its caches. */
  predicate CachesFonts(s: State, base: Base, o: Options) {
    o.fontTool && FONTS in Filled(Begun(s, base, o), o).0.files
  }

  /** What was in the stage before does not matter to a build that comes to its end, so long
      as nothing was taken and all was accounted for. */
  lemma WhatWasThereDoesNotMatter(s: State, base: Base, o: Options, stray: bool)
    requires Kept(s, base, stray) && (stray ==> CachesFonts(EMPTY, base, o))
    ensures var (r, ok) := Staged(s, base, o);
      var (fresh', done) := Staged(EMPTY, base, o);
      ok == done && (ok ==> r == fresh')
  {
    hide Kept, Alike, Begun, Installed, Forgotten, Filled, Finished;
    BaseIsBack(s, base, o, stray);
    var a, b := Begun(s, base, o), Begun(EMPTY, base, o);
    FilledAlike(a, b, o, stray);
    FinishedAlike(Filled(a, o).0, Filled(b, o).0, base[ASSEMBLER], o, stray);
  }

  /** A build that comes to its end leaves the same files and the same records whatever
      was built into the directory before it, by builds that ended and builds that did not,
      of base installs with the same names in them; and whether it comes to its end does not
      depend on them either. Where a cache builder has failed before, this takes a build
      that builds its caches. */
  lemma HistoryDoesNotMatter(history: seq<Order>, base: Base, o: Options)
    requires SameNames(history, base) && (CachesStopped(history) ==> CachesFonts(EMPTY, base, o))
    ensures var (s, ok) := Staged(After(history), base, o);
      var (fresh', done) := Staged(EMPTY, base, o);
      ok == done && (ok ==> s == fresh')
  {
    hide Kept, Staged, After, CachesStopped, SameNames, CachesFonts;
    SameNamesKeep(history, base);
    WhatWasThereDoesNotMatter(After(history), base, o, CachesStopped(history));
  }

  // ---- Stray caches ----

  /** One stage has what the other has there, or has something the other has not. */
  ghost predicate MoreAt(a: Files, b: Files, p: Path) {
    SameAt(a, b, p) || (p in a && p !in b)
  }

  lemma {:induction false} PutAt(a: Files, b: Files, entries: seq<File>, p: Path)
    requires MoreAt(a, b, p)
    ensures MoreAt(Put(a, entries), Put(b, entries), p)
    ensures SameAt(a, b, p) ==> SameAt(Put(a, entries), Put(b, entries), p)
    ensures p in a ==> p in Put(a, entries)
    decreases |entries|
  {
    if entries != [] {
      PutAt(a[entries[0].path := entries[0].content], b[entries[0].path := entries[0].content], entries[1..], p);
    }
  }

  lemma {:induction false} CoredAt(s: State, programs: seq<Candidate>, p: Path)
    requires !Under(p, BIN)
    ensures SameAt(Cored(s, programs).files, s.files, p)
    decreases |programs|
  {
    hide Upper, StagedAs, Taken;
    if programs != [] {
      CoredAt(CoredBy(s, programs[0]), programs[1..], p);
      assert Under(BIN + StagedAs(programs[0].name), BIN);
    }
  }

  lemma {:induction false} SuitedAt(a: State, b: State, suites: seq<seq<Candidate>>, p: Path)
    requires MoreAt(a.files, b.files, p)
    ensures MoreAt(Suited(a, suites).files, Suited(b, suites).files, p)
    ensures SameAt(a.files, b.files, p) ==> SameAt(Suited(a, suites).files, Suited(b, suites).files, p)
    ensures p in a.files ==> p in Suited(a, suites).files
    decreases |suites|
  {
    hide Put, SuiteFiles, Paths, MoreAt, SameAt;
    if suites != [] {
      var entries := SuiteFiles(suites[0]);
      PutAt(a.files, b.files, entries, p);
      SuitedAt(a.(files := Put(a.files, entries), suites := a.suites + Paths(entries)),
               b.(files := Put(b.files, entries), suites := b.suites + Paths(entries)), suites[1..], p);
    }
  }

  lemma {:induction false} OverlaidAt(a: State, b: State, overlays: seq<Overlay>, p: Path)
    requires MoreAt(a.files, b.files, p)
    ensures MoreAt(Overlaid(a, overlays).0.files, Overlaid(b, overlays).0.files, p)
    ensures SameAt(a.files, b.files, p) ==> SameAt(Overlaid(a, overlays).0.files, Overlaid(b, overlays).0.files, p)
    ensures p in a.files ==> p in Overlaid(a, overlays).0.files
    decreases |overlays|
  {
    hide Put, Paths, MoreAt, SameAt;
    if overlays != [] && overlays[0].Tree? {
      PutAt(a.files, b.files, overlays[0].files, p);
      OverlaidAt(OverlaidBy(a, overlays[0].files), OverlaidBy(b, overlays[0].files), overlays[1..], p);
    }
  }

  /** A stray cache stays while the stage is filled, unless this build puts a file of its
      own there. */
  lemma FilledAt(a: State, b: State, o: Options, p: Path)
    requires MoreAt(a.files, b.files, p) && !Under(p, BIN)
    ensures MoreAt(Filled(a, o).0.files, Filled(b, o).0.files, p)
    ensures SameAt(a.files, b.files, p) ==> SameAt(Filled(a, o).0.files, Filled(b, o).0.files, p)
    ensures p in a.files ==> p in Filled(a, o).0.files
  {
    hide Cored, Suited, Overlaid, Put, Paths, Inside, Globbed, Programs;
    var a, b := a, b;
    if o.coreutils.Build? {
      CoredAt(a, o.coreutils.programs, p);
      CoredAt(b, o.coreutils.programs, p);
      a, b := Cored(a, o.coreutils.programs), Cored(b, o.coreutils.programs);
      if !o.coreutils.whole {
        return;
      }
    }
    if o.clients.Some? {
      var programs, share := Programs(o.clients.value.programs), Inside("usr/", Globbed(o.clients.value.share));
      PutAt(a.files, b.files, programs, p);
      PutAt(Put(a.files, programs), Put(b.files, programs), share, p);
      a, b := Cliented(a, o.clients.value), Cliented(b, o.clients.value);
    }
    SuitedAt(a, b, o.suites, p);
    OverlaidAt(Suited(a, o.suites), Suited(b, o.suites), o.overlays, p);
  }

  lemma CachesAreElsewhere(p: Path)
    requires Under(p, CACHE)
    ensures !Under(p, BIN) && !Generated(p) && p != ASSEMBLER && p != BINUTILS_ASSEMBLER
    ensures p != SAMPLE && p != SWEEP && p != CARGO
  {
    assert p[0] == CACHE[0] == 'v' && p[4] == CACHE[4] == 'c' && DATABASE[4] == 'l';
    assert BIN[0] == ASSEMBLER[0] == BINUTILS_ASSEMBLER[0] == 'u' && SAMPLE[0] == SWEEP[0] == 'e' && CARGO[0] == '.';
  }

  /** And while it is finished, if no caches are built. */
  lemma FinishedAt(s: State, ours: Bytes, o: Options, p: Path)
    requires Under(p, CACHE) && !(FONTS in s.files && o.fontTool) && Finished(s, ours, o).1
    ensures p in Finished(s, ours, o).0.files <==> p in s.files
  {
    hide Put, Inside, Paths, Outside, Ascii, Under;
    CachesAreElsewhere(p);
    FontsStay(s, ours, o);
    var swept := Swept(Configured(Moved(s, ours, o.toolchain), o), o);
    assert Cached(Configured(Moved(s, ours, o.toolchain), o), o) == (Configured(Moved(s, ours, o.toolchain), o), true);
    var rest := NotUnder(swept.files, DATABASE);
    assert p in rest <==> p in s.files;
    AreInside(DATABASE, o.lists(rest).value);
  }

  /** A cache left by a builder that failed, in the stage as a build begins to fill it. */
  ghost predicate Stray(s: State, base: Files, o: Options, p: Path) {
    Under(p, CACHE) && p in Begun(s, base, o).files && p !in base
  }

  /** Each is where this build puts a file of its own. */
  ghost predicate StraysCovered(s: State, base: Files, o: Options) {
    forall p :: Stray(s, base, o, p) ==> p in Filled(Begun(EMPTY, base, o), o).0.files
  }

  /** A cache builder writes down what it wrote when it has written all of it, so that one
      that fails leaves caches nothing takes out. A later build that builds none has them
      still, and so is what it would be from nothing if and only if it puts a file of its
      own wherever there is one. */
  lemma HistoryMattersExactly(history: seq<Order>, base: Base, o: Options)
    requires SameNames(history, base) && !CachesFonts(EMPTY, base, o)
    ensures var (s, ok) := Staged(After(history), base, o);
      var (fresh', done) := Staged(EMPTY, base, o);
      ok && done ==> (s == fresh' <==> StraysCovered(After(history), base, o))
  {
    hide Kept, Alike, Begun, Installed, Forgotten, Filled, Finished, After, CachesStopped, SameAt, MoreAt, Under;
    var before := After(history);
    SameNamesKeep(history, base);
    StrayOrNot(before, base, CachesStopped(history), true);
    BaseIsBack(before, base, o, true);
    var a, b := Begun(before, base, o), Begun(EMPTY, base, o);
    FilledAlike(a, b, o, true);
    FontsAlike(Filled(a, o).0, Filled(b, o).0);
    var ours := base[ASSEMBLER];
    if StraysCovered(before, base, o) {
      CoveredAlike(before, base, o);
      FinishedAlike(Filled(a, o).0, Filled(b, o).0, ours, o, false);
    } else if Staged(before, base, o).1 && Staged(EMPTY, base, o).1 {
      var p :| Stray(before, base, o, p) && p !in Filled(b, o).0.files;
      CachesAreElsewhere(p);
      BegunAt(before, base, o, p);
      FilledAt(a, b, o, p);
      FinishedAt(Filled(a, o).0, ours, o, p);
      FinishedAt(Filled(b, o).0, ours, o, p);
    }
  }

  lemma FontsAlike(a: State, b: State)
    requires Alike(a, b, 3, true)
    ensures FONTS in a.files <==> FONTS in b.files
  {
    FontsAreNotOpen(true);
    assert SameAt(a.files, b.files, FONTS);
  }

  lemma BegunAt(s: State, base: Files, o: Options, p: Path)
    ensures Under(p, CACHE) && Kept(s, base, true) ==> MoreAt(Begun(s, base, o).files, Begun(EMPTY, base, o).files, p)
    ensures Under(p, CACHE) && Kept(s, base, true) && !Stray(s, base, o, p) ==>
      SameAt(Begun(s, base, o).files, Begun(EMPTY, base, o).files, p)
  {
    hide Without;
    assert InBin([]) == [];
    assert Kept(s, base, true) && p in base ==> p !in InBin(s.coreutils);
    assert Kept(s, base, true) ==> Sourced(s, p, p in base || Under(p, CACHE));
  }

  lemma CoveredAlike(s: State, base: Files, o: Options)
    requires Kept(s, base, true) && StraysCovered(s, base, o)
    requires Alike(Filled(Begun(s, base, o), o).0, Filled(Begun(EMPTY, base, o), o).0, 3, true)
    ensures Alike(Filled(Begun(s, base, o), o).0, Filled(Begun(EMPTY, base, o), o).0, 3, false)
  {
    hide Kept, Begun, Filled;
    var a, b := Begun(s, base, o), Begun(EMPTY, base, o);
    forall p | !Open(3, p, false)
      ensures SameAt(Filled(a, o).0.files, Filled(b, o).0.files, p)
    {
      if Under(p, CACHE) {
        CachesAreElsewhere(p);
        BegunAt(s, base, o, p);
        FilledAt(a, b, o, p);
      } else {
        assert !Open(3, p, true);
      }
    }
  }

  /** A build of the base alone, with a cache builder or not, which fails or not. */
  function Bare(tool: bool, stops: bool): Options {
    Options(None, NoCoreutils, None, [], [], false, [], tool, _ => [File("x", [])], stops, true, _ => [], _ => Some([]))
  }

  lemma BareFills(s: State, base: Files, tool: bool, stops: bool)
    ensures Filled(s, Bare(tool, stops)) == (s, true)
  {
  }

  /** One build whose cache builder fails, and then one without a cache builder: the second
      has a cache of the first's, which from nothing it would not have. */
  lemma AStrayCacheStays(base: Base)
    requires FONTS in base && forall p :: p in base ==> !Under(p, CACHE)
    ensures var p: Path, o := CACHE + "x", Bare(false, false);
      var (s, ok) := Staged(After([Order(base, Bare(true, true))]), base, o);
      var (fresh', done) := Staged(EMPTY, base, o);
      ok && done && p in s.files && p !in fresh'.files
  {
    var p: Path, o := CACHE + "x", Bare(false, false);
    assert Under(p, CACHE);
    CachesAreElsewhere(p);
    hide Under;
    var first := After([Order(base, Bare(true, true))]);
    AfterOne(base, p);
    BareFills(Begun(first, base, o), base, false, false);
    BareFills(Begun(EMPTY, base, o), base, false, false);
    StraysAreBegunWith(first, base, o, p);
    hide Begun, Filled, After;
    BareFinishes(Begun(first, base, o), base[ASSEMBLER]);
    BareFinishes(Begun(EMPTY, base, o), base[ASSEMBLER]);
    FinishedAt(Begun(first, base, o), base[ASSEMBLER], o, p);
    FinishedAt(Begun(EMPTY, base, o), base[ASSEMBLER], o, p);
  }

  lemma BareFinishes(s: State, ours: Bytes)
    ensures Finished(s, ours, Bare(false, false)).1
  {
    hide Moved, Configured, Swept, Put, Inside;
  }

  lemma StraysAreBegunWith(s: State, base: Files, o: Options, p: Path)
    requires p in s.files && p !in base && !Under(p, BIN)
    requires p !in s.clients && p !in s.suites && p !in s.overlays && s.coreutils == []
    ensures p in Begun(s, base, o).files && p !in Begun(EMPTY, base, o).files
  {
    hide Without;
    assert InBin([]) == [];
  }

  lemma AfterFirst(order: Order)
    ensures After([order]) == Staged(EMPTY, order.base, order.asked).0
  {
    hide Staged;
    assert [order][..|[order]| - 1] == [];
  }

  lemma AfterOne(base: Base, p: Path)
    requires FONTS in base && p == CACHE + "x"
    ensures var s := After([Order(base, Bare(true, true))]);
      p in s.files && s.clients == [] && s.suites == [] && s.overlays == [] && s.coreutils == []
  {
    var o := Bare(true, true);
    AfterFirst(Order(base, o));
    hide After;
    var begun := Begun(EMPTY, base, o);
    BareFills(begun, base, true, true);
    FontsAreNotOpen(false);
    assert FONTS in begun.files;
    var configured := Configured(Moved(begun, base[ASSEMBLER], false), o);
    FontsStay(begun, base[ASSEMBLER], o);
    var kept := NotUnder(configured.files, CACHE);
    assert Staged(EMPTY, base, o) == Finished(begun, base[ASSEMBLER], o);
    assert Inside(CACHE, [File("x", [])])[0].path == p;
    assert Paths(Inside(CACHE, [File("x", [])]))[0] == p;
    assert p in Put(kept, Inside(CACHE, [File("x", [])]));
  }

  // ---- What a finished build holds ----

  ghost predicate Untouched(s: State, base: Files, p: Path)
    requires p in base
  {
    p in s.clients || p in s.suites || p in s.overlays || (p in s.files && s.files[p] == base[p])
  }

  lemma PutElsewhere(files: Files, dir: string, entries: seq<File>, p: Path)
    requires !Under(p, dir)
    ensures p in Put(files, Inside(dir, entries)) <==> p in files
    ensures p in files ==> Put(files, Inside(dir, entries))[p] == files[p]
  {
    var inside := Inside(dir, entries);
    assert forall i :: 0 <= i < |inside| ==> Under(Paths(inside)[i], dir);
  }

  lemma {:induction false} SuitedTouches(s: State, base: Files, suites: seq<seq<Candidate>>, p: Path)
    requires p in base && Untouched(s, base, p)
    ensures Untouched(Suited(s, suites), base, p)
    decreases |suites|
  {
    hide Put, SuiteFiles, Paths;
    if suites != [] {
      var entries := SuiteFiles(suites[0]);
      SuitedTouches(s.(files := Put(s.files, entries), suites := s.suites + Paths(entries)), base, suites[1..], p);
    }
  }

  lemma {:induction false} OverlaidTouches(s: State, base: Files, overlays: seq<Overlay>, p: Path)
    requires p in base && Untouched(s, base, p)
    ensures Untouched(Overlaid(s, overlays).0, base, p)
    decreases |overlays|
  {
    hide Put, Paths;
    if overlays != [] && overlays[0].Tree? {
      OverlaidTouches(OverlaidBy(s, overlays[0].files), base, overlays[1..], p);
    }
  }

  lemma FilledTouches(s: State, base: Files, o: Options, p: Path)
    requires p in base && p in s.files && s.files[p] == base[p]
    ensures Untouched(Filled(s, o).0, base, p)
  {
    hide Cored, Suited, Overlaid, Put, Paths, Inside, Globbed, Programs, Sourced;
    var s := s;
    if o.coreutils.Build? {
      MoreKnown(s, p, true, true);
      CoredKeeps(s, o.coreutils.programs, p, true);
      s := Cored(s, o.coreutils.programs);
      if !o.coreutils.whole {
        return;
      }
    }
    if o.clients.Some? {
      GlobbedAreShared(o.clients.value.share, p);
      s := Cliented(s, o.clients.value);
    }
    SuitedTouches(s, base, o.suites, p);
    OverlaidTouches(Suited(s, o.suites), base, o.overlays, p);
  }

  /** What the last steps write is in places of its own. */
  lemma CachedElsewhere(s: State, o: Options, p: Path)
    requires Under(p, CACHE) ==> !(FONTS in s.files && o.fontTool)
    ensures SameAt(Cached(s, o).0.files, s.files, p)
    ensures s.clients == Cached(s, o).0.clients && s.suites == Cached(s, o).0.suites
            && s.overlays <= Cached(s, o).0.overlays
  {
    hide Put, Inside, Paths, Outside, Under;
    var kept := NotUnder(s.files, CACHE);
    if !Under(p, CACHE) {
      PutElsewhere(kept, CACHE, o.caches(Outside(kept)), p);
    }
  }

  lemma ListedElsewhere(s: State, o: Options, p: Path)
    requires !Under(p, DATABASE)
    ensures SameAt(Listed(s, o).0.files, s.files, p)
    ensures var r := Listed(s, o).0; r.clients == s.clients && r.suites == s.suites && r.overlays == s.overlays
  {
    hide Put, Inside, Under;
    var rest := NotUnder(s.files, DATABASE);
    if o.lists(rest).Some? {
      PutElsewhere(rest, DATABASE, o.lists(rest).value, p);
    }
  }

  /** So a file that is neither generated nor a cache built anew is finished as it was filled,
      but for the assembler's move. */
  lemma FinishedElsewhere(s: State, ours: Bytes, o: Options, p: Path)
    requires !Generated(p) && (Under(p, CACHE) ==> !(FONTS in s.files && o.fontTool))
    ensures var r := Finished(s, ours, o).0;
      && SameAt(r.files, Moved(s, ours, o.toolchain).files, p)
      && r.clients == s.clients && r.suites == s.suites && Moved(s, ours, o.toolchain).overlays <= r.overlays
  {
    hide Moved, Cached, Listed, Ascii, Outside, Under;
    var moved := Moved(s, ours, o.toolchain);
    var configured := Configured(moved, o);
    FontsStay(s, ours, o);
    CachedElsewhere(configured, o, p);
    var cached := Cached(configured, o).0;
    ListedElsewhere(Swept(cached, o), o, p);
    MovedRecords(s, ours, o.toolchain);
  }

  lemma MovedRecords(s: State, ours: Bytes, toolchain: bool)
    ensures Moved(s, ours, toolchain).clients == s.clients && Moved(s, ours, toolchain).suites == s.suites
  {
  }

  lemma MovedTouches(s: State, base: Files, toolchain: bool, p: Path)
    requires ASSEMBLER in base && p in base && Untouched(s, base, p)
    ensures Untouched(Moved(s, base[ASSEMBLER], toolchain), base, p)
  {
  }

  lemma FinishedTouches(s: State, base: Files, o: Options, p: Path)
    requires ASSEMBLER in base && p in base && Untouched(s, base, p)
    requires !Generated(p) && !Under(p, CACHE)
    ensures Untouched(Finished(s, base[ASSEMBLER], o).0, base, p)
  {
    hide Finished, Moved, Under;
    MovedTouches(s, base, o.toolchain, p);
    FinishedElsewhere(s, base[ASSEMBLER], o, p);
    MovedRecords(s, base[ASSEMBLER], o.toolchain);
  }

  /** After any history, of whatever base installs: a file of this build's base install that
      this build put nothing over is there, as the base install has it, if and only if no
      coreutils program had been staged under its name. */
  lemma BaseStaysExactly(history: seq<Order>, base: Base, o: Options, p: Path)
    requires p in base && !Generated(p) && !Under(p, CACHE)
    ensures var s := After(history);
      var (r, ok) := Staged(s, base, o);
      ok && !Recorded(r, p) ==>
        && (p in r.files <==> p !in InBin(s.coreutils))
        && (p in r.files ==> r.files[p] == base[p])
  {
    hide Finished, Filled, Begun, Sourced, After, Under, Generated, InBin;
    var s := After(history);
    AssemblerIsNotTaken(history);
    BaseFileIsBackExactly(s, base, o, p);
    var begun := Begun(s, base, o);
    if p !in InBin(s.coreutils) {
      FilledTouches(begun, base, o, p);
      FinishedTouches(Filled(begun, o).0, base, o, p);
    } else {
      TakenIsOut(s, base, o, p);
      FilledSourced(begun, o, p, false);
      FinishedSourced(Filled(begun, o).0, base[ASSEMBLER], o, p, false);
      var (r, ok) := Staged(s, base, o);
      if ok && !Recorded(r, p) {
        NoSource(r, p);
      }
    }
  }

  lemma TakenIsOut(s: State, base: Base, o: Options, p: Path)
    requires p in InBin(s.coreutils)
    ensures Sourced(Begun(s, base, o), p, false)
  {
    hide Without;
  }

  lemma NoSource(s: State, p: Path)
    requires Sourced(s, p, false) && !Recorded(s, p) && !Generated(p)
    ensures p !in s.files
  {
  }

  /** So a file that every base install has had is always there, unless this build wrote down
      that it put another in its place. */
  lemma BaseStays(history: seq<Order>, base: Base, o: Options, p: Path)
    requires p in base && !Lacked(history, p) && !Generated(p) && !Under(p, CACHE)
    ensures var (s, ok) := Staged(After(history), base, o); ok ==> Untouched(s, base, p)
  {
    hide Finished, Filled, Begun, Untouched, After, Under, Generated, Lacked, InBin;
    var before := After(history);
    EveryHistoryKeeps(history, p);
    BaseFileIsBackExactly(before, base, o, p);
    var begun := Begun(before, base, o);
    FilledTouches(begun, base, o, p);
    FinishedTouches(Filled(begun, o).0, base, o, p);
  }

  /** A file that is neither this build's base install's nor generated, and that this build
      does not write down, is there after it if and only if it was there before, written
      down nowhere - and is no cache, or this build builds none. */
  lemma LeftOverExactly(s: State, base: Base, o: Options, p: Path)
    requires p !in base && !Generated(p)
    ensures var (r, ok) := Staged(s, base, o);
      ok && !Recorded(r, p) ==>
        (p in r.files <==> p in s.files && !Recorded(s, p) && !(Under(p, CACHE) && CachesFonts(s, base, o)))
  {
    hide Finished, Filled, Begun, Sourced, Recorded, Under, Generated;
    var begun := Begun(s, base, o);
    BegunLeftOver(s, base, o, p);
    var filled, ours := Filled(begun, o).0, base[ASSEMBLER];
    var (r, ok) := Staged(s, base, o);
    if p !in begun.files {
      MoreSourced(begun, p);
      FilledSourced(begun, o, p, false);
      FinishedSourced(filled, ours, o, p, false);
      if ok && !Recorded(r, p) {
        NoSource(r, p);
      }
    } else if ok && !Recorded(r, p) {
      FilledStays(begun, o, p);
      FinishedLeftOver(filled, ours, o, p);
    }
  }

  lemma MoreSourced(s: State, p: Path)
    requires p !in s.files
    ensures Sourced(s, p, false)
  {
  }

  lemma BegunLeftOver(s: State, base: Base, o: Options, p: Path)
    requires p !in base
    ensures p in Begun(s, base, o).files <==> p in s.files && !Recorded(s, p)
  {
    hide Without;
  }

  lemma FilledStays(s: State, o: Options, p: Path)
    requires p in s.files
    ensures p in Filled(s, o).0.files
  {
    hide Cored, Suited, Overlaid, Put, Paths, Inside, Globbed, Programs, Sourced;
    var s := s;
    if o.coreutils.Build? {
      MoreKnown(s, p, true, true);
      CoredKeeps(s, o.coreutils.programs, p, true);
      s := Cored(s, o.coreutils.programs);
      if !o.coreutils.whole {
        return;
      }
    }
    if o.clients.Some? {
      s := Cliented(s, o.clients.value);
    }
    SuitedAt(s, s, o.suites, p);
    OverlaidAt(Suited(s, o.suites), Suited(s, o.suites), o.overlays, p);
  }

  /** What is in the stage when it is filled is there at the end, but for a cache where
      caches are built. */
  lemma FinishedLeftOver(s: State, ours: Bytes, o: Options, p: Path)
    requires p in s.files && !Generated(p) && p != ASSEMBLER && Finished(s, ours, o).1
    requires !Recorded(Finished(s, ours, o).0, p)
    ensures p in Finished(s, ours, o).0.files <==> !(Under(p, CACHE) && FONTS in s.files && o.fontTool)
  {
    hide Finished, Recorded, Generated, Under;
    if !Under(p, CACHE) {
      FinishedElsewhere(s, ours, o, p);
      assert p in Moved(s, ours, o.toolchain).files;
    } else if FONTS in s.files && o.fontTool {
      CachesAreFresh(s, ours, o, p);
      NoSource(Finished(s, ours, o).0, p);
    } else {
      FinishedAt(s, ours, o, p);
    }
  }

  lemma CachesAreFresh(s: State, ours: Bytes, o: Options, p: Path)
    requires Under(p, CACHE) && FONTS in s.files && o.fontTool && Finished(s, ours, o).1
    ensures Sourced(Finished(s, ours, o).0, p, false)
  {
    hide Sourced, Moved, Configured, Cached, Swept, Listed, Under;
    FontsStay(s, ours, o);
    var configured := Configured(Moved(s, ours, o.toolchain), o);
    MoreKnown(configured, p, true, true);
    CachedSourced(configured, o, p, true);
    var cached := Cached(configured, o).0;
    SweptSourced(cached, o, p, false);
    ListedSourced(Swept(cached, o), o, p, false);
  }

  /** So there is nothing in the stage, but what an earlier base install had and this one
      lacks, that is not the base install's, this build's own by its records, or generated by
      it - or a stray cache, where a cache builder has failed and this build has not built its
      own. */
  lemma NothingIsLeftOver(history: seq<Order>, base: Base, o: Options, p: Path)
    requires Brought(history, p) ==> p in base
    requires p in Staged(After(history), base, o).0.files
    ensures var (s, ok) := Staged(After(history), base, o);
      || p in base || Generated(p) || Recorded(s, p)
      || (Under(p, CACHE) &&
          if ok then CachesStopped(history) && !CachesFonts(After(history), base, o)
          else CachesStopped(history) || o.cacheStops)
  {
    hide Staged, After, Recorded, Generated, CachesStopped, CachesFonts, Under, Brought;
    var before, stray := After(history), CachesStopped(history);
    var known := p in base || (stray && Under(p, CACHE));
    EveryHistoryKeeps(history, p);
    StagedSourced(before, base, o, p, known);
    if p !in base && !Generated(p) {
      LeftOverExactly(before, base, o, p);
    }
  }

  /** A build with coreutils' foo, and then one whose base install has gained a foo: the file
      is put in with the rest, and taken out again as coreutils'. */
  lemma AGainedFileIsLost(base: Base, content: Bytes)
    requires BIN + "foo" !in base && BIN + "FOO.ELF" !in base
    ensures var p: Path := BIN + "foo";
      var first := Bare(false, false).(coreutils := Build([Candidate("foo", [], true)], true));
      var (r, ok) := Staged(After([Order(base, first)]), base[p := content], Bare(false, false));
      ok && p !in r.files
  {
    var p: Path := BIN + "foo";
    var first := Bare(false, false).(coreutils := Build([Candidate("foo", [], true)], true));
    hide Staged, After, Bare, InBin;
    FooIsStaged(base, first);
    StagedIsLost([Order(base, first)], base[p := content], "foo");
  }

  /** A base file under a name coreutils was staged under is lost to a build that asks for
      nothing. */
  lemma StagedIsLost(history: seq<Order>, base: Base, name: Path)
    requires BIN + name in InBin(After(history).coreutils) && BIN + name in base
    ensures var (r, ok) := Staged(After(history), base, Bare(false, false)); ok && BIN + name !in r.files
  {
    hide Staged, After, Recorded, Generated, Under, Bare, InBin, Open;
    var p: Path := BIN + name;
    InBinIsPlain(name);
    BareEnds(After(history), base, p);
    BaseStaysExactly(history, base, Bare(false, false), p);
  }

  lemma InBinIsPlain(name: string)
    ensures !Generated(BIN + name) && !Under(BIN + name, CACHE)
  {
    BinIsNotOpen(name, true);
  }

  lemma FooIsStaged(base: Base, o: Options)
    requires o == Bare(false, false).(coreutils := Build([Candidate("foo", [], true)], true))
    requires BIN + "foo" !in base && BIN + "FOO.ELF" !in base
    ensures BIN + "foo" in InBin(After([Order(base, o)]).coreutils)
  {
    hide Begun, Filled, Finished, Cored, Bare, After;
    AfterFirst(Order(base, o));
    BareAsks();
    var begun := Begun(EMPTY, base, o);
    BegunFromNothing(base, o);
    OneProgramCored(begun, o.coreutils.programs[0]);
    FilledRecords(begun, o);
    FinishedRecords(Filled(begun, o).0, base[ASSEMBLER], o);
    assert InBin(["foo"])[0] == BIN + "foo";
  }

  lemma BareAsks()
    ensures Bare(false, false).installed == None
  {
  }

  lemma BegunFromNothing(base: Base, o: Options)
    ensures Begun(EMPTY, base, o).files == base && Begun(EMPTY, base, o).coreutils == []
  {
    assert InBin([]) == [];
  }

  lemma OneProgramCored(s: State, c: Candidate)
    requires c.name == "foo" && c.runs && s.coreutils == []
    requires BIN + "foo" !in s.files && BIN + "FOO.ELF" !in s.files
    ensures Cored(s, [c]).coreutils == ["foo"]
  {
    var one := [c];
    assert Upper("foo") == "FOO";
    assert BIN + Upper("foo") + ".ELF" == BIN + "FOO.ELF";
    assert one[1..] == [];
    assert Cored(s, one) == CoredBy(s, c);
  }

  lemma BareEnds(s: State, base: Base, p: Path)
    ensures var (r, ok) := Staged(s, base, Bare(false, false)); ok && !Recorded(r, p)
  {
    hide Begun, Put, Inside, Outside, NotUnder, Ascii;
    BareFills(Begun(s, base, Bare(false, false)), base, false, false);
    BareFinishes(Begun(s, base, Bare(false, false)), base[ASSEMBLER]);
    BegunRecords(s, base, Bare(false, false));
    assert InBin([]) == [];
  }

  lemma BegunRecords(s: State, base: Base, o: Options)
    ensures var b := Begun(s, base, o);
      b.clients == [] && b.suites == [] && b.overlays == [] && b.coreutils == []
  {
  }

  /** A build, and then one whose base install has dropped a file: it is there still. */
  lemma ADroppedFileStays(base: Base, p: Path, content: Bytes)
    requires p !in base && !Generated(p) && !Under(p, CACHE)
    ensures var (r, ok) := Staged(After([Order(base[p := content], Bare(false, false))]), base, Bare(false, false));
      ok && p in r.files
  {
    var o, old' := Bare(false, false), base[p := content];
    AfterFirst(Order(old', o));
    BareEnds(EMPTY, old', p);
    BaseStaysExactly([], old', o, p);
    assert InBin([]) == [];
    BareEnds(After([Order(old', o)]), base, p);
    LeftOverExactly(After([Order(old', o)]), base, o, p);
  }

  /** With a development set the command `as` is this system's own, whatever the set
      brought under that name. */
  lemma AsStays(base: Base, s: State, o: Options)
    requires o.toolchain
    ensures var (r, ok) := Staged(s, base, o); ok ==> ASSEMBLER in r.files && r.files[ASSEMBLER] == base[ASSEMBLER]
  {
    hide Filled, Begun, Installed, Forgotten, Finished;
    AssemblerIsElsewhere();
    FinishedElsewhere(Filled(Begun(s, base, o), o).0, base[ASSEMBLER], o, ASSEMBLER);
  }

  lemma AssemblerIsElsewhere()
    ensures !Generated(ASSEMBLER) && !Under(ASSEMBLER, CACHE)
  {
    assert ASSEMBLER[0] == 'u' && CACHE[0] == DATABASE[0] == 'v' && SAMPLE[0] == SWEEP[0] == 'e' && CARGO[0] == '.';
  }

  ghost predicate FromBuild(s: State, s': State, programs: seq<Candidate>, i: nat)
    requires i < |s'.coreutils|
  {
    var name := s'.coreutils[i];
    && !Taken(s.files, name)
    && exists k :: 0 <= k < |programs| && programs[k].runs && StagedAs(programs[k].name) == name &&
                   BIN + name in s'.files && s'.files[BIN + name] == programs[k].content
  }

  /** What a coreutils build adds: each program of it whose name was not taken, under
      either spelling; and in the end every program's name is. */
  lemma {:induction false} CoredExactly(s: State, programs: seq<Candidate>)
    ensures s.coreutils <= Cored(s, programs).coreutils
    ensures forall i :: |s.coreutils| <= i < |Cored(s, programs).coreutils| ==>
            FromBuild(s, Cored(s, programs), programs, i)
    ensures forall k :: 0 <= k < |programs| && programs[k].runs ==>
      Taken(Cored(s, programs).files, StagedAs(programs[k].name))
    ensures forall p :: p in s.files ==> p in Cored(s, programs).files && Cored(s, programs).files[p] == s.files[p]
    decreases |programs|
  {
    if programs != [] {
      hide Upper, StagedAs;
      var next := CoredBy(s, programs[0]);
      CoredExactly(next, programs[1..]);
      var end := Cored(next, programs[1..]);
      forall i | |s.coreutils| <= i < |end.coreutils|
        ensures FromBuild(s, end, programs, i)
      {
        if i >= |next.coreutils| {
          assert FromBuild(next, end, programs[1..], i);
          var name := end.coreutils[i];
          var k :| 0 <= k < |programs| - 1 && programs[1..][k].runs && StagedAs(programs[1..][k].name) == name &&
                   end.files[BIN + name] == programs[1..][k].content;
          assert programs[k + 1] == programs[1..][k];
        } else {
          assert end.coreutils[i] == next.coreutils[i] == StagedAs(programs[0].name);
        }
      }
      forall k | 0 <= k < |programs| && programs[k].runs
        ensures Taken(end.files, StagedAs(programs[k].name))
      {
        if k > 0 {
          assert programs[1..][k - 1] == programs[k];
        } else {
          assert Taken(next.files, StagedAs(programs[0].name));
        }
      }
    }
  }

  // ---- The stage itself ----

  class Stage {
    var files: Files
    var clients: seq<Path>
    var suites: seq<Path>
    var overlays: seq<Path>
    var coreutils: seq<Path>

    constructor ()
      ensures View() == EMPTY
    {
      files, clients, suites, overlays, coreutils := map[], [], [], [], [];
    }

    function View(): State
      reads this
    {
      State(files, clients, suites, overlays, coreutils)
    }

    method Remove(paths: seq<Path>)
      modifies `files
      ensures files == Without(old(files), paths)
    {
      for i := 0 to |paths|
        invariant Without(files, paths[i..]) == Without(old(files), paths)
      {
        assert paths[i..][1..] == paths[i + 1..];
        files := files - {paths[i]};
      }
    }

    /** What the last build took from elsewhere, back out. */
    method Forget()
      modifies this
      ensures View() == Forgotten(old(View()))
    {
      Remove(clients);
      clients := [];
      Remove(suites);
      suites := [];
      Remove(overlays);
      overlays := [];
    }

    /** The kernel's and the userland's own files, as far as their builds get. */
    method Install(base: Files, upTo: Option<set<Path>>) returns (ok: bool)
      modifies `files
      ensures View() == Installed(old(View()), base, upTo) && ok == upTo.None?
    {
      if upTo.None? {
        files := files + base;
        return true;
      }
      files := files + map p | p in base && p in upTo.value :: base[p];
      return false;
    }

    /** What the last build took from coreutils, back out. */
    method Uncore()
      modifies `files, `coreutils
      ensures View() == Uncored(old(View()))
    {
      for i := 0 to |coreutils|
        invariant unchanged(`coreutils)
        invariant Without(files, InBin(coreutils[i..])) == Without(old(files), InBin(coreutils))
      {
        assert coreutils[i..][1..] == coreutils[i + 1..];
        assert InBin(coreutils[i..])[1..] == InBin(coreutils[i + 1..]);
        files := files - {BIN + coreutils[i]};
      }
      coreutils := [];
    }

    method StageCoreutils(programs: seq<Candidate>)
      modifies `files, `coreutils
      ensures View() == Cored(old(View()), programs)
    {
      for i := 0 to |programs|
        invariant unchanged(`clients, `suites, `overlays)
        invariant Cored(View(), programs[i..]) == Cored(old(View()), programs)
      {
        assert programs[i..][1..] == programs[i + 1..];
        if programs[i].runs {
          var name := StagedAs(programs[i].name);
          if !(BIN + name in files || BIN + Upper(name) + ".ELF" in files) {
            files := files[BIN + name := programs[i].content];
            coreutils := coreutils + [name];
          }
        }
      }
    }

    method Copy(entries: seq<File>)
      modifies `files
      ensures files == Put(old(files), entries)
    {
      for i := 0 to |entries|
        invariant Put(files, entries[i..]) == Put(old(files), entries)
      {
        assert entries[i..][1..] == entries[i + 1..];
        files := files[entries[i].path := entries[i].content];
      }
    }

    method StageClients(from: Clients)
      modifies this
      ensures View() == Cliented(old(View()), from)
    {
      hide Put, Paths, Programs, Inside, Globbed;
      var programs := from.programs;
      ghost var all := Programs(programs);
      assert programs[0..] == programs;
      for i := 0 to |programs|
        invariant unchanged(`suites, `overlays, `coreutils)
        invariant Put(files, Programs(programs[i..])) == Put(old(files), all)
        invariant clients + Paths(Programs(programs[i..])) == old(clients) + Paths(all)
      {
        OneProgram(files, programs, i);
        if programs[i].runs {
          files := files[BIN + programs[i].name := programs[i].content];
          clients := clients + [BIN + programs[i].name];
        }
      }
      NoMore(files, programs);
      Copy(Inside("usr/", Globbed(from.share)));
      clients := clients + Paths(Inside("usr/", from.share));
    }

    method StageSuites(from: seq<seq<Candidate>>)
      modifies this
      ensures View() == Suited(old(View()), from)
    {
      for d := 0 to |from|
        invariant Suited(View(), from[d..]) == Suited(old(View()), from)
      {
        assert from[d..][1..] == from[d + 1..];
        StageSuite(from[d]);
      }
    }

    method StageSuite(suite: seq<Candidate>)
      modifies this
      ensures unchanged(`clients, `overlays, `coreutils)
      ensures files == Put(old(files), SuiteFiles(suite))
      ensures suites == old(suites) + Paths(SuiteFiles(suite))
    {
      hide Put, Paths, SuiteFiles, SuitePlace;
      assert suite[0..] == suite;
      for i := 0 to |suite|
        invariant unchanged(`clients, `overlays, `coreutils)
        invariant Put(files, SuiteFiles(suite[i..])) == Put(old(files), SuiteFiles(suite))
        invariant suites + Paths(SuiteFiles(suite[i..])) == old(suites) + Paths(SuiteFiles(suite))
      {
        OneOfSuite(files, suite, i);
        var place := SuitePlace(suite[i]);
        if place.Some? {
          files := files[place.value := suite[i].content];
          suites := suites + [place.value];
        }
      }
      NoMore(files, suite);
    }

    method StageOverlays(from: seq<Overlay>) returns (ok: bool)
      modifies this
      ensures (View(), ok) == Overlaid(old(View()), from)
    {
      for d := 0 to |from|
        invariant Overlaid(View(), from[d..]) == Overlaid(old(View()), from)
      {
        assert from[d..][1..] == from[d + 1..];
        if from[d].Missing? {
          return false;
        }
        StageOverlay(from[d].files);
        if !from[d].whole {
          return false;
        }
      }
      return true;
    }

    method StageOverlay(entries: seq<File>)
      modifies this
      ensures View() == OverlaidBy(old(View()), entries)
    {
      hide Put, Paths;
      assert entries[0..] == entries;
      for i := 0 to |entries|
        invariant unchanged(`clients, `suites, `coreutils)
        invariant Put(files, entries[i..]) == Put(old(files), entries)
        invariant overlays + Paths(entries[i..]) == old(overlays) + Paths(entries)
      {
        OneEntry(files, entries, i);
        files := files[entries[i].path := entries[i].content];
        overlays := overlays + [entries[i].path];
      }
      NoEntries(files, entries);
    }

    method MoveAssembler(ours: Bytes, toolchain: bool)
      modifies this
      ensures View() == Moved(old(View()), ours, toolchain)
    {
      if toolchain && !(ASSEMBLER in files && files[ASSEMBLER] == ours) {
        if ASSEMBLER in files {
          files := (files - {ASSEMBLER})[BINUTILS_ASSEMBLER := files[ASSEMBLER]];
        }
        overlays := overlays + [BINUTILS_ASSEMBLER];
        files := files[ASSEMBLER := ours];
      }
    }

    method ConfigureCargo(o: Options)
      modifies `files
      ensures View() == Configured(old(View()), o)
    {
      files := if o.toolchain then files[CARGO := o.cargo] else files - {CARGO};
    }

    method SweepTests(o: Options)
      modifies `files
      ensures View() == Swept(old(View()), o)
    {
      files := files[SAMPLE := Ascii(SAMPLE_TEXT)][SWEEP := o.sweep(Outside(files))];
    }

    method CacheFonts(o: Options) returns (ok: bool)
      modifies this
      ensures (View(), ok) == Cached(old(View()), o)
    {
      if FONTS !in files || !o.fontTool {
        return true;
      }
      files := NotUnder(files, CACHE);
      var caches := Inside(CACHE, o.caches(Outside(files)));
      Copy(caches);
      if o.cacheStops {
        return false;
      }
      overlays := overlays + Paths(caches);
      return true;
    }

    method ListPackages(o: Options) returns (ok: bool)
      modifies `files
      ensures (View(), ok) == Listed(old(View()), o)
    {
      if !o.conf {
        return false;
      }
      files := NotUnder(files, DATABASE);
      var lists := o.lists(files);
      if lists.None? {
        return false;
      }
      Copy(Inside(DATABASE, lists.value));
      return true;
    }

    /** What is taken from elsewhere. */
    method Fill(o: Options) returns (ok: bool)
      modifies this
      ensures (View(), ok) == Filled(old(View()), o)
    {
      hide Cored, Cliented, Suited, Overlaid;
      if o.coreutils.Build? {
        StageCoreutils(o.coreutils.programs);
        if !o.coreutils.whole {
          return false;
        }
      }
      if o.clients.Some? {
        StageClients(o.clients.value);
      }
      StageSuites(o.suites);
      ok := StageOverlays(o.overlays);
    }

    /** And what is made of it. */
    method Finish(ours: Bytes, o: Options) returns (ok: bool)
      modifies this
      ensures (View(), ok) == Finished(old(View()), ours, o)
    {
      hide Moved, Configured, Cached, Swept, Listed;
      MoveAssembler(ours, o.toolchain);
      ConfigureCargo(o);
      ok := CacheFonts(o);
      if !ok {
        return;
      }
      SweepTests(o);
      ok := ListPackages(o);
    }

    /** The whole of a build. */
    method Make(base: Base, o: Options) returns (ok: bool)
      modifies this
      ensures (View(), ok) == Staged(old(View()), base, o)
    {
      hide Forgotten, Installed, Uncored, Filled, Finished;
      Forget();
      ok := Install(base, o.installed);
      if !ok {
        return;
      }
      Uncore();
      if o.coreutils.NotADirectory? {
        return false;
      }
      ok := Fill(o);
      if !ok {
        return;
      }
      ok := Finish(base[ASSEMBLER], o);
    }
  }

  lemma OneEntry(files: Files, entries: seq<File>, i: nat)
    requires i < |entries|
    ensures Put(files, entries[i..]) == Put(files[entries[i].path := entries[i].content], entries[i + 1..])
    ensures Paths(entries[i..]) == [entries[i].path] + Paths(entries[i + 1..])
  {
    assert entries[i..][1..] == entries[i + 1..];
  }

  lemma NoEntries(files: Files, entries: seq<File>)
    ensures Put(files, entries[|entries|..]) == files && Paths(entries[|entries|..]) == []
  {
  }

  lemma NoMore(files: Files, candidates: seq<Candidate>)
    ensures Put(files, Programs(candidates[|candidates|..])) == files
    ensures Paths(Programs(candidates[|candidates|..])) == []
    ensures Put(files, SuiteFiles(candidates[|candidates|..])) == files
    ensures Paths(SuiteFiles(candidates[|candidates|..])) == []
  {
  }

  lemma OneProgram(files: Files, programs: seq<Candidate>, i: nat)
    requires i < |programs|
    ensures var rest := Programs(programs[i + 1..]);
      if programs[i].runs then
        && Put(files, Programs(programs[i..])) == Put(files[BIN + programs[i].name := programs[i].content], rest)
        && Paths(Programs(programs[i..])) == [BIN + programs[i].name] + Paths(rest)
      else Programs(programs[i..]) == rest
  {
    assert programs[i..][1..] == programs[i + 1..];
    if programs[i].runs {
      OneMore(files, File(BIN + programs[i].name, programs[i].content), Programs(programs[i + 1..]));
    }
  }

  lemma OneMore(files: Files, entry: File, rest: seq<File>)
    ensures Put(files, [entry] + rest) == Put(files[entry.path := entry.content], rest)
    ensures Paths([entry] + rest) == [entry.path] + Paths(rest)
  {
    assert ([entry] + rest)[1..] == rest;
  }

  lemma OneOfSuite(files: Files, suite: seq<Candidate>, i: nat)
    requires i < |suite|
    ensures var rest, place := SuiteFiles(suite[i + 1..]), SuitePlace(suite[i]);
      if place.Some? then
        && Put(files, SuiteFiles(suite[i..])) == Put(files[place.value := suite[i].content], rest)
        && Paths(SuiteFiles(suite[i..])) == [place.value] + Paths(rest)
      else SuiteFiles(suite[i..]) == rest
  {
    assert suite[i..][1..] == suite[i + 1..];
    var place := SuitePlace(suite[i]);
    if place.Some? {
      OneMore(files, File(place.value, suite[i].content), SuiteFiles(suite[i + 1..]));
    }
  }
}
