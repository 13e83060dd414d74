/** `qpkg strap`: one system copied into another root, package by package, over a file
    server that may take and give a few bytes at a time. */
module Strap {
  import opened Bytes
  import opened FileServer
  import PackageList

  const NUL: byte := 0

  /** "/var/lib/qpkg" */
  const DB: Bytes := [47, 118, 97, 114, 47, 108, 105, 98, 47, 113, 112, 107, 103]

  const DIRS_MAX := 64 * 4096
  const PAGE := 4096

  // ---- Places in the new root ----

  /** The root is reached through directories only. */
  ghost predicate Solid(tree: Tree, root: Path) {
    forall k :: 0 < k <= |root| ==> root[..k] in tree && tree[root[..k]].DirNode?
  }

  /** Below the root, links are only where `links` says one may have been put. */
  ghost predicate Fits(tree: Tree, root: Path, links: set<Path>) {
    forall q: Path :: root < q && q in tree && tree[q].LinkNode? ==> q[|root|..] in links
  }

  /** A new root that is not this system's own, with no links in it but listed ones. */
  ghost predicate Steady(tree: Tree, root: Path, links: set<Path>) {
    root != [] && Solid(tree, root) && Fits(tree, root, links)
  }

  /** No listed link is on the way along `parts`. */
  ghost predicate Clear(links: set<Path>, parts: Path) {
    forall k :: 0 < k < |parts| ==> parts[..k] !in links
  }

  ghost predicate AllMade(tree: Tree, root: Path, parts: Path) {
    forall k :: 0 < k <= |parts| ==> root + parts[..k] in tree
  }

  ghost predicate Grows(a: Tree, b: Tree) {
    forall q :: q in a ==> q in b && b[q] == a[q]
  }

  /** What is at a path here, a link taken for itself. */
  ghost function Source(tree: Tree, path: Bytes): Option<Node> {
    var p := Walk(tree, [], Parts(path), false, MAX_LINKS);
    if p.Some? && p.value in tree then Some(tree[p.value]) else None
  }

  function Kept(target: Bytes): Bytes {
    if |target| <= MAX_PATH then target else target[..MAX_PATH]
  }

  /** What was at `path` is at the same path below the root: a file byte for byte, a link
      with the target that fits a path's buffer. */
  ghost predicate Copied(before: Tree, after: Tree, root: Path, path: Bytes) {
    var source, there := Source(before, path), root + Parts(path);
    source.Some? && there in after &&
    match source.value
    case FileNode(data) => after[there] == FileNode(data) && |data| < U32
    case LinkNode(target) => after[there] == LinkNode(Kept(target))
    case DirNode => false
  }

  lemma NoLinks(tree: Tree, root: Path, links: set<Path>, parts: Path)
    requires Solid(tree, root) && Fits(tree, root, links) && Clear(links, parts)
    ensures NoLinkOnTheWay(tree, root + parts, 0)
  {
    var path := root + parts;
    forall k | 0 < k < |path| && path[..k] in tree ensures !tree[path[..k]].LinkNode? {
      if k <= |root| {
        assert path[..k] == root[..k];
      } else {
        assert path[..k] == root + parts[..k - |root|];
        assert path[..k][|root|..] == parts[..k - |root|];
      }
    }
  }

  /** So a path below the root leads to itself. */
  lemma LeadsToItself(tree: Tree, root: Path, links: set<Path>, parts: Path, follow: bool)
    requires Solid(tree, root) && Fits(tree, root, links) && Clear(links, parts)
    requires follow ==> parts == [] || parts !in links
    ensures var w := Walk(tree, [], root + parts, follow, MAX_LINKS); w.Some? ==> w.value == root + parts
  {
    var path := root + parts;
    NoLinks(tree, root, links, parts);
    if follow && path != [] && path in tree {
      if parts == [] {
        assert path == root == root[..|root|];
      } else {
        assert path[|root|..] == parts;
      }
    }
    assert path[..0] == [] && path[0..] == path;
    WalkStraight(tree, path, 0, follow, MAX_LINKS);
  }

  // ---- What there has to be room for ----

  /** Below the root there are directories where no listed file goes, and nothing else but
      where one does. */
  ghost predicate Roomy(tree: Tree, root: Path, files: set<Path>) {
    forall q: Path :: root < q && q in tree ==> (tree[q].DirNode? <==> q[|root|..] !in files)
  }

  /** No listed file goes where a directory along `parts` has to be. */
  ghost predicate Free(files: set<Path>, parts: Path) {
    forall k :: 0 < k <= |parts| ==> parts[..k] !in files
  }

  lemma FreePrefix(files: set<Path>, a: Path, b: Path)
    requires a <= b && Free(files, b)
    ensures Free(files, a)
  {
    forall k | 0 < k <= |a| ensures a[..k] !in files {
      assert a[..k] == b[..k];
    }
  }

  /** Once the directories of its way are made, a path below the root can be followed. */
  lemma WayIsThere(tree: Tree, root: Path, links: set<Path>, files: set<Path>, parts: Path, made: Path, follow: bool)
    requires Solid(tree, root) && Fits(tree, root, links) && Clear(links, parts) && Roomy(tree, root, files)
    requires follow ==> parts == [] || parts !in links
    requires made <= parts && |parts| <= |made| + 1 && AllMade(tree, root, made) && Free(files, made)
    ensures Walk(tree, [], root + parts, follow, MAX_LINKS) == Some(root + parts)
  {
    var path := root + parts;
    NoLinks(tree, root, links, parts);
    if follow && path != [] && path in tree {
      if parts == [] {
        assert path == root == root[..|root|];
      } else {
        assert path[|root|..] == parts;
      }
    }
    assert path[..0] == [] && path[0..] == path;
    WalkStraight(tree, path, 0, follow, MAX_LINKS);
    forall k | 0 < k < |path|
      ensures path[..k] in tree && tree[path[..k]].DirNode?
    {
      if k <= |root| {
        assert path[..k] == root[..k];
      } else {
        var q := path[..k];
        assert q == root + made[..k - |root|];
        assert q[|root|..] == made[..k - |root|];
      }
    }
  }

  lemma RoomForDirectory(tree: Tree, root: Path, files: set<Path>, parts: Path)
    requires Roomy(tree, root, files) && (parts == [] || parts !in files)
    ensures Roomy(tree[root + parts := DirNode], root, files)
  {
    assert (root + parts)[|root|..] == parts;
  }

  lemma RoomWithout(a: Tree, b: Tree, root: Path, files: set<Path>, parts: Path)
    requires Roomy(a, root, files) && OnlyAt(a, b, root + parts)
    requires root + parts in b ==> parts in files && !b[root + parts].DirNode?
    ensures Roomy(b, root, files)
  {
    assert (root + parts)[|root|..] == parts;
  }

  lemma ParentStays(a: Tree, b: Tree, root: Path, parts: Path)
    requires OnlyAt(a, b, root + parts) && ParentMade(a, root, parts)
    ensures ParentMade(b, root, parts)
  {
    if parts != [] {
      var front := parts[..|parts| - 1];
      forall k | 0 < k <= |front| ensures root + front[..k] in b {
        assert |root + front[..k]| < |root + parts|;
      }
    }
  }

  /** A listed file has a place of its own, and the directories above it are free. */
  ghost predicate Placeable(files: set<Path>, parts: Path) {
    parts != [] && parts in files && Free(files, parts[..|parts| - 1])
  }

  /** There is room for a listed file, and the directories above it are made. */
  ghost predicate PlaceReady(tree: Tree, root: Path, files: set<Path>, parts: Path) {
    Roomy(tree, root, files) && Placeable(files, parts) && ParentMade(tree, root, parts)
  }

  /** A listed file or link is here, and its path under the root is not too long. */
  ghost predicate Bringable(tree: Tree, root: Bytes, path: Bytes) {
    Source(tree, path).Some? && !Source(tree, path).value.DirNode? && Join(root, path).Some?
  }

  // ---- Making directories ----

  lemma PartsStep(path: Bytes, at: nat, end: nat)
    requires at < end <= |path| && (at == 0 || path[at] == SLASH)
    requires SLASH !in path[at + 1..end]
    ensures exists more: Path :: |more| <= 1 && Parts(path[..end]) == Parts(path[..at]) + more
  {
    hide Parts;
    var name := path[at + 1..end];
    PartsOfName([]);
    if path[at] == SLASH {
      PartsConcat(path[..at], name);
      PartsOfName(name);
      assert path[..end] == path[..at] + [SLASH] + name;
      assert Parts(path[..end]) == Parts(path[..at]) + Parts(name);
    } else {
      assert path[..end] == [path[0]] + name;
      PartsOfName(path[..end]);
      assert path[..at] == [];
      assert Parts(path[..end]) == Parts(path[..at]) + [path[..end]];
    }
  }

  lemma PartsPrefix(path: Bytes, end: nat)
    requires end <= |path| && (end == |path| || path[end] == SLASH)
    ensures Parts(path[..end]) <= Parts(path)
  {
    if end < |path| {
      PartsConcat(path[..end], path[end + 1..]);
      assert path == path[..end] + [SLASH] + path[end + 1..];
    } else {
      assert path[..end] == path;
    }
  }

  lemma ClearPrefix(links: set<Path>, a: Path, b: Path)
    requires a <= b && Clear(links, b)
    ensures Clear(links, a)
  {
    forall k | 0 < k < |a| ensures a[..k] !in links {
      assert a[..k] == b[..k];
    }
  }

  lemma OneMoreMade(tree: Tree, root: Path, parts: Path, more: Path)
    requires AllMade(tree, root, parts) && |more| <= 1 && (more == [] || root + (parts + more) in tree)
    ensures AllMade(tree, root, parts + more)
  {
    var longer := parts + more;
    forall k | 0 < k <= |longer| ensures root + longer[..k] in tree {
      if k <= |parts| {
        assert longer[..k] == parts[..k];
      } else {
        assert longer[..k] == longer;
      }
    }
  }

  lemma MadeDirectory(before: Tree, root: Path, links: set<Path>, parts: Path)
    requires Solid(before, root) && Fits(before, root, links) && root + parts !in before && root != []
    ensures var after := before[root + parts := DirNode];
            SameOutside(before, after, root) && Fits(after, root, links) && Grows(before, after) && Solid(after, root)
  {
    assert root[..|root|] == root;
    assert parts == [] ==> root + parts == root;
    assert root < root + parts;
    forall k | 0 < k <= |root| ensures root[..k] != root + parts {
      assert |root[..k]| < |root + parts|;
    }
  }

  /** Make each directory of a path, from the root down. */
  method MakeDirs(server: Server, root: Bytes, path: Bytes, ghost links: set<Path>, ghost files: set<Path>)
    returns (r: Reply<()>)
    requires path != []
    modifies server
    ensures r.Ok? || r.Refused?
    ensures Steady(old(server.tree), Parts(root), links) && Clear(links, Parts(path)) ==>
              && SameOutside(old(server.tree), server.tree, Parts(root)) && Grows(old(server.tree), server.tree)
              && Steady(server.tree, Parts(root), links)
              && (r.Ok? ==> AllMade(server.tree, Parts(root), Parts(path)))
              && (Roomy(old(server.tree), Parts(root), files) && Free(files, Parts(path)) ==>
                    && Roomy(server.tree, Parts(root), files)
                    && (server.willing && Join(root, path).Some? ==> r.Ok?))
  {
    hide Parts, Steady, Clear, AllMade, Grows, SameOutside, Walk, Join, Roomy, Free;
    ghost var top, before := Parts(root), server.tree;
    ghost var good := Steady(before, top, links) && Clear(links, Parts(path));
    ghost var room := Roomy(before, top, files) && Free(files, Parts(path));
    var at := 0;
    Beginning(before, top);
    while true
      invariant 0 <= at < |path| && (at == 0 || path[at] == SLASH)
      invariant good ==> SameOutside(before, server.tree, top) && Grows(before, server.tree)
      invariant good ==> Steady(server.tree, top, links) && AllMade(server.tree, top, Parts(path[..at]))
      invariant good && room ==> Roomy(server.tree, top, files)
      decreases |path| - at
    {
      var end := at + 1 + Index(path[at + 1..], SLASH);
      assert path[at + 1..end] == path[at + 1..][..end - at - 1];
      var there := Join(root, path[..end]);
      if Join(root, path).Some? {
        JoinOfShorter(root, path, path[..end]);
      }
      if there.None? {
        return Refused;
      }
      PartsOfJoin(root, path[..end]);
      ghost var was := server.tree;
      if good {
        OneMoreStep(was, top, links, files, path, at, end);
      }
      var made := server.Mkdir(there.value);
      if made.Refused? {
        return Refused;
      }
      if good {
        OneMoreDirectory(before, was, server.tree, top, links, files, path, at, end);
      }
      if end == |path| {
        assert path[..end] == path;
        return Ok(());
      }
      at := end;
    }
  }

  /** Where the next directory along a path is to be. */
  lemma OneMoreStep(tree: Tree, root: Path, links: set<Path>, files: set<Path>, path: Bytes, at: nat, end: nat)
    requires at < end <= |path| && (at == 0 || path[at] == SLASH) && SLASH !in path[at + 1..end]
    requires end == |path| || path[end] == SLASH
    requires Steady(tree, root, links) && Clear(links, Parts(path)) && AllMade(tree, root, Parts(path[..at]))
    ensures var there := root + Parts(path[..end]); var p := Walk(tree, [], there, false, MAX_LINKS);
      && there != [] && (p.Some? ==> p.value == there)
      && (Roomy(tree, root, files) && Free(files, Parts(path)) ==> p.Some?)
  {
    hide Parts, Solid, Fits, Clear, AllMade, Walk, Roomy, Free;
    var parts := Parts(path[..end]);
    PartsPrefix(path, end);
    ClearPrefix(links, parts, Parts(path));
    LeadsToItself(tree, root, links, parts, false);
    PartsStep(path, at, end);
    var more: Path :| |more| <= 1 && parts == Parts(path[..at]) + more;
    if Roomy(tree, root, files) && Free(files, Parts(path)) {
      FreePrefix(files, Parts(path[..at]), Parts(path));
      WayIsThere(tree, root, links, files, parts, Parts(path[..at]), false);
    }
  }

  /** And once it is made, or was there. */
  lemma OneMoreDirectory(before: Tree, was: Tree, now: Tree, root: Path, links: set<Path>, files: set<Path>,
                         path: Bytes, at: nat, end: nat)
    requires at < end <= |path| && (at == 0 || path[at] == SLASH) && SLASH !in path[at + 1..end]
    requires end == |path| || path[end] == SLASH
    requires Steady(was, root, links) && AllMade(was, root, Parts(path[..at]))
    requires SameOutside(before, was, root) && Grows(before, was)
    requires var there := root + Parts(path[..end]);
      if there in was then now == was else now == was[there := DirNode]
    ensures SameOutside(before, now, root) && Grows(before, now) && Steady(now, root, links)
    ensures AllMade(now, root, Parts(path[..end]))
    ensures Roomy(was, root, files) && Free(files, Parts(path)) ==> Roomy(now, root, files)
  {
    hide Parts, Solid, Fits, AllMade, Grows, SameOutside, Roomy, Free;
    var parts := Parts(path[..end]);
    PartsPrefix(path, end);
    PartsStep(path, at, end);
    var more: Path :| |more| <= 1 && parts == Parts(path[..at]) + more;
    Beginning(was, root);
    if root + parts !in was {
      MadeDirectory(was, root, links, parts);
    }
    AfterThat(before, was, now, root);
    StillMade(was, now, root, Parts(path[..at]));
    OneMoreMade(now, root, Parts(path[..at]), more);
    if Roomy(was, root, files) && Free(files, Parts(path)) {
      FreePrefix(files, parts, Parts(path));
      FreeAtEnd(files, parts);
      RoomForDirectory(was, root, files, parts);
    }
  }

  lemma FreeAtEnd(files: set<Path>, parts: Path)
    requires Free(files, parts)
    ensures parts == [] || parts !in files
  {
    assert parts[..|parts|] == parts;
  }

  lemma Beginning(tree: Tree, root: Path)
    ensures SameOutside(tree, tree, root) && Grows(tree, tree) && AllMade(tree, root, Parts([]))
  {
    PartsOfName([]);
  }

  lemma AfterThat(a: Tree, b: Tree, c: Tree, root: Path)
    requires SameOutside(a, b, root) && SameOutside(b, c, root)
    ensures SameOutside(a, c, root)
    ensures Grows(a, b) && Grows(b, c) ==> Grows(a, c)
  {
  }

  lemma StillMade(a: Tree, b: Tree, root: Path, parts: Path)
    requires a == b || Grows(a, b)
    requires AllMade(a, root, parts)
    ensures AllMade(b, root, parts)
  {
  }

  // ---- Copying ----

  /** Everything but one place is as it was. */
  ghost predicate OnlyAt(a: Tree, b: Tree, place: Path) {
    forall q :: q != place ==> ((q in a <==> q in b) && (q in a && q in b ==> a[q] == b[q]))
  }

  /** What holds of one path that a list names, before it is copied. */
  ghost predicate Copyable(tree: Tree, root: Path, links: set<Path>, path: Bytes) {
    && StaysOutside(tree, root, [], Parts(path), false, MAX_LINKS)
    && Clear(links, Parts(path))
    && ((Source(tree, path).Some? && Source(tree, path).value.LinkNode?) <==> Parts(path) in links)
  }

  ghost predicate ParentMade(tree: Tree, root: Path, parts: Path) {
    parts != [] ==> AllMade(tree, root, parts[..|parts| - 1])
  }

  lemma OnlyAtIsOutside(a: Tree, b: Tree, root: Path, links: set<Path>, parts: Path)
    requires OnlyAt(a, b, root + parts) && (parts == [] ==> a == b)
    requires Solid(a, root) && Fits(a, root, links)
    requires root + parts in b && b[root + parts].LinkNode? ==> parts in links
    ensures SameOutside(a, b, root) && Solid(b, root) && Fits(b, root, links)
  {
    var there := root + parts;
    assert there[|root|..] == parts;
    assert parts != [] ==> root < there;
    forall k | 0 < k <= |root| ensures parts != [] ==> root[..k] != there {
      assert |root[..k]| <= |root|;
    }
    assert root + [] == root;
  }

  /** Writing on with some of a page, where the page is the file's next bytes. */
  lemma SpliceAtEnd(data: Bytes, at: nat, page: Bytes, put: nat, took: nat)
    requires at + |page| <= |data| && page == data[at..at + |page|] && put + took <= |page|
    ensures Splice(data[..at + put], at + put, page[put..][..took]) == data[..at + (put + took)]
  {
    assert page[put..][..took] == data[at + put..at + (put + took)];
  }

  /** Put a link at `there` with the target of the link at `path`. */
  method CopyLink(server: Server, path: Bytes, there: Bytes, ghost root: Path, ghost links: set<Path>,
                  ghost files: set<Path>)
    returns (r: Reply<nat>)
    requires Parts(there) == root + Parts(path)
    modifies server
    ensures r.Ok? || r.Refused?
    ensures Steady(old(server.tree), root, links) && Clear(links, Parts(path)) && Parts(path) in links ==>
              && (Parts(path) == [] ==> server.tree == old(server.tree))
              && OnlyAt(old(server.tree), server.tree, root + Parts(path))
              && var source := Source(old(server.tree), path);
              && (r.Ok? ==> source.Some? && source.value.LinkNode? && root + Parts(path) in server.tree
                            && server.tree[root + Parts(path)] == LinkNode(Kept(source.value.target)))
              && (server.willing && PlaceReady(old(server.tree), root, files, Parts(path)) ==>
                    source.Some? && source.value.LinkNode? ==> r.Ok?)
  {
    hide Solid, Fits, Clear, Parts, Walk, StaysOutside, Roomy, Placeable, ParentMade, OnlyAt;
    ghost var before, parts := server.tree, Parts(path);
    ghost var good := Steady(before, root, links) && Clear(links, parts) && parts in links;
    ghost var room := PlaceReady(before, root, files, parts);
    if good {
      Untouched(before, root, links, parts);
    }
    var target := server.Readlink(path);
    if !target.Ok? {
      return Refused;
    }
    if good {
      LeadsToItself(before, root, links, parts, false);
      if room {
        PlaceIsThere(before, root, links, files, parts, false);
      }
    }
    var _ := server.Unlink(there);
    ghost var unlinked := server.tree;
    if good {
      AfterUnlink(before, unlinked, root, links, files, parts);
    }
    var made := server.Symlink(Kept(target.value), there);
    if good {
      Linked(before, unlinked, server.tree, root + parts);
    }
    r := if made.Ok? then Ok(0) else Refused;
  }

  lemma AfterUnlink(before: Tree, after: Tree, root: Path, links: set<Path>, files: set<Path>, parts: Path)
    requires Steady(before, root, links) && Clear(links, parts) && parts in links
    requires after == before
             || (after == before - {root + parts} && root + parts in before && !before[root + parts].DirNode?)
    ensures OnlyAt(before, after, root + parts)
    ensures var p := Walk(after, [], root + parts, false, MAX_LINKS); p.Some? ==> p.value == root + parts
    ensures PlaceReady(before, root, files, parts) ==>
            Walk(after, [], root + parts, false, MAX_LINKS) == Some(root + parts)
  {
    hide Solid, Fits, Clear, Walk, Roomy, Placeable, ParentMade, OnlyAt;
    Untouched(before, root, links, parts);
    Unlinked(before, after, root + parts);
    OnlyAtIsOutside(before, after, root, links, parts);
    LeadsToItself(after, root, links, parts, false);
    if PlaceReady(before, root, files, parts) {
      HasPlace(files, parts);
      PlaceIsThere(before, root, links, files, parts, false);
      RoomWithout(before, after, root, files, parts);
      ParentStays(before, after, root, parts);
      PlaceIsThere(after, root, links, files, parts, false);
    }
  }

  lemma Unlinked(a: Tree, b: Tree, place: Path)
    requires b == a || b == a - {place}
    ensures OnlyAt(a, b, place)
  {
  }

  lemma Linked(a: Tree, b: Tree, c: Tree, place: Path)
    requires OnlyAt(a, b, place) && (c == b || (place in c && c == b[place := c[place]]))
    ensures OnlyAt(a, c, place)
  {
  }

  /** Where a listed file goes can be reached, and if there is something it is not a
      directory. */
  lemma PlaceIsThere(tree: Tree, root: Path, links: set<Path>, files: set<Path>, parts: Path, follow: bool)
    requires Solid(tree, root) && Fits(tree, root, links) && Clear(links, parts) && Roomy(tree, root, files)
    requires follow ==> parts !in links
    requires Placeable(files, parts) && ParentMade(tree, root, parts)
    ensures Walk(tree, [], root + parts, follow, MAX_LINKS) == Some(root + parts)
    ensures root + parts in tree ==> !tree[root + parts].DirNode? && (tree[root + parts].LinkNode? ==> parts in links)
    ensures root + parts != []
  {
    WayIsThere(tree, root, links, files, parts, parts[..|parts| - 1], follow);
    assert (root + parts)[|root|..] == parts;
  }

  /** A file is copied to a place, and nothing else changes; where the place is its own, it is
      emptied. */
  ghost predicate Arrives(before: Tree, after: Tree, from: Path, place: Path) {
    && from in after && place in after && OnlyAt(before, after, place)
    && (place == from ==> after[place] == FileNode([]))
    && (place != from ==> from in before && before[from].FileNode? && after[place] == before[from])
  }

  /** Write the file at `from` out again at `there`. Where `there` leads to the file itself,
      it is emptied before it is read. */
  method CopyFile(server: Server, from: Path, path: Bytes, there: Bytes, patience: nat,
                  ghost root: Path, ghost links: set<Path>, ghost files: set<Path>)
    returns (r: Reply<nat>)
    requires Parts(there) == root + Parts(path)
    modifies server
    ensures r.Ok? || r.Refused? || r.Unanswered?
    ensures r.Ok? ==>
              var place := Walk(old(server.tree), [], Parts(there), true, MAX_LINKS);
              place.Some? && Arrives(old(server.tree), server.tree, from, place.value)
    ensures Steady(old(server.tree), root, links) && Clear(links, Parts(path)) && Parts(path) !in links
            && !(root <= from) ==>
              FileCopied(old(server.tree), server.tree, from, root, Parts(path), files, patience, server.willing, r)
  {
    hide Steady, Clear, Parts, Walk, StaysOutside, Roomy, Placeable, ParentMade;
    ghost var before, parts := server.tree, Parts(path);
    ghost var good := Steady(before, root, links) && Clear(links, parts) && parts !in links && !(root <= from);
    if good {
      AboutToCopy(before, root, links, files, parts);
    }
    var to := server.Create(there);
    if !to.Ok? {
      return Refused;
    }
    if good {
      SteadyRoot(before, root, links, parts);
    }
    if from !in server.tree || !server.tree[from].FileNode? {
      return Refused;
    }
    r := CopyBytes(server, from, to.value, patience);
  }

  /** What copying a file comes to. */
  ghost predicate FileCopied(before: Tree, after: Tree, from: Path, root: Path, parts: Path, files: set<Path>,
                             patience: nat, willing: bool, r: Reply<nat>)
  {
    var there := root + parts;
    var source := if from in before && before[from].FileNode? then Some(before[from].data) else None;
    && OnlyAt(before, after, there)
    && (parts == [] ==> after == before)
    && (after != before ==> there in after && after[there].FileNode?)
    && (r.Ok? ==> source.Some? && |source.value| < U32 && there in after && after[there] == before[from])
    && (r.Unanswered? ==> source.Some? && (|source.value| >= U32 || |source.value| >= patience))
    && (willing && PlaceReady(before, root, files, parts) && source.Some? ==> !r.Refused?)
  }

  lemma AboutToCopy(tree: Tree, root: Path, links: set<Path>, files: set<Path>, parts: Path)
    requires Steady(tree, root, links) && Clear(links, parts) && parts !in links
    ensures OnlyAt(tree, tree, root + parts)
    ensures var p := Walk(tree, [], root + parts, true, MAX_LINKS);
      && (p.Some? ==> p.value == root + parts)
      && (PlaceReady(tree, root, files, parts) ==> p.Some? && root + parts != []
                                                   && (root + parts in tree ==> tree[root + parts].FileNode?))
  {
    hide Solid, Fits, Clear, Walk, Roomy, Placeable, ParentMade;
    Untouched(tree, root, links, parts);
    LeadsToItself(tree, root, links, parts, true);
    if PlaceReady(tree, root, files, parts) {
      PlaceIsThere(tree, root, links, files, parts, true);
    }
  }

  lemma SteadyRoot(tree: Tree, root: Path, links: set<Path>, parts: Path)
    requires Steady(tree, root, links)
    requires root + parts in tree ==> tree[root + parts].FileNode?
    ensures parts != []
  {
    RootIsDirectory(tree, root, parts);
  }

  /** The path under a root leads to the same file as the path. */
  ghost predicate OntoItself(tree: Tree, root: Bytes, path: Bytes) {
    && Join(root, path).Some?
    && var p := Walk(tree, [], Parts(path), false, MAX_LINKS);
    && p.Some? && p.value in tree && tree[p.value].FileNode?
    && Walk(tree, [], Parts(Join(root, path).value), true, MAX_LINKS) == p
  }

  ghost predicate IsFile(tree: Tree, path: Bytes) {
    Source(tree, path).Some? && Source(tree, path).value.FileNode?
  }

  /** A file arrives where its path under the root leads, which leaves it as it was exactly
      when it is not copied onto itself, or is empty. */
  ghost predicate Brings(before: Tree, after: Tree, root: Bytes, path: Bytes)
    requires IsFile(before, path)
  {
    var from := Walk(before, [], Parts(path), false, MAX_LINKS).value;
    && Join(root, path).Some?
    && (var place := Walk(before, [], Parts(Join(root, path).value), true, MAX_LINKS);
        place.Some? && Arrives(before, after, from, place.value))
    && from in after
    && (after[from] == before[from] <==> !OntoItself(before, root, path) || before[from] == FileNode([]))
  }

  lemma ArrivingBrings(before: Tree, after: Tree, root: Bytes, path: Bytes)
    requires IsFile(before, path) && Join(root, path).Some?
    requires var place := Walk(before, [], Parts(Join(root, path).value), true, MAX_LINKS);
      place.Some? && Arrives(before, after, Walk(before, [], Parts(path), false, MAX_LINKS).value, place.value)
    ensures Brings(before, after, root, path)
  {
    hide Walk, Parts, Join;
  }

  /** Bring one listed path over to the new root, a file or a link. Each read
      takes one of `patience` answers, and the run being looked at ends with them: a file
      of four gigabytes, whose offsets come round again, uses up any number. Whatever the
      root, a file comes to where the joined path leads, and is itself as it was if and only
      if that is not where it is, or it is empty. */
  method Copy(server: Server, root: Bytes, path: Bytes, patience: nat, ghost links: set<Path>, ghost files: set<Path>)
    returns (r: Reply<nat>)
    modifies server
    ensures r.Ok? || r.Refused? || r.Unanswered?
    ensures r.Ok? && IsFile(old(server.tree), path) ==> Brings(old(server.tree), server.tree, root, path)
    ensures Steady(old(server.tree), Parts(root), links) && Copyable(old(server.tree), Parts(root), links, path)
            && ParentMade(old(server.tree), Parts(root), Parts(path)) ==>
              PathCopied(old(server.tree), server.tree, root, links, files, path, patience, server.willing, r)
  {
    hide Steady, Clear, Parts, Join, StaysOutside, AllMade, Roomy, Placeable, ParentMade, Walk, OnlyAt, SameOutside,
         Arrives, Brings;
    ghost var top, parts, before := Parts(root), Parts(path), server.tree;
    ghost var good := Steady(before, top, links) && Copyable(before, top, links, path)
      && ParentMade(before, top, parts);
    if good {
      NothingCopied(before, root, links, files, path, patience, server.willing);
    }
    var there := Join(root, path);
    if there.None? {
      return Refused;
    }
    PartsOfJoin(root, path);
    var from := server.Open(path, false);
    if !from.Ok? {
      return Refused;
    }
    if from.value in server.tree && server.tree[from.value].LinkNode? {
      r := CopyLink(server, path, there.value, top, links, files);
      if good {
        LinkIsCopied(before, server.tree, root, links, files, path, patience, server.willing, r);
      }
    } else {
      r := CopyFile(server, from.value, path, there.value, patience, top, links, files);
      if r.Ok? && IsFile(before, path) {
        ArrivingBrings(before, server.tree, root, path);
      }
      if good {
        FileIsCopied(before, server.tree, root, links, files, path, from.value, patience, server.willing, r);
      }
    }
  }

  /** What copying a path comes to. */
  ghost predicate PathCopied(before: Tree, after: Tree, root: Bytes, links: set<Path>, files: set<Path>, path: Bytes,
                             patience: nat, willing: bool, r: Reply<nat>)
  {
    var top := Parts(root);
    && SameOutside(before, after, top) && OnlyAt(before, after, top + Parts(path)) && Steady(after, top, links)
    && (r.Ok? ==> Copied(before, after, top, path))
    && (r.Unanswered? ==> IsBig(before, path, patience))
    && (PlaceReady(before, top, files, Parts(path)) ==>
          && (r.Ok? ==> Roomy(after, top, files))
          && (willing && Bringable(before, root, path) ==> !r.Refused?))
  }

  lemma NothingCopied(tree: Tree, root: Bytes, links: set<Path>, files: set<Path>, path: Bytes, patience: nat,
                      willing: bool)
    requires Steady(tree, Parts(root), links) && Copyable(tree, Parts(root), links, path)
    ensures !(willing && Bringable(tree, root, path)) ==>
            PathCopied(tree, tree, root, links, files, path, patience, willing, Refused)
    ensures var p := Walk(tree, [], Parts(path), false, MAX_LINKS); p.Some? ==> !(Parts(root) <= p.value)
  {
    hide Parts, Join, Clear, Roomy, Placeable, ParentMade, Solid, Fits, StaysOutside;
    Untouched(tree, Parts(root), links, Parts(path));
    OnlyAtIsOutside(tree, tree, Parts(root), links, Parts(path));
    WalkOutside(tree, tree, Parts(root), [], Parts(path), false, MAX_LINKS);
  }

  lemma LinkIsCopied(before: Tree, after: Tree, root: Bytes, links: set<Path>, files: set<Path>, path: Bytes,
                     patience: nat, willing: bool, r: Reply<nat>)
    requires Steady(before, Parts(root), links) && Parts(path) in links && !r.Unanswered?
    requires OnlyAt(before, after, Parts(root) + Parts(path)) && (Parts(path) == [] ==> after == before)
    requires var source := Source(before, path);
      && (r.Ok? ==> source.Some? && source.value.LinkNode? && Parts(root) + Parts(path) in after
                    && after[Parts(root) + Parts(path)] == LinkNode(Kept(source.value.target)))
      && (willing && PlaceReady(before, Parts(root), files, Parts(path)) ==>
            source.Some? && source.value.LinkNode? ==> r.Ok?)
    requires Source(before, path).Some? && Source(before, path).value.LinkNode?
    ensures PathCopied(before, after, root, links, files, path, patience, willing, r)
  {
    hide Parts, Join, Roomy, Placeable, ParentMade, Solid, Fits, Source;
    OnlyAtIsOutside(before, after, Parts(root), links, Parts(path));
    if r.Ok? && PlaceReady(before, Parts(root), files, Parts(path)) {
      HasPlace(files, Parts(path));
      RoomWithout(before, after, Parts(root), files, Parts(path));
    }
  }

  lemma FileIsCopied(before: Tree, after: Tree, root: Bytes, links: set<Path>, files: set<Path>, path: Bytes,
                     from: Path, patience: nat, willing: bool, r: Reply<nat>)
    requires Steady(before, Parts(root), links)
    requires Walk(before, [], Parts(path), false, MAX_LINKS) == Some(from)
             && (from in before ==> !before[from].LinkNode?)
    requires FileCopied(before, after, from, Parts(root), Parts(path), files, patience, willing, r)
    requires !(Parts(root) <= from)
    ensures PathCopied(before, after, root, links, files, path, patience, willing, r)
  {
    hide Parts, Join, Roomy, Placeable, ParentMade, Solid, Fits, Walk;
    var top, parts := Parts(root), Parts(path);
    Untouched(before, top, links, parts);
    OnlyAtIsOutside(before, after, top, links, parts);
    if r.Ok? && PlaceReady(before, top, files, parts) {
      HasPlace(files, parts);
      RoomWithout(before, after, top, files, parts);
    }
  }

  lemma HasPlace(files: set<Path>, parts: Path)
    requires Placeable(files, parts)
    ensures parts in files
  {
  }

  lemma RootIsDirectory(tree: Tree, root: Path, parts: Path)
    requires Solid(tree, root) && root != []
    requires root + parts in tree ==> tree[root + parts].FileNode?
    ensures parts != []
  {
    assert root[..|root|] == root;
    assert parts == [] ==> root + parts == root;
  }

  lemma Untouched(tree: Tree, root: Path, links: set<Path>, parts: Path)
    requires root != [] && Solid(tree, root) && Fits(tree, root, links)
    ensures OnlyAt(tree, tree, root + parts)
    ensures parts == [] ==> root + parts in tree && tree[root + parts].DirNode?
    ensures root + parts in tree && tree[root + parts].LinkNode? ==> parts in links
  {
    assert (root + parts)[|root|..] == parts;
    assert root[..|root|] == root;
    assert parts == [] ==> root + parts == root;
    assert parts != [] ==> root < root + parts;
  }

  /** A page written, in as many pieces as the server takes it. */
  method WritePage(server: Server, to: Path, page: Bytes, at: nat, ghost data: Bytes) returns (ok: bool)
    requires to in server.tree && server.tree[to].FileNode?
    requires |data| < U32 ==> at + |page| <= |data| && page == data[at..at + |page|]
    requires |data| < U32 ==> server.tree[to].data == data[..at]
    modifies server
    ensures OnlyAt(old(server.tree), server.tree, to)
    ensures to in server.tree && server.tree[to].FileNode?
    ensures ok && |data| < U32 ==> server.tree[to].data == data[..at + |page|]
    ensures server.willing ==> ok
  {
    hide Splice;
    var put := 0;
    while put < |page|
      invariant put <= |page|
      invariant OnlyAt(old(server.tree), server.tree, to)
      invariant to in server.tree && server.tree[to].FileNode?
      invariant |data| < U32 ==> server.tree[to].data == data[..at + put]
    {
      var took := server.Write(to, page[put..], (at + put) % U32);
      if !took.Ok? || took.value == 0 {
        return false;
      }
      if |data| < U32 {
        SpliceAtEnd(data, at, page, put, took.value);
      }
      put := put + took.value;
    }
    ok := true;
  }

  /** A page read, and written until all of it is, till there is nothing to read. */
  method CopyBytes(server: Server, from: Path, to: Path, patience: nat) returns (r: Reply<nat>)
    requires from in server.tree && server.tree[from].FileNode?
    requires to in server.tree && server.tree[to] == FileNode([])
    modifies server
    ensures OnlyAt(old(server.tree), server.tree, to)
    ensures to in server.tree && server.tree[to].FileNode?
    ensures var data := old(server.tree)[from].data;
            && (r.Ok? ==> server.tree[to] == FileNode(data) && r.value == |data| < U32)
            && (r.Unanswered? ==> |data| >= U32 || |data| >= patience)
    ensures r.Ok? || r.Refused? || r.Unanswered?
    ensures server.willing ==> !r.Refused?
  {
    ghost var data := server.tree[from].data;
    var left: nat, at: nat := patience, 0;
    while true
      invariant OnlyAt(old(server.tree), server.tree, to)
      invariant to in server.tree && server.tree[to].FileNode?
      invariant left + at >= patience
      invariant from == to ==> at == 0 && server.tree[to] == FileNode([])
      invariant |data| < U32 ==> at <= |data| && server.tree[to].data == data[..at]
      decreases left
    {
      if left == 0 {
        return Unanswered;
      }
      left := left - 1;
      assert server.tree[from].data == data;
      var got := server.Read(from, PAGE, at % U32);
      if !got.Ok? {
        return Refused;
      }
      if got.value == [] {
        break;
      }
      var ok := WritePage(server, to, got.value, at, data);
      if !ok {
        return Refused;
      }
      at := at + |got.value|;
    }
    assert |data| < U32 ==> data[..|data|] == data;
    var refused := server.Declines();
    r := if refused then Refused else Ok(at);
  }

  // ---- Reading lists ----

  /** The whole of a file, into a buffer it has to leave room in. */
  method Slurp(server: Server, path: Bytes, into: array<byte>) returns (r: Reply<nat>)
    requires into.Length <= U32
    modifies into
    ensures r.Ok? || r.Refused?
    ensures r.Ok? ==>
              var p := Walk(server.tree, [], Parts(path), true, MAX_LINKS);
              && p.Some? && p.value in server.tree && r.value < into.Length
              && server.tree[p.value] == FileNode(into[..r.value])
    ensures server.willing && r.Refused? ==>
              var p := Walk(server.tree, [], Parts(path), true, MAX_LINKS);
              p.None? || p.value !in server.tree || !server.tree[p.value].FileNode?
                || |server.tree[p.value].data| >= into.Length
  {
    hide Walk, Parts;
    var handle := server.Open(path, true);
    if !handle.Ok? || handle.value !in server.tree || !server.tree[handle.value].FileNode? {
      return Refused;
    }
    ghost var data := server.tree[handle.value].data;
    var got := 0;
    while true
      invariant got <= |data| && got <= into.Length && into[..got] == data[..got]
      decreases into.Length - got
    {
      if got == into.Length {
        return Refused;
      }
      var some := server.Read(handle.value, into.Length - got, got % U32);
      if !some.Ok? {
        return Refused;
      }
      if some.value == [] {
        return Ok(got);
      }
      PutAfter(into, got, some.value);
      PartThen(data, got, some.value);
      got := got + |some.value|;
    }
  }

  method PutAfter(into: array<byte>, at: nat, bytes: Bytes)
    requires at + |bytes| <= into.Length
    modifies into
    ensures into[..at + |bytes|] == old(into[..at]) + bytes
  {
    ghost var held := into[..at];
    forall i | 0 <= i < |bytes| {
      into[at + i] := bytes[i];
    }
    assert into[..at] == held;
    assert into[at..at + |bytes|] == bytes;
    assert into[..at + |bytes|] == into[..at] + into[at..at + |bytes|];
  }

  lemma PartThen(data: Bytes, at: nat, bytes: Bytes)
    requires at + |bytes| <= |data| && bytes == data[at..at + |bytes|]
    ensures data[..at] + bytes == data[..at + |bytes|]
  {
  }

  /** A package's list, if the name is a name and the list can be had. */
  ghost function Held(tree: Tree, name: Bytes): Option<Bytes> {
    if name == [] || SLASH in name || name[0] == DOT || Join(DB, name).None? then None else
      var p := Walk(tree, [], Parts(Join(DB, name).value), true, MAX_LINKS);
      if p.Some? && p.value in tree && tree[p.value].FileNode? && |tree[p.value].data| < PackageList.RECORD_MAX
      then Some(tree[p.value].data) else None
  }

  method Load(server: Server, name: Bytes, record: array<byte>) returns (list: Option<Bytes>)
    requires record.Length == PackageList.RECORD_MAX
    modifies record
    ensures list.Some? ==> list == Held(server.tree, name)
    ensures server.willing ==> list == Held(server.tree, name)
  {
    if name == [] || SLASH in name || name[0] == DOT {
      return None;
    }
    var path := Join(DB, name);
    if path.None? {
      return None;
    }
    var len := Slurp(server, path.value, record);
    if !len.Ok? {
      return None;
    }
    list := Some(record[..len.value]);
  }

  // ---- The directories remembered ----

  /** Directories as the buffer holds them: each with a NUL after it. */
  function Encoded(entries: seq<Bytes>): Bytes {
    if entries == [] then [] else entries[0] + [NUL] + Encoded(entries[1..])
  }

  /** The last but one of the pieces between NULs, if there are two. */
  function LastEntry(buffer: Bytes): Bytes {
    var pieces := Split(buffer, NUL);
    if |pieces| >= 2 then pieces[|pieces| - 2] else []
  }

  lemma {:induction false} EncodedSplits(entries: seq<Bytes>)
    requires forall e :: e in entries ==> NUL !in e
    ensures Split(Encoded(entries), NUL) == entries + [[]]
    decreases |entries|
  {
    hide Split;
    if entries == [] {
      SplitNone([], NUL);
    } else {
      SplitFirst(entries[0], NUL, Encoded(entries[1..]));
      EncodedSplits(entries[1..]);
      assert entries == [entries[0]] + entries[1..];
    }
  }

  lemma LastRemembered(entries: seq<Bytes>)
    requires forall e :: e in entries ==> NUL !in e
    ensures LastEntry(Encoded(entries)) == if entries == [] then [] else entries[|entries| - 1]
  {
    EncodedSplits(entries);
  }

  lemma {:induction false} EncodedAppend(entries: seq<Bytes>, dir: Bytes)
    ensures Encoded(entries + [dir]) == Encoded(entries) + dir + [NUL]
    decreases |entries|
  {
    if entries != [] {
      assert (entries + [dir])[1..] == entries[1..] + [dir];
      EncodedAppend(entries[1..], dir);
    } else {
      assert [] + [dir] == [dir] && Encoded([dir]) == dir + [NUL] + Encoded([dir][1..]);
    }
  }

  /** The directory a path is in: up to its last slash, or "/". */
  function DirectoryOf(path: Bytes): (dir: Bytes)
    ensures dir != []
  {
    var at := LastSlash(path);
    if at == 0 || at == |path| then [SLASH] else path[..at]
  }

  /** The place of the last slash, or the length when there is none. */
  function LastSlash(path: Bytes): (at: nat)
    ensures at <= |path|
    ensures at < |path| ==> path[at] == SLASH && SLASH !in path[at + 1..]
    ensures at == |path| ==> SLASH !in path
  {
    if path == [] then 0
    else if path[|path| - 1] == SLASH then |path| - 1
    else
      var front := path[..|path| - 1];
      var at := LastSlash(front);
      assert path == front + [path[|path| - 1]];
      assert at < |front| ==> path[at + 1..] == front[at + 1..] + [path[|path| - 1]];
      if at == |front| then |path| else at
  }

  /** The directory of a path holds all of the way to it. */
  lemma DirectoryIsParent(path: Bytes)
    ensures Parts(DirectoryOf(path)) <= Parts(path) && |Parts(path)| <= |Parts(DirectoryOf(path))| + 1
  {
    hide Parts;
    var at := LastSlash(path);
    PartsOfSlash();
    PartsOfName([]);
    if at == |path| {
      PartsOfName(path);
    } else {
      PartsConcat(path[..at], path[at + 1..]);
      PartsOfName(path[at + 1..]);
      assert path == path[..at] + [SLASH] + path[at + 1..];
      assert at == 0 ==> path[..at] == [];
    }
  }

  lemma ParentIsMade(tree: Tree, root: Path, dir: Path, parts: Path)
    requires AllMade(tree, root, dir) && dir <= parts && |parts| <= |dir| + 1
    ensures ParentMade(tree, root, parts)
  {
    if parts != [] {
      var front := parts[..|parts| - 1];
      forall k | 0 < k <= |front| ensures root + front[..k] in tree {
        assert front[..k] == dir[..k];
      }
    }
  }

  // ---- The strap ----

  /** What has to hold of a line for it to be copied to where it says and nowhere else. */
  ghost predicate LineOk(tree: Tree, root: Path, links: set<Path>, line: PackageList.Line) {
    match line
    case Dir(_, path) => Clear(links, Parts(path))
    case File(_, _, path) => NUL !in path && Copyable(tree, root, links, path)
    case Yours(_, _, path) => NUL !in path && Copyable(tree, root, links, path)
    case Link(path) => NUL !in path && Copyable(tree, root, links, path)
    case _ => true
  }

  /** What has to hold of a package of that name for it to be copied to the new root. */
  ghost predicate NameOk(tree: Tree, root: Path, links: set<Path>, sets: seq<Bytes>, name: Bytes) {
    && Clear(links, Parts(DB)) && Parts(DB) !in links
    && (Join(DB, name).Some? ==> StaysOutside(tree, root, [], Parts(Join(DB, name).value), true, MAX_LINKS))
    && (Asked(tree, sets, name) ==>
          && Copyable(tree, root, links, Join(DB, name).value)
          && forall line :: line in PackageList.Lines(Held(tree, name).value) ==> LineOk(tree, root, links, line))
  }

  /** The running system and the new root, before a strap: the root is not this system's
      own, no link leads to it, and the links in it are among those that are listed, or may
      be there besides; no list is inside it, and no listed path leads into it or through
      one of those links. */
  ghost predicate Ready(tree: Tree, root: Path, sets: seq<Bytes>, names: seq<Bytes>, links: set<Path>) {
    && Steady(tree, root, links)
    && forall name :: name in names ==> NameOk(tree, root, links, sets, name)
  }

  ghost predicate Asked(tree: Tree, sets: seq<Bytes>, name: Bytes) {
    Held(tree, name).Some? && PackageList.Said(Held(tree, name).value, PackageList.SET) in sets
  }

  /** What a line calls for has been done. */
  ghost predicate LineDone(before: Tree, after: Tree, root: Path, line: PackageList.Line) {
    match line
    case Dir(_, path) => AllMade(after, root, Parts(path))
    case File(_, _, path) => Copied(before, after, root, path)
    case Yours(_, _, path) => Copied(before, after, root, path)
    case Link(path) => Copied(before, after, root, path)
    case _ => true
  }

  /** A package is in the new root: all its list names, and the list. */
  ghost predicate Transferred(before: Tree, after: Tree, root: Path, name: Bytes) {
    && Held(before, name).Some?
    && (forall line :: line in PackageList.Lines(Held(before, name).value) ==> LineDone(before, after, root, line))
    && Copied(before, after, root, Join(DB, name).value)
  }

  lemma SourceOutside(a: Tree, b: Tree, root: Path, links: set<Path>, path: Bytes)
    requires SameOutside(a, b, root) && Copyable(a, root, links, path)
    ensures Source(a, path) == Source(b, path) && Copyable(b, root, links, path)
  {
    hide Parts, Clear;
    WalkOutside(a, b, root, [], Parts(path), false, MAX_LINKS);
  }

  lemma HeldOutside(a: Tree, b: Tree, root: Path, name: Bytes)
    requires SameOutside(a, b, root)
    requires Join(DB, name).Some? ==> StaysOutside(a, root, [], Parts(Join(DB, name).value), true, MAX_LINKS)
    ensures Held(a, name) == Held(b, name)
  {
    hide Parts, Join;
    if Join(DB, name).Some? {
      WalkOutside(a, b, root, [], Parts(Join(DB, name).value), true, MAX_LINKS);
    }
  }

  /** A later copy leaves what was copied before as it was - or copies it again. */
  lemma StillCopied(before: Tree, a: Tree, b: Tree, root: Path, path: Bytes, next: Bytes)
    requires Copied(before, a, root, path)
    requires OnlyAt(a, b, root + Parts(next)) && Copied(before, b, root, next)
    ensures Copied(before, b, root, path)
  {
    hide Parts, Walk;
    if root + Parts(path) == root + Parts(next) {
      assert (root + Parts(path))[|root|..] == Parts(path) && (root + Parts(next))[|root|..] == Parts(next);
    }
  }

  lemma StillThere(a: Tree, b: Tree, place: Path)
    requires OnlyAt(a, b, place) && place in b
    ensures forall q :: q in a ==> q in b
  {
  }

  lemma MadeAlready(a: Tree, b: Tree, root: Path, parts: Path)
    requires AllMade(a, root, parts) && forall q :: q in a ==> q in b
    ensures AllMade(b, root, parts)
  {
  }

  /** What a line calls for is among the paths copied and the directories made. */
  ghost predicate Recorded(done: iset<Bytes>, made: iset<Bytes>, line: PackageList.Line) {
    match line
    case Dir(_, path) => path in made
    case File(_, _, path) => path in done
    case Yours(_, _, path) => path in done
    case Link(path) => path in done
    case _ => true
  }

  lemma StaysRecorded(done: iset<Bytes>, made: iset<Bytes>, moreDone: iset<Bytes>, moreMade: iset<Bytes>,
                      line: PackageList.Line)
    requires Recorded(done, made, line) && moreDone >= done && moreMade >= made
    ensures Recorded(moreDone, moreMade, line)
  {
  }

  /** A file so long that its offsets come round again, or that takes more answers than
      there are. */
  ghost predicate IsBig(tree: Tree, path: Bytes, patience: nat) {
    Source(tree, path).Some? && Source(tree, path).value.FileNode?
    && (|Source(tree, path).value.data| >= U32 || |Source(tree, path).value.data| >= patience)
  }

  ghost predicate LineBig(tree: Tree, line: PackageList.Line, patience: nat) {
    (line.File? || line.Yours? || line.Link?) && IsBig(tree, line.path, patience)
  }

  ghost predicate SomeLineBig(tree: Tree, lines: seq<PackageList.Line>, patience: nat) {
    exists i :: 0 <= i < |lines| && LineBig(tree, lines[i], patience)
  }

  /** A package that lists such a file, or whose list is one. */
  ghost predicate PackageBig(tree: Tree, name: Bytes, patience: nat) {
    && Held(tree, name).Some? && Join(DB, name).Some?
    && (SomeLineBig(tree, PackageList.Lines(Held(tree, name).value), patience)
        || IsBig(tree, Join(DB, name).value, patience))
  }

  /** A listed file or link that is here, and has a place of its own under the root. */
  ghost predicate Listable(tree: Tree, root: Bytes, files: set<Path>, path: Bytes) {
    && Bringable(tree, root, path) && path != []
    && Parts(path) != [] && Parts(path) in files && Free(files, Parts(DirectoryOf(path)))
  }

  ghost predicate LineListable(tree: Tree, root: Bytes, files: set<Path>, line: PackageList.Line) {
    match line
    case Dir(_, path) => path != [] && Free(files, Parts(path)) && Join(root, path).Some?
    case File(_, _, path) => Listable(tree, root, files, path)
    case Yours(_, _, path) => Listable(tree, root, files, path)
    case Link(path) => Listable(tree, root, files, path)
    case _ => true
  }

  ghost predicate AllListable(tree: Tree, root: Bytes, files: set<Path>, lines: seq<PackageList.Line>) {
    forall line :: line in lines ==> LineListable(tree, root, files, line)
  }

  /** All a package lists, and its list. */
  ghost predicate PackageListable(tree: Tree, root: Bytes, files: set<Path>, name: Bytes) {
    && Held(tree, name).Some? && AllListable(tree, root, files, PackageList.Lines(Held(tree, name).value))
    && Join(DB, name).Some? && Bringable(tree, root, Join(DB, name).value)
    && Parts(Join(DB, name).value) in files && Free(files, Parts(DB)) && Join(root, DB).Some?
  }

  lemma ListedIsPlaceable(tree: Tree, root: Bytes, files: set<Path>, path: Bytes)
    requires Listable(tree, root, files, path)
    ensures Placeable(files, Parts(path)) && Bringable(tree, root, path)
    ensures Join(root, DirectoryOf(path)).Some? && Free(files, Parts(DirectoryOf(path)))
  {
    hide Parts, Join, Source, LastSlash;
    DirectoryIsParent(path);
    var parts := Parts(path);
    var front := parts[..|parts| - 1];
    assert front <= Parts(DirectoryOf(path));
    FreePrefix(files, front, Parts(DirectoryOf(path)));
    JoinOfShorter(root, path, DirectoryOf(path));
  }

  lemma OwnIsPlaceable(tree: Tree, root: Bytes, files: set<Path>, name: Bytes)
    requires PackageListable(tree, root, files, name)
    ensures Placeable(files, Parts(Join(DB, name).value)) && Bringable(tree, root, Join(DB, name).value)
    ensures Free(files, Parts(DB)) && Join(root, DB).Some?
    ensures AllListable(tree, root, files, PackageList.Lines(Held(tree, name).value))
  {
    hide Parts, Join, Bringable, AllListable;
    HeldHasPath(tree, name);
    PartsOfJoin(DB, name);
    PartsOfName(name);
    var parts := Parts(Join(DB, name).value);
    assert parts[..|parts| - 1] == Parts(DB);
  }

  datatype Turn = Taken | NotAsked | NotRead

  lemma HeldHasPath(tree: Tree, name: Bytes)
    requires Held(tree, name).Some?
    ensures Join(DB, name).Some? && name != [] && SLASH !in name
  {
  }

  class Strapper {
    const server: Server
    const root: Bytes
    const record: array<byte>
    const sets: seq<Bytes>
    /** The buffer of directories put files in, as much of it as is used. */
    var dirs: Bytes

    ghost const before: Tree
    ghost const links: set<Path>
    ghost const files: set<Path>
    ghost var entries: seq<Bytes>
    ghost var done: iset<Bytes>
    ghost var made: iset<Bytes>

    constructor (server: Server, root: Bytes, sets: seq<Bytes>, ghost links: set<Path>, ghost files: set<Path>)
      ensures Steady(server.tree, Parts(root), links) ==> Valid()
      ensures forall p :: Copied(before, before, Parts(root), p) ==> p in done
      ensures forall d :: AllMade(before, Parts(root), Parts(d)) ==> d in made
      ensures this.server == server && this.root == root && before == server.tree && this.links == links
      ensures fresh(record) && this.sets == sets && this.files == files && record.Length == PackageList.RECORD_MAX
    {
      this.server, this.root, this.sets := server, root, sets;
      this.links, this.files, this.before := links, files, server.tree;
      record := new byte[PackageList.RECORD_MAX];
      dirs, entries := [], [];
      done := iset p | Copied(server.tree, server.tree, Parts(root), p);
      made := iset d | AllMade(server.tree, Parts(root), Parts(d));
      new;
      Beginning(server.tree, Parts(root));
    }

    /** All that was done is there, in a root that is good. */
    ghost predicate Valid()
      reads this, server
    {
      var top := Parts(root);
      && SameOutside(before, server.tree, top) && Steady(server.tree, top, links)
      && dirs == Encoded(entries) && |dirs| <= DIRS_MAX
      && (forall e :: e in entries ==> NUL !in e && AllMade(server.tree, top, Parts(e)))
      && (forall p :: p in done ==> Copied(before, server.tree, top, p))
      && (forall d :: d in made ==> AllMade(server.tree, top, Parts(d)))
    }

    /** There is room below the root for every file listed. */
    ghost predicate Room()
      reads server
    {
      Roomy(server.tree, Parts(root), files)
    }

    /** Make a directory, keeping all there is. */
    method Make(path: Bytes) returns (r: Reply<()>)
      requires path != []
      modifies server, this`made
      ensures r.Ok? || r.Refused?
      ensures old(Valid()) && Clear(links, Parts(path)) ==>
                && Valid() && made == (if r.Ok? then old(made) + iset{path} else old(made))
                && (old(Room()) && Free(files, Parts(path)) ==>
                    Room() && (server.willing && Join(root, path).Some? ==> r.Ok?))
    {
      hide Parts, Steady, Clear, SameOutside, Walk, Join, Encoded, AllMade, Copied, Roomy, Free;
      ghost var was, good := server.tree, Valid() && Clear(links, Parts(path));
      r := MakeDirs(server, root, path, links, files);
      if good {
        AfterThat(before, was, server.tree, Parts(root));
        forall d | d in made || d in entries ensures AllMade(server.tree, Parts(root), Parts(d)) {
          StillMade(was, server.tree, Parts(root), Parts(d));
        }
        forall p | p in done ensures Copied(before, server.tree, Parts(root), p) {
          CopiedGrows(before, was, server.tree, Parts(root), p);
        }
      }
      if r.Ok? {
        made := made + iset{path};
      }
    }

    /** Copy one path, keeping all there is. */
    method Bring(path: Bytes, patience: nat) returns (r: Reply<nat>)
      modifies server, this`done
      ensures r.Ok? || r.Refused? || r.Unanswered?
      ensures old(Valid()) && Copyable(before, Parts(root), links, path)
              && old(ParentMade(server.tree, Parts(root), Parts(path))) ==>
                && SameOutside(before, server.tree, Parts(root))
                && (r.Ok? ==> Valid() && done == old(done) + iset{path})
                && (r.Unanswered? ==> IsBig(before, path, patience))
                && (old(Room()) && Placeable(files, Parts(path)) ==>
                      (r.Ok? ==> Room()) && (server.willing && Bringable(before, root, path) ==> !r.Refused?))
    {
      hide Parts, Steady, Clear, SameOutside, Walk, Encoded, AllMade, Copied, Copyable, ParentMade, OnlyAt, Roomy,
           Placeable, Join, Source;
      ghost var was, top := server.tree, Parts(root);
      ghost var good := Valid() && Copyable(before, top, links, path) && ParentMade(was, top, Parts(path));
      if good {
        SourceOutside(before, was, top, links, path);
      }
      r := Copy(server, root, path, patience, links, files);
      if good {
        AfterThat(before, was, server.tree, top);
      }
      if r.Ok? {
        if good {
          CopiedFrom(before, was, server.tree, top, path);
          StillThere(was, server.tree, top + Parts(path));
          forall d | d in made || d in entries ensures AllMade(server.tree, top, Parts(d)) {
            MadeAlready(was, server.tree, top, Parts(d));
          }
          forall p | p in done ensures Copied(before, server.tree, top, p) {
            StillCopied(before, was, server.tree, top, p, path);
          }
        }
        done := done + iset{path};
      }
    }

    /** A file's line: its directory, unless it is the last one remembered, and then it. */
    method TakeFile(path: Bytes, patience: nat) returns (r: Reply<nat>)
      modifies server, this`dirs, this`entries, this`done, this`made
      ensures r.Ok? || r.Refused? || r.Unanswered?
      ensures old(Valid()) && NUL !in path && Copyable(before, Parts(root), links, path) ==>
                && SameOutside(before, server.tree, Parts(root))
                && (r.Ok? ==> Valid() && done == old(done) + iset{path} && made >= old(made))
                && (r.Unanswered? ==> IsBig(before, path, patience))
                && (old(Room()) && Listable(before, root, files, path) ==>
                    (r.Ok? ==> Room()) && (server.willing ==> !r.Refused?))
    {
      hide Parts, Steady, Clear, SameOutside, Walk, Encoded, AllMade, Copied, StaysOutside, Source, ParentMade,
           LastEntry, Roomy, Placeable, Bringable, Free, Join, IsBig, Listable;
      ghost var good := Valid() && NUL !in path && Copyable(before, Parts(root), links, path);
      var dir := DirectoryOf(path);
      if good {
        DirectoryIsParent(path);
        ClearPrefix(links, Parts(dir), Parts(path));
        LastRemembered(entries);
        if Listable(before, root, files, path) {
          ListedIsPlaceable(before, root, files, path);
        }
      }
      if LastEntry(dirs) != dir {
        var made := Make(dir);
        if !made.Ok? {
          return Refused;
        }
        if |dirs| + |dir| + 1 <= DIRS_MAX {
          EncodedAppend(entries, dir);
          dirs := dirs + dir + [NUL];
          entries := entries + [dir];
        }
      }
      if good {
        ParentIsMade(server.tree, Parts(root), Parts(dir), Parts(path));
      }
      r := Bring(path, patience);
    }

    /** One line of a list. */
    method TakeLine(line: PackageList.Line, patience: nat) returns (r: Reply<nat>)
      modifies server, this`dirs, this`entries, this`done, this`made
      ensures r.Ok? || r.Refused? || r.Unanswered?
      ensures old(Valid()) && LineOk(before, Parts(root), links, line) ==>
                && SameOutside(before, server.tree, Parts(root))
                && (r.Ok? ==> Valid() && done >= old(done) && made >= old(made) && Recorded(done, made, line))
                && (r.Unanswered? ==> LineBig(before, line, patience))
                && (old(Room()) && LineListable(before, root, files, line) ==>
                      (r.Ok? ==> Room()) && (server.willing ==> !r.Refused?))
    {
      hide Parts, Steady, Clear, SameOutside, Walk, Encoded, AllMade, Copied, Copyable, Roomy, Free, Join, IsBig,
           Listable;
      match line {
        case Dir(mode, path) =>
          if path == [] {
            return Refused;
          }
          var madeIt := Make(path);
          var there := Join(root, path);
          var refused := server.Declines();
          r := if madeIt.Ok? && there.Some? && !refused then Ok(0) else Refused;
        case File(_, _, path) => r := TakeFile(path, patience);
        case Yours(_, _, path) => r := TakeFile(path, patience);
        case Link(path) => r := TakeFile(path, patience);
        case _ => r := Ok(0);
      }
    }

    /** The lines of one package's list. */
    method TakeList(lines: seq<PackageList.Line>, patience: nat) returns (r: Reply<nat>)
      modifies server, this`dirs, this`entries, this`done, this`made
      ensures r.Ok? || r.Refused? || r.Unanswered?
      ensures old(Valid()) && (forall line :: line in lines ==> LineOk(before, Parts(root), links, line)) ==>
                && SameOutside(before, server.tree, Parts(root))
                && (r.Ok? ==> Valid() && done >= old(done) && made >= old(made)
                              && forall line :: line in lines ==> Recorded(done, made, line))
                && (r.Unanswered? ==> SomeLineBig(before, lines, patience))
                && (old(Room()) && AllListable(before, root, files, lines) ==>
                      (r.Ok? ==> Room()) && (server.willing ==> !r.Refused?))
    {
      hide Parts, Steady, Clear, SameOutside, Walk, Encoded, AllMade, Copied, LineOk, Roomy, LineBig, LineListable;
      ghost var good := Valid() && forall line :: line in lines ==> LineOk(before, Parts(root), links, line);
      for i := 0 to |lines|
        invariant good ==> Valid() && done >= old(done) && made >= old(made)
        invariant good && old(Room()) && AllListable(before, root, files, lines) ==> Room()
        invariant good ==> forall j :: 0 <= j < i ==> Recorded(done, made, lines[j])
      {
        r := TakeLine(lines[i], patience);
        if !r.Ok? {
          return;
        }
      }
      r := Ok(0);
    }

    /** A package: its files, and then its list. */
    method TakePackage(name: Bytes, list: Bytes, patience: nat) returns (r: Reply<nat>)
      requires Join(DB, name).Some?
      modifies server, this`dirs, this`entries, this`done, this`made
      ensures r.Ok? || r.Refused? || r.Unanswered?
      ensures old(Valid()) && Asked(before, sets, name) && NameOk(before, Parts(root), links, sets, name)
              && Held(before, name) == Some(list) ==>
                && SameOutside(before, server.tree, Parts(root))
                && (r.Ok? ==> Valid() && done >= old(done) && made >= old(made) && InHand(before, done, made, name))
                && (r.Unanswered? ==> PackageBig(before, name, patience))
                && (old(Room()) && PackageListable(before, root, files, name) ==>
                      (r.Ok? ==> Room()) && (server.willing ==> !r.Refused?))
    {
      hide Parts, Steady, Clear, SameOutside, Walk, Encoded, AllMade, Copied, LineOk, Copyable, ParentMade, Roomy,
           LineBig, IsBig, Free,
           Bringable, AllListable, Placeable, Held, Join, StaysOutside, PackageList.Lines, PackageList.Said;
      ghost var good := Valid() && Asked(before, sets, name) && NameOk(before, Parts(root), links, sets, name)
        && Held(before, name) == Some(list);
      if good && PackageListable(before, root, files, name) {
        OwnIsPlaceable(before, root, files, name);
      }
      r := TakeList(PackageList.Lines(list), patience);
      if !r.Ok? {
        return;
      }
      ghost var listedDone, listedMade := done, made;
      var own := Join(DB, name).value;
      var madeDb := Make(DB);
      if !madeDb.Ok? {
        return Refused;
      }
      if good {
        OwnParts(before, name);
        ParentIsMade(server.tree, Parts(root), Parts(DB), Parts(own));
      }
      r := Bring(own, patience);
      if r.Ok? && good {
        forall line | line in PackageList.Lines(list) ensures Recorded(done, made, line) {
          StaysRecorded(listedDone, listedMade, done, made, line);
        }
      }
    }

    /** A package's turn: taken if its list can be read and its set was asked for. */
    method TakeNamed(name: Bytes, patience: nat) returns (r: Reply<Turn>)
      requires record.Length == PackageList.RECORD_MAX
      modifies server, record, this`dirs, this`entries, this`done, this`made
      ensures r.Ok? || r.Refused? || r.Unanswered?
      ensures old(Valid()) && NameOk(before, Parts(root), links, sets, name) ==>
                && SameOutside(before, server.tree, Parts(root))
                && (r.Ok? ==> Valid() && done >= old(done) && made >= old(made))
                && (r.Ok? && r.value.Taken? ==> InHand(before, done, made, name) && Asked(before, sets, name))
                && (r.Ok? && r.value.NotAsked? ==> !Asked(before, sets, name))
                && (r.Unanswered? ==> Asked(before, sets, name) && PackageBig(before, name, patience))
                && (server.willing && r.Ok? && r.value.NotRead? ==> !Asked(before, sets, name))
                && (old(Room()) && (Asked(before, sets, name) ==> PackageListable(before, root, files, name)) ==>
                      (r.Ok? ==> Room()) && (server.willing ==> !r.Refused?))
    {
      hide Parts, Steady, Clear, SameOutside, Walk, Encoded, AllMade, Copied, LineOk, Copyable, StaysOutside, Held,
           Join, Roomy, PackageBig, PackageListable, InHand, PackageList.Said;
      ghost var was, good := server.tree, Valid() && NameOk(before, Parts(root), links, sets, name);
      if good {
        HeldOutside(before, was, Parts(root), name);
      }
      var list := Load(server, name, record);
      if list.None? {
        return Ok(NotRead);
      }
      if PackageList.Said(list.value, PackageList.SET) !in sets {
        return Ok(NotAsked);
      }
      HeldHasPath(was, name);
      var put := TakePackage(name, list.value, patience);
      r := if put.Ok? then Ok(Taken) else if put.Unanswered? then Unanswered else Refused;
    }

    /** The packages one by one: those taken, and those whose lists could not be read. */
    method TakeAll(names: seq<Bytes>, patience: nat) returns (r: Reply<(seq<Bytes>, seq<Bytes>)>)
      requires record.Length == PackageList.RECORD_MAX
      modifies server, record, this`dirs, this`entries, this`done, this`made
      ensures r.Ok? || r.Refused? || r.Unanswered?
      ensures old(Valid()) && (forall name :: name in names ==> NameOk(before, Parts(root), links, sets, name)) ==>
                && SameOutside(before, server.tree, Parts(root))
                && (r.Ok? ==>
                      && Valid() && done >= old(done) && made >= old(made)
                      && (forall name :: name in r.value.0 ==> InHand(before, done, made, name))
                      && (forall name :: name in r.value.0 ==> name in names && Asked(before, sets, name))
                      && (forall name :: name in names && Asked(before, sets, name) ==>
                            name in r.value.0 || (!server.willing && name in r.value.1)))
                && (r.Unanswered? ==> SomePackageBig(before, sets, names, patience))
                && (old(Room()) && AllPackagesListable(before, root, files, sets, names) ==>
                      (r.Ok? ==> Room()) && (server.willing ==> !r.Refused?))
    {
      hide Parts, Steady, SameOutside, Encoded, AllMade, Copied, NameOk, Roomy, PackageBig, PackageListable, InHand,
           Asked;
      ghost var good := Valid() && forall name :: name in names ==> NameOk(before, Parts(root), links, sets, name);
      ghost var room := Room() && AllPackagesListable(before, root, files, sets, names);
      var taken: seq<Bytes>, unread: seq<Bytes> := [], [];
      for i := 0 to |names|
        invariant good ==> Valid() && (room ==> Room()) && done >= old(done) && made >= old(made)
        invariant good ==> forall name :: name in taken ==> InHand(before, done, made, name)
        invariant good ==> forall name :: name in taken ==> name in names && Asked(before, sets, name)
        invariant good ==> forall j :: 0 <= j < i && Asked(before, sets, names[j]) ==>
                                         names[j] in taken || (!server.willing && names[j] in unread)
      {
        ghost var wasDone, wasMade := done, made;
        var turn := TakeNamed(names[i], patience);
        if !turn.Ok? {
          return if turn.Unanswered? then Unanswered else Refused;
        }
        if good {
          forall other | other in taken ensures InHand(before, done, made, other) {
            StaysInHand(before, wasDone, wasMade, done, made, other);
          }
        }
        match turn.value {
          case Taken => taken := taken + [names[i]];
          case NotAsked =>
          case NotRead => unread := unread + [names[i]];
        }
      }
      r := Ok((taken, unread));
    }
  }

  lemma CopiedGrows(before: Tree, a: Tree, b: Tree, root: Path, path: Bytes)
    requires Copied(before, a, root, path) && Grows(a, b)
    ensures Copied(before, b, root, path)
  {
  }

  lemma CopiedFrom(before: Tree, a: Tree, b: Tree, root: Path, path: Bytes)
    requires Source(before, path) == Source(a, path) && Copied(a, b, root, path)
    ensures Copied(before, b, root, path) && root + Parts(path) in b
  {
  }

  lemma OwnParts(tree: Tree, name: Bytes)
    requires Held(tree, name).Some?
    ensures Join(DB, name).Some?
    ensures Parts(DB) <= Parts(Join(DB, name).value) && |Parts(Join(DB, name).value)| <= |Parts(DB)| + 1
  {
    hide Parts;
    HeldHasPath(tree, name);
    PartsOfJoin(DB, name);
    PartsOfName(name);
  }

  ghost predicate HasSet(tree: Tree, name: Bytes, set_: Bytes) {
    Held(tree, name).Some? && PackageList.Said(Held(tree, name).value, PackageList.SET) == set_
  }

  /** It is the set of some package here. */
  ghost predicate IsSet(tree: Tree, names: seq<Bytes>, set_: Bytes) {
    exists n :: 0 <= n < |names| && HasSet(tree, names[n], set_)
  }

  lemma SetHere(tree: Tree, names: seq<Bytes>, set_: Bytes, n: nat)
    requires n < |names| && HasSet(tree, names[n], set_)
    ensures IsSet(tree, names, set_)
  {
  }

  lemma SetNowhere(tree: Tree, names: seq<Bytes>, set_: Bytes)
    ensures (forall n :: 0 <= n < |names| ==> !HasSet(tree, names[n], set_)) ==> !IsSet(tree, names, set_)
  {
  }

  /** Whether a set is that of some package here. */
  method SetKnown(server: Server, set_: Bytes, names: seq<Bytes>, record: array<byte>) returns (found: bool)
    requires record.Length == PackageList.RECORD_MAX
    modifies record
    ensures found ==> IsSet(server.tree, names, set_)
    ensures server.willing && !found ==> !IsSet(server.tree, names, set_)
  {
    hide Held, PackageList.Said, IsSet;
    found := false;
    for n := 0 to |names|
      invariant found ==> IsSet(server.tree, names, set_)
      invariant server.willing && !found ==> forall m :: 0 <= m < n ==> !HasSet(server.tree, names[m], set_)
    {
      var list := Load(server, names[n], record);
      if list.Some? && PackageList.Said(list.value, PackageList.SET) == set_ {
        SetHere(server.tree, names, set_, n);
        found := true;
      }
    }
    SetNowhere(server.tree, names, set_);
  }

  /** Every set asked for is the set of some package here. */
  method SetsKnown(server: Server, sets: seq<Bytes>, names: seq<Bytes>, record: array<byte>) returns (known: bool)
    requires record.Length == PackageList.RECORD_MAX
    modifies record
    ensures known ==> forall i :: 0 <= i < |sets| ==> IsSet(server.tree, names, sets[i])
    ensures server.willing && !known ==> exists i :: 0 <= i < |sets| && !IsSet(server.tree, names, sets[i])
  {
    hide IsSet;
    for i := 0 to |sets|
      invariant forall j :: 0 <= j < i ==> IsSet(server.tree, names, sets[j])
    {
      var found := SetKnown(server, sets[i], names, record);
      if !found {
        return false;
      }
    }
    known := true;
  }

  // ---- Whether a root is this system's own ----

  /** A path that leads, a link at its end taken for itself, to where "/" does. */
  predicate OwnRoot(tree: Tree, root: Bytes) {
    Walk(tree, [], Parts(root), false, MAX_LINKS) == Some([])
  }

  /** One of the two tests for it can never hold: a path joined with nothing still has the
      slash between them. */
  lemma JoinedIsNotEmpty(root: Bytes)
    ensures Join(root, []).Some? ==> Join(root, []).value != []
  {
  }

  /** Whether the root is this system's own: it is said to be exactly when it is and the
      server answers both questions, as one that refuses nothing it could do does. */
  method IsOwnRoot(server: Server, root: Bytes) returns (same: bool, ghost answered: bool)
    ensures same <==> answered && OwnRoot(server.tree, root)
    ensures server.willing && OwnRoot(server.tree, root) ==> answered
  {
    hide Walk, Parts;
    PartsOfSlash();
    NowhereIsHere(server.tree);
    JoinedIsNotEmpty(root);
    var a := server.Lstat(root);
    var b := server.Lstat([SLASH]);
    answered := a.Ok? && b.Ok?;
    var joined := Join(root, []);
    same := (a.Ok? && b.Ok? && a.value == b.value) || (joined.Some? && joined.value == []);
  }

  /** No root that is good is taken for this system's own. */
  lemma GoodRootIsNotOwn(tree: Tree, root: Bytes, links: set<Path>)
    requires Steady(tree, Parts(root), links)
    ensures !OwnRoot(tree, root)
  {
    hide Solid, Fits, Parts, Walk;
    var top := Parts(root);
    assert Clear(links, []);
    assert top + [] == top;
    LeadsToItself(tree, top, links, [], false);
  }

  /** A root that is a link to "/" opens as a directory and is not taken for this system's
      own; and every file copied to it, if it is found by a link fewer than there may be, is
      copied onto itself and lost. */
  lemma LinkedRootPasses(tree: Tree, name: Bytes, path: Bytes)
    requires name != [] && SLASH !in name && [name] in tree && tree[[name]] == LinkNode([SLASH])
    ensures var root := [SLASH] + name;
      && Walk(tree, [], Parts(root), true, MAX_LINKS) == Some([]) && !OwnRoot(tree, root)
      && (var p := Walk(tree, [], Parts(path), false, MAX_LINKS - 1);
          p.Some? && p.value in tree && tree[p.value].FileNode? && Join(root, path).Some? ==>
            OntoItself(tree, root, path))
  {
    hide Parts;
    var root, parts := [SLASH] + name, Parts(path);
    PartsOfName(name);
    PartsOfName([]);
    PartsConcat([], name);
    assert root == [] + [SLASH] + name;
    assert Parts(root) == [name];
    ThroughTheLink(tree, name, [], true);
    AtTheLink(tree, name);
    var p := Walk(tree, [], parts, false, MAX_LINKS - 1);
    if p.Some? && p.value in tree && tree[p.value].FileNode? && Join(root, path).Some? {
      PartsOfJoin(root, path);
      WalkMoreLinks(tree, [], parts, false, MAX_LINKS - 1, MAX_LINKS);
      WalkFollowing(tree, [], parts, MAX_LINKS - 1);
      ThroughTheLink(tree, name, parts, true);
    }
  }

  lemma ThroughTheLink(tree: Tree, name: Bytes, parts: Path, follow: bool)
    requires [name] in tree && tree[[name]] == LinkNode([SLASH]) && (follow || parts != [])
    ensures Walk(tree, [], [name] + parts, follow, MAX_LINKS) == Walk(tree, [], parts, follow, MAX_LINKS - 1)
  {
    hide Parts;
    PartsOfSlash();
    var todo, at: Path := [name] + parts, [];
    assert at + [todo[0]] == [name] && todo[1..] == parts && Parts([SLASH]) + parts == parts;
  }

  lemma AtTheLink(tree: Tree, name: Bytes)
    requires [name] in tree && tree[[name]].LinkNode?
    ensures Walk(tree, [], [name], false, MAX_LINKS) == Some([name])
  {
    var todo: Path, at: Path := [name], [];
    assert at + [todo[0]] == [name] && todo[1..] == [];
  }

  /** And so it is with "/" itself, or no path at all, when the server will not say what
      they are: it is this system's own root, and a file copied to it is lost. */
  lemma OwnRootIsOntoItself(tree: Tree, root: Bytes, path: Bytes)
    requires Parts(root) == [] && Join(root, path).Some?
    requires Source(tree, path).Some? && Source(tree, path).value.FileNode?
    ensures OwnRoot(tree, root) && OntoItself(tree, root, path)
  {
    hide Parts;
    NowhereIsHere(tree);
    PartsOfJoin(root, path);
    assert [] + Parts(path) == Parts(path);
    WalkFollowing(tree, [], Parts(path), MAX_LINKS);
  }

  /** Nor is it only such roots: one that is a directory of its own, but holds a link to a
      directory here under that directory's own name, passes, and a file of that directory
      is copied onto itself. */
  lemma RootWithALinkInside(tree: Tree, name: Bytes, dir: Bytes, file: Bytes)
    requires name != [] && SLASH !in name && dir != [] && SLASH !in dir && file != [] && SLASH !in file
    requires [name] in tree && tree[[name]] == DirNode && [dir] in tree && tree[[dir]] == DirNode
    requires [name, dir] in tree && tree[[name, dir]] == LinkNode([SLASH] + dir)
    requires [dir, file] in tree && tree[[dir, file]].FileNode?
    ensures var root, path := [SLASH] + name, ([SLASH] + dir) + ([SLASH] + file);
      !OwnRoot(tree, root) && (Join(root, path).Some? ==> OntoItself(tree, root, path))
  {
    hide Parts;
    var root, path := [SLASH] + name, ([SLASH] + dir) + ([SLASH] + file);
    PartsOfRooted(name);
    PartsOfRooted(dir);
    PartsOfRooted(file);
    assert path == [SLASH] + dir + [SLASH] + file;
    PartsOfName(file);
    PartsConcat([SLASH] + dir, file);
    assert Parts(path) == [dir, file];
    StraightDown(tree, dir, file, false, MAX_LINKS);
    StraightDown(tree, dir, file, true, MAX_LINKS - 1);
    JustThere(tree, name);
    if Join(root, path).Some? {
      PartsOfJoin(root, path);
      assert [name] + [dir, file] == [name, dir, file];
      ThroughTheInside(tree, name, dir, file);
    }
  }

  lemma PartsOfRooted(name: Bytes)
    requires name != [] && SLASH !in name
    ensures Parts([SLASH] + name) == [name]
  {
    hide Parts;
    PartsOfName(name);
    PartsOfName([]);
    PartsConcat([], name);
    assert [SLASH] + name == [] + [SLASH] + name;
  }

  lemma JustThere(tree: Tree, name: Bytes)
    requires [name] in tree && tree[[name]].DirNode?
    ensures Walk(tree, [], [name], false, MAX_LINKS) == Some([name])
  {
    var todo: Path, at: Path := [name], [];
    assert at + [todo[0]] == [name] && todo[1..] == [];
  }

  lemma StraightDown(tree: Tree, dir: Bytes, file: Bytes, follow: bool, links: nat)
    requires [dir] in tree && tree[[dir]].DirNode? && [dir, file] in tree && tree[[dir, file]].FileNode?
    ensures Walk(tree, [], [dir, file], follow, links) == Some([dir, file])
  {
    hide Parts;
    var todo: Path, at: Path := [dir, file], [];
    assert at + [todo[0]] == [dir] && todo[1..] == [file];
    var last, place: Path := [file], [dir];
    assert place + [last[0]] == [dir, file] && last[1..] == [];
    assert Walk(tree, place, last, follow, links) == Walk(tree, [dir, file], [], follow, links);
  }

  lemma ThroughTheInside(tree: Tree, name: Bytes, dir: Bytes, file: Bytes)
    requires [name] in tree && tree[[name]].DirNode? && Parts([SLASH] + dir) == [dir]
    requires [name, dir] in tree && tree[[name, dir]] == LinkNode([SLASH] + dir)
    ensures Walk(tree, [], [name, dir, file], true, MAX_LINKS) == Walk(tree, [], [dir, file], true, MAX_LINKS - 1)
  {
    hide Parts;
    var todo: Path, at: Path := [name, dir, file], [];
    assert at + [todo[0]] == [name] && todo[1..] == [dir, file];
    var rest, place: Path := [dir, file], [name];
    assert place + [rest[0]] == [name, dir] && rest[1..] == [file];
    assert [dir] + [file] == [dir, file];
    assert Walk(tree, place, rest, true, MAX_LINKS) == Walk(tree, [], [dir, file], true, MAX_LINKS - 1);
  }

  // ---- The strap ----

  /** What a strap goes on with: a set or more, a directory, and sets that there are. */
  ghost predicate Askable(tree: Tree, root: Bytes, sets: seq<Bytes>, names: seq<Bytes>) {
    && sets != []
    && (var place := Walk(tree, [], Parts(root), true, MAX_LINKS);
        place.Some? && (place.value == [] || (place.value in tree && tree[place.value].DirNode?)))
    && forall i :: 0 <= i < |sets| ==> IsSet(tree, names, sets[i])
  }

  ghost predicate AllPackagesListable(tree: Tree, root: Bytes, files: set<Path>, sets: seq<Bytes>, names: seq<Bytes>) {
    forall i :: 0 <= i < |names| && Asked(tree, sets, names[i]) ==> PackageListable(tree, root, files, names[i])
  }

  /** Everything the packages asked for list is here, and there is room for it under the
      root. */
  ghost predicate Copiable(tree: Tree, root: Bytes, files: set<Path>, sets: seq<Bytes>, names: seq<Bytes>) {
    Roomy(tree, Parts(root), files) && AllPackagesListable(tree, root, files, sets, names)
  }

  ghost predicate SomePackageBig(tree: Tree, sets: seq<Bytes>, names: seq<Bytes>, patience: nat) {
    exists i :: 0 <= i < |names| && Asked(tree, sets, names[i]) && PackageBig(tree, names[i], patience)
  }

  /** What was there already as it is here is there still, and so are the directories. */
  ghost predicate Holds(before: Tree, after: Tree, root: Path) {
    && (forall path: Bytes :: Copied(before, before, root, path) ==> Copied(before, after, root, path))
    && (forall path: Bytes :: AllMade(before, root, Parts(path)) ==> AllMade(after, root, Parts(path)))
  }

  /** What a strap into a good root comes to. In any outcome nothing outside the root has
      changed. When it finishes, each package it took is there in full, and was asked for;
      what an earlier strap brought is there still, and the root is as good as it was; and
      each of a set
      asked for was taken, unless its list could not be read when its turn came - a list
      that cannot be read is passed over without a word. With a server that refuses nothing
      it could do, it finishes if what was asked for is there and there is room for it, and
      then it has taken every package asked for; only a listed file of four gigabytes keeps
      it from an end. */
  ghost predicate Strapped(before: Tree, after: Tree, root: Bytes, sets: seq<Bytes>, names: seq<Bytes>,
                           links: set<Path>, files: set<Path>, patience: nat, willing: bool,
                           r: Reply<(seq<Bytes>, seq<Bytes>)>)
  {
    && SameOutside(before, after, Parts(root))
    && (r.Ok? ==>
          && Steady(after, Parts(root), links) && Holds(before, after, Parts(root))
          && (Copiable(before, root, files, sets, names) ==> Roomy(after, Parts(root), files))
          && (forall name :: name in r.value.0 ==>
                name in names && Asked(before, sets, name) && Transferred(before, after, Parts(root), name))
          && (forall name :: name in names && Asked(before, sets, name) ==>
                name in r.value.0 || (!willing && name in r.value.1)))
    && (r.Unanswered? ==> SomePackageBig(before, sets, names, patience))
    && (willing && Askable(before, root, sets, names) && Copiable(before, root, files, sets, names) ==> !r.Refused?)
  }

  /** Copy the packages of some sets into another root. Into a good root it does as it
      should. This system's own root is refused, if the server says what it is; if it does
      not, or the root is a link to it, the strap goes on all the same. */
  method Strap(server: Server, root: Bytes, sets: seq<Bytes>, names: seq<Bytes>, patience: nat, ghost links: set<Path>,
               ghost files: set<Path>)
    returns (r: Reply<(seq<Bytes>, seq<Bytes>)>)
    modifies server
    ensures r.Ok? || r.Refused? || r.Unanswered?
    ensures r.Ok? || r.Unanswered? ==> Askable(old(server.tree), root, sets, names)
    ensures server.willing && OwnRoot(old(server.tree), root) ==> r.Refused? && server.tree == old(server.tree)
    ensures Ready(old(server.tree), Parts(root), sets, names, links) ==>
              Strapped(old(server.tree), server.tree, root, sets, names, links, files, patience, server.willing, r)
  {
    hide Parts, Solid, Fits, Walk, Copied, NameOk, SameOutside, Encoded, AllMade, InHand, Asked, Transferred, Roomy,
         IsSet, OwnRoot, AllPackagesListable, SomePackageBig;
    ghost var top, before := Parts(root), server.tree;
    ghost var good := Ready(before, top, sets, names, links);
    Beginning(before, top);
    if sets == [] {
      return Refused;
    }
    var found := server.Open(root, true);
    if !found.Ok? || (found.value != [] && !(found.value in server.tree && server.tree[found.value].DirNode?)) {
      return Refused;
    }
    if good {
      GoodRootIsNotOwn(before, root, links);
    }
    var same, _ := IsOwnRoot(server, root);
    if same {
      return Refused;
    }
    var record := new byte[PackageList.RECORD_MAX];
    var known := SetsKnown(server, sets, names, record);
    if !known {
      return Refused;
    }
    var s := new Strapper(server, root, sets, links, files);
    r := s.TakeAll(names, patience);
    if good && r.Ok? {
      forall name | name in r.value.0 ensures Transferred(before, server.tree, top, name) {
        HandedOver(s, name);
      }
      HoldsOn(s);
    }
  }

  lemma HoldsOn(s: Strapper)
    requires s.Valid()
    requires forall p :: Copied(s.before, s.before, Parts(s.root), p) ==> p in s.done
    requires forall d :: AllMade(s.before, Parts(s.root), Parts(d)) ==> d in s.made
    ensures Holds(s.before, s.server.tree, Parts(s.root)) && Steady(s.server.tree, Parts(s.root), s.links)
  {
    hide Parts, Solid, Fits, SameOutside, Encoded, AllMade, Copied;
  }

  /** So a root is good for another strap after one. */
  lemma ReadyAgain(before: Tree, middle: Tree, root: Path, sets: seq<Bytes>, names: seq<Bytes>, links: set<Path>)
    requires Ready(before, root, sets, names, links)
    requires SameOutside(before, middle, root) && Steady(middle, root, links)
    ensures Ready(middle, root, sets, names, links)
  {
    hide NameOk, Steady, SameOutside;
    forall name | name in names ensures NameOk(middle, root, links, sets, name) {
      NameStaysOk(before, middle, root, sets, links, name);
    }
  }

  lemma NameStaysOk(a: Tree, b: Tree, root: Path, sets: seq<Bytes>, links: set<Path>, name: Bytes)
    requires SameOutside(a, b, root) && NameOk(a, root, links, sets, name)
    ensures NameOk(b, root, links, sets, name) && Held(a, name) == Held(b, name)
  {
    hide Parts, Clear, Walk, SameOutside, Copyable, StaysOutside, Held, Join, LineOk, PackageList.Lines;
    HeldOutside(a, b, root, name);
    if Join(DB, name).Some? {
      StaysOut(a, b, root, Parts(Join(DB, name).value));
    }
    if Asked(a, sets, name) {
      HeldHasPath(a, name);
      SourceOutside(a, b, root, links, Join(DB, name).value);
      forall line | line in PackageList.Lines(Held(a, name).value) ensures LineOk(b, root, links, line) {
        LineStaysOk(a, b, root, links, line);
      }
    }
  }

  lemma StaysOut(a: Tree, b: Tree, root: Path, parts: Path)
    requires SameOutside(a, b, root) && StaysOutside(a, root, [], parts, true, MAX_LINKS)
    ensures StaysOutside(b, root, [], parts, true, MAX_LINKS)
  {
    WalkOutside(a, b, root, [], parts, true, MAX_LINKS);
  }

  lemma LineStaysOk(a: Tree, b: Tree, root: Path, links: set<Path>, line: PackageList.Line)
    requires SameOutside(a, b, root) && LineOk(a, root, links, line)
    ensures LineOk(b, root, links, line)
    ensures (line.File? || line.Yours? || line.Link?) ==> Source(a, line.path) == Source(b, line.path)
  {
    hide Parts, Clear, SameOutside, Copyable, Source;
    if line.File? || line.Yours? || line.Link? {
      SourceOutside(a, b, root, links, line.path);
    }
  }

  /** The sets of a system are strapped one after another into one root: when two straps have
      finished, every package either took is there in full. */
  lemma StrappedTwice(before: Tree, middle: Tree, after: Tree, root: Bytes, sets: seq<Bytes>, more: seq<Bytes>,
                      names: seq<Bytes>, links: set<Path>, files: set<Path>, patience: nat, willing: bool,
                      first: Reply<(seq<Bytes>, seq<Bytes>)>, second: Reply<(seq<Bytes>, seq<Bytes>)>)
    requires Ready(before, Parts(root), sets, names, links) && Ready(before, Parts(root), more, names, links)
    requires first.Ok? && Strapped(before, middle, root, sets, names, links, files, patience, willing, first)
    requires second.Ok? && Strapped(middle, after, root, more, names, links, files, patience, willing, second)
    ensures Ready(middle, Parts(root), more, names, links) && SameOutside(before, after, Parts(root))
    ensures forall name :: name in first.value.0 || name in second.value.0 ==>
                             Transferred(before, after, Parts(root), name)
  {
    hide NameOk, Steady, SameOutside, Transferred, Asked, Holds, Roomy, AllPackagesListable, Parts;
    var top := Parts(root);
    ReadyAgain(before, middle, top, more, names, links);
    AfterThat(before, middle, after, top);
    forall name | name in first.value.0 ensures Transferred(before, after, top, name) {
      TransferredOn(before, middle, after, top, sets, links, name);
    }
    forall name | name in second.value.0 ensures Transferred(before, after, top, name) {
      NameStaysOk(before, middle, top, more, links, name);
      TransferredBack(before, middle, after, top, more, links, name);
    }
  }

  lemma TransferredOn(before: Tree, middle: Tree, after: Tree, root: Path, sets: seq<Bytes>, links: set<Path>,
                      name: Bytes)
    requires SameOutside(before, middle, root) && NameOk(before, root, links, sets, name) && Asked(before, sets, name)
    requires Transferred(before, middle, root, name) && Holds(middle, after, root)
    ensures Transferred(before, after, root, name)
  {
    hide Parts, Clear, SameOutside, Copyable, Copied, AllMade, Held, Join, LineOk, PackageList.Lines;
    HeldHasPath(before, name);
    var own := Join(DB, name).value;
    SourceOutside(before, middle, root, links, own);
    CopiedOn(before, middle, after, root, own);
    forall line | line in PackageList.Lines(Held(before, name).value) ensures LineDone(before, after, root, line) {
      LineStaysOk(before, middle, root, links, line);
      if line.File? || line.Yours? || line.Link? {
        CopiedOn(before, middle, after, root, line.path);
      }
    }
  }

  lemma CopiedOn(before: Tree, middle: Tree, after: Tree, root: Path, path: Bytes)
    requires Source(before, path) == Source(middle, path)
    requires Copied(before, middle, root, path) && Holds(middle, after, root)
    ensures Copied(before, after, root, path)
  {
    hide Parts, AllMade, Source;
    assert Copied(middle, middle, root, path);
  }

  lemma TransferredBack(before: Tree, middle: Tree, after: Tree, root: Path, sets: seq<Bytes>, links: set<Path>,
                        name: Bytes)
    requires SameOutside(before, middle, root) && NameOk(before, root, links, sets, name)
    requires Asked(middle, sets, name) && Held(before, name) == Held(middle, name)
    requires Transferred(middle, after, root, name)
    ensures Transferred(before, after, root, name)
  {
    hide Parts, Clear, SameOutside, Copyable, AllMade, Held, Join, LineOk, PackageList.Lines, Source;
    HeldHasPath(before, name);
    SourceOutside(before, middle, root, links, Join(DB, name).value);
    forall line | line in PackageList.Lines(Held(before, name).value) ensures LineDone(before, after, root, line) {
      LineStaysOk(before, middle, root, links, line);
    }
  }

  /** A package is among what a strapper has done. */
  ghost predicate InHand(before: Tree, done: iset<Bytes>, made: iset<Bytes>, name: Bytes) {
    && Held(before, name).Some?
    && Join(DB, name).Some? && Join(DB, name).value in done
    && forall line :: line in PackageList.Lines(Held(before, name).value) ==> Recorded(done, made, line)
  }

  lemma StaysInHand(before: Tree, done: iset<Bytes>, made: iset<Bytes>, moreDone: iset<Bytes>, moreMade: iset<Bytes>,
                    name: Bytes)
    requires InHand(before, done, made, name) && moreDone >= done && moreMade >= made
    ensures InHand(before, moreDone, moreMade, name)
  {
  }

  lemma HandedOver(s: Strapper, name: Bytes)
    requires s.Valid() && InHand(s.before, s.done, s.made, name)
    ensures Transferred(s.before, s.server.tree, Parts(s.root), name)
  {
    hide Parts, Solid, Fits, SameOutside, Encoded, AllMade, Copied, Held, Join;
  }

  lemma NowhereIsHere(tree: Tree)
    ensures Walk(tree, [], [], true, MAX_LINKS) == Walk(tree, [], [], false, MAX_LINKS) == Some([])
  {
  }
}
