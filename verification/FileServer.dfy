/** The file server as its clients see it: a tree of directories, files and links behind
    textual paths, whose reads and writes may be short and any of whose operations may be
    refused. The server itself is not part of this repository; what is assumed of it is
    what is written here. */
module FileServer {
  import opened Bytes

  const MAX_PATH := 1024

  /** How many links one path may lead through. */
  const MAX_LINKS: nat := 40

  type Path = seq<Bytes>

  datatype Node = DirNode | FileNode(data: Bytes) | LinkNode(target: Bytes)
  type Tree = map<Path, Node>

  /** What an operation is answered. `Unanswered` is the end of the run being looked at. */
  datatype Reply<+T> = Ok(value: T) | Exists | Refused | Unanswered

  // ---- Paths as text ----

  function NonEmpty(parts: seq<Bytes>): Path {
    if parts == [] then []
    else (if parts[0] == [] then [] else [parts[0]]) + NonEmpty(parts[1..])
  }

  /** The names along a path. */
  function Parts(text: Bytes): Path {
    NonEmpty(Split(text, SLASH))
  }

  function WithoutEndSlash(a: Bytes): Bytes {
    var a := if |a| > 1 && a[|a| - 1] == SLASH then a[..|a| - 1] else a;
    if a == [SLASH] then [] else a
  }

  /** Two paths as one, if it is not too long. */
  function Join(a: Bytes, b: Bytes): Option<Bytes> {
    var a := WithoutEndSlash(a);
    var joined := if b != [] && b[0] == SLASH then a + b else a + [SLASH] + b;
    if |joined| > MAX_PATH then None else Some(joined)
  }

  lemma {:induction false} NonEmptyConcat(a: seq<Bytes>, b: seq<Bytes>)
    ensures NonEmpty(a + b) == NonEmpty(a) + NonEmpty(b)
    decreases |a|
  {
    if a == [] {
      assert a + b == b;
    } else {
      assert (a + b)[1..] == a[1..] + b;
      NonEmptyConcat(a[1..], b);
    }
  }

  lemma PartsConcat(a: Bytes, b: Bytes)
    ensures Parts(a + [SLASH] + b) == Parts(a) + Parts(b)
  {
    SplitConcat(a, SLASH, b);
    NonEmptyConcat(Split(a, SLASH), Split(b, SLASH));
  }

  lemma PartsOfName(name: Bytes)
    requires SLASH !in name
    ensures Parts(name) == if name == [] then [] else [name]
  {
    SplitNone(name, SLASH);
    var one: seq<Bytes> := [name];
    assert one[1..] == [];
    assert NonEmpty(one) == (if name == [] then [] else [name]) + NonEmpty(one[1..]);
  }

  lemma PartsWithoutEndSlash(a: Bytes)
    ensures Parts(WithoutEndSlash(a)) == Parts(a)
  {
    PartsOfName([]);
    if |a| > 1 && a[|a| - 1] == SLASH {
      var front := a[..|a| - 1];
      assert a == front + [SLASH] + [];
      PartsConcat(front, []);
      if front == [SLASH] {
        PartsOfSlash();
      }
    } else if a == [SLASH] {
      PartsOfSlash();
    }
  }

  lemma PartsOfSlash()
    ensures Parts([SLASH]) == []
  {
    PartsOfName([]);
    PartsConcat([], []);
    assert [] + [SLASH] + [] == [SLASH];
  }

  /** Two paths as one: a slash between them if there is none, the one at the end of the first
      taken for it; too long at more than a thousand and twenty-four bytes. */
  lemma JoinExactly(a: Bytes, b: Bytes)
    requires a == [] || a[|a| - 1] != 47
    requires b == [] || b[0] != 47
    ensures Join(a, b) == if |a| + 1 + |b| > 1024 then None else Some(a + Ascii("/") + b)
    ensures Join(a, Ascii("/") + b) == Join(a, b) && Join(a + Ascii("/"), b) == Join(a, b)
  {
    assert Ascii("/") == [SLASH];
    assert (a + [SLASH])[..|a|] == a;
    assert a + ([SLASH] + b) == a + [SLASH] + b;
    assert a == [] ==> a + [SLASH] == [SLASH];
  }

  lemma PartsOfJoin(a: Bytes, b: Bytes)
    requires Join(a, b).Some?
    ensures Parts(Join(a, b).value) == Parts(a) + Parts(b)
  {
    hide Parts;
    PartsWithoutEndSlash(a);
    var a' := WithoutEndSlash(a);
    if b != [] && b[0] == SLASH {
      var rest := b[1..];
      assert b == [] + [SLASH] + rest;
      assert a' + b == a' + [SLASH] + rest;
      PartsConcat([], rest);
      PartsConcat(a', rest);
      PartsOfName([]);
    } else {
      PartsConcat(a', b);
    }
  }

  /** What is no longer can be joined as well. */
  lemma JoinOfShorter(a: Bytes, b: Bytes, c: Bytes)
    requires Join(a, b).Some? && b != [] && c != [] && |c| <= |b| && (c[0] == SLASH || b[0] != SLASH)
    ensures Join(a, c).Some?
  {
  }

  // ---- Following a path ----

  /** Where a path leads from `at`: every name on the way has to be a directory, links on
      the way are followed, and one at the end is only if `follow` says so. */
  function Walk(tree: Tree, at: Path, todo: Path, follow: bool, links: nat): Option<Path>
    decreases links, |todo|
  {
    if todo == [] then Some(at) else
      var next := at + [todo[0]];
      if next in tree && tree[next].LinkNode? && (|todo| > 1 || follow) then
        var target := tree[next].target;
        if links == 0 then None
        else Walk(tree, if target != [] && target[0] == SLASH then [] else at,
                  Parts(target) + todo[1..], follow, links - 1)
      else if |todo| > 1 && !(next in tree && tree[next].DirNode?) then None
      else Walk(tree, next, todo[1..], follow, links)
  }

  /** The same path never sets foot in `root` or below it. */
  predicate StaysOutside(tree: Tree, root: Path, at: Path, todo: Path, follow: bool, links: nat)
    decreases links, |todo|
  {
    !(root <= at) &&
    (todo == [] ||
     var next := at + [todo[0]];
     !(root <= next) &&
     if next in tree && tree[next].LinkNode? && (|todo| > 1 || follow) then
       var target := tree[next].target;
       links == 0
       || StaysOutside(tree, root, if target != [] && target[0] == SLASH then [] else at,
                       Parts(target) + todo[1..], follow, links - 1)
     else
       (|todo| > 1 && !(next in tree && tree[next].DirNode?))
       || StaysOutside(tree, root, next, todo[1..], follow, links))
  }

  /** Two trees are the same everywhere but below `root`. */
  ghost predicate SameOutside(a: Tree, b: Tree, root: Path) {
    forall q: Path :: !(root < q) ==> ((q in a <==> q in b) && (q in a && q in b ==> a[q] == b[q]))
  }

  lemma {:induction false} WalkOutside(a: Tree, b: Tree, root: Path, at: Path, todo: Path, follow: bool, links: nat)
    requires SameOutside(a, b, root) && StaysOutside(a, root, at, todo, follow, links)
    ensures StaysOutside(b, root, at, todo, follow, links)
    ensures Walk(a, at, todo, follow, links) == Walk(b, at, todo, follow, links)
    ensures Walk(a, at, todo, follow, links).Some? ==> !(root <= Walk(a, at, todo, follow, links).value)
    decreases links, |todo|
  {
    if todo != [] {
      var next := at + [todo[0]];
      assert next in a <==> next in b;
      if next in a && a[next].LinkNode? && (|todo| > 1 || follow) {
        var target := a[next].target;
        if links > 0 {
          WalkOutside(a, b, root, if target != [] && target[0] == SLASH then [] else at,
                      Parts(target) + todo[1..], follow, links - 1);
        }
      } else if !(|todo| > 1 && !(next in a && a[next].DirNode?)) {
        WalkOutside(a, b, root, next, todo[1..], follow, links);
      }
    }
  }

  /** Being let follow more links changes nothing for a path that was followed to its end. */
  lemma {:induction false} WalkMoreLinks(tree: Tree, at: Path, todo: Path, follow: bool, links: nat, more: nat)
    requires links <= more && Walk(tree, at, todo, follow, links).Some?
    ensures Walk(tree, at, todo, follow, more) == Walk(tree, at, todo, follow, links)
    decreases links, |todo|
  {
    if todo != [] {
      var next := at + [todo[0]];
      if next in tree && tree[next].LinkNode? && (|todo| > 1 || follow) {
        var target := tree[next].target;
        var from := if target != [] && target[0] == SLASH then [] else at;
        WalkMoreLinks(tree, from, Parts(target) + todo[1..], follow, links - 1, more - 1);
      } else {
        WalkMoreLinks(tree, next, todo[1..], follow, links, more);
      }
    }
  }

  /** What is not a link at its end is followed as it is found. */
  lemma {:induction false} WalkFollowing(tree: Tree, at: Path, todo: Path, links: nat)
    requires var p := Walk(tree, at, todo, false, links); p.Some? && (p.value in tree ==> !tree[p.value].LinkNode?)
    ensures Walk(tree, at, todo, true, links) == Walk(tree, at, todo, false, links)
    decreases links, |todo|
  {
    if todo != [] {
      var next := at + [todo[0]];
      if next in tree && tree[next].LinkNode? && |todo| > 1 {
        var target := tree[next].target;
        var from := if target != [] && target[0] == SLASH then [] else at;
        WalkFollowing(tree, from, Parts(target) + todo[1..], links - 1);
      } else {
        WalkFollowing(tree, next, todo[1..], links);
      }
    }
  }

  /** No name on the way along `path`, past its first `from`, is a link. */
  ghost predicate NoLinkOnTheWay(tree: Tree, path: Path, from: nat) {
    forall k :: from < k < |path| && path[..k] in tree ==> !tree[path[..k]].LinkNode?
  }

  /** With no link on the way a path leads nowhere but to itself, and then only through
      directories. */
  lemma {:induction false} WalkStraight(tree: Tree, path: Path, from: nat, follow: bool, links: nat)
    requires from <= |path| && NoLinkOnTheWay(tree, path, from)
    requires follow && from < |path| && path in tree ==> !tree[path].LinkNode?
    ensures var w := Walk(tree, path[..from], path[from..], follow, links); w.Some? ==> w.value == path
    ensures Walk(tree, path[..from], path[from..], follow, links).Some? <==>
            forall k :: from < k < |path| ==> path[..k] in tree && tree[path[..k]].DirNode?
    decreases |path| - from
  {
    if from == |path| {
      assert path[..from] == path;
    } else {
      var next := path[..from + 1];
      assert path[..from] + [path[from..][0]] == next;
      assert path[from..][1..] == path[from + 1..];
      if from + 1 == |path| {
        assert next == path;
        assert path[from + 1..] == [];
      } else if next in tree && tree[next].DirNode? {
        WalkStraight(tree, path, from + 1, follow, links);
      }
    }
  }

  // ---- The server ----

  /** `data` with `bytes` laid over it from `off`; a gap is zeros. */
  function Splice(data: Bytes, off: nat, bytes: Bytes): Bytes {
    if off > |data| then data + seq(off - |data|, _ => 0) + bytes
    else data[..off] + bytes + if off + |bytes| < |data| then data[off + |bytes|..] else []
  }

  class Server {
    var tree: Tree
    /** Whether it refuses nothing that it could do. Its answers may be short all the same. */
    const willing: bool

    constructor (tree: Tree, willing: bool)
      ensures this.tree == tree && this.willing == willing
    {
      this.tree, this.willing := tree, willing;
    }

    /** Refused, for a reason of the server's own. */
    method Declines() returns (refused: bool)
      ensures willing ==> !refused
    {
      refused := *;
      refused := refused && !willing;
    }

    /** A file's handle is the place it was found. */
    method Open(path: Bytes, follow: bool) returns (r: Reply<Path>)
      ensures r.Ok? ==> Walk(tree, [], Parts(path), follow, MAX_LINKS) == Some(r.value)
      ensures r.Ok? ==> r.value == [] || r.value in tree
      ensures r.Ok? || r.Refused?
      ensures willing && r.Refused? ==>
        var p := Walk(tree, [], Parts(path), follow, MAX_LINKS);
        p.None? || (p.value != [] && p.value !in tree)
    {
      var refused := Declines();
      var found := Walk(tree, [], Parts(path), follow, MAX_LINKS);
      if refused || found.None? || (found.value != [] && found.value !in tree) {
        return Refused;
      }
      r := Ok(found.value);
    }

    /** What a path leads to, a link at its end taken for itself. Of one thing there is one
        identity, and that is its place. */
    method Lstat(path: Bytes) returns (r: Reply<Path>)
      ensures r.Ok? ==> Walk(tree, [], Parts(path), false, MAX_LINKS) == Some(r.value)
      ensures r.Ok? || r.Refused?
      ensures willing && r.Refused? ==>
        var p := Walk(tree, [], Parts(path), false, MAX_LINKS);
        p.None? || (p.value != [] && p.value !in tree)
    {
      r := Open(path, false);
    }

    /** Some of a file's bytes from `off`: at least one while there are any, no more than
        there is room for. */
    method Read(handle: Path, room: nat, off: nat) returns (r: Reply<Bytes>)
      requires handle in tree && tree[handle].FileNode? && room > 0
      ensures r.Ok? || r.Refused?
      ensures r.Ok? ==> |r.value| <= room && (r.value == [] <==> off >= |tree[handle].data|)
      ensures r.Ok? && r.value != [] ==> off + |r.value| <= |tree[handle].data|
                                         && r.value == tree[handle].data[off..off + |r.value|]
      ensures willing ==> r.Ok?
    {
      var refused := Declines();
      var data := tree[handle].data;
      if refused {
        return Refused;
      }
      if off >= |data| {
        return Ok([]);
      }
      var n: nat :| 0 < n <= room && off + n <= |data|;
      r := Ok(data[off..off + n]);
    }

    /** Open a file to write: made if it is not there, emptied if it is. */
    method Create(path: Bytes) returns (r: Reply<Path>)
      modifies this
      ensures r.Ok? || (r.Refused? && tree == old(tree))
      ensures r.Ok? ==> Walk(old(tree), [], Parts(path), true, MAX_LINKS) == Some(r.value)
      ensures r.Ok? ==> r.value != [] && (r.value in old(tree) ==> old(tree)[r.value].FileNode?)
      ensures r.Ok? ==> tree == old(tree)[r.value := FileNode([])]
      ensures willing && r.Refused? ==>
        var p := Walk(tree, [], Parts(path), true, MAX_LINKS);
        p.None? || p.value == [] || (p.value in tree && !tree[p.value].FileNode?)
    {
      var refused := Declines();
      var found := Walk(tree, [], Parts(path), true, MAX_LINKS);
      if refused || found.None? || found.value == [] || (found.value in tree && !tree[found.value].FileNode?) {
        return Refused;
      }
      tree := tree[found.value := FileNode([])];
      r := Ok(found.value);
    }

    /** Write some of `bytes` at `off`: how many were taken, which may be none. */
    method Write(handle: Path, bytes: Bytes, off: nat) returns (r: Reply<nat>)
      requires handle in tree && tree[handle].FileNode?
      modifies this
      ensures r.Ok? || (r.Refused? && tree == old(tree))
      ensures r.Ok? ==> r.value <= |bytes|
      ensures r.Ok? ==> tree == old(tree)[handle := FileNode(Splice(old(tree)[handle].data, off, bytes[..r.value]))]
      ensures willing ==> r.Ok? && (bytes != [] ==> r.value > 0)
    {
      var refused := Declines();
      if refused {
        return Refused;
      }
      var n: nat :| n <= |bytes| && (willing && bytes != [] ==> n > 0);
      tree := tree[handle := FileNode(Splice(tree[handle].data, off, bytes[..n]))];
      r := Ok(n);
    }

    method Mkdir(path: Bytes) returns (r: Reply<()>)
      modifies this
      ensures r.Ok? || r.Exists? || r.Refused?
      ensures !r.Ok? ==> tree == old(tree)
      ensures r.Ok? || r.Exists? ==>
        var p := Walk(old(tree), [], Parts(path), false, MAX_LINKS);
        && p.Some?
        && (r.Exists? ==> p.value == [] || p.value in tree)
        && (r.Ok? ==> p.value != [] && p.value !in old(tree) && tree == old(tree)[p.value := DirNode])
      ensures willing && r.Refused? ==> Walk(tree, [], Parts(path), false, MAX_LINKS).None?
    {
      var refused := Declines();
      var found := Walk(tree, [], Parts(path), false, MAX_LINKS);
      if refused || found.None? {
        return Refused;
      }
      if found.value == [] || found.value in tree {
        return Exists;
      }
      tree := tree[found.value := DirNode];
      r := Ok(());
    }

    method Readlink(path: Bytes) returns (r: Reply<Bytes>)
      ensures r.Ok? || r.Refused?
      ensures r.Ok? ==>
        var p := Walk(tree, [], Parts(path), false, MAX_LINKS);
        p.Some? && p.value in tree && tree[p.value] == LinkNode(r.value)
      ensures willing && r.Refused? ==>
        var p := Walk(tree, [], Parts(path), false, MAX_LINKS);
        p.None? || p.value !in tree || !tree[p.value].LinkNode?
    {
      var refused := Declines();
      var found := Walk(tree, [], Parts(path), false, MAX_LINKS);
      if refused || found.None? || found.value !in tree || !tree[found.value].LinkNode? {
        return Refused;
      }
      r := Ok(tree[found.value].target);
    }

    method Unlink(path: Bytes) returns (r: Reply<()>)
      modifies this
      ensures tree == old(tree) ||
        var p := Walk(old(tree), [], Parts(path), false, MAX_LINKS);
        p.Some? && p.value in old(tree) && !old(tree)[p.value].DirNode? && tree == old(tree) - {p.value}
      ensures willing ==>
        var p := Walk(old(tree), [], Parts(path), false, MAX_LINKS);
        p.Some? && p.value in old(tree) && !old(tree)[p.value].DirNode? ==> tree == old(tree) - {p.value}
    {
      var refused := Declines();
      var found := Walk(tree, [], Parts(path), false, MAX_LINKS);
      if refused || found.None? || found.value !in tree || tree[found.value].DirNode? {
        return Refused;
      }
      tree := tree - {found.value};
      r := Ok(());
    }

    method Symlink(target: Bytes, path: Bytes) returns (r: Reply<()>)
      modifies this
      ensures r.Ok? || (r.Refused? && tree == old(tree))
      ensures r.Ok? ==>
        var p := Walk(old(tree), [], Parts(path), false, MAX_LINKS);
        p.Some? && p.value != [] && p.value !in old(tree) && tree == old(tree)[p.value := LinkNode(target)]
      ensures willing && r.Refused? ==>
        var p := Walk(tree, [], Parts(path), false, MAX_LINKS);
        p.None? || p.value == [] || p.value in tree
    {
      var refused := Declines();
      var found := Walk(tree, [], Parts(path), false, MAX_LINKS);
      if refused || found.None? || found.value == [] || found.value in tree {
        return Refused;
      }
      tree := tree[found.value := LinkNode(target)];
      r := Ok(());
    }
  }
}
