/** `qpkg owner`: which package a file is from, answered from the lists alone. */
module Asking {
  import opened Bytes
  import opened FileServer
  import Names
  import Ownership
  import PackageList
  import Strap

  /** A package's list can be had, and has the path. */
  ghost predicate HasPath(tree: Tree, name: Bytes, path: Bytes) {
    Strap.Held(tree, name).Some? && Ownership.Lists(Strap.Held(tree, name).value, path)
  }

  /** The first package of some whose list can be had and has the path. */
  ghost function OwnerOf(tree: Tree, names: seq<Bytes>, path: Bytes): (owner: Option<Bytes>)
    ensures owner.Some? ==> owner.value in names && HasPath(tree, owner.value, path)
    ensures owner.None? ==> forall name :: name in names ==> !HasPath(tree, name, path)
  {
    if names == [] then None
    else if HasPath(tree, names[0], path) then Some(names[0])
    else OwnerOf(tree, names[1..], path)
  }

  /** The loop over the packages here. Of a server that refuses nothing it could do it gives
      the first there is; and of any server a package whose list has the path, or none. */
  method Owner(server: Server, names: seq<Bytes>, path: Bytes) returns (r: Option<Bytes>)
    ensures r.Some? ==> r.value in names && HasPath(server.tree, r.value, path)
    ensures server.willing ==> r == OwnerOf(server.tree, names, path)
  {
    hide HasPath, Strap.Held, PackageList.Lines;
    var record := new byte[PackageList.RECORD_MAX];
    for i := 0 to |names|
      invariant server.willing ==> OwnerOf(server.tree, names[i..], path) == OwnerOf(server.tree, names, path)
    {
      assert names[i..][1..] == names[i + 1..];
      var list := Strap.Load(server, names[i], record);
      WhatIsHeld(server.tree, names[i], path);
      if list.None? {
        continue;
      }
      var owns := HasLine(list.value, path);
      if owns {
        return Some(names[i]);
      }
    }
    r := None;
  }

  lemma WhatIsHeld(tree: Tree, name: Bytes, path: Bytes)
    ensures HasPath(tree, name, path)
            <==> Strap.Held(tree, name).Some? && Ownership.Lists(Strap.Held(tree, name).value, path)
  {
  }

  method HasLine(list: Bytes, path: Bytes) returns (owns: bool)
    ensures owns <==> Ownership.Lists(list, path)
  {
    hide PackageList.Lines;
    var lines := PackageList.Lines(list);
    owns := false;
    for j := 0 to |lines|
      invariant owns <==> exists k :: 0 <= k < j && Ownership.OwnsPath(lines[k], path)
    {
      owns := owns || Ownership.OwnsPath(lines[j], path);
    }
  }

  lemma OnlyOneOwns(tree: Tree, names: seq<Bytes>, path: Bytes, name: Bytes)
    requires name in names && HasPath(tree, name, path)
    requires forall other :: other in names && other != name ==> !HasPath(tree, other, path)
    ensures OwnerOf(tree, names, path) == Some(name)
  {
    hide HasPath;
  }

  /** The lists written for a stage are installed: each is the file of its name in the
      directory of lists. */
  ghost predicate Installed(tree: Tree, lists: map<Bytes, Bytes>) {
    forall name :: name in lists ==>
                     Join(Strap.DB, name).Some? && FileThere(tree, Join(Strap.DB, name).value, lists[name])
  }

  ghost predicate FileThere(tree: Tree, path: Bytes, data: Bytes) {
    var p := Walk(tree, [], Parts(path), true, MAX_LINKS);
    p.Some? && p.value in tree && tree[p.value] == FileNode(data)
  }

  lemma HeldIs(tree: Tree, lists: map<Bytes, Bytes>, name: Bytes)
    requires Installed(tree, lists) && name in lists && Ownership.Nameable(name)
    requires |lists[name]| < PackageList.RECORD_MAX
    ensures Strap.Held(tree, name) == Some(lists[name])
  {
    hide Walk, Parts, Join;
  }

  /** Each entry of a package is one line, and there is room for the list where it is read. */
  ghost predicate Listed(p: PackageList.Package) {
    PackageList.Lined(PackageList.Entries(p)) && |PackageList.Text(PackageList.Entries(p))| < PackageList.RECORD_MAX
  }

  /** `qpkg owner`, asked for any staged file of a system on which the lists written for the
      stage are installed, answers the first package that claims it: for distinct image paths
      and package names, a last package that claims everything, at most sixty-four lists, and
      no newline in what is written on a line. And no other package's list would answer: so of
      a server that refuses what it likes, the answer is that or none. */
  lemma OwnerIsFirstClaimant(rules: Ownership.Rules, version: Bytes, staged: seq<Ownership.Staged>,
                             entries: seq<Names.DirEntry>, tree: Tree, i: nat)
    requires i < |staged| && Ownership.DistinctPaths(staged) && Ownership.DistinctNames(rules.confs)
    requires |rules.confs| > 0 && forall s :: s in staged ==> rules.claims(|rules.confs| - 1, s.path)
    requires forall p :: 0 <= p < |rules.confs| ==> Ownership.Nameable(rules.confs[p].name)
    requires forall p :: 0 <= p < |rules.confs| ==> Listed(Ownership.Built(rules, version, staged, p))
    requires Ownership.Listing(entries, Ownership.Written(rules, version, staged, |rules.confs|))
    requires Installed(tree, Ownership.Written(rules, version, staged, |rules.confs|))
    ensures Ownership.FirstClaim(rules, staged[i].path, 0) < |rules.confs|
    ensures var names, path := Names.TableOf([], entries), [SLASH] + staged[i].path;
            var owner := rules.confs[Ownership.FirstClaim(rules, staged[i].path, 0)].name;
            && OwnerOf(tree, names, path) == Some(owner)
            && forall name :: name in names && HasPath(tree, name, path) ==> name == owner
  {
    hide HasPath, Strap.Held, PackageList.Text, PackageList.Entries, PackageList.Lined, Installed, Ownership.Lists,
         Ownership.Nameable, Ownership.Built, Ownership.Listing;
    var n, path := |rules.confs|, [SLASH] + staged[i].path;
    var lists, names := Ownership.Written(rules, version, staged, n), Names.TableOf([], entries);
    var first := Ownership.FirstClaim(rules, staged[i].path, 0);
    assert staged[i] in staged;
    var owner := rules.confs[first].name;
    forall name | name in lists
      ensures Ownership.Nameable(name) && (HasPath(tree, name, path) <==> name == owner)
    {
      Ownership.WrittenOnly(rules, version, staged, n, name);
      var p :| 0 <= p < n && rules.confs[p].name == name;
      OneAnswers(rules, version, staged, tree, i, p);
    }
    forall name ensures name in names <==> name in lists {
      Ownership.TableHas(entries, lists, name);
    }
    Ownership.WhatOnePackageAnswers(rules, version, staged, i, first);
    OnlyOneOwns(tree, names, path, owner);
  }

  lemma OneAnswers(rules: Ownership.Rules, version: Bytes, staged: seq<Ownership.Staged>, tree: Tree, i: nat, p: nat)
    requires i < |staged| && Ownership.DistinctPaths(staged) && Ownership.DistinctNames(rules.confs)
    requires p < |rules.confs| && Ownership.Nameable(rules.confs[p].name)
    requires Listed(Ownership.Built(rules, version, staged, p))
    requires Installed(tree, Ownership.Written(rules, version, staged, |rules.confs|))
    requires rules.confs[p].name in Ownership.Written(rules, version, staged, |rules.confs|)
    requires Ownership.FirstClaim(rules, staged[i].path, 0) < |rules.confs|
    ensures HasPath(tree, rules.confs[p].name, [SLASH] + staged[i].path)
            <==> rules.confs[p].name == rules.confs[Ownership.FirstClaim(rules, staged[i].path, 0)].name
  {
    hide Strap.Held, PackageList.Text, PackageList.Entries, PackageList.Lined, Installed, Ownership.Lists,
         Ownership.Nameable, Ownership.Built, Ownership.FirstClaim;
    var lists, name := Ownership.Written(rules, version, staged, |rules.confs|), rules.confs[p].name;
    Ownership.WhatOnePackageAnswers(rules, version, staged, i, p);
    HeldIs(tree, lists, name);
    var first := Ownership.FirstClaim(rules, staged[i].path, 0);
    assert p != first ==> rules.confs[p].name != rules.confs[first].name;
  }
}
