/** The names files have in an image: a program or a file of settings staged under a name all
    in capitals, as FAT wants it, lands under the one a shell uses. */
module Images {
  import opened Bytes
  import FileServer
  import Ownership

  /** A staged file: its directory, and its name there. */
  datatype Place = Place(dir: Bytes, name: Bytes)

  const USR_BIN: Bytes := [117, 115, 114, SLASH, 98, 105, 110]
  const ETC: Bytes := [101, 116, 99]
  const ELF: Bytes := [DOT, 69, 76, 70]
  const LOWER_ELF: Bytes := [DOT, 101, 108, 102]

  predicate IsLower(b: byte) { 97 <= b <= 122 }
  predicate IsUpper(b: byte) { 65 <= b <= 90 }

  /** No letter of it is a small one. */
  predicate Capitals(name: Bytes) {
    forall i :: 0 <= i < |name| ==> !IsLower(name[i])
  }

  function Lower(name: Bytes): (r: Bytes)
    ensures |r| == |name|
  {
    seq(|name|, i requires 0 <= i < |name| => if IsUpper(name[i]) then name[i] + 32 else name[i])
  }

  predicate EndsWith(name: Bytes, end: Bytes) {
    |end| <= |name| && name[|name| - |end|..] == end
  }

  function WithoutElf(name: Bytes): Bytes {
    if EndsWith(name, LOWER_ELF) then name[..|name| - |LOWER_ELF|] else name
  }

  function ImageName(p: Place): Bytes {
    if p.dir in {USR_BIN, ETC} && Capitals(p.name) then WithoutElf(Lower(p.name)) else p.name
  }

  /** Where in an image a staged file lands. */
  function ImagePath(p: Place): Bytes {
    p.dir + [SLASH] + ImageName(p)
  }

  // ---- Where a file lands ----

  /** The name is one a small letter is not in, in a directory of commands or of settings. */
  predicate MadeOver(p: Place) {
    (p.dir == Ascii("usr/bin") || p.dir == Ascii("etc")) && forall b :: b in p.name ==> !(97 <= b <= 122)
  }

  lemma CapitalsExactly(name: Bytes)
    ensures Capitals(name) <==> forall b :: b in name ==> !(97 <= b <= 122)
  {
    assert forall i :: 0 <= i < |name| ==> name[i] in name;
  }

  /** A file lands in its own directory. Under its own name, unless that is made over: then each
      capital is the small letter of it and every other byte is as it was, without the ending
      of a program, if it has that. */
  lemma LandsExactly(p: Place)
    ensures ImagePath(p) == p.dir + Ascii("/") + ImageName(p)
    ensures !MadeOver(p) ==> ImageName(p) == p.name
    ensures var made := ImageName(p);
      MadeOver(p) ==>
        && |made| == |p.name| - (if |p.name| >= 4 && p.name[|p.name| - 4..] == Ascii(".ELF") then 4 else 0)
        && (forall i :: 0 <= i < |made| ==> made[i] == p.name[i] + if 65 <= p.name[i] <= 90 then 32 else 0)
        && (forall b :: b in made ==> !(65 <= b <= 90))
  {
    assert Ascii("usr/bin") == USR_BIN && Ascii("etc") == ETC && Ascii(".ELF") == ELF && Ascii("/") == [SLASH];
    CapitalsExactly(p.name);
    if Capitals(p.name) {
      LowerEnds(p.name);
    }
  }

  /** And the names along its path are those of its directory and then that one. */
  lemma PartsOfImagePath(p: Place)
    requires SLASH !in p.name
    ensures FileServer.Parts(ImagePath(p)) ==
            FileServer.Parts(p.dir) + if ImageName(p) == [] then [] else [ImageName(p)]
  {
    hide ImageName;
    NoSlash(p);
    FileServer.PartsConcat(p.dir, ImageName(p));
    FileServer.PartsOfName(ImageName(p));
  }

  /** The shell, staged as FAT wants it, is the command a shell's users start. */
  lemma QshIsQsh()
    ensures ImagePath(Place(Ascii("usr/bin"), Ascii("QSH.ELF"))) == Ascii("usr/bin/qsh")
  {
    hide ImageName, Ascii;
    QshInBytes();
    var p := Place(Ascii("usr/bin"), Ascii("QSH.ELF"));
    LandsExactly(p);
    var made := ImageName(p);
    assert p.name[3..] == [46, 69, 76, 70];
    assert |made| == 3 && made == [made[0], made[1], made[2]];
  }

  lemma QshInBytes()
    ensures Ascii("QSH.ELF") == [81, 83, 72, 46, 69, 76, 70] && Ascii(".ELF") == [46, 69, 76, 70]
    ensures Ascii("usr/bin") + Ascii("/") + [113, 115, 104] == Ascii("usr/bin/qsh")
  {
  }

  // ---- When two files have one path ----

  /** Two names, both in capitals, of which one is the other and the ending of a program; or
      one in capitals that is made into the other. */
  predicate OneName(a: Bytes, b: Bytes) {
    || (Capitals(a) && Capitals(b) && !EndsWith(a, ELF) && b == a + ELF)
    || (Capitals(a) && Capitals(b) && !EndsWith(b, ELF) && a == b + ELF)
    || (Capitals(a) && !Capitals(b) && b == WithoutElf(Lower(a)))
    || (Capitals(b) && !Capitals(a) && a == WithoutElf(Lower(b)))
  }

  predicate Collide(a: Place, b: Place) {
    a.dir == b.dir && a.dir in {USR_BIN, ETC} && OneName(a.name, b.name)
  }

  lemma LowerInjective(a: Bytes, b: Bytes)
    requires Capitals(a) && Capitals(b) && Lower(a) == Lower(b)
    ensures a == b
  {
    forall i | 0 <= i < |a| ensures a[i] == b[i] {
      assert Lower(a)[i] == Lower(b)[i];
    }
  }

  lemma LowerEnds(a: Bytes)
    requires Capitals(a)
    ensures EndsWith(Lower(a), LOWER_ELF) <==> EndsWith(a, ELF)
  {
    assert Lower(ELF) == LOWER_ELF && Capitals(ELF);
    if |a| >= 4 {
      var end := a[|a| - 4..];
      assert Lower(a)[|a| - 4..] == Lower(end);
      assert Capitals(end);
      if Lower(end) == LOWER_ELF {
        LowerInjective(end, ELF);
      }
    }
  }

  lemma LowerConcat(a: Bytes, b: Bytes)
    ensures Lower(a + b) == Lower(a) + Lower(b)
  {
  }

  /** Of names in capitals, only a program's with its ending and without it come to one. */
  lemma CapitalsCollide(a: Bytes, b: Bytes)
    requires Capitals(a) && Capitals(b) && a != b
    ensures WithoutElf(Lower(a)) == WithoutElf(Lower(b))
            <==> (!EndsWith(a, ELF) && b == a + ELF) || (!EndsWith(b, ELF) && a == b + ELF)
  {
    hide Capitals;
    LowerEnds(a);
    LowerEnds(b);
    LowerOfElf();
    OneEnding(a, b);
    OneEnding(b, a);
    if EndsWith(a, ELF) == EndsWith(b, ELF) {
      assert EndsWith(a, ELF) ==> Lower(a) == Lower(a)[..|a| - 4] + LOWER_ELF;
      assert EndsWith(b, ELF) ==> Lower(b) == Lower(b)[..|b| - 4] + LOWER_ELF;
      if Lower(a) == Lower(b) {
        LowerInjective(a, b);
      }
    }
  }

  lemma LowerOfElf()
    ensures Lower(ELF) == LOWER_ELF && Capitals(ELF)
  {
  }

  /** One has the ending and the other has not. */
  lemma OneEnding(a: Bytes, b: Bytes)
    requires Capitals(a) && Capitals(b) && EndsWith(Lower(a), LOWER_ELF) == EndsWith(a, ELF)
    requires EndsWith(Lower(b), LOWER_ELF) == EndsWith(b, ELF)
    ensures EndsWith(b, ELF) && !EndsWith(a, ELF) ==>
              (WithoutElf(Lower(a)) == WithoutElf(Lower(b)) <==> b == a + ELF)
    ensures b == a + ELF ==> EndsWith(b, ELF)
  {
    if EndsWith(b, ELF) {
      var front := b[..|b| - 4];
      assert b == front + ELF;
      LowerConcat(front, ELF);
      LowerOfElf();
      assert Lower(b)[..|b| - 4] == Lower(front);
      assert Capitals(front);
      if !EndsWith(a, ELF) && Lower(a) == Lower(front) {
        LowerInjective(a, front);
      }
      assert b == a + ELF ==> front == a;
    }
    assert b == a + ELF ==> b[|b| - 4..] == ELF;
  }

  /** Two staged files have one path in an image if and only if they are in one directory of
      commands or of settings, and their names are one in one of those ways: `LS.ELF` beside
      `LS`, or either beside a command `ls` staged from elsewhere. */
  lemma SameImageExactly(a: Place, b: Place)
    requires a != b && SLASH !in a.name && SLASH !in b.name
    ensures ImagePath(a) == ImagePath(b) <==> Collide(a, b)
  {
    hide Capitals, WithoutElf, Lower, EndsWith;
    NoSlash(a);
    NoSlash(b);
    OnePath(a.dir, ImageName(a), b.dir, ImageName(b));
    if Capitals(a.name) && Capitals(b.name) && a.name != b.name {
      CapitalsCollide(a.name, b.name);
    }
  }

  lemma NoSlash(p: Place)
    requires SLASH !in p.name
    ensures SLASH !in ImageName(p)
  {
    var lower := Lower(p.name);
    assert forall i :: 0 <= i < |lower| ==> lower[i] == p.name[i] || lower[i] == p.name[i] + 32;
    assert forall i :: 0 <= i < |p.name| ==> p.name[i] in p.name;
  }

  lemma OnePath(dir: Bytes, name: Bytes, other: Bytes, called: Bytes)
    requires SLASH !in name && SLASH !in called
    ensures dir + [SLASH] + name == other + [SLASH] + called <==> dir == other && name == called
  {
    var a, b := dir + [SLASH] + name, other + [SLASH] + called;
    assert forall i :: |dir| < i < |a| ==> a[i] == name[i - |dir| - 1];
    assert forall i :: |other| < i < |b| ==> b[i] == called[i - |other| - 1];
    if a == b {
      assert a[|dir|] == SLASH == b[|other|];
      assert |dir| == |other|;
      assert dir == a[..|dir|] && other == b[..|other|];
      assert name == a[|dir| + 1..] && called == b[|other| + 1..];
    }
  }

  /** Staged files have distinct image paths, as what is said of their owners takes for
      granted, if and only if no two of them collide so. */
  lemma DistinctExactly(places: seq<Place>, staged: seq<Ownership.Staged>)
    requires |places| == |staged| && forall i, j :: 0 <= i < j < |places| ==> places[i] != places[j]
    requires forall i :: 0 <= i < |places| ==> SLASH !in places[i].name && staged[i].path == ImagePath(places[i])
    ensures Ownership.DistinctPaths(staged)
            <==> forall i, j :: 0 <= i < j < |places| ==> !Collide(places[i], places[j])
  {
    hide Collide, ImagePath;
    forall i, j | 0 <= i < j < |places|
      ensures staged[i].path == staged[j].path <==> Collide(places[i], places[j])
    {
      SameImageExactly(places[i], places[j]);
    }
  }

  /** A command `ls` of somebody else's beside this system's own. */
  lemma LsBesideLs()
    ensures Collide(Place(USR_BIN, [76, 83] + ELF), Place(USR_BIN, [108, 115]))
  {
    var mine, theirs: Bytes := [76, 83] + ELF, [108, 115];
    assert Lower(mine) == theirs + LOWER_ELF;
    assert IsLower(theirs[0]);
  }
}
