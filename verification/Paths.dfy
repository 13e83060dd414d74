/** The installer's paths: a path written out whole in a fixed buffer, what is mounted
    there, and a device's name taken apart. */
module Paths {
  import opened Bytes

  const MAX_PATH := 512
  const SOURCE_MAX := 64
  const UP: Bytes := [DOT, DOT]

  /** What a directory can be called. */
  predicate IsName(part: Bytes) {
    part != [] && part != [DOT] && part != UP && SLASH !in part
  }

  predicate Names(place: seq<Bytes>) {
    forall i :: 0 <= i < |place| ==> IsName(place[i])
  }

  predicate Pieces(parts: seq<Bytes>) {
    forall i :: 0 <= i < |parts| ==> SLASH !in parts[i]
  }

  /** A slash before each name. */
  function Slashed(place: seq<Bytes>): Bytes {
    if place == [] then [] else Slashed(place[..|place| - 1]) + [SLASH] + place[|place| - 1]
  }

  /** How a place is written down. */
  function Text(place: seq<Bytes>): (text: Bytes)
    ensures text != [] && text[0] == SLASH
  {
    if place == [] then [SLASH] else
      SlashFirst(place);
      Slashed(place)
  }

  lemma {:induction false} SlashFirst(place: seq<Bytes>)
    requires place != []
    ensures Slashed(place) != [] && Slashed(place)[0] == SLASH
    decreases |place|
  {
    if |place| > 1 {
      SlashFirst(place[..|place| - 1]);
    }
  }

  predicate Fits(place: seq<Bytes>) {
    |Slashed(place)| <= MAX_PATH
  }

  // ---- Where a path leads ----

  /** One step of a walk: nowhere, up, or down. Above the root is the root. */
  function Step(place: seq<Bytes>, part: Bytes): seq<Bytes> {
    if part == [] || part == [DOT] then place
    else if part == UP then if place == [] then [] else place[..|place| - 1]
    else place + [part]
  }

  /** Where a walk ends when there is no limit to how long a path may be. */
  function Place(place: seq<Bytes>, parts: seq<Bytes>): seq<Bytes>
    decreases |parts|
  {
    if parts == [] then place else Place(Step(place, parts[0]), parts[1..])
  }

  /** Where a walk ends, if every step of it can be written down. */
  function Walk(place: seq<Bytes>, parts: seq<Bytes>): Option<seq<Bytes>>
    decreases |parts|
  {
    if parts == [] then Some(place)
    else if !Fits(Step(place, parts[0])) then None
    else Walk(Step(place, parts[0]), parts[1..])
  }

  /** What a path is made of: where the caller is, unless the path begins at the root, and
      then its own parts. A caller that cannot be told where it is is at the root. */
  function Parts(cwd: Option<Bytes>, path: Bytes): seq<Bytes> {
    var from := if path != [] && path[0] == SLASH then [] else if cwd.None? then [] else cwd.value;
    Split(from, SLASH) + Split(path, SLASH)
  }

  lemma PartsAreReady(cwd: Option<Bytes>, path: Bytes)
    ensures Pieces(Parts(cwd, path))
  {
  }

  lemma StepKeepsNames(place: seq<Bytes>, part: Bytes)
    requires Names(place) && SLASH !in part
    ensures Names(Step(place, part))
  {
  }

  lemma {:induction false} WalkKeepsNames(place: seq<Bytes>, parts: seq<Bytes>)
    requires Names(place) && Pieces(parts)
    ensures Names(Place(place, parts))
    decreases |parts|
  {
    if parts != [] {
      StepKeepsNames(place, parts[0]);
      WalkKeepsNames(Step(place, parts[0]), parts[1..]);
    }
  }

  /** A walk fails exactly when the path grows too long on the way, even if it would end
      short enough; otherwise the limit makes no difference. */
  lemma {:induction false} FailsExactlyWhenTooLong(place: seq<Bytes>, parts: seq<Bytes>)
    requires Fits(place)
    ensures Walk(place, parts).Some? <==> forall k :: 0 <= k <= |parts| ==> Fits(Place(place, parts[..k]))
    ensures Walk(place, parts).Some? ==> Walk(place, parts) == Some(Place(place, parts))
    decreases |parts|
  {
    hide Fits, Step;
    if parts == [] {
      assert parts[..0] == [];
    } else {
      var next := Step(place, parts[0]);
      forall k | 0 < k <= |parts|
        ensures Place(place, parts[..k]) == Place(next, parts[1..][..k - 1])
      {
        assert parts[..k][1..] == parts[1..][..k - 1];
      }
      assert Place(next, parts[1..][..0]) == next;
      if Fits(next) {
        FailsExactlyWhenTooLong(next, parts[1..]);
        forall k | 0 <= k < |parts|
          ensures Fits(Place(next, parts[1..][..k])) <==> Fits(Place(place, parts[..k + 1]))
        {
        }
      } else {
        assert !Fits(Place(place, parts[..1]));
      }
    }
  }

  // ---- The buffer ----

  /** Written out in place: names pushed at the end, and taken off by looking back for the
      slash before them. Nothing is returned where the program gives up. */
  method Whole(cwd: Option<Bytes>, path: Bytes, out: array<byte>) returns (len: Option<nat>)
    requires out.Length == MAX_PATH
    requires cwd.Some? ==> |cwd.value| <= MAX_PATH
    modifies out
    ensures len.Some? <==> Walk([], Parts(cwd, path)).Some?
    ensures len.Some? ==> len.value <= out.Length && out[..len.value] == Text(Place([], Parts(cwd, path)))
  {
    hide Fits, Step, Place, Walk;
    var parts := Parts(cwd, path);
    PartsAreReady(cwd, path);
    Empty();
    var at := 0;
    ghost var place: seq<Bytes> := [];
    for i := 0 to |parts|
      invariant 0 <= at <= out.Length
      invariant Names(place) && out[..at] == Slashed(place) && Fits(place)
      invariant Walk(place, parts[i..]) == Walk([], parts)
    {
      Unfold(place, parts, i);
      StepKeepsNames(place, parts[i]);
      var next := Take(out, at, parts[i], place);
      if next.None? {
        return None;
      }
      at := next.value;
      place := Step(place, parts[i]);
    }
    assert parts[|parts|..] == [];
    Done(place, parts);
    if at == 0 {
      assert place == [] by { NotEmpty(place); }
      out[0] := SLASH;
      at := 1;
    }
    assert out[..at] == Text(place);
    len := Some(at);
  }

  /** One part of the path. */
  method Take(out: array<byte>, at: nat, part: Bytes, ghost place: seq<Bytes>) returns (next: Option<nat>)
    requires at <= out.Length == MAX_PATH
    requires Names(place) && out[..at] == Slashed(place) && Fits(place)
    modifies out
    ensures next.Some? <==> Fits(Step(place, part))
    ensures next.Some? ==> next.value <= out.Length && out[..next.value] == Slashed(Step(place, part))
  {
    hide Step, Fits;
    if part == [] || part == [DOT] {
      NowhereOrDown(place, part);
      return Some(at);
    } else if part == UP {
      var less := TakeOff(out, at, place);
      return Some(less);
    }
    NowhereOrDown(place, part);
    if at + 1 + |part| <= out.Length {
      PutAfter(out, at, part);
      next := Some(at + 1 + |part|);
    } else {
      next := None;
    }
  }

  lemma NotEmpty(place: seq<Bytes>)
    ensures Slashed(place) == [] <==> place == []
  {
  }

  lemma Empty()
    ensures Slashed([]) == [] && Fits([])
  {
  }

  lemma Unfold(place: seq<Bytes>, parts: seq<Bytes>, i: nat)
    requires i < |parts|
    ensures Walk(place, parts[i..]) ==
            if Fits(Step(place, parts[i])) then Walk(Step(place, parts[i]), parts[i + 1..]) else None
  {
    assert parts[i..][1..] == parts[i + 1..];
  }

  lemma Done(place: seq<Bytes>, parts: seq<Bytes>)
    requires Walk(place, []) == Walk([], parts)
    ensures Walk([], parts) == Some(place) && place == Place([], parts)
  {
    Empty();
    FailsExactlyWhenTooLong([], parts);
  }

  lemma NowhereOrDown(place: seq<Bytes>, part: Bytes)
    requires part != UP && Fits(place)
    ensures part == [] || part == [DOT] ==> Step(place, part) == place
    ensures part != [] && part != [DOT] ==>
      && Step(place, part) == place + [part]
      && Slashed(Step(place, part)) == Slashed(place) + [SLASH] + part
      && (Fits(Step(place, part)) <==> |Slashed(place)| + 1 + |part| <= MAX_PATH)
  {
    assert (place + [part])[..|place|] == place;
  }

  method PutIn(out: array<byte>, at: nat, part: Bytes)
    requires at + |part| <= out.Length
    modifies out
    ensures out[..at] == old(out[..at]) && out[at..at + |part|] == part
  {
    for i := 0 to |part|
      invariant out[..at] == old(out[..at]) && out[at..at + i] == part[..i]
    {
      out[at + i] := part[i];
      assert out[at..at + i + 1] == out[at..at + i] + [part[i]];
    }
  }

  /** A slash and a name, at the end. */
  method PutAfter(out: array<byte>, at: nat, part: Bytes)
    requires at + 1 + |part| <= out.Length
    modifies out
    ensures out[..at + 1 + |part|] == old(out[..at]) + [SLASH] + part
  {
    ghost var before := out[..at];
    out[at] := SLASH;
    assert out[..at + 1] == before + [SLASH];
    PutIn(out, at + 1, part);
    Halves(out[..at + 1 + |part|], at + 1);
  }

  lemma Halves(s: Bytes, at: nat)
    requires at <= |s|
    ensures s == s[..at] + s[at..]
  {
  }

  /** Back over the last name and the slash before it. */
  method TakeOff(out: array<byte>, from: nat, ghost place: seq<Bytes>) returns (at: nat)
    requires from <= out.Length && Names(place) && out[..from] == Slashed(place) && Fits(place)
    ensures at <= from && out[..at] == Slashed(Step(place, UP)) && Fits(Step(place, UP))
  {
    at := from;
    ghost var rest := |Slashed(Step(place, UP))|;
    Above(place);
    while at > 0 && out[at - 1] != SLASH
      invariant place == [] ==> at == 0
      invariant place != [] ==> rest < at <= from
    {
      assert place != [] ==> out[rest] == out[..from][rest] == SLASH;
      at := at - 1;
    }
    assert place != [] ==> at == rest + 1 by {
      assert place != [] ==>
          forall i :: rest < i < from ==> out[i] == out[..from][i] == place[|place| - 1][i - rest - 1];
    }
    at := if at == 0 then 0 else at - 1;
    assert out[..at] == out[..from][..at];
  }

  lemma Above(place: seq<Bytes>)
    requires Fits(place)
    ensures Fits(Step(place, UP)) && Step([], UP) == []
    ensures place != [] ==> Slashed(place) == Slashed(Step(place, UP)) + [SLASH] + place[|place| - 1]
  {
  }

  // ---- What is written ----

  lemma {:induction false} SlashedSplits(place: seq<Bytes>)
    requires Names(place)
    ensures Split(Slashed(place), SLASH) == [[]] + place
    decreases |place|
  {
    hide Split, Index;
    if place == [] {
      SplitNone([], SLASH);
    } else {
      var above, name := place[..|place| - 1], place[|place| - 1];
      SlashedSplits(above);
      SplitConcat(Slashed(above), SLASH, name);
      SplitNone(name, SLASH);
      assert place == above + [name];
    }
  }

  /** A path written out whole begins at the root, and between its slashes there are names
      and nothing else. */
  lemma WholeIsPlain(place: seq<Bytes>)
    requires Names(place) && place != []
    ensures Split(Text(place), SLASH) == [[]] + place
  {
    SlashedSplits(place);
  }

  /** The same text is the same place, and the other way about. */
  lemma OneTextOnePlace(a: seq<Bytes>, b: seq<Bytes>)
    requires Names(a) && Names(b)
    ensures Text(a) == Text(b) <==> a == b
  {
    if Text(a) == Text(b) {
      RootIsAlone(a);
      RootIsAlone(b);
      SlashedSplits(a);
      SlashedSplits(b);
      assert a == ([[]] + a)[1..] && b == ([[]] + b)[1..];
    }
  }

  lemma RootIsAlone(place: seq<Bytes>)
    requires Names(place)
    ensures Text(place) == [SLASH] <==> place == []
  {
    if place != [] {
      assert place[|place| - 1] != [];
    }
  }

  lemma {:induction false} DownNames(place: seq<Bytes>, names: seq<Bytes>)
    requires Names(names)
    ensures Place(place, names) == place + names
    decreases |names|
  {
    if names != [] {
      DownNames(place + [names[0]], names[1..]);
      assert place + [names[0]] + names[1..] == place + names;
    }
  }

  lemma {:induction false} PlaceThenPlace(place: seq<Bytes>, a: seq<Bytes>, b: seq<Bytes>)
    ensures Place(place, a + b) == Place(Place(place, a), b)
    decreases |a|
  {
    if a == [] {
      assert a + b == b;
    } else {
      assert (a + b)[1..] == a[1..] + b;
      PlaceThenPlace(Step(place, a[0]), a[1..], b);
    }
  }

  /** What a walk is: a part that is empty or a dot leads nowhere, a name and then two dots lead
      nowhere, and two dots from the root lead nowhere; names lead down. */
  lemma NowhereUpAndDown(start: seq<Bytes>, before: seq<Bytes>, part: Bytes, after: seq<Bytes>)
    ensures part == Ascii("") || part == Ascii(".") ==>
      Place(start, before + [part] + after) == Place(start, before + after)
    ensures IsName(part) ==> Place(start, before + [part, Ascii("..")] + after) == Place(start, before + after)
    ensures Place([], [Ascii("..")] + after) == Place([], after)
    ensures IsName(part) ==> Place(start, before + [part]) == Place(start, before) + [part]
  {
    hide Place;
    assert Ascii("") == [] && Ascii(".") == [DOT] && Ascii("..") == UP;
    PlaceThenPlace(start, before, after);
    PlaceThenPlace(start, before + [part], after);
    PlaceThenPlace(start, before, [part]);
    PlaceThenPlace(start, before + [part, UP], after);
    PlaceThenPlace(start, before, [part, UP]);
    PlaceThenPlace([], [UP], after);
    OneStep(Place(start, before), part);
    TwoSteps(Place(start, before), part, UP);
    OneStep([], UP);
  }

  lemma OneStep(place: seq<Bytes>, part: Bytes)
    ensures Place(place, [part]) == Step(place, part)
  {
    assert [part][1..] == [] && Place(Step(place, part), []) == Step(place, part);
  }

  lemma TwoSteps(place: seq<Bytes>, a: Bytes, b: Bytes)
    ensures Place(place, [a, b]) == Step(Step(place, a), b)
  {
    assert [a, b][1..] == [b];
    OneStep(Step(place, a), b);
  }

  lemma {:induction false} SlashedGrows(place: seq<Bytes>, k: nat)
    requires k <= |place|
    ensures |Slashed(place[..k])| <= |Slashed(place)|
    decreases |place|
  {
    if k < |place| {
      var above := place[..|place| - 1];
      assert above[..k] == place[..k];
      SlashedGrows(above, k);
    } else {
      assert place[..k] == place;
    }
  }

  /** Written out whole again, from wherever the caller is, a path is as it was. */
  lemma WholeAgain(cwd: Option<Bytes>, place: seq<Bytes>)
    requires Names(place) && Fits(place)
    ensures Walk([], Parts(cwd, Text(place))) == Some(place)
  {
    hide Split, Index, Step, Slashed;
    var lead: seq<Bytes> := if place == [] then [[], [], []] else [[], []];
    SplitNone([], SLASH);
    var nothing: Bytes := [];
    assert nothing + [SLASH] + nothing == [SLASH];
    SplitConcat(nothing, SLASH, nothing);
    if place != [] {
      WholeIsPlain(place);
    }
    var parts := Parts(cwd, Text(place));
    assert parts == lead + place;
    forall k | 0 <= k <= |parts|
      ensures Fits(Place([], parts[..k]))
    {
      LeadNowhere(lead, place, k);
      Empty();
      if k > |lead| {
        SlashedGrows(place, k - |lead|);
      }
    }
    Empty();
    LeadNowhere(lead, place, |parts|);
    assert parts[..|parts|] == parts && place[..|place|] == place;
    FailsExactlyWhenTooLong([], parts);
  }

  lemma LeadNowhere(lead: seq<Bytes>, place: seq<Bytes>, k: nat)
    requires forall i :: 0 <= i < |lead| ==> lead[i] == []
    requires Names(place) && k <= |lead| + |place|
    ensures Place([], (lead + place)[..k]) == if k <= |lead| then [] else place[..k - |lead|]
  {
    if k <= |lead| {
      assert (lead + place)[..k] == lead[..k];
      Nowhere([], lead[..k]);
    } else {
      assert (lead + place)[..k] == lead + place[..k - |lead|];
      Nowhere([], lead);
      PlaceThenPlace([], lead, place[..k - |lead|]);
      DownNames([], place[..k - |lead|]);
    }
  }

  lemma {:induction false} Nowhere(place: seq<Bytes>, lead: seq<Bytes>)
    requires forall i :: 0 <= i < |lead| ==> lead[i] == []
    ensures Place(place, lead) == place
    decreases |lead|
  {
    if lead != [] {
      Nowhere(place, lead[1..]);
    }
  }

  /** A relative path is the caller's directory and the path with a slash between. */
  lemma RelativeIsJoined(cwd: Bytes, path: Bytes)
    requires path == [] || path[0] != SLASH
    requires cwd != [] && cwd[0] == SLASH
    ensures Place([], Parts(Some(cwd), path)) == Place([], Parts(None, cwd + [SLASH] + path))
    ensures Walk([], Parts(Some(cwd), path)) == Walk([], Parts(None, cwd + [SLASH] + path))
  {
    hide Split, Index, Place;
    SplitConcat(cwd, SLASH, path);
    SplitNone([], SLASH);
    var parts := Split(cwd, SLASH) + Split(path, SLASH);
    assert [[]] + parts == Parts(None, cwd + [SLASH] + path);
    assert ([[]] + parts)[1..] == parts;
    Empty();
    NowhereFirst(parts);
  }

  lemma NowhereFirst(parts: seq<Bytes>)
    requires Fits([])
    ensures Place([], [[]] + parts) == Place([], parts)
    ensures Walk([], [[]] + parts) == Walk([], parts)
  {
    assert ([[]] + parts)[1..] == parts;
  }

  // ---- What is mounted there ----

  datatype Mount = Mount(source: Bytes, at: Bytes, kind: int)

  /** The first filesystem at `target` whose source there is room for. */
  method MountedOn(mounts: seq<Mount>, target: Bytes) returns (index: Option<nat>)
    ensures index.Some? ==>
      && index.value < |mounts|
      && mounts[index.value].at == target && |mounts[index.value].source| <= SOURCE_MAX
    ensures forall i :: 0 <= i < (if index.Some? then index.value else |mounts|) && mounts[i].at == target ==>
      |mounts[i].source| > SOURCE_MAX
  {
    for i := 0 to |mounts|
      invariant forall j :: 0 <= j < i && mounts[j].at == target ==> |mounts[j].source| > SOURCE_MAX
    {
      if mounts[i].at == target && |mounts[i].source| <= SOURCE_MAX {
        return Some(i);
      }
    }
    return None;
  }

  /** Two spellings of paths, each written out whole, are taken for the same mount point
      exactly when they lead to one place. */
  lemma SpellingsAgree(cwd: Option<Bytes>, path: Bytes, cwd': Option<Bytes>, path': Bytes)
    ensures Text(Place([], Parts(cwd, path))) == Text(Place([], Parts(cwd', path'))) <==>
            Place([], Parts(cwd, path)) == Place([], Parts(cwd', path'))
  {
    PartsAreReady(cwd, path);
    PartsAreReady(cwd', path');
    WalkKeepsNames([], Parts(cwd, path));
    WalkKeepsNames([], Parts(cwd', path'));
    OneTextOnePlace(Place([], Parts(cwd, path)), Place([], Parts(cwd', path')));
  }

  /** Where mounts are written down whole, the one found is the first at the place the path
      leads to, of those whose source there is room for. */
  lemma FoundByPlace(mounts: seq<Mount>, places: seq<seq<Bytes>>, cwd: Option<Bytes>, path: Bytes, i: nat)
    requires |mounts| == |places| && i < |mounts|
    requires Names(places[i]) && mounts[i].at == Text(places[i])
    ensures mounts[i].at == Text(Place([], Parts(cwd, path))) <==> places[i] == Place([], Parts(cwd, path))
  {
    PartsAreReady(cwd, path);
    WalkKeepsNames([], Parts(cwd, path));
    OneTextOnePlace(places[i], Place([], Parts(cwd, path)));
  }

  // ---- Paths joined ----

  /** Without a slash before it and without one after. */
  function Trimmed(part: Bytes): Bytes {
    var rest := if part != [] && part[0] == SLASH then part[1..] else part;
    if rest != [] && rest[|rest| - 1] == SLASH then rest[..|rest| - 1] else rest
  }

  function Joined(parts: seq<Bytes>): Bytes {
    if parts == [] then [] else
      var before, part := Joined(parts[..|parts| - 1]), Trimmed(parts[|parts| - 1]);
      if part == [] then before else before + [SLASH] + part
  }

  /** Joined in the buffer, one slash before each part there is anything in. */
  method Join(parts: seq<Bytes>, out: array<byte>) returns (len: Option<nat>)
    requires out.Length == MAX_PATH
    modifies out
    ensures len.Some? <==> |Joined(parts)| <= MAX_PATH
    ensures len.Some? ==> len.value <= out.Length &&
                          out[..len.value] == if Joined(parts) == [] then [SLASH] else Joined(parts)
  {
    hide Joined, Trimmed;
    NoParts(parts);
    var at: nat := 0;
    for i := 0 to |parts|
      invariant at <= out.Length && out[..at] == Joined(parts[..i])
    {
      var part := Trimmed(parts[i]);
      OneMorePart(parts, i);
      if part != [] {
        if at + 1 + |part| > out.Length {
          JoinedGrows(parts, i + 1);
          return None;
        }
        PutAfter(out, at, part);
        at := at + 1 + |part|;
      }
    }
    assert parts[..|parts|] == parts;
    if at == 0 {
      out[0] := SLASH;
      at := 1;
    }
    len := Some(at);
  }

  lemma NoParts(parts: seq<Bytes>)
    ensures Joined(parts[..0]) == []
  {
  }

  lemma OneMorePart(parts: seq<Bytes>, i: nat)
    requires i < |parts|
    ensures Joined(parts[..i + 1]) == if Trimmed(parts[i]) == [] then Joined(parts[..i])
                                      else Joined(parts[..i]) + [SLASH] + Trimmed(parts[i])
  {
    assert parts[..i + 1][..i] == parts[..i];
  }

  lemma {:induction false} JoinedGrows(parts: seq<Bytes>, k: nat)
    requires k <= |parts|
    ensures |Joined(parts[..k])| <= |Joined(parts)|
    decreases |parts|
  {
    if k < |parts| {
      var before := parts[..|parts| - 1];
      assert before[..k] == parts[..k];
      JoinedGrows(before, k);
    } else {
      assert parts[..k] == parts;
    }
  }

  lemma {:induction false} SlashedDown(place: seq<Bytes>, names: seq<Bytes>)
    requires names != []
    ensures Slashed(place + names) == Slashed(place) + [SLASH] + Unsplit(names, SLASH)
    decreases |names|
  {
    var next := place + [names[0]];
    assert next[..|place|] == place;
    if |names| == 1 {
      assert place + names == next;
    } else {
      assert place + names == next + names[1..];
      SlashedDown(next, names[1..]);
    }
  }

  lemma {:induction false} NothingToTrim(names: seq<Bytes>)
    requires Names(names) && names != []
    ensures var s := Unsplit(names, SLASH); s != [] && s[0] != SLASH && s[|s| - 1] != SLASH
    decreases |names|
  {
    if |names| > 1 {
      NothingToTrim(names[1..]);
    }
  }

  /** A place's text and names below it, joined, are the text of the place below, the root
      among the places. */
  lemma JoinedGoesDown(place: seq<Bytes>, names: seq<Bytes>)
    requires Names(place) && Names(names) && names != []
    ensures Joined([Text(place), Unsplit(names, SLASH)]) == Text(place + names)
  {
    hide Slashed, Unsplit, Joined, Trimmed;
    var below := Unsplit(names, SLASH);
    NothingToTrim(names);
    AlreadyTrimmed(below);
    SlashedDown(place, names);
    TextTrimmed(place);
    JoinedTwo(Text(place), below);
  }

  lemma AlreadyTrimmed(part: Bytes)
    requires part != [] && part[0] != SLASH && part[|part| - 1] != SLASH
    ensures Trimmed(part) == part && Trimmed([SLASH] + part) == part
  {
    assert ([SLASH] + part)[1..] == part;
  }

  lemma TextTrimmed(place: seq<Bytes>)
    requires Names(place)
    ensures if place == [] then Trimmed(Text(place)) == [] && Slashed(place) == []
            else Trimmed(Text(place)) != [] && [SLASH] + Trimmed(Text(place)) == Slashed(place)
  {
    hide Unsplit, Trimmed, Slashed, Text, IsName;
    if place == [] {
      RootTrimmed();
    } else {
      var below := Unsplit(place, SLASH);
      PlaceText(place);
      NothingToTrim(place);
      AlreadyTrimmed(below);
    }
  }

  lemma RootTrimmed()
    ensures Trimmed(Text([])) == [] && Slashed([]) == []
  {
  }

  lemma PlaceText(place: seq<Bytes>)
    requires place != []
    ensures Text(place) == Slashed(place) == [SLASH] + Unsplit(place, SLASH)
  {
    hide Unsplit, Slashed;
    SlashedDown([], place);
    Empty();
    assert [] + place == place;
  }

  lemma JoinedTwo(text: Bytes, below: Bytes)
    requires Trimmed(below) != []
    ensures Joined([text, below]) ==
            (if Trimmed(text) == [] then [] else [SLASH] + Trimmed(text)) + [SLASH] + Trimmed(below)
  {
    hide Trimmed;
    var both := [text, below];
    assert both[..1] == [text];
    JoinedOne(text);
  }

  lemma JoinedOne(text: Bytes)
    ensures Joined([text]) == if Trimmed(text) == [] then [] else [SLASH] + Trimmed(text)
  {
    assert [text][..|[text]| - 1] == [];
  }

  // ---- A device's name ----

  const PARTITION: byte := 112
  const NOUGHT: byte := 48
  const DEVICES: Bytes := [SLASH, 100, 101, 118, SLASH]

  predicate Digits(s: Bytes) {
    forall i :: 0 <= i < |s| ==> NOUGHT <= s[i] <= NOUGHT + 9
  }

  function LastIndex(s: Bytes, b: byte): (at: Option<nat>)
    ensures at.Some? ==> at.value < |s| && s[at.value] == b && b !in s[at.value + 1..]
    ensures at.None? ==> b !in s
  {
    if s == [] then None
    else if s[|s| - 1] == b then Some(|s| - 1)
    else
      var at := LastIndex(s[..|s| - 1], b);
      assert s == s[..|s| - 1] + [s[|s| - 1]];
      assert at.Some? ==> s[at.value + 1..] == s[..|s| - 1][at.value + 1..] + [s[|s| - 1]];
      at
  }

  function Device(source: Bytes): Bytes {
    if DEVICES <= source then source[|DEVICES|..] else source
  }

  ghost predicate Partition(device: Bytes, driver: Bytes, volume: Bytes) {
    device == driver + [PARTITION] + volume && driver != [] && volume != [] && Digits(volume)
  }

  lemma OneReading(device: Bytes, at: Option<nat>)
    requires at == LastIndex(device, PARTITION)
    ensures forall driver, volume :: Partition(device, driver, volume) ==>
      at == Some(|driver|) && device[..|driver|] == driver && device[|driver| + 1..] == volume
  {
    forall driver, volume | Partition(device, driver, volume)
      ensures at == Some(|driver|) && device[..|driver|] == driver && device[|driver| + 1..] == volume
    {
      hide LastIndex, Partition;
      LastIsBeforeDigits(device, driver, volume);
    }
  }

  lemma LastIsBeforeDigits(device: Bytes, driver: Bytes, volume: Bytes)
    requires Partition(device, driver, volume)
    ensures LastIndex(device, PARTITION) == Some(|driver|)
    ensures device[..|driver|] == driver && device[|driver| + 1..] == volume
  {
    hide LastIndex;
    assert device[|driver| + 1..] == volume && device[..|driver|] == driver;
    assert device[|driver|] == PARTITION;
    assert PARTITION in device;
    LastIs(device, PARTITION, |driver|);
  }

  /** The last place with nothing like it after is the last there is. */
  lemma {:induction false} LastIs(s: Bytes, b: byte, at: nat)
    requires at < |s| && s[at] == b && b !in s[at + 1..]
    ensures LastIndex(s, b) == Some(at)
    decreases |s|
  {
    var n := |s| - 1;
    if at < n {
      assert s[at + 1..] == s[..n][at + 1..] + [s[n]];
      LastIs(s[..n], b, at);
    }
  }

  /** A driver and the number of one of its volumes, if that is what the name is made of,
      and there is one way to read it so; and otherwise the whole of a disk. */
  function VolumeOf(source: Bytes): (r: (Bytes, Bytes))
    ensures Partition(Device(source), r.0, r.1) || r == (Device(source), [NOUGHT])
    ensures forall driver, volume :: Partition(Device(source), driver, volume) ==> r == (driver, volume)
  {
    var device := Device(source);
    var at := LastIndex(device, PARTITION);
    OneReading(device, at);
    if at.Some? && at.value > 0 && at.value + 1 < |device| && Digits(device[at.value + 1..])
    then
      assert device == device[..at.value] + [PARTITION] + device[at.value + 1..];
      (device[..at.value], device[at.value + 1..])
    else (device, [NOUGHT])
  }

  /** A volume of a driver's disk, by its name with its directory or without, is that volume of
      that driver; and a name in which nothing but digits does not follow the last `p` is the
      whole of its disk. */
  lemma VolumeReads(driver: Bytes, volume: Bytes)
    requires driver != [] && volume != [] && forall i :: 0 <= i < |volume| ==> 48 <= volume[i] <= 57
    ensures VolumeOf(Ascii("/dev/") + (driver + Ascii("p") + volume)) == (driver, volume)
    ensures !(Ascii("/dev/") <= driver + Ascii("p") + volume) ==>
              VolumeOf(driver + Ascii("p") + volume) == (driver, volume)
  {
    hide LastIndex;
    var device := driver + Ascii("p") + volume;
    assert Ascii("/dev/") == DEVICES && Ascii("p") == [PARTITION];
    assert Device(DEVICES + device) == device;
    assert Partition(device, driver, volume);
  }

  lemma WholeDisk(name: Bytes)
    requires forall at :: 0 < at < |name| - 1 && name[at] == 112 ==>
      exists i :: at < i < |name| && !(48 <= name[i] <= 57)
    ensures VolumeOf(Ascii("/dev/") + name) == (name, Ascii("0"))
  {
    hide LastIndex;
    assert Ascii("/dev/") == DEVICES && Ascii("0") == [NOUGHT];
    assert Device(DEVICES + name) == name;
    var (driver, volume) := VolumeOf(DEVICES + name);
    if Partition(name, driver, volume) {
      HasItsP(name, driver, volume);
    }
  }

  lemma HasItsP(device: Bytes, driver: Bytes, volume: Bytes)
    requires Partition(device, driver, volume)
    ensures 0 < |driver| < |device| - 1 && device[|driver|] == 112
    ensures forall i :: |driver| < i < |device| ==> 48 <= device[i] <= 57
  {
    assert forall i :: |driver| < i < |device| ==> device[i] == volume[i - |driver| - 1];
  }

  function Value(digits: Bytes): nat
    requires Digits(digits)
  {
    if digits == [] then 0 else 10 * Value(digits[..|digits| - 1]) + (digits[|digits| - 1] - NOUGHT)
  }

  function Least(a: nat, b: nat): nat { if a < b then a else b }

  /** The number kept in sixty-four bits, stopping at the most they hold: the whole number,
      or the most, and never a number in between that it overran to. */
  method VolumeNumber(digits: Bytes) returns (n: nat)
    requires Digits(digits)
    ensures n == Least(Value(digits), U64 - 1)
  {
    n := 0;
    for i := 0 to |digits|
      invariant n == Least(Value(digits[..i]), U64 - 1)
    {
      assert digits[..i + 1][..i] == digits[..i];
      n := Least(Least(n * 10, U64 - 1) + (digits[i] - NOUGHT), U64 - 1);
    }
    assert digits[..|digits|] == digits;
  }
}
