/** The transcript of a console: screens looked at one after another, each laid over the
    end of what is already written down. */
module Transcript {

  type Line = string

  const GAP: Line := "[...]"

  /** A screen without its last line, which is still being written. */
  function Body(lines: seq<Line>): seq<Line> {
    if lines == [] then [] else lines[..|lines| - 1]
  }

  function Min(a: nat, b: nat): nat {
    if a < b then a else b
  }

  predicate Overlaps(seen: seq<Line>, body: seq<Line>, k: nat) {
    0 < k <= |seen| && k <= |body| && seen[|seen| - k..] == body[..k]
  }

  /** The longest overlap of at most `k` lines, or none. */
  function Longest(seen: seq<Line>, body: seq<Line>, k: nat): (n: nat)
    ensures n <= k && (n > 0 ==> Overlaps(seen, body, n))
    ensures forall m :: n < m <= k ==> !Overlaps(seen, body, m)
  {
    if k == 0 || Overlaps(seen, body, k) then k else Longest(seen, body, k - 1)
  }

  lemma LongestOf(seen: seq<Line>, body: seq<Line>, k: nat)
    requires 0 < k <= |seen| && k <= |body|
    ensures Longest(seen, body, k) == if seen[|seen| - k..] == body[..k] then k else Longest(seen, body, k - 1)
  {
  }

  lemma LongestOfNone(seen: seq<Line>, body: seq<Line>)
    ensures Longest(seen, body, 0) == 0
  {
  }

  function Merged(seen: seq<Line>, lines: seq<Line>): seq<Line> {
    var body := Body(lines);
    var k := Longest(seen, body, Min(|seen|, |body|));
    if k > 0 then seen + body[k..]
    else seen + (if seen != [] && body != [] then [GAP] else []) + body
  }

  class Transcript {
    var seen: seq<Line>

    constructor ()
      ensures seen == []
    {
      seen := [];
    }

    method Merge(lines: seq<Line>)
      modifies this
      ensures seen == Merged(old(seen), lines)
    {
      hide Longest, Overlaps;
      var body := if lines == [] then [] else lines[..|lines| - 1];
      var most := Min(|seen|, |body|);
      var k := most;
      while k > 0
        invariant seen == old(seen) && 0 <= k <= most && Longest(seen, body, k) == Longest(seen, body, most)
      {
        LongestOf(seen, body, k);
        if seen[|seen| - k..] == body[..k] {
          seen := seen + body[k..];
          return;
        }
        k := k - 1;
      }
      LongestOfNone(seen, body);
      if seen != [] && body != [] {
        seen := seen + [GAP];
      }
      seen := seen + body;
    }
  }

  // ---- One look ----

  /** What was written down stays, and what is on the screen comes last. */
  lemma MergedKeepsAndEnds(seen: seq<Line>, lines: seq<Line>)
    ensures seen <= Merged(seen, lines)
    ensures var m, body := Merged(seen, lines), Body(lines); |body| <= |m| && m[|m| - |body|..] == body
    ensures forall l :: l in Merged(seen, lines) ==> l in seen || l in Body(lines) || l == GAP
  {
    hide Longest, Body;
    var body := Body(lines);
    var k := Longest(seen, body, Min(|seen|, |body|));
    if k > 0 {
      var m := seen + body[k..];
      assert m[|m| - |body|..] == seen[|seen| - k..] + body[k..];
      assert body == body[..k] + body[k..];
    }
  }

  /** Looking at the same screen again adds nothing. */
  lemma MergingTwiceAddsNothing(seen: seq<Line>, lines: seq<Line>)
    ensures Merged(Merged(seen, lines), lines) == Merged(seen, lines)
  {
    var m, body := Merged(seen, lines), Body(lines);
    MergedKeepsAndEnds(seen, lines);
    if body != [] {
      assert body[..|body|] == body;
      assert Overlaps(m, body, |body|);
      assert Longest(m, body, Min(|m|, |body|)) == |body|;
      assert m + body[|body|..] == m;
    }
  }

  // ---- A run of looks ----

  function After(seen: seq<Line>, looks: seq<seq<Line>>): seq<Line>
    decreases |looks|
  {
    if looks == [] then seen else After(Merged(seen, looks[0]), looks[1..])
  }

  predicate At(part: seq<Line>, whole: seq<Line>, at: nat) {
    at + |part| <= |whole| && whole[at..at + |part|] == part
  }

  ghost predicate Within(part: seq<Line>, whole: seq<Line>) {
    exists at: nat :: At(part, whole, at)
  }

  lemma {:induction false} EarlierStays(seen: seq<Line>, looks: seq<seq<Line>>)
    ensures seen <= After(seen, looks)
    decreases |looks|
  {
    if looks != [] {
      MergedKeepsAndEnds(seen, looks[0]);
      EarlierStays(Merged(seen, looks[0]), looks[1..]);
    }
  }

  lemma EndsWithin(body: seq<Line>, m: seq<Line>, end: seq<Line>)
    requires |body| <= |m| && m[|m| - |body|..] == body && m <= end
    ensures Within(body, end)
  {
    assert At(body, end, |m| - |body|);
  }

  /** Over any run every screen looked at is in the transcript in one piece. */
  lemma {:induction false} EveryLookIsThere(seen: seq<Line>, looks: seq<seq<Line>>, i: nat)
    requires i < |looks|
    ensures Within(Body(looks[i]), After(seen, looks))
    decreases |looks|
  {
    hide Merged, Body, Within;
    var m, end := Merged(seen, looks[0]), After(seen, looks);
    if i == 0 {
      MergedKeepsAndEnds(seen, looks[0]);
      EarlierStays(m, looks[1..]);
      EndsWithin(Body(looks[0]), m, end);
    } else {
      EveryLookIsThere(m, looks[1..], i - 1);
    }
  }

  ghost predicate Shown(looks: seq<seq<Line>>, l: Line) {
    exists i :: 0 <= i < |looks| && l in Body(looks[i])
  }

  /** And in it is nothing that was not on some screen but the marks of gaps. */
  lemma {:induction false} NothingElseIsThere(seen: seq<Line>, looks: seq<seq<Line>>, l: Line)
    requires l in After(seen, looks)
    ensures l in seen || l == GAP || Shown(looks, l)
    decreases |looks|
  {
    if looks != [] {
      MergedKeepsAndEnds(seen, looks[0]);
      NothingElseIsThere(Merged(seen, looks[0]), looks[1..], l);
      if Shown(looks[1..], l) {
        var j :| 0 <= j < |looks| - 1 && l in Body(looks[1..][j]);
        assert looks[1..][j] == looks[j + 1];
      }
    }
  }

  // ---- A window on a log ----

  /** No longer stretch of the screen's top looks like the end of what is written down than
      the one that is. */
  ghost predicate Clear(log: seq<Line>, from: nat, to: nat, top: nat, bottom: nat)
    requires from <= top < to <= bottom <= |log|
  {
    forall m :: to - top < m <= Min(to - from, bottom - top) ==> !Overlaps(log[from..to], log[top..bottom], m)
  }

  /** A transcript of one stretch of the log, laid over by the screen after it, is the
      longer stretch exactly when the screen is clear; when it is not, lines are lost. */
  lemma StretchGrowsExactly(log: seq<Line>, from: nat, to: nat, lines: seq<Line>, top: nat, bottom: nat)
    requires from <= top < to <= bottom <= |log| && Body(lines) == log[top..bottom]
    ensures Merged(log[from..to], lines) == log[from..bottom] <==> Clear(log, from, to, top, bottom)
    ensures !Clear(log, from, to, top, bottom) ==> |Merged(log[from..to], lines)| < bottom - from
  {
    hide Body, Longest;
    var seen, body := log[from..to], log[top..bottom];
    var k := to - top;
    assert seen[|seen| - k..] == log[top..to] == body[..k];
    assert Overlaps(seen, body, k);
    var n := Longest(seen, body, Min(|seen|, |body|));
    assert n >= k;
    assert Merged(seen, lines) == seen + body[n..];
    assert n == k ==> seen + body[k..] == log[from..bottom];
  }

  /** A page that was missed is marked exactly when the screen's top looks like no end of
      what is written down. */
  lemma GapExactly(seen: seq<Line>, lines: seq<Line>)
    requires seen != [] && Body(lines) != []
    ensures Merged(seen, lines) == seen + [GAP] + Body(lines)
            <==> forall m :: 0 < m <= Min(|seen|, |Body(lines)|) ==> !Overlaps(seen, Body(lines), m)
  {
    hide Body, Longest;
    var body := Body(lines);
    var n := Longest(seen, body, Min(|seen|, |body|));
    assert n > 0 ==> |Merged(seen, lines)| == |seen| + |body| - n;
  }

  /** The screens as windows on the log: each overlaps the one before and reaches no less
      far. */
  ghost predicate Windows(log: seq<Line>, looks: seq<seq<Line>>, tops: seq<nat>, bottoms: seq<nat>) {
    && |looks| == |tops| == |bottoms|
    && (forall i :: 0 <= i < |looks| ==> tops[i] < bottoms[i] <= |log| && Body(looks[i]) == log[tops[i]..bottoms[i]])
    && (forall i :: 0 < i < |looks| ==> tops[0] <= tops[i] < bottoms[i - 1] <= bottoms[i])
  }

  /** Each of the first `n` looks was clear. */
  ghost predicate AllClear(log: seq<Line>, looks: seq<seq<Line>>, tops: seq<nat>, bottoms: seq<nat>, n: nat)
    requires Windows(log, looks, tops, bottoms) && n <= |looks|
  {
    forall i :: 0 < i < n ==> Clear(log, tops[0], bottoms[i - 1], tops[i], bottoms[i])
  }

  /** A console only scrolls on. */
  ghost predicate Onward(tops: seq<nat>) {
    forall i :: 0 < i < |tops| ==> tops[i - 1] <= tops[i]
  }

  /** The transcript once `n` looks have been taken. */
  function AfterSome(looks: seq<seq<Line>>, n: nat): seq<Line>
    requires n <= |looks|
  {
    After([], looks[..n])
  }

  lemma AfterFirst(looks: seq<seq<Line>>)
    requires looks != []
    ensures AfterSome(looks, 1) == Body(looks[0])
  {
    assert looks[..1] == [looks[0]];
    assert After([], [looks[0]]) == After(Merged([], looks[0]), [looks[0]][1..]);
  }

  lemma AfterNext(looks: seq<seq<Line>>, n: nat)
    requires n < |looks|
    ensures AfterSome(looks, n + 1) == Merged(AfterSome(looks, n), looks[n])
  {
    hide After, Merged;
    AfterLast([], looks[..n + 1]);
    assert looks[..n + 1][..n] == looks[..n];
  }

  lemma {:induction false} AfterLast(seen: seq<Line>, looks: seq<seq<Line>>)
    requires looks != []
    ensures After(seen, looks) == Merged(After(seen, looks[..|looks| - 1]), looks[|looks| - 1])
    decreases |looks|
  {
    hide Merged;
    if |looks| == 1 {
      assert looks[1..] == [] && looks[..0] == [];
    } else {
      AfterLast(Merged(seen, looks[0]), looks[1..]);
      assert looks[..|looks| - 1][1..] == looks[1..][..|looks| - 2];
    }
  }

  lemma {:induction false} ClearSoFar(log: seq<Line>, looks: seq<seq<Line>>, tops: seq<nat>, bottoms: seq<nat>, n: nat)
    requires Windows(log, looks, tops, bottoms) && 0 < n <= |looks| && AllClear(log, looks, tops, bottoms, n)
    ensures AfterSome(looks, n) == log[tops[0]..bottoms[n - 1]]
    decreases n
  {
    hide Merged, Clear, AfterSome;
    if n == 1 {
      AfterFirst(looks);
    } else {
      ClearSoFar(log, looks, tops, bottoms, n - 1);
      AfterNext(looks, n - 1);
      StretchGrowsExactly(log, tops[0], bottoms[n - 2], looks[n - 1], tops[n - 1], bottoms[n - 1]);
    }
  }

  /** When no look misses a page and every one is clear, the transcript is the log, from the
      top of the first screen to the bottom of the last, without a gap. */
  lemma TranscriptIsTheLog(log: seq<Line>, looks: seq<seq<Line>>, tops: seq<nat>, bottoms: seq<nat>)
    requires looks != [] && Windows(log, looks, tops, bottoms) && AllClear(log, looks, tops, bottoms, |looks|)
    ensures After([], looks) == log[tops[0]..bottoms[|looks| - 1]]
  {
    ClearSoFar(log, looks, tops, bottoms, |looks|);
    assert looks[..|looks|] == looks;
  }

  /** What is shorter than its stretch of the log stays so: a later look adds no more lines
      than are new on it. */
  lemma StaysShort(seen: seq<Line>, before: seq<Line>, lines: seq<Line>, k: nat)
    requires 0 < k <= |before| <= |seen| && k <= |Body(lines)|
    requires seen[|seen| - |before|..] == before && before[|before| - k..] == Body(lines)[..k]
    ensures |Merged(seen, lines)| <= |seen| + |Body(lines)| - k
  {
    hide Body, Longest;
    var body := Body(lines);
    assert seen[|seen| - k..] == seen[|seen| - |before|..][|before| - k..] == body[..k];
    assert Overlaps(seen, body, k);
    assert Longest(seen, body, Min(|seen|, |body|)) >= k;
  }

  lemma StillShorter(log: seq<Line>, seen: seq<Line>, lines: seq<Line>, above: nat, to: nat, top: nat, bottom: nat)
    requires above <= top < to <= bottom <= |log| && Body(lines) == log[top..bottom]
    requires to - above <= |seen| && seen[|seen| - (to - above)..] == log[above..to]
    ensures |Merged(seen, lines)| <= |seen| + (bottom - to)
  {
    hide Merged, Body;
    var before, k := log[above..to], to - top;
    assert before[|before| - k..] == log[top..to] == log[top..bottom][..k];
    StaysShort(seen, before, lines, k);
  }

  lemma EndsWithLook(looks: seq<seq<Line>>, n: nat)
    requires 0 < n <= |looks|
    ensures var end, body := AfterSome(looks, n), Body(looks[n - 1]); |body| <= |end| && end[|end| - |body|..] == body
  {
    hide Merged, AfterSome;
    AfterNext(looks, n - 1);
    MergedKeepsAndEnds(AfterSome(looks, n - 1), looks[n - 1]);
  }

  lemma {:induction false} ShorterUnlessClear(log: seq<Line>, looks: seq<seq<Line>>, tops: seq<nat>, bottoms: seq<nat>,
                                              n: nat)
    requires Windows(log, looks, tops, bottoms) && Onward(tops)
    requires 0 < n <= |looks| && !AllClear(log, looks, tops, bottoms, n)
    ensures |AfterSome(looks, n)| < bottoms[n - 1] - tops[0]
    decreases n
  {
    hide Merged, Clear, Body, AfterSome;
    AfterNext(looks, n - 1);
    if AllClear(log, looks, tops, bottoms, n - 1) {
      ClearSoFar(log, looks, tops, bottoms, n - 1);
      StretchGrowsExactly(log, tops[0], bottoms[n - 2], looks[n - 1], tops[n - 1], bottoms[n - 1]);
    } else {
      ShorterUnlessClear(log, looks, tops, bottoms, n - 1);
      EndsWithLook(looks, n - 1);
      StillShorter(log, AfterSome(looks, n - 1), looks[n - 1], tops[n - 2], bottoms[n - 2], tops[n - 1],
                   bottoms[n - 1]);
    }
  }

  /** Of a console that only scrolls on, the transcript is the log if and only if every look
      at it was clear; otherwise it is shorter. */
  lemma TranscriptIsTheLogExactly(log: seq<Line>, looks: seq<seq<Line>>, tops: seq<nat>, bottoms: seq<nat>)
    requires looks != [] && Windows(log, looks, tops, bottoms) && Onward(tops)
    ensures After([], looks) == log[tops[0]..bottoms[|looks| - 1]] <==> AllClear(log, looks, tops, bottoms, |looks|)
    ensures !AllClear(log, looks, tops, bottoms, |looks|) ==> |After([], looks)| < bottoms[|looks| - 1] - tops[0]
  {
    hide After, AllClear;
    if AllClear(log, looks, tops, bottoms, |looks|) {
      TranscriptIsTheLog(log, looks, tops, bottoms);
    } else {
      ShorterUnlessClear(log, looks, tops, bottoms, |looks|);
      assert looks[..|looks|] == looks;
    }
  }

  // ---- Lines that are all different, and lines that are not ----

  ghost predicate AllDifferent(log: seq<Line>) {
    forall i, j :: 0 <= i < j < |log| ==> log[i] != log[j]
  }

  /** When no line is said twice every look is clear. */
  lemma DifferentLinesAreClear(log: seq<Line>, from: nat, to: nat, top: nat, bottom: nat)
    requires AllDifferent(log) && from <= top < to <= bottom <= |log|
    ensures Clear(log, from, to, top, bottom)
  {
    var seen, body := log[from..to], log[top..bottom];
    forall m | to - top < m <= Min(to - from, bottom - top)
      ensures !Overlaps(seen, body, m)
    {
      assert seen[|seen| - m..][0] == log[to - m] && body[..m][0] == log[top];
    }
  }

  lemma DifferentLinesAreTheLog(log: seq<Line>, looks: seq<seq<Line>>, tops: seq<nat>, bottoms: seq<nat>)
    requires AllDifferent(log) && looks != [] && Windows(log, looks, tops, bottoms)
    ensures After([], looks) == log[tops[0]..bottoms[|bottoms| - 1]]
  {
    forall i | 0 < i < |tops|
      ensures Clear(log, tops[0], bottoms[i - 1], tops[i], bottoms[i])
    {
      DifferentLinesAreClear(log, tops[0], bottoms[i - 1], tops[i], bottoms[i]);
    }
    TranscriptIsTheLog(log, looks, tops, bottoms);
  }

  /** A look that is not clear: three lines the same are two when the screen holds two. */
  lemma ALineSaidAgainIsLost(line: Line, last: Line)
    ensures Merged([line, line], [line, line, last]) == [line, line]
    ensures !Clear([line, line, line], 0, 2, 1, 3)
  {
    var log, seen, body := [line, line, line], [line, line], [line, line];
    assert Body([line, line, last]) == body;
    assert log[0..2] == seen && log[1..3] == body;
    assert seen[0..] == body[..2];
    assert Overlaps(seen, body, 2);
  }
}
