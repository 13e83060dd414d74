/** Resizing: the size a window is wanted to have and the size its buffers have, at the end of
    any run, said of what was sent and what was drawn in it. */
module Resizing {
  import opened Window

  /** What the client is told, and what it draws: with the memory for a new pool, or not. */
  datatype Deed = Told(width: int, height: int) | Drew(memory: bool)

  /** The events a run has sent, in order. */
  function SentBy(actions: seq<Action>): seq<Event> {
    if actions == [] then [] else
      SentBy(actions[..|actions| - 1]) +
      match actions[|actions| - 1]
      case Ask(width, height) => [Configure(width, height)]
      case LetGo(b) => [Release(b)]
      case Fire => [FrameDone]
      case _ => []
  }

  /** How many of them it has dispatched. */
  function Dispatched(actions: seq<Action>): nat {
    if actions == [] then 0 else
      Dispatched(actions[..|actions| - 1]) + if actions[|actions| - 1].Dispatch? then 1 else 0
  }

  /** What it has come to: the first draw, and of each dispatch the event whose turn it was -
      the first sent for the first dispatch, and so on. */
  function Deeds(actions: seq<Action>): seq<Deed> {
    if actions == [] then [] else
      var before := actions[..|actions| - 1];
      Deeds(before) +
      match actions[|actions| - 1]
      case Begin(memory) => [Drew(memory)]
      case Dispatch(memory) => Came(SentBy(before), Dispatched(before), memory)
      case _ => []
  }

  function Came(sent: seq<Event>, turn: nat, memory: bool): seq<Deed> {
    if turn >= |sent| then [] else
      match sent[turn]
      case Configure(width, height) => [Told(width, height)]
      case FrameDone => [Drew(memory)]
      case Release(_) => []
  }

  /** The size last told, of those with both numbers above nought; the first size, if there
      was none; and the size there was, if there has been no memory for it since. */
  function Wanted(first: (int, int), deeds: seq<Deed>): (int, int)
    decreases |deeds|
  {
    if deeds == [] then first else
      var before := deeds[..|deeds| - 1];
      match deeds[|deeds| - 1]
      case Told(width, height) => if width > 0 && height > 0 then (width, height) else Wanted(first, before)
      case Drew(memory) => if memory then Wanted(first, before) else Live(first, before)
  }

  /** The size wanted when there was last a draw with memory. */
  function Live(first: (int, int), deeds: seq<Deed>): (int, int)
    decreases |deeds|
  {
    if deeds == [] then first else
      var before := deeds[..|deeds| - 1];
      if deeds[|deeds| - 1] == Drew(true) then Wanted(first, before) else Live(first, before)
  }

  /** The client wants the size it should, its buffers are of the size they should be, and
      what is on the way to it is what has been sent and not dispatched. */
  ghost predicate AsTold(first: (int, int), actions: seq<Action>, w: World) {
    && (w.c.wantWidth, w.c.wantHeight) == Wanted(first, Deeds(actions))
    && (w.c.width, w.c.height) == Live(first, Deeds(actions))
    && Dispatched(actions) <= |SentBy(actions)| && w.s.queue == SentBy(actions)[Dispatched(actions)..]
  }

  lemma DrawnAsTold(w: World, memory: bool, wanted: (int, int), live: (int, int))
    requires Invariant(w) && (w.c.wantWidth, w.c.wantHeight) == wanted && (w.c.width, w.c.height) == live
    ensures var d := Draw(w, memory);
      && (d.c.wantWidth, d.c.wantHeight) == (if memory then wanted else live)
      && (d.c.width, d.c.height) == (if memory then wanted else live)
      && d.s.queue == w.s.queue
  {
    hide OneSet, BusyAsHeld, NothingFromTheFuture;
  }

  lemma OneMoreDeed(first: (int, int), deeds: seq<Deed>, deed: Deed)
    ensures Wanted(first, deeds + [deed]) == match deed {
      case Told(width, height) => if width > 0 && height > 0 then (width, height) else Wanted(first, deeds)
      case Drew(memory) => if memory then Wanted(first, deeds) else Live(first, deeds)
    }
    ensures Live(first, deeds + [deed]) == if deed == Drew(true) then Wanted(first, deeds) else Live(first, deeds)
  {
    assert (deeds + [deed])[..|deeds + [deed]| - 1] == deeds;
  }

  // ---- Every run ----

  lemma OneTurn(actions: seq<Action>, memory: bool)
    ensures var all := actions + [Dispatch(memory)];
      && SentBy(all) == SentBy(actions) && Dispatched(all) == Dispatched(actions) + 1
      && Deeds(all) == Deeds(actions) + Came(SentBy(actions), Dispatched(actions), memory)
  {
    var all := actions + [Dispatch(memory)];
    assert all[..|all| - 1] == actions;
  }

  lemma TakesItsTurn(first: (int, int), actions: seq<Action>, w: World, memory: bool)
    requires Invariant(w) && AsTold(first, actions, w) && w.s.queue != []
    ensures AsTold(first, actions + [Dispatch(memory)], Next(w, Dispatch(memory)))
  {
    hide Invariant, Draw, Wanted, Live, SentBy, Dispatched, Deeds;
    OneTurn(actions, memory);
    var sent, turn, deeds := SentBy(actions), Dispatched(actions), Deeds(actions);
    assert w.s.queue[0] == sent[turn] && w.s.queue[1..] == sent[turn + 1..];
    match sent[turn]
    case Configure(width, height) => OneMoreDeed(first, deeds, Told(width, height));
    case Release(_) => assert deeds + [] == deeds;
    case FrameDone =>
      PopKeeps(w);
      DrawnAsTold(w.(s := w.s.(queue := w.s.queue[1..])), memory, Wanted(first, deeds), Live(first, deeds));
      OneMoreDeed(first, deeds, Drew(memory));
  }

  lemma BeginsAsTold(first: (int, int), actions: seq<Action>, w: World, memory: bool)
    requires Invariant(w) && AsTold(first, actions, w) && Enabled(w, Begin(memory))
    ensures AsTold(first, actions + [Begin(memory)], Next(w, Begin(memory)))
  {
    hide Invariant, Draw, Wanted, Live;
    var all := actions + [Begin(memory)];
    assert all[..|all| - 1] == actions;
    StartedKeeps(w);
    DrawnAsTold(w.(c := w.c.(started := true)), memory, Wanted(first, Deeds(actions)), Live(first, Deeds(actions)));
    OneMoreDeed(first, Deeds(actions), Drew(memory));
    assert SentBy(all) == SentBy(actions);
  }

  lemma SendsAsTold(first: (int, int), actions: seq<Action>, w: World, a: Action)
    requires AsTold(first, actions, w) && !a.Begin? && !a.Dispatch? && Enabled(w, a)
    ensures AsTold(first, actions + [a], Next(w, a))
  {
    hide Wanted, Live;
    var all := actions + [a];
    assert all[..|all| - 1] == actions;
    assert Deeds(all) == Deeds(actions);
  }

  lemma StaysAsTold(first: (int, int), actions: seq<Action>, w: World, a: Action)
    requires Invariant(w) && AsTold(first, actions, w) && Enabled(w, a)
    ensures AsTold(first, actions + [a], Next(w, a))
  {
    hide Invariant, AsTold, Next;
    match a
    case Begin(memory) => BeginsAsTold(first, actions, w, memory);
    case Dispatch(memory) => TakesItsTurn(first, actions, w, memory);
    case _ => SendsAsTold(first, actions, w, a);
  }

  lemma StartedKeeps(w: World)
    requires Invariant(w)
    ensures Invariant(w.(c := w.c.(started := true)))
  {
  }

  lemma {:induction false} AsToldFrom(first: (int, int), before: seq<Action>, w: World, actions: seq<Action>,
                                      end: World)
    requires Invariant(w) && AsTold(first, before, w) && Runs(w, actions, end)
    ensures AsTold(first, before + actions, end)
    decreases |actions|
  {
    hide Invariant, AsTold, Next;
    if actions == [] {
      assert before + actions == before;
    } else {
      var a := actions[0];
      NextKeeps(w, a);
      StaysAsTold(first, before, w, a);
      AsToldFrom(first, before + [a], Next(w, a), actions[1..], end);
      assert before + [a] + actions[1..] == before + actions;
    }
  }

  /** At the end of any run the window is wanted to have the size last told, and has the size
      wanted when it was last drawn with the memory for it. */
  lemma SizesAreAsTold(width: int, height: int, actions: seq<Action>, end: World)
    requires Runs(Launched(width, height), actions, end)
    ensures (end.c.wantWidth, end.c.wantHeight) == Wanted((width, height), Deeds(actions))
    ensures (end.c.width, end.c.height) == Live((width, height), Deeds(actions))
  {
    hide Invariant, Runs;
    LaunchedKeeps(width, height);
    AsToldFrom((width, height), [], Launched(width, height), actions, end);
    assert [] + actions == actions;
  }

  /** So a size the client is told of, and told of no other after, is its size once it has
      drawn, if it has not been short of memory. */
  lemma ToldSizeIsDrawn(first: (int, int), actions: seq<Action>, end: World,
                        before: seq<Deed>, width: int, height: int, after: seq<Deed>)
    requires Runs(Launched(first.0, first.1), actions, end)
    requires Deeds(actions) == before + [Told(width, height)] + after && width > 0 && height > 0
    requires forall d :: d in after ==> d.Told? ==> d.width <= 0 || d.height <= 0
    requires Drew(true) in after && Drew(false) !in after
    ensures end.c.width == width && end.c.height == height
  {
    hide Runs, Deeds;
    SizesAreAsTold(first.0, first.1, actions, end);
    ToldIsDrawn(first, before, width, height, after);
  }

  lemma {:induction false} ToldIsDrawn(first: (int, int), before: seq<Deed>, width: int, height: int, after: seq<Deed>)
    requires width > 0 && height > 0
    requires forall d :: d in after ==> d.Told? ==> d.width <= 0 || d.height <= 0
    requires Drew(false) !in after
    ensures Wanted(first, before + [Told(width, height)] + after) == (width, height)
    ensures Drew(true) in after ==> Live(first, before + [Told(width, height)] + after) == (width, height)
    decreases |after|
  {
    var told := before + [Told(width, height)];
    OneMoreDeed(first, before, Told(width, height));
    if after == [] {
      assert told + after == told;
    } else {
      var rest, last := after[..|after| - 1], after[|after| - 1];
      assert after == rest + [last] && told + after == told + rest + [last];
      ToldIsDrawn(first, before, width, height, rest);
      OneMoreDeed(first, told + rest, last);
    }
  }

  /** And any size may be told and drawn: by a run of three steps, from any first size. */
  lemma AnySizeIsReached(first: (int, int), width: int, height: int)
    requires width > 0 && height > 0
    ensures exists end :: Runs(Launched(first.0, first.1), [Ask(width, height), Dispatch(true), Begin(true)], end)
                          && end.c.width == width && end.c.height == height && end.painted == 1
  {
    hide Draw, Invariant;
    var start := Launched(first.0, first.1);
    LaunchedKeeps(first.0, first.1);
    var asked := Next(start, Ask(width, height));
    var told := Next(asked, Dispatch(true));
    var end := Next(told, Begin(true));
    NextKeeps(start, Ask(width, height));
    NextKeeps(asked, Dispatch(true));
    StartedKeeps(told);
    DrawKeeps(told.(c := told.c.(started := true)), true);
    ThreeSteps(start, asked, told, end, Ask(width, height), Dispatch(true), Begin(true));
    var sizes := (told.c.wantWidth, told.c.wantHeight);
    DrawnAsTold(told.(c := told.c.(started := true)), true, sizes, (told.c.width, told.c.height));
  }

  lemma ThreeSteps(w: World, x: World, y: World, z: World, a: Action, b: Action, c: Action)
    requires Enabled(w, a) && x == Next(w, a) && Enabled(x, b) && y == Next(x, b) && Enabled(y, c) && z == Next(y, c)
    ensures Runs(w, [a, b, c], z)
  {
    hide Next, Enabled;
    assert [a, b, c][1..] == [b, c] && [b, c][1..] == [c] && [c][1..] == [];
    assert Runs(z, [], z) && Runs(y, [c], z) && Runs(x, [b, c], z);
  }
}
