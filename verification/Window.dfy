/** A window drawn into two shared buffers and rebuilt when its size changes: the client,
    the compositor it hands buffers to, and the events on their way between them. The
    contract is `wl_surface.attach`'s: a committed buffer is the compositor's until it
    sends the release. */
module Window {
  import opened Bytes

  const BUFFERS := 2

  /** One of the buffers of a pool; pools are numbered as they are made. */
  datatype Buffer = Buffer(pool: nat, index: nat)

  datatype Event = Configure(width: int, height: int) | Release(buffer: Buffer) | FrameDone

  /** What the client keeps: the pool, its mapping and descriptor, the buffers, the set put
      aside by a resize, and the sizes. */
  datatype Client = Client(
    pool: Option<nat>, base: Option<nat>, fd: Option<nat>, buffers: seq<Option<Buffer>>,
    oldPool: Option<nat>, oldBase: Option<nat>, oldFd: Option<nat>, oldBuffers: seq<Option<Buffer>>,
    busy: seq<bool>, width: int, height: int, wantWidth: int, wantHeight: int, pending: bool, started: bool)

  /** What exists: descriptors and mappings here, pools and buffers there. */
  datatype Things = Things(fds: set<nat>, maps: set<nat>, pools: set<nat>, buffers: set<Buffer>, next: nat)

  /** The compositor: the buffers it may read, how many frame callbacks it owes, and what
      it has sent that has not been dispatched. */
  datatype Compositor = Compositor(held: set<Buffer>, owed: nat, queue: seq<Event>)

  /** `painted` counts the frames painted; `torn` remembers whether one ever was into a
      buffer the compositor held, or one that was gone. */
  datatype World = World(c: Client, t: Things, s: Compositor, painted: nat, torn: bool)

  // ---- The client's steps ----

  /** `build_pool`: a new set, the one there was put aside; or, when there is no memory,
      nothing. */
  function BuildPool(w: World, width: int, height: int, memory: bool): World {
    if !memory then w else
      var g := w.t.next;
      var pair := [Some(Buffer(g, 0)), Some(Buffer(g, 1))];
      w.(c := w.c.(oldPool := w.c.pool, oldBase := w.c.base, oldFd := w.c.fd, oldBuffers := w.c.buffers,
                   pool := Some(g), base := Some(g), fd := Some(g), buffers := pair,
                   busy := [false, false], width := width, height := height),
         t := Things(w.t.fds + {g}, w.t.maps + {g}, w.t.pools + {g}, w.t.buffers + {Buffer(g, 0), Buffer(g, 1)}, g + 1))
  }

  function Without(all: set<nat>, one: Option<nat>): set<nat> {
    if one.Some? then all - {one.value} else all
  }

  function WithoutBuffers(all: set<Buffer>, gone: seq<Option<Buffer>>): set<Buffer> {
    set b | b in all && Some(b) !in gone
  }

  /** `drop_old_pool`: the set put aside, let go. */
  function DropOldPool(w: World): World {
    if w.c.oldPool.None? then w else
      w.(c := w.c.(oldPool := None, oldBase := None, oldFd := None, oldBuffers := [None, None]),
         t := w.t.(fds := Without(w.t.fds, w.c.oldFd), maps := Without(w.t.maps, w.c.oldBase),
                   pools := Without(w.t.pools, w.c.oldPool), buffers := WithoutBuffers(w.t.buffers, w.c.oldBuffers)))
  }

  /** The first buffer that is not busy; past the last when both are. */
  function Idle(busy: seq<bool>): nat {
    if busy == [] || !busy[0] then 0 else 1 + Idle(busy[1..])
  }

  function Resized(w: World, memory: bool): World {
    if !w.c.pending then w
    else if memory then var b := BuildPool(w, w.c.wantWidth, w.c.wantHeight, true); b.(c := b.c.(pending := false))
    else w.(c := w.c.(wantWidth := w.c.width, wantHeight := w.c.height, pending := false))
  }

  /** A buffer painted and committed, with a frame callback asked for. */
  function Committed(w: World, n: nat, b: Buffer): World
    requires n < |w.c.busy|
  {
    w.(c := w.c.(busy := w.c.busy[n := true]),
       s := w.s.(held := w.s.held + {b}, owed := w.s.owed + 1),
       painted := w.painted + 1,
       torn := w.torn || b in w.s.held || b !in w.t.buffers)
  }

  /** `draw`, after the resize: an idle buffer painted and handed over, and the old set let
      go. */
  function PaintAndCommit(w: World): World {
    var n := Idle(w.c.busy);
    if n >= |w.c.busy| || n >= |w.c.buffers| || w.c.buffers[n].None? then w
    else DropOldPool(Committed(w, n, w.c.buffers[n].value))
  }

  function Draw(w: World, memory: bool): World {
    PaintAndCommit(Resized(w, memory))
  }

  function ToplevelConfigure(w: World, width: int, height: int): World {
    if width <= 0 || height <= 0 || (width == w.c.wantWidth && height == w.c.wantHeight) then w
    else w.(c := w.c.(wantWidth := width, wantHeight := height, pending := true))
  }

  /** A release is for a proxy; one that has been destroyed gets no events. */
  function BufferRelease(w: World, b: Buffer): World {
    if b in w.t.buffers && b.index < |w.c.busy| then w.(c := w.c.(busy := w.c.busy[b.index := false])) else w
  }

  function Handled(w: World, e: Event, memory: bool): World {
    match e
    case Configure(width, height) => ToplevelConfigure(w, width, height)
    case Release(b) => BufferRelease(w, b)
    case FrameDone => Draw(w, memory)
  }

  // ---- Runs ----

  datatype Action =
    | Ask(width: int, height: int)
    | LetGo(buffer: Buffer)
    | Fire
    | Begin(memory: bool)
    | Dispatch(memory: bool)

  /** What may happen next: the compositor asks for a size, lets a buffer go it held, or
      answers a frame callback it owes; the client draws for the first time; or it
      dispatches the first event there is. */
  predicate Enabled(w: World, a: Action) {
    match a
    case Ask(_, _) => true
    case LetGo(b) => b in w.s.held
    case Fire => w.s.owed > 0
    case Begin(_) => !w.c.started
    case Dispatch(_) => w.s.queue != []
  }

  function Sent(w: World, e: Event): World {
    w.(s := w.s.(queue := w.s.queue + [e]))
  }

  function Next(w: World, a: Action): World
    requires Enabled(w, a)
  {
    match a
    case Ask(width, height) => Sent(w, Configure(width, height))
    case LetGo(b) => Sent(w.(s := w.s.(held := w.s.held - {b})), Release(b))
    case Fire => Sent(w.(s := w.s.(owed := w.s.owed - 1)), FrameDone)
    case Begin(memory) => Draw(w.(c := w.c.(started := true)), memory)
    case Dispatch(memory) => Handled(w.(s := w.s.(queue := w.s.queue[1..])), w.s.queue[0], memory)
  }

  ghost predicate Runs(w: World, actions: seq<Action>, end: World)
    decreases |actions|
  {
    if actions == [] then w == end
    else Enabled(w, actions[0]) && Runs(Next(w, actions[0]), actions[1..], end)
  }

  /** The client before there is anything. */
  function Blank(width: int, height: int): World {
    var client := Client(None, None, None, [None, None], None, None, None, [None, None],
                         [false, false], width, height, width, height, false, false);
    World(client, Things({}, {}, {}, {}, 0), Compositor({}, 0, []), 0, false)
  }

  /** The client as `main` has it once its first pool is built, at the size it chose. */
  function Launched(width: int, height: int): World {
    BuildPool(Blank(width, height), width, height, true)
  }

  // ---- What every run keeps ----

  /** Events in flight that say a buffer is released. */
  function Releases(queue: seq<Event>, b: Buffer): nat {
    if queue == [] then 0 else (if queue[0] == Release(b) then 1 else 0) + Releases(queue[1..], b)
  }

  function Frames(queue: seq<Event>): nat {
    if queue == [] then 0 else (if queue[0] == FrameDone then 1 else 0) + Frames(queue[1..])
  }

  function Hold(held: set<Buffer>, b: Buffer): nat {
    if b in held then 1 else 0
  }

  /** Exactly one pool, mapping, descriptor and pair of buffers, and nothing put aside. */
  ghost predicate OneSet(w: World) {
    && w.c.pool.Some? && w.c.base == w.c.pool && w.c.fd == w.c.pool
    && var g := w.c.pool.value;
    && w.c.buffers == [Some(Buffer(g, 0)), Some(Buffer(g, 1))]
    && w.c.oldPool == None && w.c.oldBase == None && w.c.oldFd == None && w.c.oldBuffers == [None, None]
    && w.t.fds == {g} && w.t.maps == {g} && w.t.pools == {g} && w.t.buffers == {Buffer(g, 0), Buffer(g, 1)}
  }

  /** A buffer of the pool is busy exactly while the compositor holds it or its release is
      on the way, and never both. */
  ghost predicate BusyAsHeld(w: World)
    requires w.c.pool.Some?
  {
    && |w.c.busy| == BUFFERS
    && forall i :: 0 <= i < BUFFERS ==>
         var b := Buffer(w.c.pool.value, i);
         Hold(w.s.held, b) + Releases(w.s.queue, b) == if w.c.busy[i] then 1 else 0
  }

  /** No pool yet to be made is spoken of. */
  ghost predicate NothingFromTheFuture(w: World) {
    && w.c.pool.Some? && w.c.pool.value < w.t.next
    && (forall b :: b in w.s.held ==> b.pool < w.t.next)
    && (forall b :: Releases(w.s.queue, b) > 0 ==> b.pool < w.t.next)
  }

  ghost predicate Invariant(w: World) {
    && OneSet(w) && BusyAsHeld(w) && NothingFromTheFuture(w) && !w.torn
    && (!w.c.pending ==> w.c.wantWidth == w.c.width && w.c.wantHeight == w.c.height)
  }

  function Outstanding(w: World): nat {
    w.s.owed + Frames(w.s.queue)
  }

  lemma {:induction false} ReleasesConcat(a: seq<Event>, e: Event, b: Buffer)
    ensures Releases(a + [e], b) == Releases(a, b) + if e == Release(b) then 1 else 0
    ensures Frames(a + [e]) == Frames(a) + if e == FrameDone then 1 else 0
    decreases |a|
  {
    if a == [] {
      assert a + [e] == [e] && [e][1..] == [];
    } else {
      assert (a + [e])[1..] == a[1..] + [e];
      ReleasesConcat(a[1..], e, b);
    }
  }

  lemma LaunchedKeeps(width: int, height: int)
    ensures Invariant(Launched(width, height)) && Outstanding(Launched(width, height)) == 0
  {
    forall b ensures Releases([], b) == 0 {}
  }

  lemma SentKeeps(w: World, e: Event)
    requires Invariant(w) && !e.Release?
    ensures Invariant(Sent(w, e)) && Outstanding(Sent(w, e)) == Outstanding(w) + if e.FrameDone? then 1 else 0
  {
    hide Releases, Frames;
    forall b ensures Releases(Sent(w, e).s.queue, b) == Releases(w.s.queue, b) {
      ReleasesConcat(w.s.queue, e, b);
    }
    ReleasesConcat(w.s.queue, e, Buffer(0, 0));
  }

  lemma LetGoKeeps(w: World, b: Buffer)
    requires Invariant(w) && b in w.s.held
    ensures Invariant(Next(w, LetGo(b))) && Outstanding(Next(w, LetGo(b))) == Outstanding(w)
  {
    hide Releases, Frames;
    var after := Next(w, LetGo(b));
    forall x ensures Releases(after.s.queue, x) == Releases(w.s.queue, x) + if x == b then 1 else 0 {
      ReleasesConcat(w.s.queue, Release(b), x);
    }
    ReleasesConcat(w.s.queue, Release(b), b);
  }

  /** Between a resize and the commit that replaces the old set: two sets. */
  ghost predicate TwoSets(w: World) {
    && w.c.pool.Some? && w.c.base == w.c.pool && w.c.fd == w.c.pool
    && w.c.buffers == [Some(Buffer(w.c.pool.value, 0)), Some(Buffer(w.c.pool.value, 1))]
    && w.c.oldPool.Some? && w.c.oldPool == w.c.oldBase == w.c.oldFd && w.c.oldPool != w.c.pool
    && w.c.oldBuffers == [Some(Buffer(w.c.oldPool.value, 0)), Some(Buffer(w.c.oldPool.value, 1))]
    && var g, o := w.c.pool.value, w.c.oldPool.value;
    && w.t.fds == {g, o} && w.t.maps == {g, o} && w.t.pools == {g, o}
    && w.t.buffers == {Buffer(g, 0), Buffer(g, 1), Buffer(o, 0), Buffer(o, 1)}
    && w.c.busy == [false, false]
  }

  ghost predicate MidDraw(w: World) {
    && (OneSet(w) || TwoSets(w)) && BusyAsHeld(w) && NothingFromTheFuture(w) && !w.torn
    && !w.c.pending && w.c.wantWidth == w.c.width && w.c.wantHeight == w.c.height
  }

  lemma ResizedIsMidDraw(w: World, memory: bool)
    requires Invariant(w)
    ensures MidDraw(Resized(w, memory)) && Outstanding(Resized(w, memory)) == Outstanding(w)
  {
    hide Releases, Frames;
    var r := Resized(w, memory);
    if w.c.pending && memory {
      var g, o := w.t.next, w.c.pool.value;
      assert r.t.fds == {g, o} && r.t.maps == {g, o} && r.t.pools == {g, o};
      assert r.t.buffers == {Buffer(g, 0), Buffer(g, 1), Buffer(o, 0), Buffer(o, 1)};
      assert TwoSets(r);
    }
  }

  /** Letting the old set go leaves one. */
  lemma DropLeavesOne(w: World)
    requires TwoSets(w.(c := w.c.(busy := [false, false])))
    ensures OneSet(DropOldPool(w))
  {
    var g, o := w.c.pool.value, w.c.oldPool.value;
    assert {g, o} - {o} == {g};
    var left := WithoutBuffers(w.t.buffers, w.c.oldBuffers);
    assert w.c.oldBuffers[0] == Some(Buffer(o, 0)) && w.c.oldBuffers[1] == Some(Buffer(o, 1));
    assert left == {Buffer(g, 0), Buffer(g, 1)};
  }

  lemma IdleOfTwo(busy: seq<bool>)
    requires |busy| == 2
    ensures Idle(busy) == if !busy[0] then 0 else if !busy[1] then 1 else 2
  {
    assert Idle(busy[1..]) == if !busy[1] then 0 else 1 + Idle(busy[1..][1..]);
  }

  /** The painted buffer is one the compositor does not hold; the commit hands it over,
      and asks for one frame callback - unless both buffers were busy, and then nothing
      is done at all. */
  lemma PaintKeeps(w: World)
    requires MidDraw(w)
    ensures var p := PaintAndCommit(w);
            && Invariant(p)
            && (if w.c.busy == [true, true] then p == w
                else Outstanding(p) == Outstanding(w) + 1 && p.painted == w.painted + 1)
            && p.s.queue == w.s.queue && p.c.started == w.c.started
  {
    hide Releases, Frames;
    IdleOfTwo(w.c.busy);
    var n := Idle(w.c.busy);
    if n == 2 {
      assert w.c.busy == [true, true];
    } else {
      assert !w.c.busy[n];
      var b := w.c.buffers[n].value;
      assert b == Buffer(w.c.pool.value, n);
      var mid := Committed(w, n, b);
      assert BusyAsHeld(mid) && NothingFromTheFuture(mid);
      if TwoSets(w) {
        DropLeavesOne(mid);
      }
      assert PaintAndCommit(w) == DropOldPool(mid);
    }
  }

  /** A draw keeps everything, paints one frame and makes exactly one frame callback - except
      when both buffers are busy and no resize makes new ones. */
  lemma DrawKeeps(w: World, memory: bool)
    requires Invariant(w)
    ensures Invariant(Draw(w, memory))
    ensures Outstanding(Draw(w, memory)) == Outstanding(w) + if Stuck(w, memory) then 0 else 1
    ensures Draw(w, memory).s.queue == w.s.queue && Draw(w, memory).c.started == w.c.started
    ensures Draw(w, memory).painted == w.painted + if Stuck(w, memory) then 0 else 1
  {
    hide Releases, Frames;
    ResizedIsMidDraw(w, memory);
    PaintKeeps(Resized(w, memory));
  }

  /** The one case in which a draw does nothing. */
  predicate Stuck(w: World, memory: bool) {
    w.c.busy == [true, true] && !(w.c.pending && memory)
  }

  lemma ReleaseKeeps(w: World)
    requires Invariant(w) && w.s.queue != [] && w.s.queue[0].Release?
    ensures Invariant(Next(w, Dispatch(false))) && Outstanding(Next(w, Dispatch(false))) == Outstanding(w)
  {
    var b := w.s.queue[0].buffer;
    var after := Next(w, Dispatch(false));
    forall x ensures Releases(after.s.queue, x) == Releases(w.s.queue, x) - if x == b then 1 else 0 {}
    hide Releases;
    if b in w.t.buffers {
      assert b == Buffer(w.c.pool.value, b.index) && b.index < 2;
    }
  }

  lemma ConfigureKeeps(w: World)
    requires Invariant(w) && w.s.queue != [] && w.s.queue[0].Configure?
    ensures Invariant(Next(w, Dispatch(false))) && Outstanding(Next(w, Dispatch(false))) == Outstanding(w)
  {
    var after := Next(w, Dispatch(false));
    forall x ensures Releases(after.s.queue, x) == Releases(w.s.queue, x) {}
    hide Releases;
  }

  lemma PopKeeps(w: World)
    requires Invariant(w) && w.s.queue != [] && w.s.queue[0].FrameDone?
    ensures var popped := w.(s := w.s.(queue := w.s.queue[1..]));
            Invariant(popped) && Outstanding(popped) == Outstanding(w) - 1
  {
    var popped := w.(s := w.s.(queue := w.s.queue[1..]));
    forall x ensures Releases(popped.s.queue, x) == Releases(w.s.queue, x) {}
    hide Releases;
  }

  /** A frame callback was answered while both buffers were busy, and no resize made new
      ones: the one way a step loses the callback. */
  predicate Starves(w: World, a: Action)
    requires Enabled(w, a)
  {
    a.Dispatch? && w.s.queue[0].FrameDone? && Stuck(w, a.memory)
  }

  /** Every step keeps the invariant. And the count of frame callbacks outstanding changes
      in three ways only: the first draw makes one, and a starved draw loses one. */
  lemma NextKeeps(w: World, a: Action)
    requires Invariant(w) && Enabled(w, a)
    ensures Invariant(Next(w, a))
    ensures a.Begin? && !Stuck(w, a.memory) ==> Outstanding(Next(w, a)) == Outstanding(w) + 1
    ensures !a.Begin? ==> Outstanding(Next(w, a)) == Outstanding(w) - if Starves(w, a) then 1 else 0
  {
    hide Releases, Frames, OneSet, BusyAsHeld, NothingFromTheFuture, Draw;
    match a
    case Ask(width, height) => SentKeeps(w, Configure(width, height));
    case LetGo(b) => LetGoKeeps(w, b);
    case Fire => FireKeeps(w);
    case Begin(memory) => BeginKeeps(w, memory);
    case Dispatch(memory) =>
      match w.s.queue[0] {
        case Configure(_, _) => ConfigureKeeps(w);
        case Release(_) => ReleaseKeeps(w);
        case FrameDone => PopKeeps(w); DrawKeeps(w.(s := w.s.(queue := w.s.queue[1..])), memory);
      }
  }

  lemma FireKeeps(w: World)
    requires Invariant(w) && w.s.owed > 0
    ensures Invariant(Next(w, Fire)) && Outstanding(Next(w, Fire)) == Outstanding(w)
  {
    hide Releases, Frames;
    SentKeeps(w.(s := w.s.(owed := w.s.owed - 1)), FrameDone);
  }

  lemma BeginKeeps(w: World, memory: bool)
    requires Invariant(w)
    ensures var begun := w.(c := w.c.(started := true));
            && Invariant(begun) && Invariant(Draw(begun, memory))
            && Outstanding(Draw(begun, memory)) == Outstanding(w) + if Stuck(w, memory) then 0 else 1
  {
    hide Releases, Frames, Draw;
    DrawKeeps(w.(c := w.c.(started := true)), memory);
  }

  /** In every run of size requests, releases and frame callbacks, however they are ordered
      and delayed and whether or not there is memory for a resize: no buffer the compositor
      holds is ever painted, and between any two events there is exactly one pool, one
      mapping, one descriptor and one pair of buffers, with nothing left put aside. */
  lemma {:induction false} EveryRunIsSafe(w: World, actions: seq<Action>, end: World)
    requires Invariant(w) && Runs(w, actions, end)
    ensures Invariant(end)
    decreases |actions|
  {
    hide Invariant, Next;
    if actions != [] {
      NextKeeps(w, actions[0]);
      EveryRunIsSafe(Next(w, actions[0]), actions[1..], end);
    }
  }

  lemma SafeFromTheStart(width: int, height: int, actions: seq<Action>, end: World)
    requires Runs(Launched(width, height), actions, end)
    ensures !end.torn && OneSet(end) && BusyAsHeld(end)
  {
    LaunchedKeeps(width, height);
    EveryRunIsSafe(Launched(width, height), actions, end);
  }

  // ---- The animation goes on ----

  /** The pool's buffers that are held or, in these events, on their way back. */
  function InUse(held: set<Buffer>, queue: seq<Event>, g: nat): nat {
    Hold(held, Buffer(g, 0)) + Releases(queue, Buffer(g, 0)) + Hold(held, Buffer(g, 1)) + Releases(queue, Buffer(g, 1))
  }

  /** When the first frame callback in the queue comes to be dispatched, a buffer will be
      free: what is released ahead of it will have been. */
  predicate Roomy(held: set<Buffer>, queue: seq<Event>, g: nat) {
    queue == [] || if queue[0].FrameDone? then InUse(held, queue[1..], g) <= 1 else Roomy(held, queue[1..], g)
  }

  /** The compositor fires a frame callback only while it holds at most one of the
      client's current buffers. */
  predicate Courteous(w: World, a: Action) {
    a.Fire? && w.c.pool.Some? ==> InUse(w.s.held, [], w.c.pool.value) <= 1
  }

  ghost predicate CourteousRun(w: World, actions: seq<Action>)
    decreases |actions|
  {
    actions != [] ==>
      Enabled(w, actions[0]) && Courteous(w, actions[0]) && CourteousRun(Next(w, actions[0]), actions[1..])
  }

  ghost predicate Going(w: World) {
    Invariant(w) && w.c.started && Outstanding(w) == 1 && Roomy(w.s.held, w.s.queue, w.c.pool.value)
  }

  lemma {:induction false} NoFramesIsRoomy(held: set<Buffer>, queue: seq<Event>, g: nat)
    requires Frames(queue) == 0
    ensures Roomy(held, queue, g)
    decreases |queue|
  {
    if queue != [] {
      NoFramesIsRoomy(held, queue[1..], g);
    }
  }

  /** An event put last - a release of what was held among them - leaves the queue as
      roomy as it was. */
  lemma {:induction false} RoomyConcat(held: set<Buffer>, queue: seq<Event>, e: Event, left: set<Buffer>, g: nat)
    requires Roomy(held, queue, g) && !e.FrameDone?
    requires if e.Release? then e.buffer in held && left == held - {e.buffer} else left == held
    ensures Roomy(left, queue + [e], g)
    decreases |queue|
  {
    if queue == [] {
      assert queue + [e] == [e] && [e][1..] == [];
    } else {
      assert (queue + [e])[1..] == queue[1..] + [e];
      if queue[0].FrameDone? {
        ReleasesConcat(queue[1..], e, Buffer(g, 0));
        ReleasesConcat(queue[1..], e, Buffer(g, 1));
      } else {
        RoomyConcat(held, queue[1..], e, left, g);
      }
    }
  }

  lemma {:induction false} FrameLastIsRoomy(held: set<Buffer>, queue: seq<Event>, g: nat)
    requires Frames(queue) == 0 && InUse(held, [], g) <= 1
    ensures Roomy(held, queue + [FrameDone], g)
    decreases |queue|
  {
    if queue == [] {
      assert queue + [FrameDone] == [FrameDone] && [FrameDone][1..] == [];
    } else {
      assert (queue + [FrameDone])[1..] == queue[1..] + [FrameDone];
      FrameLastIsRoomy(held, queue[1..], g);
    }
  }

  lemma RoomyIsNotStuck(w: World, memory: bool)
    requires Invariant(w) && InUse(w.s.held, w.s.queue, w.c.pool.value) <= 1
    ensures !Stuck(w, memory)
  {
    hide Releases;
  }

  lemma HasPool(w: World)
    requires Invariant(w)
    ensures w.c.pool.Some?
  {
  }

  lemma NextGoesOn(w: World, a: Action)
    requires Going(w) && Enabled(w, a) && Courteous(w, a)
    ensures Going(Next(w, a))
  {
    hide Releases, OneSet, BusyAsHeld, NothingFromTheFuture, Draw, InUse;
    NextKeeps(w, a);
    HasPool(w);
    var g := w.c.pool.value;
    match a
    case Ask(width, height) => RoomyConcat(w.s.held, w.s.queue, Configure(width, height), w.s.held, g);
    case LetGo(b) => RoomyConcat(w.s.held, w.s.queue, Release(b), w.s.held - {b}, g);
    case Fire => FrameLastIsRoomy(w.s.held, w.s.queue, g);
    case Dispatch(memory) =>
      if w.s.queue[0].FrameDone? {
        PopKeeps(w);
        var popped := w.(s := w.s.(queue := w.s.queue[1..]));
        RoomyIsNotStuck(popped, memory);
        DrawKeeps(popped, memory);
        HasPool(Draw(popped, memory));
        NoFramesIsRoomy(Draw(popped, memory).s.held, w.s.queue[1..], Draw(popped, memory).c.pool.value);
      }
    case Begin(_) => assert false;
  }

  /** With a courteous compositor there is exactly one frame callback outstanding between
      any two events of any run after the first draw, through any number of resizes. */
  lemma {:induction false} OneFrameOutstanding(w: World, actions: seq<Action>, end: World)
    requires Going(w) && Runs(w, actions, end) && CourteousRun(w, actions)
    ensures Going(end) && Outstanding(end) == 1
    decreases |actions|
  {
    hide Going, Next, Outstanding;
    if actions != [] {
      NextGoesOn(w, actions[0]);
      OneFrameOutstanding(Next(w, actions[0]), actions[1..], end);
    } else {
      assert Going(end);
      GoingIsOne(end);
    }
  }

  lemma GoingIsOne(w: World)
    requires Going(w)
    ensures Outstanding(w) == 1
  {
  }

  lemma FirstDrawGoes(w: World, memory: bool)
    requires Invariant(w) && Outstanding(w) == 0 && !w.c.started && !Stuck(w, memory)
    ensures Going(Next(w, Begin(memory)))
  {
    hide Releases, OneSet, BusyAsHeld, NothingFromTheFuture, Draw;
    BeginKeeps(w, memory);
    var begun := w.(c := w.c.(started := true));
    DrawKeeps(begun, memory);
    var after := Draw(begun, memory);
    HasPool(after);
    NoFramesIsRoomy(after.s.held, after.s.queue, after.c.pool.value);
  }

  /** Before the first draw: nothing was handed over, so nothing is owed or on its way. */
  ghost predicate Waiting(w: World) {
    && Invariant(w) && !w.c.started && Outstanding(w) == 0
    && w.s.held == {} && w.c.busy == [false, false] && w.painted == 0
  }

  lemma LaunchedWaits(width: int, height: int)
    ensures Waiting(Launched(width, height))
  {
    hide Invariant, Outstanding;
    LaunchedKeeps(width, height);
  }

  lemma OnlyFramesAreOwed(w: World)
    requires Outstanding(w) == 0
    ensures w.s.owed == 0 && (w.s.queue != [] ==> !w.s.queue[0].FrameDone?)
  {
  }

  lemma StillWaits(w: World, a: Action)
    requires Waiting(w) && Enabled(w, a) && !a.Begin?
    ensures Waiting(Next(w, a)) && !Starves(w, a)
  {
    OnlyFramesAreOwed(w);
    hide Invariant, Outstanding, Draw;
    NextKeeps(w, a);
  }

  lemma BeginGoes(w: World, memory: bool)
    requires Waiting(w)
    ensures Going(Next(w, Begin(memory))) && !Starves(w, Begin(memory))
  {
    hide Invariant, Outstanding, Draw, Going;
    FirstDrawGoes(w, memory);
  }

  /** From the launch on, of a courteous compositor: no frame callback is outstanding until
      the first draw, and exactly one at any time after it. */
  lemma {:induction false} CourteousFrom(w: World, actions: seq<Action>, end: World)
    requires Waiting(w) && Runs(w, actions, end) && CourteousRun(w, actions)
    ensures if end.c.started then Going(end) && Outstanding(end) == 1 else Waiting(end)
    decreases |actions|
  {
    hide Waiting, Going, Next, Outstanding;
    if actions == [] {
      NotStarted(end);
    } else if actions[0].Begin? {
      BeginGoes(w, actions[0].memory);
      OneFrameOutstanding(Next(w, actions[0]), actions[1..], end);
      GoingIsStarted(end);
    } else {
      StillWaits(w, actions[0]);
      CourteousFrom(Next(w, actions[0]), actions[1..], end);
    }
  }

  lemma NotStarted(w: World)
    requires Waiting(w)
    ensures !w.c.started
  {
  }

  lemma GoingIsStarted(w: World)
    requires Going(w)
    ensures w.c.started
  {
  }

  lemma CourteousFromTheStart(width: int, height: int, actions: seq<Action>, end: World)
    requires Runs(Launched(width, height), actions, end) && CourteousRun(Launched(width, height), actions)
    ensures Outstanding(end) == if end.c.started then 1 else 0
  {
    hide Launched, Outstanding, Going;
    LaunchedWaits(width, height);
    CourteousFrom(Launched(width, height), actions, end);
  }

  /** Some step of a run starves: a callback is answered with both buffers busy. */
  ghost predicate SomeStepStarves(w: World, actions: seq<Action>)
    decreases |actions|
  {
    actions != [] && Enabled(w, actions[0])
      && (Starves(w, actions[0]) || SomeStepStarves(Next(w, actions[0]), actions[1..]))
  }

  /** Of any compositor, courteous or not: the callback is still outstanding at the end of
      a run if and only if no step of it starved. */
  lemma {:induction false} OutstandingUnlessStarved(w: World, actions: seq<Action>, end: World)
    requires Invariant(w) && w.c.started && Outstanding(w) == 1 && Runs(w, actions, end)
    ensures Outstanding(end) == 1 <==> !SomeStepStarves(w, actions)
    decreases |actions|
  {
    hide Invariant, Outstanding, Starves;
    if actions != [] {
      var next := Next(w, actions[0]);
      NextKeeps(w, actions[0]);
      StaysStarted(w, actions[0]);
      if Starves(w, actions[0]) {
        NothingEverAgain(next, actions[1..], end);
      } else {
        OutstandingUnlessStarved(next, actions[1..], end);
      }
    }
  }

  lemma StaysStarted(w: World, a: Action)
    requires Invariant(w) && w.c.started && Enabled(w, a)
    ensures !a.Begin? && Next(w, a).c.started
    ensures Outstanding(w) == 0 ==> Next(w, a).painted == w.painted && Outstanding(Next(w, a)) == 0
  {
    hide Releases, OneSet, BusyAsHeld, NothingFromTheFuture, Draw;
    NextKeeps(w, a);
    if a.Dispatch? && w.s.queue[0].FrameDone? {
      PopKeeps(w);
      DrawKeeps(w.(s := w.s.(queue := w.s.queue[1..])), a.memory);
    }
  }

  /** And a starved window never paints again, whatever it is sent - not even a new size. */
  lemma {:induction false} NothingEverAgain(w: World, actions: seq<Action>, end: World)
    requires Invariant(w) && w.c.started && Outstanding(w) == 0 && Runs(w, actions, end)
    ensures Outstanding(end) == 0 && end.painted == w.painted
    decreases |actions|
  {
    hide Invariant, Outstanding, Next;
    if actions != [] {
      NextKeeps(w, actions[0]);
      StaysStarted(w, actions[0]);
      NothingEverAgain(Next(w, actions[0]), actions[1..], end);
    }
  }

  /** From the launch on, of any compositor: once drawing has begun the callback is
      outstanding if and only if no step starved. */
  lemma {:induction false} UnlessStarvedFrom(w: World, actions: seq<Action>, end: World)
    requires Waiting(w) && Runs(w, actions, end)
    ensures Outstanding(end) == 1 <==> end.c.started && !SomeStepStarves(w, actions)
    ensures !end.c.started ==> Waiting(end)
    decreases |actions|
  {
    hide Waiting, Going, Next, Outstanding, Starves, Invariant;
    if actions == [] {
      NotStarted(end);
      WaitingIsNone(end);
    } else if actions[0].Begin? {
      BeginGoes(w, actions[0].memory);
      var next := Next(w, actions[0]);
      GoingIsStarted(next);
      GoingIsOne(next);
      GoingIsSafe(next);
      StartedStays(next, actions[1..], end);
      OutstandingUnlessStarved(next, actions[1..], end);
    } else {
      StillWaits(w, actions[0]);
      UnlessStarvedFrom(Next(w, actions[0]), actions[1..], end);
    }
  }

  lemma WaitingIsNone(w: World)
    requires Waiting(w)
    ensures Outstanding(w) == 0
  {
  }

  lemma GoingIsSafe(w: World)
    requires Going(w)
    ensures Invariant(w)
  {
  }

  lemma {:induction false} StartedStays(w: World, actions: seq<Action>, end: World)
    requires Invariant(w) && w.c.started && Runs(w, actions, end)
    ensures end.c.started
    decreases |actions|
  {
    hide Invariant, Next, Outstanding;
    if actions != [] {
      NextKeeps(w, actions[0]);
      StaysStarted(w, actions[0]);
      StartedStays(Next(w, actions[0]), actions[1..], end);
    }
  }

  lemma UnlessStarvedFromTheStart(width: int, height: int, actions: seq<Action>, end: World)
    requires Runs(Launched(width, height), actions, end)
    ensures Outstanding(end) == 1 <==> end.c.started && !SomeStepStarves(Launched(width, height), actions)
  {
    hide Launched, Outstanding;
    LaunchedWaits(width, height);
    UnlessStarvedFrom(Launched(width, height), actions, end);
  }

  const STARVING := [Begin(true), Fire, Dispatch(true), Fire, Dispatch(true)]

  /** The compositor answers both callbacks before it lets either buffer go: the third draw
      finds none, and the window stands still for good. */
  lemma StarvationIsReached(width: int, height: int)
    ensures exists end :: (Runs(Launched(width, height), STARVING, end) && Outstanding(end) == 0
                           && end.c.started && end.painted == 2)
  {
    var w0 := Launched(width, height);
    var w1 := Next(w0, Begin(true));
    DrawnInto(w0.(c := w0.c.(started := true)), 0);
    var w2 := Next(w1, Fire);
    assert w2.s.queue == [FrameDone];
    var w3 := Next(w2, Dispatch(true));
    DrawnInto(w2.(s := w2.s.(queue := w2.s.queue[1..])), 1);
    var w4 := Next(w3, Fire);
    assert w4.s.queue == [FrameDone];
    var w5 := Next(w4, Dispatch(true));
    IdleOfTwo([true, true]);
    assert w5.s.owed == 0 && w5.s.queue == [];
    hide Next;
    FiveSteps(w0, w1, w2, w3, w4, w5);
  }

  /** A draw into the buffer `n`, with no resize to be done and nothing to be let go. */
  lemma DrawnInto(w: World, n: nat)
    requires n < 2 && w.c.busy == (if n == 0 then [false, false] else [true, false])
    requires !w.c.pending && w.c.oldPool == None && |w.c.buffers| == 2 && w.c.buffers[n].Some?
    ensures var d := Draw(w, true);
      && d == Committed(w, n, w.c.buffers[n].value)
      && d.c.busy == if n == 0 then [true, false] else [true, true]
  {
    IdleOfTwo(w.c.busy);
  }

  lemma FiveSteps(w0: World, w1: World, w2: World, w3: World, w4: World, w5: World)
    requires Enabled(w0, Begin(true)) && w1 == Next(w0, Begin(true))
    requires Enabled(w1, Fire) && w2 == Next(w1, Fire)
    requires Enabled(w2, Dispatch(true)) && w3 == Next(w2, Dispatch(true))
    requires Enabled(w3, Fire) && w4 == Next(w3, Fire)
    requires Enabled(w4, Dispatch(true)) && w5 == Next(w4, Dispatch(true))
    ensures Runs(w0, STARVING, w5)
  {
    hide Next, Enabled;
    var all := STARVING;
    assert all[1..][1..][1..][1..][1..] == [];
    assert Runs(w5, [], w5);
    assert all[1..][1..][1..][1..][0] == Dispatch(true);
    assert Runs(w4, all[1..][1..][1..][1..], w5);
    assert Runs(w3, all[1..][1..][1..], w5);
    assert Runs(w2, all[1..][1..], w5);
    assert Runs(w1, all[1..], w5);
  }

  // ---- The client itself ----

  lemma HasBuffers(w: World, memory: bool)
    requires |w.c.buffers| == 2 && w.c.buffers[0].Some? && w.c.buffers[1].Some?
    ensures var r := Resized(w, memory); |r.c.buffers| == 2 && r.c.buffers[0].Some? && r.c.buffers[1].Some?
  {
  }

  lemma AddedAndRemoved(s: set<nat>, x: nat)
    requires x !in s
    ensures s + {x} - {x} == s
  {
  }

  class Listener {
    var pool: Option<nat>
    var base: Option<nat>
    var fd: Option<nat>
    const buffers: array<Option<Buffer>>
    var oldPool: Option<nat>
    var oldBase: Option<nat>
    var oldFd: Option<nat>
    const oldBuffers: array<Option<Buffer>>
    const busy: array<bool>
    var cw: int
    var ch: int
    var wantW: int
    var wantH: int
    var pendingResize: bool
    var started: bool
    /** What is outside the client, and what has happened. */
    var things: Things
    var compositor: Compositor
    var painted: nat
    ghost var torn: bool

    /** Before there is a pool. */
    constructor (width: int, height: int)
      ensures Shaped() && View() == Blank(width, height)
    {
      pool, base, fd, oldPool, oldBase, oldFd := None, None, None, None, None, None;
      buffers := new Option<Buffer>[BUFFERS](_ => None);
      oldBuffers := new Option<Buffer>[BUFFERS](_ => None);
      busy := new bool[BUFFERS](_ => false);
      cw, ch, wantW, wantH := width, height, width, height;
      pendingResize, started, painted, torn := false, false, 0, false;
      things, compositor := Things({}, {}, {}, {}, 0), Compositor({}, 0, []);
    }

    ghost predicate Shaped()
      reads this
    {
      buffers.Length == oldBuffers.Length == busy.Length == BUFFERS && buffers != oldBuffers
    }

    ghost function View(): World
      reads this, buffers, oldBuffers, busy
    {
      World(Client(pool, base, fd, buffers[..], oldPool, oldBase, oldFd, oldBuffers[..], busy[..],
                   cw, ch, wantW, wantH, pendingResize, started), things, compositor, painted, torn)
    }

    method MakePool(width: int, height: int) returns (ok: bool)
      requires Shaped() && forall x :: x in things.fds ==> x < things.next
      modifies this`pool, this`base, this`fd, this`oldPool, this`oldBase, this`oldFd, this`cw, this`ch, this`things,
               buffers, oldBuffers, busy
      ensures View() == BuildPool(old(View()), width, height, ok)
    {
      var made, sized, mapped: bool := *, *, *;
      var g := things.next;
      if !made {
        return false;
      }
      ghost var before := things;
      things := things.(fds := things.fds + {g});
      if !sized || !mapped {
        things := things.(fds := things.fds - {g});
        AddedAndRemoved(before.fds, g);
        return false;
      }
      Replace(g, width, height);
      ok := true;
    }

    /** The set there is put aside, and another put in its place. */
    method Replace(g: nat, width: int, height: int)
      requires Shaped()
      modifies this`pool, this`base, this`fd, this`oldPool, this`oldBase, this`oldFd, this`cw, this`ch, this`things,
               buffers, oldBuffers, busy
      ensures oldPool == old(pool) && oldBase == old(base) && oldFd == old(fd) && oldBuffers[..] == old(buffers[..])
      ensures pool == base == fd == Some(g) && cw == width && ch == height
      ensures buffers[..] == [Some(Buffer(g, 0)), Some(Buffer(g, 1))] && busy[..] == [false, false]
      ensures var t := old(things);
              things == Things(t.fds, t.maps + {g}, t.pools + {g}, t.buffers + {Buffer(g, 0), Buffer(g, 1)}, g + 1)
    {
      things := Things(things.fds, things.maps + {g}, things.pools + {g}, things.buffers, g + 1);
      SetAside();
      pool, base, fd := Some(g), Some(g), Some(g);
      MakeBuffers(g);
      cw, ch := width, height;
    }

    method SetAside()
      requires Shaped()
      modifies this`oldPool, this`oldBase, this`oldFd, oldBuffers
      ensures oldPool == pool && oldBase == base && oldFd == fd && oldBuffers[..] == buffers[..]
    {
      oldPool, oldBase, oldFd := pool, base, fd;
      for i := 0 to BUFFERS
        invariant forall j :: 0 <= j < i ==> oldBuffers[j] == buffers[j]
        modifies oldBuffers
      {
        oldBuffers[i] := buffers[i];
      }
    }

    method MakeBuffers(g: nat)
      requires Shaped()
      modifies this`things, buffers, busy
      ensures buffers[..] == [Some(Buffer(g, 0)), Some(Buffer(g, 1))] && busy[..] == [false, false]
      ensures things == old(things).(buffers := old(things).buffers + {Buffer(g, 0), Buffer(g, 1)})
    {
      ghost var before := things;
      for i := 0 to BUFFERS
        invariant forall j :: 0 <= j < i ==> buffers[j] == Some(Buffer(g, j)) && !busy[j]
        invariant things == before.(buffers := before.buffers + set j | 0 <= j < i :: Buffer(g, j))
      {
        buffers[i] := Some(Buffer(g, i));
        things := things.(buffers := things.buffers + {Buffer(g, i)});
        busy[i] := false;
        assert (set j | 0 <= j < i + 1 :: Buffer(g, j)) == (set j | 0 <= j < i :: Buffer(g, j)) + {Buffer(g, i)};
      }
      assert (set j | 0 <= j < BUFFERS :: Buffer(g, j)) == {Buffer(g, 0), Buffer(g, 1)};
    }

    method LetOldGo()
      requires Shaped()
      modifies this`oldPool, this`oldBase, this`oldFd, this`things, oldBuffers
      ensures View() == DropOldPool(old(View()))
    {
      if oldPool.None? {
        return;
      }
      DestroyOldBuffers();
      things := things.(pools := things.pools - {oldPool.value},
                        maps := Without(things.maps, oldBase),
                        fds := Without(things.fds, oldFd));
      oldPool, oldBase, oldFd := None, None, None;
    }

    method DestroyOldBuffers()
      requires Shaped()
      modifies this`things, oldBuffers
      ensures oldBuffers[..] == [None, None]
      ensures things == old(things).(buffers := WithoutBuffers(old(things).buffers, old(oldBuffers[..])))
    {
      ghost var before, was := things, oldBuffers[..];
      for i := 0 to BUFFERS
        invariant things == before.(buffers := WithoutBuffers(before.buffers, was[..i]))
        invariant forall j :: 0 <= j < i ==> oldBuffers[j] == None
        invariant forall j :: i <= j < BUFFERS ==> oldBuffers[j] == was[j]
      {
        assert was[..i + 1] == was[..i] + [was[i]];
        if oldBuffers[i].Some? {
          things := things.(buffers := things.buffers - {oldBuffers[i].value});
          oldBuffers[i] := None;
        }
      }
      assert was[..BUFFERS] == was;
    }

    method ResizeIfAsked() returns (memory: bool)
      requires Shaped() && forall x :: x in things.fds ==> x < things.next
      modifies this`pool, this`base, this`fd, this`oldPool, this`oldBase, this`oldFd, this`cw, this`ch, this`things,
               this`wantW, this`wantH, this`pendingResize, buffers, oldBuffers, busy
      ensures View() == Resized(old(View()), memory)
    {
      memory := true;
      if pendingResize {
        memory := MakePool(wantW, wantH);
        if memory {
          pendingResize := false;
        } else {
          wantW, wantH, pendingResize := cw, ch, false;
        }
      }
    }

    method DrawFrame() returns (memory: bool)
      requires Shaped() && (forall x :: x in things.fds ==> x < things.next)
      requires buffers[0].Some? && buffers[1].Some?
      modifies this, buffers, oldBuffers, busy
      ensures View() == Draw(old(View()), memory)
    {
      hide DropOldPool, Committed, Resized;
      HasBuffers(View(), true);
      HasBuffers(View(), false);
      memory := ResizeIfAsked();
      assert View().c.buffers == buffers[..];
      var n := 0;
      while n < BUFFERS && busy[n]
        invariant n <= BUFFERS && forall j :: 0 <= j < n ==> busy[j]
      {
        n := n + 1;
      }
      IdleOfTwo(busy[..]);
      if n == BUFFERS {
        return;
      }
      Commit(n);
      LetOldGo();
    }

    method Commit(n: nat)
      requires Shaped() && n < BUFFERS && buffers[n].Some?
      modifies this`painted, this`torn, this`compositor, busy
      ensures View() == Committed(old(View()), n, old(buffers[n].value))
    {
      var buffer := buffers[n].value;
      torn := torn || buffer in compositor.held || buffer !in things.buffers;
      painted := painted + 1;
      busy[n] := true;
      compositor := compositor.(held := compositor.held + {buffer}, owed := compositor.owed + 1);
    }

    /** What a dispatched event does: the listener for it, called. */
    method Handle(e: Event) returns (memory: bool)
      requires Shaped() && (forall x :: x in things.fds ==> x < things.next)
      requires buffers[0].Some? && buffers[1].Some?
      modifies this, buffers, oldBuffers, busy
      ensures View() == Handled(old(View()), e, memory)
    {
      memory := true;
      match e {
        case Configure(width, height) =>
          if width <= 0 || height <= 0 {
            return;
          }
          if width == wantW && height == wantH {
            return;
          }
          wantW, wantH := width, height;
          pendingResize := true;
        case Release(b) =>
          if b in things.buffers && b.index < BUFFERS {
            busy[b.index] := false;
          }
        case FrameDone =>
          memory := DrawFrame();
      }
    }
  }

  // ---- Where the buffers lie ----

  const INT_MAX := 0x7FFF_FFFF

  /** A number as a `size_t` keeps it, and as an `int32_t` made from one. */
  function SizeT(n: nat): nat { n % U64 }

  function Int32(n: nat): int {
    var low := n % U32;
    if low <= INT_MAX then low else low - U32
  }

  function Stride(width: nat): nat { SizeT(width * 4) }

  function PoolBytes(width: nat, height: nat): nat { SizeT(SizeT(Stride(width) * height) * BUFFERS) }

  function Offset(width: nat, height: nat, i: nat): nat { SizeT(SizeT(i * Stride(width)) * height) }

  /** Two buffers of `height` rows, `row` bytes long and laid `stride` apart, at `first`
      and `second` of a pool of `total` bytes: inside it, and apart. */
  predicate Apart(row: int, stride: int, height: int, first: int, second: int, total: int) {
    && stride >= row
    && 0 <= first && first + stride * height <= total
    && 0 <= second && second + stride * height <= total
    && (first + stride * height <= second || second + stride * height <= first)
  }

  lemma RowsFit(width: nat, height: nat, limit: nat)
    requires 0 < width && 0 < height && 8 * (width * height) < limit
    ensures width * 4 < limit && width * 4 * height < limit && width * 4 * height * 2 < limit
    ensures width * 4 * height == 4 * (width * height)
  {
    assert width * 4 * height == 4 * (width * height);
    assert width <= width * height;
  }

  /** What the client tells the compositor of its buffers is true of the memory it shares -
      both within the pool, and apart - for exactly the sizes whose pixels come to less than
      two gigabytes. The protocol's numbers are thirty-two bits. */
  lemma DeclaredApart(width: nat, height: nat)
    requires 0 < width <= INT_MAX && 0 < height <= INT_MAX
    ensures Apart(width * 4, Int32(Stride(width)), height, Int32(Offset(width, height, 0)),
                  Int32(Offset(width, height, 1)),
                  Int32(PoolBytes(width, height)))
            <==> 8 * (width * height) <= INT_MAX
  {
    hide Int32, Stride, Offset, PoolBytes;
    var stride, total := Stride(width), PoolBytes(width, height);
    var first, second := Offset(width, height, 0), Offset(width, height, 1);
    if 8 * (width * height) <= INT_MAX {
      SmallSizes(width, height);
      Int32Small(stride);
      Int32Small(first);
      Int32Small(second);
      Int32Small(total);
    }
    if Apart(width * 4, Int32(stride), height, Int32(first), Int32(second), Int32(total)) {
      TwiceFits(width * 4, Int32(stride), height, Int32(first), Int32(second), Int32(total));
      Int32Small(total);
      FourTimes(width, height);
    }
  }

  lemma Small(n: nat)
    requires n < U64
    ensures SizeT(n) == n
  {
  }

  lemma SmallSizes(width: nat, height: nat)
    requires 0 < width && 0 < height && 8 * (width * height) < U64
    ensures Stride(width) == width * 4 && Offset(width, height, 0) == 0
    ensures Offset(width, height, 1) == 4 * (width * height) == width * 4 * height
    ensures PoolBytes(width, height) == 8 * (width * height) && width <= width * height
  {
    RowsFit(width, height, U64);
    var row, all := width * 4, width * 4 * height;
    Small(row);
    Small(all);
    Small(all * 2);
    Small(0);
    hide SizeT;
  }

  lemma Int32Small(n: nat)
    ensures Int32(n) <= INT_MAX && (n <= INT_MAX ==> Int32(n) == n)
  {
  }

  lemma FourTimes(width: nat, height: nat)
    ensures width * 4 * height * 2 == 8 * (width * height)
  {
    assert width * 4 * height == 4 * (width * height);
  }

  /** Where it paints itself, in its own mapping, the numbers are sixty-four bits. */
  lemma MappedApart(width: nat, height: nat)
    requires 0 < width <= INT_MAX && 0 < height <= INT_MAX
    ensures Apart(width * 4, Stride(width), height, Offset(width, height, 0), Offset(width, height, 1),
                  PoolBytes(width, height))
            <==> 8 * (width * height) < U64
  {
    hide Offset, PoolBytes;
    assert Stride(width) == width * 4;
    PoolInSizeT(width, height);
    if 8 * (width * height) < U64 {
      SmallSizes(width, height);
    }
    if Apart(width * 4, Stride(width), height, Offset(width, height, 0), Offset(width, height, 1),
             PoolBytes(width, height)) {
      TwiceFits(width * 4, Stride(width), height, Offset(width, height, 0), Offset(width, height, 1),
                PoolBytes(width, height));
      FourTimes(width, height);
    }
  }

  lemma PoolInSizeT(width: nat, height: nat)
    ensures PoolBytes(width, height) < U64
  {
    hide Stride;
  }

  lemma TwiceFits(row: int, stride: int, height: int, first: int, second: int, total: int)
    requires 0 < height && Apart(row, stride, height, first, second, total)
    ensures row * height * 2 <= total
  {
    assert row * height <= stride * height;
  }

  // ---- The sizes a run comes to ----

  predicate Size(width: int, height: int) {
    0 < width <= INT_MAX && 0 < height <= INT_MAX
  }

  /** A size whose pixels, twice over, come to less than two gigabytes. */
  predicate Fair(width: int, height: int) {
    Size(width, height) && 8 * (width * height) <= INT_MAX
  }

  /** What a client asked for that size, or left to choose its own, does with it: nothing,
      unless both numbers are above nought. */
  predicate Sized(width: int, height: int, fair: bool) {
    width <= 0 || height <= 0 || (if fair then Fair(width, height) else Size(width, height))
  }

  /** Every size the client has, wants or is to be told of. */
  ghost predicate Sizes(w: World, fair: bool) {
    && Size(w.c.width, w.c.height) && Size(w.c.wantWidth, w.c.wantHeight)
    && (fair ==> Fair(w.c.width, w.c.height) && Fair(w.c.wantWidth, w.c.wantHeight))
    && forall i :: 0 <= i < |w.s.queue| && w.s.queue[i].Configure? ==>
       Sized(w.s.queue[i].width, w.s.queue[i].height, fair)
  }

  /** Every size asked for in a run is one an `int32_t` holds, and fair if that is asked. */
  ghost predicate AsksFor(actions: seq<Action>, fair: bool) {
    forall i :: 0 <= i < |actions| && actions[i].Ask? ==> Sized(actions[i].width, actions[i].height, fair)
  }

  lemma DrawSizes(w: World, memory: bool, fair: bool)
    requires Sizes(w, fair)
    ensures Sizes(Draw(w, memory), fair)
  {
    hide Idle, Fair, Size, Sized;
  }

  lemma SizesStay(w: World, a: Action, fair: bool)
    requires Sizes(w, fair) && Enabled(w, a) && (a.Ask? ==> Sized(a.width, a.height, fair))
    ensures Sizes(Next(w, a), fair)
  {
    hide Draw;
    match a
    case Ask(_, _) =>
    case LetGo(_) =>
    case Fire =>
    case Begin(memory) => DrawSizes(w.(c := w.c.(started := true)), memory, fair);
    case Dispatch(memory) =>
      var popped := w.(s := w.s.(queue := w.s.queue[1..]));
      assert w.s.queue[0].Configure? ==> Sized(w.s.queue[0].width, w.s.queue[0].height, fair);
      assert Sizes(popped, fair);
      if w.s.queue[0].FrameDone? {
        DrawSizes(popped, memory, fair);
      }
  }

  lemma {:induction false} EveryRunHasSizes(w: World, actions: seq<Action>, end: World, fair: bool)
    requires Sizes(w, fair) && Runs(w, actions, end) && AsksFor(actions, fair)
    ensures Sizes(end, fair)
    decreases |actions|
  {
    hide Sizes, Next;
    if actions != [] {
      SizesStay(w, actions[0], fair);
      EveryRunHasSizes(Next(w, actions[0]), actions[1..], end, fair);
    }
  }

  /** The buffers of a client's pool, as it declared them. */
  predicate Declared(w: World)
    requires Size(w.c.width, w.c.height)
  {
    var width, height := w.c.width, w.c.height;
    Apart(width * 4, Int32(Stride(width)), height, Int32(Offset(width, height, 0)), Int32(Offset(width, height, 1)),
          Int32(PoolBytes(width, height)))
  }

  /** At the end of any run the live pool's buffers lie within it and apart, as declared to
      the compositor, exactly when its size is fair. */
  lemma DeclaredInEveryRun(width: int, height: int, actions: seq<Action>, end: World)
    requires Size(width, height) && AsksFor(actions, false) && Runs(Launched(width, height), actions, end)
    ensures Size(end.c.width, end.c.height) && (Declared(end) <==> Fair(end.c.width, end.c.height))
  {
    hide Stride, Offset, PoolBytes, Int32;
    EveryRunHasSizes(Launched(width, height), actions, end, false);
    DeclaredApart(end.c.width, end.c.height);
  }

  /** And that it always is, where the first size is fair and every size asked for. */
  lemma FairInEveryRun(width: int, height: int, actions: seq<Action>, end: World)
    requires Fair(width, height) && AsksFor(actions, true) && Runs(Launched(width, height), actions, end)
    ensures Size(end.c.width, end.c.height) && Declared(end)
  {
    hide Stride, Offset, PoolBytes, Int32;
    EveryRunHasSizes(Launched(width, height), actions, end, true);
    DeclaredApart(end.c.width, end.c.height);
  }
}
