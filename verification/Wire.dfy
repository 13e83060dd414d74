/** The reading half of the fuzzer's Wayland client: the object table, the few events it
    acts on, and the buffer it puts messages back together in. The format is that of the
    "Wire Format" section of chapter 4 of the Wayland documentation. */
module Wire {
  import opened Bytes

  type u16 = x: int | 0 <= x < 0x1_0000 witness 0

  // The kinds of object that matter here, numbered as the client numbers them.
  const K_NONE := 0
  const K_DISPLAY := 1
  const K_REGISTRY := 2
  const K_XDG_SURFACE := 11
  const K_DEVICE := 21
  const K_OFFER := 22
  const K_COUNT := 26

  const MAX_OBJECTS := 512
  const INBUF := 16384
  const ERROR_TEXT := 128

  // ---- The object table ----

  datatype Object = Object(id: u32, kind: nat, dead: bool)

  /** The place of the first entry for `id`, or the length. */
  function Slot(objects: seq<Object>, id: u32): (at: nat)
    ensures at <= |objects|
    ensures at < |objects| ==> objects[at].id == id
    ensures forall i :: 0 <= i < at ==> objects[i].id != id
  {
    if objects == [] || objects[0].id == id then 0 else 1 + Slot(objects[1..], id)
  }

  function Remember(objects: seq<Object>, id: u32, kind: nat): seq<Object> {
    var at := Slot(objects, id);
    if at < |objects| then objects[at := Object(id, kind, false)]
    else if |objects| < MAX_OBJECTS then objects + [Object(id, kind, false)]
    else objects
  }

  function Forget(objects: seq<Object>, id: u32): (r: seq<Object>)
    ensures |r| == |objects|
  {
    seq(|objects|, i requires 0 <= i < |objects| =>
      if objects[i].id == id then objects[i].(dead := true) else objects[i])
  }

  function KindOf(objects: seq<Object>, id: u32): nat {
    if objects == [] then K_NONE
    else if objects[0].id == id && !objects[0].dead then objects[0].kind
    else KindOf(objects[1..], id)
  }

  ghost predicate Distinct(objects: seq<Object>) {
    forall i, j :: 0 <= i < j < |objects| ==> objects[i].id != objects[j].id
  }

  datatype Op = Noted(id: u32, kind: nat) | Deleted(id: u32)

  function Apply(objects: seq<Object>, op: Op): seq<Object> {
    match op
    case Noted(id, kind) => Remember(objects, id, kind)
    case Deleted(id) => Forget(objects, id)
  }

  /** The table after a run of remembering and forgetting. */
  function TableAfter(ops: seq<Op>): seq<Object> {
    if ops == [] then [] else Apply(TableAfter(ops[..|ops| - 1]), ops[|ops| - 1])
  }

  /** What was last said of an id: never anything, that it is of a kind, or that it is
      gone. */
  datatype Word = Nothing | Live(kind: nat) | Gone(kind: nat)

  function LastWord(ops: seq<Op>, id: u32): Word {
    if ops == [] then Nothing else
      var before := LastWord(ops[..|ops| - 1], id);
      match ops[|ops| - 1]
      case Noted(i, kind) => if i == id then Live(kind) else before
      case Deleted(i) => if i == id && before.Live? then Gone(before.kind) else before
  }

  function Lookup(objects: seq<Object>, id: u32): Word {
    var at := Slot(objects, id);
    if at == |objects| then Nothing else if objects[at].dead then Gone(objects[at].kind) else Live(objects[at].kind)
  }

  lemma SlotIs(objects: seq<Object>, id: u32, at: nat)
    requires at <= |objects| && (at < |objects| ==> objects[at].id == id)
    requires forall i :: 0 <= i < at ==> objects[i].id != id
    ensures Slot(objects, id) == at
  {
  }

  lemma RememberLooksUp(objects: seq<Object>, id: u32, kind: nat, other: u32)
    requires Distinct(objects) && |objects| <= MAX_OBJECTS
    ensures Distinct(Remember(objects, id, kind)) && |Remember(objects, id, kind)| <= MAX_OBJECTS
    ensures other != id ==> Lookup(Remember(objects, id, kind), other) == Lookup(objects, other)
    ensures Lookup(Remember(objects, id, kind), id) ==
            if Lookup(objects, id).Nothing? && |objects| == MAX_OBJECTS then Nothing else Live(kind)
  {
    var after := Remember(objects, id, kind);
    var at, otherAt := Slot(objects, id), Slot(objects, other);
    if at < |objects| || |objects| < MAX_OBJECTS {
      SlotIs(after, id, at);
    }
    if other != id {
      SlotIs(after, other, if otherAt == |objects| then |after| else otherAt);
    }
  }

  lemma ForgetLooksUp(objects: seq<Object>, id: u32, other: u32)
    requires Distinct(objects)
    ensures Distinct(Forget(objects, id))
    ensures other != id ==> Lookup(Forget(objects, id), other) == Lookup(objects, other)
    ensures Lookup(Forget(objects, id), id) ==
            if Lookup(objects, id).Live? then Gone(Lookup(objects, id).kind) else Lookup(objects, id)
  {
    var after := Forget(objects, id);
    SlotIs(after, id, Slot(objects, id));
    SlotIs(after, other, Slot(objects, other));
  }

  /** Over any run the table has one entry an id, and what it holds for an id is the last
      word on it - as long as it holds the id at all, which a full table may not. */
  lemma {:induction false} TableHoldsLastWord(ops: seq<Op>, id: u32)
    ensures var table := TableAfter(ops);
            && Distinct(table) && |table| <= MAX_OBJECTS
            && (Lookup(table, id).Nothing? || Lookup(table, id) == LastWord(ops, id))
            && (|table| < MAX_OBJECTS ==> Lookup(table, id) == LastWord(ops, id))
    decreases |ops|
  {
    if ops != [] {
      hide Remember, Forget, Lookup, Distinct;
      var before := ops[..|ops| - 1];
      TableHoldsLastWord(before, id);
      match ops[|ops| - 1]
      case Noted(i, kind) =>
        RememberLooksUp(TableAfter(before), i, kind, id);
        RememberNeverShrinks(TableAfter(before), i, kind);
      case Deleted(i) => ForgetLooksUp(TableAfter(before), i, id);
    } else {
      NothingInNone(id);
    }
  }

  lemma RememberNeverShrinks(objects: seq<Object>, id: u32, kind: nat)
    ensures |Remember(objects, id, kind)| >= |objects|
  {
  }

  lemma NothingInNone(id: u32)
    ensures Distinct([]) && Lookup([], id) == Nothing
  {
  }

  /** The kind the client takes an object to be is what the table's one entry says. */
  lemma {:induction false} KindIsLookup(objects: seq<Object>, id: u32)
    requires Distinct(objects)
    ensures KindOf(objects, id) == match Lookup(objects, id) { case Live(kind) => kind case _ => K_NONE }
    decreases |objects|
  {
    if objects != [] {
      KindIsLookup(objects[1..], id);
      if objects[0].id == id {
        assert forall j :: 0 <= j < |objects| - 1 ==> objects[1..][j].id != id;
        assert Slot(objects[1..], id) == |objects| - 1;
      }
    }
  }

  // ---- Events ----

  /** Everything an event can change. */
  datatype App = App(objects: seq<Object>, names: seq<u32>, versions: seq<u32>, serial: u32,
                     toldError: bool, errorObject: u32, errorCode: u32, errorText: Bytes)

  /** The table has one entry an id; a global known is one of a known interface, with a
      version. */
  ghost predicate Wellformed(app: App, ifaces: seq<Bytes>) {
    |app.names| == |app.versions| == |ifaces| == K_COUNT && |app.objects| <= MAX_OBJECTS && Distinct(app.objects)
    && forall k :: 0 <= k < K_COUNT && app.names[k] != 0 ==> app.versions[k] >= 1 && ifaces[k] != []
  }

  function Get32(s: Bytes, at: nat): u32
    requires at + 4 <= |s|
  {
    s[at] as int + 0x100 * (s[at + 1] as int) + 0x1_0000 * (s[at + 2] as int) + 0x100_0000 * (s[at + 3] as int)
  }

  /** A length made up to a multiple of four. */
  function Pad4(n: nat): nat {
    (n + 3) / 4 * 4
  }

  /** `strncmp` finding no difference between some bytes and a C string. */
  predicate SameString(a: Bytes, b: Bytes, n: nat)
    requires n <= |a|
    decreases n
  {
    n == 0 ||
    var c := if b == [] then 0 else b[0];
    a[0] == c && (c == 0 || SameString(a[1..], if b == [] then [] else b[1..], n - 1))
  }

  /** A `global` event that has the string it says it has: what is acted on. */
  predicate Announces(args: Bytes) {
    |args| >= 8 && 0 < Get32(args, 4) <= |args| - 8
  }

  /** ... and after it the four bytes of the version, which the client reads on the word
      of the string's length alone. */
  predicate Whole(args: Bytes)
    requires |args| >= 8
  {
    8 + Pad4(Get32(args, 4)) + 4 <= |args|
  }

  function Version(args: Bytes, beyond: u32): u32
    requires |args| >= 8
  {
    var v := if Whole(args) then Get32(args, 8 + Pad4(Get32(args, 4))) else beyond;
    if v == 0 then 1 else v
  }

  predicate Offers(ifaces: seq<Bytes>, kind: nat, args: Bytes)
    requires Announces(args)
  {
    kind < |ifaces| && ifaces[kind] != [] && SameString(args[8..], ifaces[kind], Get32(args, 4))
  }

  function Announce(app: App, ifaces: seq<Bytes>, args: Bytes, beyond: u32): App
    requires Announces(args)
  {
    app.(names := seq(|app.names|, k requires 0 <= k < |app.names| =>
           if Offers(ifaces, k, args) then Get32(args, 0) else app.names[k]),
         versions := seq(|app.versions|, k requires 0 <= k < |app.versions| =>
           if Offers(ifaces, k, args) then Version(args, beyond) else app.versions[k]))
  }

  function Complain(app: App, args: Bytes): App
    requires |args| >= 12
  {
    var told := app.(toldError := true, errorObject := Get32(args, 0), errorCode := Get32(args, 4));
    var len := Get32(args, 8);
    if 0 < len <= |args| - 12 then
      told.(errorText := args[12..12 + if len < ERROR_TEXT then len else ERROR_TEXT - 1])
    else told
  }

  /** One event. `beyond` is what stands in memory after it, where a global that is not
      whole is read on into. */
  function Handle(app: App, ifaces: seq<Bytes>, sender: u32, opcode: u16, args: Bytes, beyond: u32): App {
    var kind := KindOf(app.objects, sender);
    if sender == 1 && opcode == 0 && |args| >= 12 then Complain(app, args)
    else if sender == 1 && opcode == 1 && |args| >= 4 then app.(objects := Forget(app.objects, Get32(args, 0)))
    else if kind == K_REGISTRY && opcode == 0 && |args| >= 8 then
      if Announces(args) then Announce(app, ifaces, args, beyond) else app
    else if kind == K_XDG_SURFACE && opcode == 0 && |args| >= 4 then app.(serial := Get32(args, 0))
    else if kind == K_DEVICE && opcode == 0 && |args| >= 4 then
      app.(objects := Remember(app.objects, Get32(args, 0), K_OFFER))
    else app
  }

  /** The client takes the event for a `global` and acts on it. */
  predicate IsGlobal(app: App, sender: u32, opcode: u16, args: Bytes) {
    && !(sender == 1 && opcode == 0 && |args| >= 12) && !(sender == 1 && opcode == 1 && |args| >= 4)
    && KindOf(app.objects, sender) == K_REGISTRY && opcode == 0 && Announces(args)
  }

  /** What an event does depends on nothing but the event, except exactly when it is a
      `global`, of an interface the client knows, that ends before its version. */
  lemma EventsSpeakForThemselves(app: App, ifaces: seq<Bytes>, sender: u32, opcode: u16, args: Bytes)
    requires |app.names| == |app.versions| == K_COUNT
    ensures (forall b, c: u32 ::
               Handle(app, ifaces, sender, opcode, args, b) == Handle(app, ifaces, sender, opcode, args, c))
            <==> !(IsGlobal(app, sender, opcode, args) && !Whole(args)
                   && exists k :: 0 <= k < K_COUNT && Offers(ifaces, k, args))
  {
    hide SameString, Get32, KindOf;
    if IsGlobal(app, sender, opcode, args) && !Whole(args) && exists k :: 0 <= k < K_COUNT && Offers(ifaces, k, args) {
      var k :| 0 <= k < K_COUNT && Offers(ifaces, k, args);
      assert Handle(app, ifaces, sender, opcode, args, 1).versions[k] == 1;
      assert Handle(app, ifaces, sender, opcode, args, 2).versions[k] == 2;
    } else if IsGlobal(app, sender, opcode, args) && !Whole(args) {
      forall b, c: u32
        ensures Handle(app, ifaces, sender, opcode, args, b) == Handle(app, ifaces, sender, opcode, args, c)
      {
        assert Announce(app, ifaces, args, b).versions == Announce(app, ifaces, args, c).versions;
      }
    }
  }

  lemma HandleKeeps(app: App, ifaces: seq<Bytes>, sender: u32, opcode: u16, args: Bytes, beyond: u32)
    requires Wellformed(app, ifaces)
    ensures Wellformed(Handle(app, ifaces, sender, opcode, args, beyond), ifaces)
  {
    hide SameString, KindOf, Remember, Forget, Lookup;
    if |args| >= 4 {
      RememberLooksUp(app.objects, Get32(args, 0), K_OFFER, 0);
      ForgetLooksUp(app.objects, Get32(args, 0), 0);
    }
  }

  // ---- Messages out of a stream ----

  function SizeOf(s: Bytes): u16
    requires |s| >= 8
  {
    Get32(s, 4) / 0x1_0000
  }

  function OpcodeOf(s: Bytes): u16
    requires |s| >= 8
  {
    Get32(s, 4) % 0x1_0000
  }

  /** The first message of a stream, acted on. */
  function First(app: App, ifaces: seq<Bytes>, s: Bytes): App
    requires |s| >= 8 && 8 <= SizeOf(s) <= |s|
  {
    Handle(app, ifaces, Get32(s, 0), OpcodeOf(s), s[8..SizeOf(s)], 0)
  }

  datatype Drained = Drained(app: App, rest: Bytes, lost: bool)

  /** Every whole message of a stream acted on: what is left over, and whether a size made
      no sense. */
  function Drain(app: App, ifaces: seq<Bytes>, s: Bytes): Drained
    decreases |s|
  {
    if |s| < 8 then Drained(app, s, false)
    else if SizeOf(s) < 8 then Drained(app, s, true)
    else if |s| < SizeOf(s) then Drained(app, s, false)
    else Drain(First(app, ifaces, s), ifaces, s[SizeOf(s)..])
  }

  /** What comes of a stream: what it leaves of the client, what is left over, whether a size
      made no sense, and whether a full buffer was ever dropped. */
  datatype Flowed = Flowed(app: App, rest: Bytes, lost: bool, dropped: bool)

  /** A stream through a buffer: whole messages are acted on as they come, and when a message
      fills the buffer and is not whole yet, what there is of it is dropped, and the rest of
      it is taken for what comes next. */
  function Flow(app: App, ifaces: seq<Bytes>, s: Bytes): Flowed
    decreases |s|
  {
    if |s| < 8 then Flowed(app, s, false, false)
    else if SizeOf(s) < 8 then Flowed(app, s, true, false)
    else if SizeOf(s) > INBUF then
      if |s| < INBUF then Flowed(app, s, false, false) else Flow(app, ifaces, s[INBUF..]).(dropped := true)
    else if |s| < SizeOf(s) then Flowed(app, s, false, false)
    else Flow(First(app, ifaces, s), ifaces, s[SizeOf(s)..])
  }

  /** The stream's globals are whole, up to where a size makes no sense. */
  predicate Tame(app: App, ifaces: seq<Bytes>, s: Bytes)
    decreases |s|
  {
    |s| < 8 || SizeOf(s) < 8 ||
    (if SizeOf(s) > INBUF then |s| < INBUF || Tame(app, ifaces, s[INBUF..])
     else
       |s| < SizeOf(s) ||
       ((IsGlobal(app, Get32(s, 0), OpcodeOf(s), s[8..SizeOf(s)]) ==> Whole(s[8..SizeOf(s)]))
        && Tame(First(app, ifaces, s), ifaces, s[SizeOf(s)..])))
  }

  lemma HeaderOfPrefix(a: Bytes, b: Bytes)
    requires |a| >= 8
    ensures SizeOf(a + b) == SizeOf(a) && OpcodeOf(a + b) == OpcodeOf(a) && Get32(a + b, 0) == Get32(a, 0)
  {
  }

  /** What comes of some bytes and then of more is what comes of them together. */
  lemma {:induction false} FlowConcat(app: App, ifaces: seq<Bytes>, a: Bytes, b: Bytes)
    ensures var f := Flow(app, ifaces, a);
            Flow(app, ifaces, a + b) ==
            if f.lost then Flowed(f.app, f.rest + b, true, f.dropped)
            else var g := Flow(f.app, ifaces, f.rest + b); g.(dropped := f.dropped || g.dropped)
    decreases |a|
  {
    hide Handle, Get32, First;
    if |a| >= 8 {
      HeaderOfPrefix(a, b);
      var size := SizeOf(a);
      if size > INBUF {
        if |a| >= INBUF {
          assert (a + b)[INBUF..] == a[INBUF..] + b;
          FlowConcat(app, ifaces, a[INBUF..], b);
        }
      } else if 8 <= size <= |a| {
        FirstOfPrefix(app, ifaces, a, b);
        assert (a + b)[size..] == a[size..] + b;
        FlowConcat(First(app, ifaces, a), ifaces, a[size..], b);
      }
    }
  }

  lemma FirstOfPrefix(app: App, ifaces: seq<Bytes>, a: Bytes, b: Bytes)
    requires |a| >= 8 && 8 <= SizeOf(a) <= |a|
    ensures SizeOf(a + b) == SizeOf(a) && First(app, ifaces, a + b) == First(app, ifaces, a)
  {
    hide Handle, Get32;
    HeaderOfPrefix(a, b);
    assert (a + b)[8..SizeOf(a)] == a[8..SizeOf(a)];
  }

  lemma {:induction false} TameConcat(app: App, ifaces: seq<Bytes>, a: Bytes, b: Bytes)
    requires Tame(app, ifaces, a + b)
    ensures Tame(app, ifaces, a)
    ensures var f := Flow(app, ifaces, a); !f.lost ==> Tame(f.app, ifaces, f.rest + b)
    decreases |a|
  {
    hide Handle, Get32, IsGlobal, Whole, First;
    if |a| >= 8 {
      HeaderOfPrefix(a, b);
      var size := SizeOf(a);
      if size > INBUF {
        if |a| >= INBUF {
          assert (a + b)[INBUF..] == a[INBUF..] + b;
          TameConcat(app, ifaces, a[INBUF..], b);
        }
      } else if 8 <= size <= |a| {
        FirstOfPrefix(app, ifaces, a, b);
        assert (a + b)[8..size] == a[8..size];
        assert (a + b)[size..] == a[size..] + b;
        TameConcat(First(app, ifaces, a), ifaces, a[size..], b);
      }
    }
  }

  /** What is left of a stream is less than the buffer: there is always room. */
  lemma {:induction false} FlowLeavesRoom(app: App, ifaces: seq<Bytes>, s: Bytes)
    requires !Flow(app, ifaces, s).lost
    ensures var f := Flow(app, ifaces, s); |f.rest| < INBUF && Flow(f.app, ifaces, f.rest) == f.(dropped := false)
    decreases |s|
  {
    hide Handle, Get32, First;
    if |s| >= 8 && SizeOf(s) >= 8 {
      if SizeOf(s) > INBUF {
        if |s| >= INBUF {
          FlowLeavesRoom(app, ifaces, s[INBUF..]);
        }
      } else if SizeOf(s) <= |s| {
        FlowLeavesRoom(First(app, ifaces, s), ifaces, s[SizeOf(s)..]);
      }
    }
  }

  /** One pass over a buffer does what the buffer is for, but for dropping itself where it
      has come to be full. */
  lemma {:induction false} FlowIsDrain(app: App, ifaces: seq<Bytes>, s: Bytes)
    requires |s| <= INBUF
    ensures var d, f := Drain(app, ifaces, s), Flow(app, ifaces, s);
      && f.app == d.app && f.lost == d.lost
      && (!d.lost ==> f.rest == Room(d.rest) && (f.dropped <==> |d.rest| == INBUF))
      && (d.lost ==> !f.dropped)
    decreases |s|
  {
    hide Handle, Get32, First;
    if |s| >= 8 && SizeOf(s) >= 8 {
      if SizeOf(s) > INBUF {
        if |s| == INBUF {
          assert s[INBUF..] == [];
        }
      } else if SizeOf(s) <= |s| {
        FlowIsDrain(First(app, ifaces, s), ifaces, s[SizeOf(s)..]);
      }
    }
  }

  /** A buffer made ready for more: emptied, if it is full. */
  function Room(buffer: Bytes): Bytes {
    if |buffer| == INBUF then [] else buffer
  }

  // ---- When a buffer is dropped ----

  /** A message starts there, by the sizes of those before it. */
  predicate StartsAt(s: Bytes, k: nat)
    decreases |s|
  {
    k == 0 || (|s| >= 8 && 8 <= SizeOf(s) <= k <= |s| && StartsAt(s[SizeOf(s)..], k - SizeOf(s)))
  }

  /** A message there is longer than the buffer, and a buffer's worth of it has come. */
  predicate OverlongAt(s: Bytes, k: nat) {
    k + INBUF <= |s| && StartsAt(s, k) && SizeOf(s[k..]) > INBUF
  }

  /** The buffer is dropped at some point if and only if the stream comes to a message longer
      than the buffer and a buffer's worth of it has come. */
  lemma {:induction false} DropsExactly(app: App, ifaces: seq<Bytes>, s: Bytes)
    ensures Flow(app, ifaces, s).dropped <==> exists k: nat :: OverlongAt(s, k)
    decreases |s|
  {
    hide Handle, Get32, First, StartsAt;
    StartsFirst(s);
    if |s| < 8 || SizeOf(s) < 8 {
    } else if SizeOf(s) > INBUF {
      if |s| >= INBUF {
        assert s[0..] == s;
        assert OverlongAt(s, 0);
      }
    } else if |s| < SizeOf(s) {
      assert s[0..] == s;
      assert forall k: nat :: OverlongAt(s, k) ==> k == 0;
    } else {
      var size, rest := SizeOf(s), s[SizeOf(s)..];
      DropsExactly(First(app, ifaces, s), ifaces, rest);
      if k: nat :| OverlongAt(rest, k) {
        assert rest[k..] == s[size + k..];
        assert OverlongAt(s, size + k);
      }
      forall k: nat | OverlongAt(s, k) ensures k >= size && OverlongAt(rest, k - size) {
        assert s[0..] == s;
        assert k != 0 ==> rest[k - size..] == s[k..];
      }
    }
  }

  lemma StartsFirst(s: Bytes)
    ensures StartsAt(s, 0)
    ensures |s| < 8 || SizeOf(s) < 8 || |s| < SizeOf(s) ==> forall k: nat :: StartsAt(s, k) ==> k == 0
    ensures |s| >= 8 && 8 <= SizeOf(s) <= |s| ==>
      (forall k: nat :: k <= |s| - SizeOf(s) && StartsAt(s[SizeOf(s)..], k) ==> StartsAt(s, SizeOf(s) + k)) &&
      (forall k: nat :: k != 0 && StartsAt(s, k) ==> k >= SizeOf(s) && StartsAt(s[SizeOf(s)..], k - SizeOf(s)))
  {
  }

  // ---- Any cutting is as good as another ----

  /** The client between two receptions. */
  datatype Reader = Reader(app: App, buffered: Bytes, closed: bool, dropped: bool)

  /** One reception: the bytes added, what is whole acted on, and a buffer that is full
      dropped. */
  function Receive(r: Reader, ifaces: seq<Bytes>, chunk: Bytes): Reader {
    if r.closed then r else
      var d := Drain(r.app, ifaces, r.buffered + chunk);
      if d.lost then Reader(d.app, d.rest, true, r.dropped)
      else Reader(d.app, Room(d.rest), false, r.dropped || |d.rest| == INBUF)
  }

  function ReceiveAll(r: Reader, ifaces: seq<Bytes>, chunks: seq<Bytes>): Reader
    decreases |chunks|
  {
    if chunks == [] then r else ReceiveAll(Receive(r, ifaces, chunks[0]), ifaces, chunks[1..])
  }

  /** No reception is of more than there is room for. */
  predicate Fitted(r: Reader, ifaces: seq<Bytes>, chunks: seq<Bytes>)
    decreases |chunks|
  {
    r.closed || chunks == [] ||
    (|r.buffered| + |chunks[0]| <= INBUF && Fitted(Receive(r, ifaces, chunks[0]), ifaces, chunks[1..]))
  }

  /** Receptions one by one come to what the stream does. */
  lemma {:induction false} ReceiveAllIsFlow(r: Reader, ifaces: seq<Bytes>, chunks: seq<Bytes>)
    requires !r.closed && Fitted(r, ifaces, chunks)
    requires Flow(r.app, ifaces, r.buffered) == Flowed(r.app, r.buffered, false, false)
    ensures var f, e := Flow(r.app, ifaces, r.buffered + Concat(chunks)), ReceiveAll(r, ifaces, chunks);
            e.app == f.app && e.closed == f.lost && e.dropped == (r.dropped || f.dropped)
            && (!f.lost ==> e.buffered == f.rest)
    decreases |chunks|
  {
    hide Drain, Flow;
    var s := r.buffered + Concat(chunks);
    if chunks == [] {
      assert s == r.buffered;
    } else {
      var got, later := r.buffered + chunks[0], Concat(chunks[1..]);
      assert s == got + later;
      FlowConcat(r.app, ifaces, got, later);
      FlowIsDrain(r.app, ifaces, got);
      var next := Receive(r, ifaces, chunks[0]);
      if next.closed {
        ClosedStays(next, ifaces, chunks[1..]);
      } else {
        FlowLeavesRoom(r.app, ifaces, got);
        ReceiveAllIsFlow(next, ifaces, chunks[1..]);
      }
    }
  }

  lemma {:induction false} ClosedStays(r: Reader, ifaces: seq<Bytes>, chunks: seq<Bytes>)
    requires r.closed
    ensures ReceiveAll(r, ifaces, chunks) == r
    decreases |chunks|
  {
    if chunks != [] {
      ClosedStays(r, ifaces, chunks[1..]);
    }
  }

  /** However a stream is cut into receptions, the client comes to the same state: the same
      table, globals, serial and error, closed or not, the buffer dropped at some point or
      not - and when it is not closed, with the same bytes left over. Messages longer than the
      buffer are no exception. */
  lemma CutsDoNotMatter(app: App, ifaces: seq<Bytes>, chunks: seq<Bytes>, others: seq<Bytes>)
    requires Concat(chunks) == Concat(others)
    requires Fitted(Reader(app, [], false, false), ifaces, chunks)
    requires Fitted(Reader(app, [], false, false), ifaces, others)
    ensures var start := Reader(app, [], false, false);
            var a, b := ReceiveAll(start, ifaces, chunks), ReceiveAll(start, ifaces, others);
            && a.app == b.app && a.closed == b.closed && a.dropped == b.dropped
            && (!a.closed ==> a.buffered == b.buffered)
  {
    var start := Reader(app, [], false, false);
    assert [] + Concat(chunks) == Concat(chunks);
    ReceiveAllIsFlow(start, ifaces, chunks);
    ReceiveAllIsFlow(start, ifaces, others);
  }
}
