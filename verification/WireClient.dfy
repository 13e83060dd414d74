/** The fuzzer's Wayland client as it runs: fixed arrays changed in place, a socket that
    takes and gives what it likes, and messages laid down byte by byte. */
module WireClient {
  import opened Bytes
  import opened Wire

  const MSG := 8192
  const MAX_TRIES := 2000

  datatype Received = NotYet | End | Got(bytes: Bytes)
  datatype Accepted = Again | Failed | Took(count: nat)

  /** A piece of a message the socket took, and whether a descriptor went with it. */
  datatype Piece = Piece(bytes: Bytes, descriptor: bool)

  /** A live object of a kind, or of any. */
  predicate Suits(o: Object, kind: nat) {
    !o.dead && (kind == K_NONE || o.kind == kind)
  }

  class Socket {
    /** What the compositor has to say, in order; how it is cut is the socket's affair. */
    var incoming: Bytes
    var sent: seq<Piece>

    method Recv(room: nat) returns (r: Received)
      requires room > 0
      modifies this`incoming
      ensures !r.Got? ==> incoming == old(incoming)
      ensures r.Got? ==> 0 < |r.bytes| <= room && old(incoming) == r.bytes + incoming
    {
      var ready: bool := *;
      if incoming == [] || !ready {
        var ended: bool := *;
        return if ended then End else NotYet;
      }
      var n: nat :| 0 < n <= room && n <= |incoming|;
      r := Got(incoming[..n]);
      incoming := incoming[n..];
    }

    method Send(bytes: Bytes, descriptor: bool) returns (r: Accepted)
      requires bytes != []
      modifies this`sent
      ensures !r.Took? ==> sent == old(sent)
      ensures r.Took? ==> 0 < r.count <= |bytes| && sent == old(sent) + [Piece(bytes[..r.count], descriptor)]
    {
      var n: int := *;
      if n == 0 {
        return Again;
      }
      if n < 0 || n > |bytes| {
        return Failed;
      }
      sent := sent + [Piece(bytes[..n], descriptor)];
      r := Took(n);
    }
  }

  // ---- Sending ----

  function BytesOf(pieces: seq<Piece>): Bytes {
    if pieces == [] then [] else BytesOf(pieces[..|pieces| - 1]) + pieces[|pieces| - 1].bytes
  }

  /** Only the first piece carries the descriptor, if there is one to carry. */
  ghost predicate OnePass(pieces: seq<Piece>, descriptor: bool) {
    forall i :: 0 <= i < |pieces| ==> pieces[i].descriptor == (descriptor && i == 0)
  }

  lemma OneMorePiece(pieces: seq<Piece>, piece: Piece)
    ensures BytesOf(pieces + [piece]) == BytesOf(pieces) + piece.bytes
  {
    assert (pieces + [piece])[..|pieces|] == pieces;
  }

  /** What a socket has taken since is the message so far, and the descriptor went with
      the first piece of it. */
  ghost predicate Carried(before: seq<Piece>, now: seq<Piece>, buf: Bytes, done: nat, descriptor: bool) {
    && before <= now && done <= |buf|
    && var pieces := now[|before|..];
    && OnePass(pieces, descriptor) && BytesOf(pieces) == buf[..done] && (done == 0 <==> pieces == [])
  }

  lemma NothingYet(before: seq<Piece>, buf: Bytes, descriptor: bool)
    ensures Carried(before, before, buf, 0, descriptor)
  {
  }

  lemma CarriedOn(before: seq<Piece>, now: seq<Piece>, buf: Bytes, done: nat, count: nat, descriptor: bool)
    requires Carried(before, now, buf, done, descriptor) && 0 < count <= |buf| - done
    ensures Carried(before, now + [Piece(buf[done..][..count], descriptor && done == 0)], buf, done + count, descriptor)
  {
    hide BytesOf, OnePass;
    var pieces, piece := now[|before|..], Piece(buf[done..][..count], descriptor && done == 0);
    OneMorePiece(pieces, piece);
    StillOnePass(pieces, piece, descriptor);
    assert (now + [piece])[|before|..] == pieces + [piece];
    Longer(buf, done, count);
  }

  lemma StillOnePass(pieces: seq<Piece>, piece: Piece, descriptor: bool)
    requires OnePass(pieces, descriptor) && piece.descriptor == (descriptor && pieces == [])
    ensures OnePass(pieces + [piece], descriptor)
  {
  }

  lemma Longer(buf: Bytes, done: nat, count: nat)
    requires done + count <= |buf|
    ensures buf[..done] + buf[done..][..count] == buf[..done + count]
  {
  }

  // ---- Laying messages down ----

  lemma Four(v: u32)
    ensures |Bytes32(v)| == 4
  {
  }

  function Bytes32(v: u32): Bytes {
    [v % 0x100, v / 0x100 % 0x100, v / 0x1_0000 % 0x100, v / 0x100_0000]
  }

  function Zeros(n: nat): Bytes {
    seq(n, _ => 0)
  }

  function WithWord(s: Bytes, v: u32): Bytes {
    if |s| + 4 <= MSG then s + Bytes32(v) else s
  }

  function WithBytes(s: Bytes, p: Bytes): Bytes
    requires |s| <= MSG
  {
    if |s| + |p| <= MSG then s + p else s + p[..MSG - |s|]
  }

  function WithPadding(s: Bytes): Bytes {
    s + Zeros(Pad4(|s|) - |s|)
  }

  function MessageBytes(sender: u32, opcode: u16, args: Bytes): Bytes
    requires 8 + |args| < 0x1_0000
  {
    Bytes32(sender) + Bytes32((8 + |args|) * 0x1_0000 + opcode) + args
  }

  /** The arguments of a bind: the global's name, its interface as a string, the version,
      and the new id. */
  function BindArgs(name: u32, iface: Bytes, version: u32, id: u32): Bytes
    requires |iface| < MSG
  {
    Bytes32(name) + Bytes32(|iface| + 1) + (iface + [0]) + Zeros(Pad4(|iface| + 1) - (|iface| + 1))
    + Bytes32(version) + Bytes32(id)
  }

  /** The interface's name leaves room for the rest of a bind in the message buffer. */
  predicate Fits(iface: Bytes) {
    8 + 8 + Pad4(|iface| + 1) + 8 <= MSG
  }

  class Message {
    const buf: array<byte>
    var len: nat

    constructor ()
      ensures Valid() && fresh(buf)
    {
      buf, len := new byte[MSG], 8;
    }

    ghost predicate Valid()
      reads this
    {
      buf.Length == MSG && 8 <= len <= MSG
    }

    function Text(): Bytes
      reads this, buf
      requires Valid()
    {
      buf[..len]
    }

    /** Begin a message; its header is filled in last. */
    method Start()
      requires Valid()
      modifies this`len
      ensures Valid() && len == 8
    {
      len := 8;
    }

    method Put32(v: u32)
      requires Valid()
      modifies this`len, buf
      ensures Valid() && Text() == WithWord(old(Text()), v)
    {
      if len + 4 <= MSG {
        var b := Bytes32(v);
        buf[len], buf[len + 1], buf[len + 2], buf[len + 3] := b[0], b[1], b[2], b[3];
        len := len + 4;
      }
    }

    method PutBytes(p: Bytes)
      requires Valid()
      modifies this`len, buf
      ensures Valid() && Text() == WithBytes(old(Text()), p)
    {
      ghost var was := Text();
      var i := 0;
      while i < |p| && len < MSG
        invariant i <= |p| && Valid() && Text() == was + p[..i]
      {
        buf[len] := p[i];
        len, i := len + 1, i + 1;
      }
    }

    method Pad()
      requires Valid()
      modifies this`len, buf
      ensures Valid() && Text() == WithPadding(old(Text()))
    {
      ghost var was := Text();
      while len % 4 != 0 && len < MSG
        invariant Valid() && len >= |was| && Pad4(len) == Pad4(|was|) && Text() == was + Zeros(len - |was|)
        decreases MSG - len
      {
        buf[len] := 0;
        len := len + 1;
      }
    }

    method Header(sender: u32, word: u32)
      requires Valid()
      modifies buf
      ensures Text() == Bytes32(sender) + Bytes32(word) + old(Text())[8..]
    {
      hide Bytes32;
      var a, b := Bytes32(sender), Bytes32(word);
      Four(sender);
      Four(word);
      ghost var was := Text();
      buf[0], buf[1], buf[2], buf[3] := a[0], a[1], a[2], a[3];
      buf[4], buf[5], buf[6], buf[7] := b[0], b[1], b[2], b[3];
      var text := Text();
      assert text[..4] == a && text[4..8] == b;
      assert text[8..] == was[8..];
      assert text == text[..4] + text[4..8] + text[8..];
    }

    /** The whole of a bind, laid down a field at a time. */
    method LayBind(name: u32, iface: Bytes, version: u32, id: u32)
      requires Valid()
      modifies this`len, buf
      ensures Valid()
      ensures Fits(iface) ==> Text() == MessageBytes(2, 0, BindArgs(name, iface, version, id))
    {
      hide Pad4, Bytes32, WithWord, WithBytes, WithPadding;
      Start();
      ghost var head := Text();
      Put32(name);
      Put32((|iface| + 1) % U32);
      PutBytes(iface + [0]);
      Pad();
      Put32(version);
      Put32(id);
      ghost var laid := Text();
      if Fits(iface) {
        PadShift(|iface| + 1);
        LaidDown(head, name, iface, version, id);
        assert laid[8..] == BindArgs(name, iface, version, id);
      }
      Header(2, len * 0x1_0000);
    }
  }

  lemma PadShift(n: nat)
    ensures Pad4(16 + n) == 16 + Pad4(n) && Pad4(n) >= n
  {
  }

  /** What the steps of laying a bind down come to, when it fits. */
  lemma LaidDown(head: Bytes, name: u32, iface: Bytes, version: u32, id: u32)
    requires |head| == 8 && Fits(iface)
    ensures WithWord(WithWord(WithPadding(WithBytes(WithWord(WithWord(head, name), |iface| + 1), iface + [0])),
                              version), id)
            == head + BindArgs(name, iface, version, id)
  {
    hide Pad4;
    PadShift(|iface| + 1);
    var a, b := WithWord(head, name), |iface| + 1;
    assert a == head + Bytes32(name);
    var c := WithWord(a, b);
    assert c == a + Bytes32(b) && |c| == 16;
    var d := WithBytes(c, iface + [0]);
    assert d == c + (iface + [0]);
    var zeros := Zeros(Pad4(b) - b);
    var e := WithPadding(d);
    assert e == d + zeros;
    var f := WithWord(e, version);
    assert f == e + Bytes32(version);
    var g := WithWord(f, id);
    assert g == f + Bytes32(id);
    Regrouped(head, Bytes32(name), Bytes32(b), iface + [0], zeros, Bytes32(version), Bytes32(id));
  }

  lemma Regrouped(a: Bytes, b: Bytes, c: Bytes, d: Bytes, e: Bytes, f: Bytes, g: Bytes)
    ensures (((((a + b) + c) + d) + e) + f) + g == a + (((((b + c) + d) + e) + f) + g)
  {
  }

  /** What the client knows before it has been told anything. */
  function Fresh(): App {
    App([], seq(K_COUNT, _ => 0), seq(K_COUNT, _ => 0), 0, false, 0, 0, [])
  }

  lemma FirstTwo(ifaces: seq<Bytes>)
    requires |ifaces| == K_COUNT
    ensures var objects := [Object(1, K_DISPLAY, false), Object(2, K_REGISTRY, false)];
            && Remember(Remember([], 1, K_DISPLAY), 2, K_REGISTRY) == objects
            && Wellformed(Fresh().(objects := objects), ifaces)
  {
    assert Remember([], 1, K_DISPLAY) == [Object(1, K_DISPLAY, false)];
    SlotIs([Object(1, K_DISPLAY, false)], 2, 1);
  }

  class Client {
    const ifaces: seq<Bytes>
    const objects: array<Object>
    var nobjects: nat
    const names: array<u32>
    const versions: array<u32>
    var serial: u32
    var toldError: bool
    var errorObject: u32
    var errorCode: u32
    var errorText: Bytes
    const inbuf: array<byte>
    var inlen: nat
    /** The peer has gone. */
    var closed: bool
    /** Nothing more can be sent. */
    var stopped: bool
    var nextId: u32

    /** The client before anything has been said: no object, no global, nothing held. */
    constructor (ifaces: seq<Bytes>)
      requires |ifaces| == K_COUNT
      ensures Valid() && this.ifaces == ifaces && View() == Fresh() && Left() == []
      ensures !closed && !stopped && nextId == 2
      ensures fresh(objects) && fresh(names) && fresh(versions) && fresh(inbuf)
    {
      this.ifaces := ifaces;
      objects, nobjects := new Object[MAX_OBJECTS](_ => Object(0, K_NONE, false)), 0;
      names, versions := new u32[K_COUNT](_ => 0), new u32[K_COUNT](_ => 0);
      serial, toldError, errorObject, errorCode, errorText := 0, false, 0, 0, [];
      inbuf, inlen := new byte[INBUF], 0;
      closed, stopped, nextId := false, false, 2;
    }

    ghost predicate Shaped()
      reads this
    {
      && objects.Length == MAX_OBJECTS && nobjects <= MAX_OBJECTS
      && names.Length == versions.Length == K_COUNT && names != versions
      && inbuf.Length == INBUF && inlen <= INBUF
    }

    ghost function View(): App
      reads this, objects, names, versions
      requires Shaped()
    {
      App(objects[..nobjects], names[..], versions[..], serial, toldError, errorObject, errorCode, errorText)
    }

    ghost predicate Valid()
      reads this, objects, names, versions
    {
      Shaped() && Wellformed(View(), ifaces)
    }

    ghost function Left(): Bytes
      reads this, inbuf
      requires Shaped()
    {
      inbuf[..inlen]
    }

    method NoteObject(id: u32, kind: nat)
      requires Shaped()
      modifies this`nobjects, objects
      ensures Shaped() && View() == old(View()).(objects := Remember(old(View()).objects, id, kind))
    {
      var i := 0;
      while i < nobjects
        invariant i <= nobjects
        invariant forall j :: 0 <= j < i ==> objects[j].id != id
      {
        if objects[i].id == id {
          SlotIs(objects[..nobjects], id, i);
          objects[i] := Object(id, kind, false);
          return;
        }
        i := i + 1;
      }
      SlotIs(objects[..nobjects], id, nobjects);
      if nobjects < MAX_OBJECTS {
        objects[nobjects] := Object(id, kind, false);
        nobjects := nobjects + 1;
      }
    }

    method ForgetObject(id: u32)
      requires Shaped()
      modifies objects
      ensures View() == old(View()).(objects := Forget(old(View()).objects, id))
    {
      for i := 0 to nobjects
        invariant forall j :: 0 <= j < i ==> objects[j] == Forget(old(objects[..nobjects]), id)[j]
        invariant forall j :: i <= j < objects.Length ==> objects[j] == old(objects[j])
      {
        if objects[i].id == id {
          objects[i] := objects[i].(dead := true);
        }
      }
    }

    method FindKind(id: u32) returns (kind: nat)
      requires Shaped()
      ensures kind == KindOf(objects[..nobjects], id)
    {
      ghost var all := objects[..nobjects];
      for i := 0 to nobjects
        invariant KindOf(all[i..], id) == KindOf(all, id)
      {
        if objects[i].id == id && !objects[i].dead {
          return objects[i].kind;
        }
        assert all[i..][1..] == all[i + 1..];
      }
      kind := K_NONE;
    }

    /** Some object that suits, by its id, which nought never is. */
    method Pick(kind: nat) returns (id: u32)
      requires Shaped()
      ensures (exists o :: o in objects[..nobjects] && !o.dead && (kind == 0 || o.kind == kind)) ==>
              exists o :: o in objects[..nobjects] && !o.dead && (kind == 0 || o.kind == kind) && o.id == id
      ensures !(exists o :: o in objects[..nobjects] && !o.dead && (kind == 0 || o.kind == kind)) ==> id == 0
    {
      var found := new u32[MAX_OBJECTS];
      var n := 0;
      ghost var all, from: seq<Object> := objects[..nobjects], [];
      for i := 0 to nobjects
        invariant n <= i && objects[..nobjects] == all && |from| == n
        invariant forall j :: 0 <= j < n ==> from[j] in all && Suits(from[j], kind) && from[j].id == found[j]
        invariant n == 0 ==> forall k :: 0 <= k < i ==> !Suits(objects[k], kind)
      {
        if Suits(objects[i], kind) {
          assert objects[i] == all[i] && all[i] in all;
          from := from + [objects[i]];
          found[n] := objects[i].id;
          n := n + 1;
        }
      }
      if n == 0 {
        return 0;
      }
      var chosen: nat :| chosen < n;
      id := found[chosen];
      assert from[chosen] in all && Suits(from[chosen], kind);
    }

    method LearnGlobal(args: Bytes)
      requires Shaped() && |ifaces| == K_COUNT && Announces(args) && Whole(args)
      modifies names, versions
      ensures View() == Announce(old(View()), ifaces, args, 0)
    {
      var name, slen := Get32(args, 0), Get32(args, 4);
      var version := Get32(args, 8 + Pad4(slen));
      for k := 0 to K_COUNT
        invariant forall j :: 0 <= j < k ==> names[j] == if Offers(ifaces, j, args) then name else old(names[j])
        invariant forall j :: 0 <= j < k ==>
                  versions[j] == if Offers(ifaces, j, args) then Version(args, 0) else old(versions[j])
        invariant forall j :: k <= j < K_COUNT ==> names[j] == old(names[j]) && versions[j] == old(versions[j])
      {
        if ifaces[k] != [] && SameString(args[8..], ifaces[k], slen) {
          names[k] := name;
          versions[k] := if version != 0 then version else 1;
        }
      }
    }

    method HandleEvent(sender: u32, opcode: u16, args: Bytes)
      requires Valid() && (IsGlobal(View(), sender, opcode, args) ==> Whole(args))
      modifies this`nobjects, this`serial, this`toldError, this`errorObject, this`errorCode, this`errorText, objects,
               names, versions
      ensures Shaped() && View() == Handle(old(View()), ifaces, sender, opcode, args, 0)
    {
      hide SameString, Get32, Remember, Forget, KindOf;
      var kind := FindKind(sender);
      if sender == 1 && opcode == 0 && |args| >= 12 {
        toldError, errorObject, errorCode := true, Get32(args, 0), Get32(args, 4);
        var slen := Get32(args, 8);
        if slen > 0 && slen <= |args| - 12 {
          var copy := if slen < ERROR_TEXT then slen else ERROR_TEXT - 1;
          errorText := args[12..12 + copy];
        }
      } else if sender == 1 && opcode == 1 && |args| >= 4 {
        ForgetObject(Get32(args, 0));
      } else if kind == K_REGISTRY && opcode == 0 && |args| >= 8 {
        var slen := Get32(args, 4);
        if slen > 0 && slen <= |args| - 8 {
          LearnGlobal(args);
        }
      } else if kind == K_XDG_SURFACE && opcode == 0 && |args| >= 4 {
        serial := Get32(args, 0);
      } else if kind == K_DEVICE && opcode == 0 && |args| >= 4 {
        NoteObject(Get32(args, 0), K_OFFER);
      }
    }

    /** The client is in step with a socket: what it holds, apart from a buffer that is full,
        is the beginning of a message, and the globals it is to be told of are whole. */
    ghost predicate Following(socket: Socket)
      reads this, objects, names, versions, inbuf, socket
    {
      && Valid()
      && Flow(View(), ifaces, Room(Left())) == Flowed(View(), Room(Left()), false, false)
      && Tame(View(), ifaces, Room(Left()) + socket.incoming)
    }

    /** The display is there from the first, and the registry is the first thing asked for.
        From here on the client is in step with a socket that has tame things to say. */
    method Introduce(socket: Socket)
      requires Valid() && View() == Fresh() && Left() == [] && nextId == 2
      modifies this`nobjects, this`nextId, objects
      ensures Valid() && Left() == [] && nextId == 3
      ensures View() == Fresh().(objects := [Object(1, K_DISPLAY, false), Object(2, K_REGISTRY, false)])
      ensures Tame(View(), ifaces, socket.incoming) ==> Following(socket)
    {
      FirstTwo(ifaces);
      hide Tame, Flow, Remember, Wellformed;
      NoteObject(1, K_DISPLAY);
      var registry := nextId;
      nextId := nextId + 1;
      NoteObject(registry, K_REGISTRY);
      NoWholeHeader(View(), Left());
      assert Left() + socket.incoming == socket.incoming;
    }

    /** Act on one message, if it is whole: how long it was, and nothing when it is not. */
    method TakeMessage(at: nat) returns (size: u16)
      requires Valid() && !closed && at + 8 <= inlen && Tame(View(), ifaces, inbuf[at..inlen])
      modifies this`nobjects, this`serial, this`toldError, this`errorObject, this`errorCode, this`errorText,
               this`closed, objects, names, versions
      ensures Valid() && inbuf[..] == old(inbuf[..])
      ensures var d := Drain(old(View()), ifaces, old(inbuf[at..inlen]));
        if closed then View() == d.app && d.lost
        else if size == 0 then View() == d.app && !d.lost && inbuf[at..inlen] == d.rest
        else
          && 8 <= size && at + size <= inlen && Tame(View(), ifaces, inbuf[at + size..inlen])
          && Drain(View(), ifaces, inbuf[at + size..inlen]) == d
    {
      hide Get32, Handle, IsGlobal, Whole, Wellformed, Drain, Tame;
      ghost var all := inbuf[..];
      assert all[at..inlen] == inbuf[at..inlen];
      OneMessage(View(), all, at, inlen);
      var sender := Get32(inbuf[..], at);
      var word := Get32(inbuf[..], at + 4);
      var opcode: u16 := word % 0x1_0000;
      size := word / 0x1_0000;
      if size < 8 {
        closed := true;
        return;
      }
      if inlen - at < size {
        return 0;
      }
      var args := inbuf[at + 8..at + size];
      assert args == all[at + 8..at + size];
      HandleKeeps(View(), ifaces, sender, opcode, args, 0);
      HandleEvent(sender, opcode, args);
      assert inbuf[at + size..inlen] == all[at + size..inlen];
    }

    /** Act on the whole messages in the buffer and move what is left to its front. */
    method DrainBuffer()
      requires Valid() && Tame(View(), ifaces, Left()) && !closed
      modifies this`nobjects, this`serial, this`toldError, this`errorObject, this`errorCode, this`errorText,
               this`inlen, this`closed,
               objects, names, versions, inbuf
      ensures Valid()
      ensures var d := Drain(old(View()), ifaces, old(Left()));
              View() == d.app && closed == d.lost && (!closed ==> Left() == d.rest)
    {
      hide Wellformed, Drain, Tame;
      ghost var d := Drain(View(), ifaces, Left());
      var at := 0;
      assert inbuf[0..inlen] == Left();
      while inlen - at >= 8
        invariant 0 <= at <= inlen && !closed && Valid()
        invariant Tame(View(), ifaces, inbuf[at..inlen]) && Drain(View(), ifaces, inbuf[at..inlen]) == d
      {
        var size := TakeMessage(at);
        if closed {
          return;
        }
        if size == 0 {
          break;
        }
        at := at + size;
      }
      NoWholeHeader(View(), inbuf[at..inlen]);
      MoveDown(at);
    }

    method MoveDown(at: nat)
      requires Shaped() && at <= inlen
      modifies this`inlen, inbuf
      ensures Shaped() && Left() == old(Left())[at..]
    {
      forall i | 0 <= i < inlen - at {
        inbuf[i] := inbuf[at + i];
      }
      inlen := inlen - at;
    }

    /** A reception: bytes put after what is held, and what is whole acted on. */
    method Absorb(bytes: Bytes)
      requires Valid() && !closed && inlen + |bytes| <= INBUF && Tame(View(), ifaces, Left() + bytes)
      modifies this`nobjects, this`serial, this`toldError, this`errorObject, this`errorCode, this`errorText,
               this`inlen, this`closed,
               objects, names, versions, inbuf
      ensures Valid()
      ensures var d := Drain(old(View()), ifaces, old(Left()) + bytes);
              View() == d.app && closed == d.lost && (!closed ==> Left() == d.rest)
    {
      hide Drain, Tame, Wellformed;
      ghost var before, held := View(), Left();
      forall i | 0 <= i < |bytes| {
        inbuf[inlen + i] := bytes[i];
      }
      inlen := inlen + |bytes|;
      assert Left() == held + bytes;
      assert View() == before;
      DrainBuffer();
    }

    /** Take whatever the compositor has sent and act on it. What comes of it depends on
        the bytes taken and not on how they were cut. */
    method ReadEvents(socket: Socket) returns (taken: Bytes)
      requires Valid() && (closed || Following(socket))
      modifies this`nobjects, this`serial, this`toldError, this`errorObject, this`errorCode, this`errorText,
               this`inlen, this`closed,
               objects, names, versions, inbuf, socket`incoming
      ensures Valid() && (closed || Following(socket))
      ensures old(socket.incoming) == taken + socket.incoming
      ensures old(closed) ==> closed && taken == [] && View() == old(View())
      ensures !old(closed) ==>
                var f := Flow(old(View()), ifaces, old(Room(Left())) + taken);
                View() == f.app && (f.lost ==> closed) && (!f.lost ==> Room(Left()) == f.rest)
      ensures !closed ==> inlen < INBUF
    {
      hide Drain, Flow, Tame, Wellformed;
      taken := [];
      ghost var app, left := View(), Room(Left());
      assert left + [] == left;
      while !closed
        invariant Valid() && (closed || Following(socket))
        invariant old(socket.incoming) == taken + socket.incoming
        invariant old(closed) ==> closed && taken == [] && View() == old(View())
        invariant !old(closed) ==>
                    var f := Flow(app, ifaces, left + taken);
                    View() == f.app && (f.lost ==> closed) && (!f.lost ==> Room(Left()) == f.rest)
        decreases !closed, |socket.incoming|
      {
        if inlen == INBUF {
          inlen := 0;
        }
        var got := socket.Recv(INBUF - inlen);
        if got.NotYet? {
          break;
        }
        if got.End? {
          closed := true;
          break;
        }
        InStep(app, left, taken, View(), Left(), got.bytes, socket.incoming);
        taken := taken + got.bytes;
        Absorb(got.bytes);
      }
    }

    /** One reception's part in the whole. */
    lemma InStep(app: App, left: Bytes, taken: Bytes, now: App, held: Bytes, bytes: Bytes, coming: Bytes)
      requires !Flow(app, ifaces, left + taken).lost
      requires Flow(app, ifaces, left + taken).app == now && Flow(app, ifaces, left + taken).rest == held
      requires Tame(now, ifaces, held + (bytes + coming)) && |held + bytes| <= INBUF
      ensures Tame(now, ifaces, held + bytes)
      ensures var d, e := Drain(now, ifaces, held + bytes), Flow(app, ifaces, left + (taken + bytes));
              && d.app == e.app && d.lost == e.lost && (!d.lost ==> Room(d.rest) == e.rest)
              && (!d.lost ==> Tame(d.app, ifaces, Room(d.rest) + coming)
                              && Flow(d.app, ifaces, Room(d.rest)) == Flowed(d.app, Room(d.rest), false, false))
    {
      hide Drain, Flow, Tame;
      assert held + (bytes + coming) == (held + bytes) + coming;
      TameConcat(now, ifaces, held + bytes, coming);
      FlowConcat(app, ifaces, left + taken, bytes);
      FlowIsDrain(now, ifaces, held + bytes);
      assert left + taken + bytes == left + (taken + bytes);
      if !Flow(now, ifaces, held + bytes).lost {
        FlowLeavesRoom(now, ifaces, held + bytes);
      }
    }

    /** Send a message, a descriptor alongside its first bytes if there is one. It ends after
        at most two thousand and one answers to try again; when it is true, what the
        socket took is the message, in order and once, and the descriptor went with the
        first piece and no other. */
    method SendBytes(socket: Socket, buf: Bytes, descriptor: bool) returns (ok: bool, tries: nat)
      requires Valid() && (closed || Following(socket))
      modifies this`nobjects, this`serial, this`toldError, this`errorObject, this`errorCode, this`errorText,
               this`inlen, this`closed,
               this`stopped, objects, names, versions, inbuf, socket
      ensures Valid() && (closed || Following(socket))
      ensures tries <= MAX_TRIES + 1
      ensures old(socket.sent) <= socket.sent
      ensures var pieces := socket.sent[|old(socket.sent)|..]; OnePass(pieces, descriptor) && BytesOf(pieces) <= buf
      ensures ok ==> BytesOf(socket.sent[|old(socket.sent)|..]) == buf
      ensures ok <==> !closed && !stopped
    {
      hide Flow, Room, Tame, Wellformed, BytesOf, OnePass;
      var done: nat := 0;
      tries := 0;
      ghost var before := socket.sent;
      NothingYet(before, buf, descriptor);
      while done < |buf| && !closed && !stopped
        invariant Valid() && (closed || Following(socket)) && done <= |buf| && tries <= MAX_TRIES
        invariant Carried(before, socket.sent, buf, done, descriptor)
        decreases MAX_TRIES - tries, |buf| - done
      {
        ghost var sent := socket.sent;
        var n := socket.Send(buf[done..], descriptor && done == 0);
        if n.Again? {
          var _ := ReadEvents(socket);
          tries := tries + 1;
          if tries > MAX_TRIES {
            stopped := true;
            return false, tries;
          }
          continue;
        }
        if n.Failed? {
          stopped := true;
          return false, tries;
        }
        CarriedOn(before, sent, buf, done, n.count, descriptor);
        done := done + n.count;
      }
      ok := !closed && !stopped;
    }

    /** Bind a global the registry offered, at a version. */
    method BindGlobal(socket: Socket, msg: Message, kind: nat, version: u32) returns (ok: bool)
      requires Valid() && (closed || Following(socket)) && msg.Valid() && msg.buf != inbuf
      requires kind < K_COUNT == |ifaces| && ifaces[kind] != []
      modifies this, objects, names, versions, inbuf, socket, msg, msg.buf
      ensures Shaped() && msg.Valid()
      ensures old(socket.sent) <= socket.sent
      ensures ok && Fits(ifaces[kind]) ==>
                BytesOf(socket.sent[|old(socket.sent)|..]) ==
                  MessageBytes(2, 0, BindArgs(old(names[kind]), ifaces[kind], version, old(nextId)))
      ensures nextId == (old(nextId) + 1) % U32
      ensures ok ==> Lookup(View().objects, old(nextId)) == Live(kind) || nobjects == MAX_OBJECTS
    {
      hide Flow, Room, Tame, Wellformed, Get32;
      var name, id := ifaces[kind], nextId;
      nextId := (nextId + 1) % U32;
      msg.LayBind(names[kind], name, version, id);
      var sent, _ := SendBytes(socket, msg.Text(), false);
      if !sent {
        return false;
      }
      DistinctStays();
      RememberLooksUp(View().objects, id, kind, id);
      NoteObject(id, kind);
      ok := true;
    }

    lemma DistinctStays()
      requires Valid()
      ensures Distinct(View().objects) && |View().objects| <= MAX_OBJECTS
    {
    }

    /** One of the globals offered, whichever chance picks. */
    method PickGlobal() returns (any: bool, kind: nat)
      requires Valid()
      ensures any <==> exists k :: 0 <= k < K_COUNT && names[k] != 0
      ensures any ==> kind < K_COUNT == |ifaces| && names[kind] != 0 && versions[kind] >= 1 && ifaces[kind] != []
    {
      hide Distinct;
      var have := new nat[K_COUNT];
      var n := 0;
      for k := 0 to K_COUNT
        invariant n <= k
        invariant forall j :: 0 <= j < n ==> have[j] < k && names[have[j]] != 0
        invariant n == 0 ==> forall j :: 0 <= j < k ==> names[j] == 0
        modifies have
      {
        if names[k] != 0 {
          have[n] := k;
          n := n + 1;
        }
      }
      if n == 0 {
        return false, 0;
      }
      var chosen: nat :| chosen < n;
      any, kind := true, have[chosen];
      assert View().names[kind] != 0;
    }

    /** A bind of one of the globals offered, whichever chance picks, at a version from one
        to the one offered; nothing, when none is. */
    method LegalBind(socket: Socket, msg: Message) returns (ok: bool, kind: nat, version: u32)
      requires Valid() && (closed || Following(socket)) && msg.Valid() && msg.buf != inbuf
      modifies this, objects, names, versions, inbuf, socket, msg, msg.buf
      ensures Shaped() && msg.Valid() && old(socket.sent) <= socket.sent
      ensures (forall k :: 0 <= k < K_COUNT ==> old(names[k]) == 0) ==> ok && socket.sent == old(socket.sent)
      ensures (exists k :: 0 <= k < K_COUNT && old(names[k]) != 0) ==>
                kind < K_COUNT == |ifaces| && old(names[kind]) != 0 && 1 <= version <= old(versions[kind])
                && (ok && Fits(ifaces[kind]) ==>
                      BytesOf(socket.sent[|old(socket.sent)|..]) ==
                        MessageBytes(2, 0, BindArgs(old(names[kind]), ifaces[kind], version, old(nextId))))
    {
      hide Flow, Room, Tame, Wellformed;
      var any;
      any, kind := PickGlobal();
      if !any {
        return true, 0, 0;
      }
      version := versions[kind];
      var below: nat :| below < version;
      version := 1 + below;
      ok := BindGlobal(socket, msg, kind, version);
    }

    lemma NoWholeHeader(app: App, s: Bytes)
      ensures |s| < 8 ==> Drain(app, ifaces, s) == Drained(app, s, false)
      ensures |s| < 8 ==> Flow(app, ifaces, s) == Flowed(app, s, false, false)
    {
    }

    /** The next message of the buffer, if it is whole, and what is after it. */
    lemma OneMessage(app: App, buffer: Bytes, at: nat, end: nat)
      requires at + 8 <= end <= |buffer| <= INBUF && Tame(app, ifaces, buffer[at..end])
      ensures var s, word := buffer[at..end], Get32(buffer, at + 4);
        var opcode, size := word % 0x1_0000, word / 0x1_0000;
        if size < 8 then Drain(app, ifaces, s) == Drained(app, s, true)
        else if end - at < size then Drain(app, ifaces, s) == Drained(app, s, false)
        else
          var args := buffer[at + 8..at + size];
          (IsGlobal(app, Get32(buffer, at), opcode, args) ==> Whole(args)) &&
          var next := Handle(app, ifaces, Get32(buffer, at), opcode, args, 0);
          && Drain(app, ifaces, s) == Drain(next, ifaces, buffer[at + size..end])
          && Tame(next, ifaces, buffer[at + size..end])
    {
      hide Get32, Handle, IsGlobal, Whole;
      HeaderAt(buffer, at, end);
      var size := Get32(buffer, at + 4) / 0x1_0000;
      if 8 <= size <= end - at {
        MessageAt(buffer, at, end, size);
      }
    }

    lemma HeaderAt(buffer: Bytes, at: nat, end: nat)
      requires at + 8 <= end <= |buffer|
      ensures Get32(buffer, at) == Get32(buffer[at..end], 0) && Get32(buffer, at + 4) == Get32(buffer[at..end], 4)
    {
    }

    lemma MessageAt(buffer: Bytes, at: nat, end: nat, size: nat)
      requires at + 8 <= at + size <= end <= |buffer|
      ensures buffer[at..end][8..size] == buffer[at + 8..at + size]
      ensures buffer[at..end][size..] == buffer[at + size..end]
    {
      var s := buffer[at..end];
      assert forall i :: 0 <= i < |s| ==> s[i] == buffer[at + i];
      assert s[8..size] == buffer[at + 8..at + size];
    }
  }

  // ---- What is laid down is what is read ----

  /** An interface's name fits exactly when a bind with it is no longer than the buffer. */
  lemma FitsExactly(name: u32, iface: Bytes, version: u32, id: u32)
    requires |iface| < MSG
    ensures Fits(iface) <==> 8 + |BindArgs(name, iface, version, id)| <= 8192
  {
    hide Bytes32;
    Lengths(name, |iface| + 1, version, id);
  }

  lemma Octets(v: nat)
    ensures v == v % 0x100 + 0x100 * (v / 0x100 % 0x100) + 0x1_0000 * (v / 0x1_0000 % 0x100)
            + 0x100_0000 * (v / 0x100_0000)
  {
    assert v / 0x1_0000 == v / 0x100 / 0x100;
    assert v / 0x100_0000 == v / 0x1_0000 / 0x100;
  }

  lemma Get32Back(v: u32, rest: Bytes)
    ensures Get32(Bytes32(v) + rest, 0) == v
  {
    hide Bytes32;
    var word, s := Bytes32(v), Bytes32(v) + rest;
    Four(v);
    assert s[0] == word[0] && s[1] == word[1] && s[2] == word[2] && s[3] == word[3];
    Get32Alone(v);
  }

  lemma Get32Alone(v: u32)
    ensures Get32(Bytes32(v), 0) == v
  {
    Octets(v);
  }

  lemma Get32Within(a: Bytes, b: Bytes, at: nat)
    requires at + 4 <= |b|
    ensures Get32(a + b, |a| + at) == Get32(b, at)
  {
  }

  lemma {:induction false} SameStringBack(iface: Bytes, rest: Bytes)
    requires 0 !in iface
    ensures SameString(iface + [0] + rest, iface, |iface| + 1)
    decreases |iface|
  {
    if iface != [] {
      assert (iface + [0] + rest)[1..] == iface[1..] + [0] + rest;
      SameStringBack(iface[1..], rest);
    }
  }

  lemma {:induction false} SameStringOnly(iface: Bytes, rest: Bytes, other: Bytes)
    requires 0 !in iface && 0 !in other
    requires SameString(iface + [0] + rest, other, |iface| + 1)
    ensures iface == other
    decreases |iface|
  {
    if iface != [] {
      assert (iface + [0] + rest)[1..] == iface[1..] + [0] + rest;
      SameStringOnly(iface[1..], rest, other[1..]);
      assert iface == [iface[0]] + iface[1..] && other == [other[0]] + other[1..];
    }
  }

  /** The arithmetic the reader of `global` events does, done on what `BindGlobal` lays
      down, gives back the name, the version and the interface - that one, and no other
      a client might know - for an interface's name of any length. */
  lemma BindReadsBack(name: u32, iface: Bytes, version: u32, id: u32, ifaces: seq<Bytes>, k: nat, beyond: u32)
    requires Fits(iface) && iface != [] && 0 !in iface && version >= 1
    requires k < |ifaces| && 0 !in ifaces[k]
    ensures var args := BindArgs(name, iface, version, id);
            && Announces(args) && Whole(args)
            && Get32(args, 0) == name && Version(args, beyond) == version
            && (Offers(ifaces, k, args) <==> ifaces[k] == iface)
  {
    hide Bytes32, SameString, Get32;
    var n := |iface| + 1;
    var text := iface + [0];
    var zeros, tail := Zeros(Pad4(n) - n), Bytes32(version) + Bytes32(id);
    var args := BindArgs(name, iface, version, id);
    Lengths(name, n, version, id);
    assert args == Bytes32(name) + (Bytes32(n) + (text + (zeros + tail)));
    Get32Back(name, Bytes32(n) + (text + (zeros + tail)));
    Get32Within(Bytes32(name), Bytes32(n) + (text + (zeros + tail)), 0);
    Get32Back(n, text + (zeros + tail));
    assert args[8..] == iface + [0] + (zeros + tail);
    var front := Bytes32(name) + Bytes32(n) + text + zeros;
    assert args == front + tail && |front| == 8 + Pad4(n);
    Get32Within(front, tail, 0);
    Get32Back(version, Bytes32(id));
    SameStringBack(iface, zeros + tail);
    if SameString(args[8..], ifaces[k], n) {
      SameStringOnly(iface, zeros + tail, ifaces[k]);
    }
  }

  /** A registry's announcement of an interface the client knows, ended at the end of the
      name: the client asks for no more than that, and what stands in memory after it is
      what it takes the version to be. */
  lemma ShortGlobalIsReadOn(app: App, ifaces: seq<Bytes>, k: nat, name: u32)
    requires |app.names| == |app.versions| == K_COUNT == |ifaces| && KindOf(app.objects, 2) == K_REGISTRY
    requires k < K_COUNT && ifaces[k] != [] && 0 !in ifaces[k] && |ifaces[k]| + 1 < U32
    ensures var args := Bytes32(name) + Bytes32(|ifaces[k]| + 1) + ifaces[k] + [0];
            && IsGlobal(app, 2, 0, args) && !Whole(args)
            && forall beyond: u32 :: beyond > 0 ==> Handle(app, ifaces, 2, 0, args, beyond).versions[k] == beyond
  {
    hide Bytes32, SameString, Get32, KindOf;
    var n, text := |ifaces[k]| + 1, ifaces[k] + [0];
    var args := Bytes32(name) + Bytes32(n) + ifaces[k] + [0];
    Lengths(name, n, 0, 0);
    assert args == Bytes32(name) + (Bytes32(n) + text);
    Get32Within(Bytes32(name), Bytes32(n) + text, 0);
    Get32Back(n, text);
    assert args[8..] == ifaces[k] + [0] + [];
    SameStringBack(ifaces[k], []);
    assert Offers(ifaces, k, args);
  }

  lemma Lengths(a: u32, b: u32, c: u32, d: u32)
    ensures |Bytes32(a)| == |Bytes32(b)| == |Bytes32(c)| == |Bytes32(d)| == 4
  {
  }

  /** And its header says how long it is, to whom it goes, and that it is request zero. */
  lemma HeaderReadsBack(sender: u32, opcode: u16, args: Bytes)
    requires 8 + |args| < 0x1_0000
    ensures var s := MessageBytes(sender, opcode, args);
            |s| == SizeOf(s) && OpcodeOf(s) == opcode && Get32(s, 0) == sender && s[8..] == args
  {
    hide Bytes32, Get32;
    var word := (8 + |args|) * 0x1_0000 + opcode;
    Lengths(sender, word, 0, 0);
    var s := MessageBytes(sender, opcode, args);
    assert s == Bytes32(sender) + (Bytes32(word) + args);
    Get32Back(sender, Bytes32(word) + args);
    Get32Within(Bytes32(sender), Bytes32(word) + args, 0);
    Get32Back(word, args);
  }
}
