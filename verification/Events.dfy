/** Events: what each event a compositor may send does to the client, said of the event's bytes
    and of what can be looked up afterwards, and what a whole stream of them leaves. */
module Events {
  import opened Bytes
  import opened Wire
  import opened WireClient

  /** An event as it is sent: from an object, under a number, with what it carries. */
  datatype Event = Event(sender: u32, opcode: u16, args: Bytes)

  function Acted(app: App, ifaces: seq<Bytes>, e: Event, beyond: u32): App {
    Handle(app, ifaces, e.sender, e.opcode, e.args, beyond)
  }

  /** The event carries this word first. */
  ghost predicate Carries(e: Event, word: u32) {
    |e.args| >= 4 && e.args[..4] == Bytes32(word)
  }

  predicate IsError(e: Event) {
    e.sender == 1 && e.opcode == 0 && |e.args| >= 12
  }

  /** The display is done with an id. */
  ghost predicate Deletes(e: Event, id: u32) {
    e.sender == 1 && e.opcode == 1 && Carries(e, id)
  }

  /** The first event of an object of a kind, carrying a word. */
  ghost predicate FirstOf(app: App, kind: nat, e: Event, word: u32) {
    KindOf(app.objects, e.sender) == kind && e.opcode == 0 && !IsError(e) && Carries(e, word)
  }

  lemma CarriedWord(e: Event, word: u32)
    requires Carries(e, word)
    ensures Get32(e.args, 0) == word
  {
    hide Get32, Bytes32;
    assert e.args == Bytes32(word) + e.args[4..];
    Get32Back(word, e.args[4..]);
  }

  // ---- One event ----

  /** An id the display is done with is of no kind, and every other is of the kind it was;
      the globals, the serial and the error are as they were. */
  lemma DeletedIsGone(app: App, ifaces: seq<Bytes>, e: Event, beyond: u32, id: u32)
    requires Distinct(app.objects) && Deletes(e, id)
    ensures var after := Acted(app, ifaces, e, beyond);
      && after == app.(objects := after.objects) && KindOf(after.objects, id) == 0
      && forall other: u32 :: other != id ==> KindOf(after.objects, other) == KindOf(app.objects, other)
  {
    hide Get32, Bytes32, KindOf, Lookup, Forget, Distinct;
    CarriedWord(e, id);
    var after := Acted(app, ifaces, e, beyond);
    forall other: u32
      ensures KindOf(after.objects, other) == if other == id then 0 else KindOf(app.objects, other)
    {
      ForgetLooksUp(app.objects, id, other);
      KindIsLookup(app.objects, other);
      KindIsLookup(after.objects, other);
    }
  }

  /** What a data device offers is an offer from then on, unless it is new and the table is
      full, and every other id is of the kind it was. */
  lemma OfferedIsOffer(app: App, ifaces: seq<Bytes>, e: Event, beyond: u32, id: u32)
    requires Distinct(app.objects) && |app.objects| <= 512 && FirstOf(app, 21, e, id)
    ensures var after := Acted(app, ifaces, e, beyond);
      && after == app.(objects := after.objects)
      && (|app.objects| < 512 || KindOf(app.objects, id) != 0 ==> KindOf(after.objects, id) == 22)
      && (|app.objects| == 512 && (forall i :: 0 <= i < 512 ==> app.objects[i].id != id) ==> after == app)
      && forall other: u32 :: other != id ==> KindOf(after.objects, other) == KindOf(app.objects, other)
  {
    hide Get32, Bytes32, KindOf, Remember, Distinct;
    CarriedWord(e, id);
    var after := Acted(app, ifaces, e, beyond);
    forall other: u32
      ensures KindOf(after.objects, other) == (
        match Lookup(Remember(app.objects, id, K_OFFER), other) { case Live(kind) => kind case _ => K_NONE })
      ensures other != id ==> KindOf(after.objects, other) == KindOf(app.objects, other)
    {
      RememberLooksUp(app.objects, id, K_OFFER, other);
      KindIsLookup(app.objects, other);
      KindIsLookup(after.objects, other);
    }
    KindIsLookup(app.objects, id);
    RememberLooksUp(app.objects, id, K_OFFER, id);
    if |app.objects| == 512 && forall i :: 0 <= i < 512 ==> app.objects[i].id != id {
      NoRoom(app.objects, id, K_OFFER);
    }
  }

  lemma NoRoom(objects: seq<Object>, id: u32, kind: nat)
    requires |objects| == 512 && forall i :: 0 <= i < 512 ==> objects[i].id != id
    ensures Remember(objects, id, kind) == objects
  {
    SlotIs(objects, id, 512);
  }

  /** A surface's configure leaves its serial, and nothing else. */
  lemma ConfiguredIsSerial(app: App, ifaces: seq<Bytes>, e: Event, beyond: u32, serial: u32)
    requires FirstOf(app, 11, e, serial) && !Deletes(e, serial)
    ensures Acted(app, ifaces, e, beyond) == app.(serial := serial)
  {
    hide Get32, Bytes32, KindOf;
    CarriedWord(e, serial);
  }

  /** An error leaves the object, the code and as much of the text as there is room for with
      its end, if the text is all there; and nothing else. */
  lemma ErrorIsKept(app: App, ifaces: seq<Bytes>, e: Event, beyond: u32,
                    culprit: u32, code: u32, length: u32, text: Bytes)
    requires e.sender == 1 && e.opcode == 0
    requires e.args == Bytes32(culprit) + Bytes32(code) + Bytes32(length) + text
    ensures Acted(app, ifaces, e, beyond) == app.(
      toldError := true, errorObject := culprit, errorCode := code,
      errorText := if length == 0 || length > |text| then app.errorText
                   else if length < 128 then text[..length] else text[..127])
  {
    hide Get32, Bytes32, KindOf;
    Lengths(culprit, code, length, 0);
    ThreeWords(culprit, code, length, text);
    assert e.args[12..] == text;
    if 0 < length <= |text| {
      var n := if length < 128 then length else 127;
      assert e.args[12..12 + n] == text[..n];
    }
  }

  lemma ThreeWords(a: u32, b: u32, c: u32, rest: Bytes)
    ensures var s := Bytes32(a) + Bytes32(b) + Bytes32(c) + rest;
      |s| == 12 + |rest| && Get32(s, 0) == a && Get32(s, 4) == b && Get32(s, 8) == c
  {
    hide Get32, Bytes32;
    Lengths(a, b, c, 0);
    var s := Bytes32(a) + Bytes32(b) + Bytes32(c) + rest;
    assert s == Bytes32(a) + (Bytes32(b) + Bytes32(c) + rest);
    assert s == (Bytes32(a) + Bytes32(b)) + (Bytes32(c) + rest);
    assert Bytes32(b) + Bytes32(c) + rest == Bytes32(b) + (Bytes32(c) + rest);
    Get32Back(a, Bytes32(b) + Bytes32(c) + rest);
    Get32Back(b, Bytes32(c) + rest);
    Get32Back(c, rest);
    Get32Within(Bytes32(a), Bytes32(b) + Bytes32(c) + rest, 0);
    Get32Within(Bytes32(a) + Bytes32(b), Bytes32(c) + rest, 0);
  }

  /** The text of an announcement and the name of an interface do not differ where both are:
      one is cut short within the other, or is it whole. */
  predicate Matches(text: Bytes, iface: Bytes) {
    iface != [] && (text <= iface || iface + [0] <= text)
  }

  lemma {:induction false} MatchesExactly(text: Bytes, rest: Bytes, iface: Bytes)
    requires 0 !in iface
    ensures SameString(text + rest, iface, |text|) <==> text <= iface || iface + [0] <= text
    decreases |text|
  {
    if text != [] {
      assert (text + rest)[1..] == text[1..] + rest;
      if iface == [] {
        assert iface + [0] == [0];
      } else {
        MatchesExactly(text[1..], rest, iface[1..]);
        assert (iface + [0])[1..] == iface[1..] + [0];
        Prefixes(text, iface);
        Prefixes(iface + [0], text);
      }
    }
  }

  lemma Prefixes(a: Bytes, b: Bytes)
    requires a != [] && b != []
    ensures a <= b <==> a[0] == b[0] && a[1..] <= b[1..]
  {
    if a[0] == b[0] && a[1..] <= b[1..] {
      assert a == [a[0]] + a[1..] && b == [b[0]] + b[1..];
    }
    if a <= b {
      assert a[1..] == b[1..][..|a| - 1];
    }
  }

  /** A text with its end in it matches its own interface and no other. */
  lemma WholeNameMatches(name: Bytes, iface: Bytes)
    requires 0 !in name && 0 !in iface && iface != []
    ensures Matches(name + [0], iface) <==> name == iface
  {
    var text := name + [0];
    assert text[|name|] == 0;
    if iface + [0] <= text {
      assert text[|iface|] == 0;
      assert |iface| == |name|;
      assert text[..|name|] == name && (iface + [0])[..|iface|] == iface;
    }
  }

  /** A registry's `global` is learnt for the interfaces its text matches, with its version or
      the least there is, and for no other; and nothing else is changed. */
  lemma GlobalIsLearnt(app: App, ifaces: seq<Bytes>, e: Event, beyond: u32,
                       name: u32, text: Bytes, padding: Bytes, version: u32, more: Bytes)
    requires Wellformed(app, ifaces) && forall k :: 0 <= k < |ifaces| ==> 0 !in ifaces[k]
    requires KindOf(app.objects, e.sender) == 2 && e.opcode == 0 && !IsError(e)
    requires 0 < |text| < U32 && |padding| < 4 && (|text| + |padding|) % 4 == 0
    requires e.args == Bytes32(name) + Bytes32(|text|) + text + padding + Bytes32(version) + more
    ensures var after := Acted(app, ifaces, e, beyond);
      && after == app.(names := after.names, versions := after.versions)
      && |after.names| == |after.versions| == 26
      && forall k :: 0 <= k < 26 ==>
           if Matches(text, ifaces[k]) then
             after.names[k] == name && after.versions[k] == if version == 0 then 1 else version
           else after.names[k] == app.names[k] && after.versions[k] == app.versions[k]
  {
    hide Get32, Bytes32, KindOf, SameString, Matches;
    AsAnnounced(e.args, name, text, padding, version, more);
    var after := Acted(app, ifaces, e, beyond);
    assert after == Announce(app, ifaces, e.args, beyond);
    forall k | 0 <= k < 26 ensures Offers(ifaces, k, e.args) <==> Matches(text, ifaces[k]) {
      OffersExactly(ifaces, k, e.args, text, padding + Bytes32(version) + more);
    }
  }

  lemma OffersExactly(ifaces: seq<Bytes>, k: nat, args: Bytes, text: Bytes, rest: Bytes)
    requires k < |ifaces| && 0 !in ifaces[k] && Announces(args) && Get32(args, 4) == |text|
    requires args[8..] == text + rest
    ensures Offers(ifaces, k, args) <==> Matches(text, ifaces[k])
  {
    hide Get32, SameString;
    MatchesExactly(text, rest, ifaces[k]);
  }

  lemma AsAnnounced(args: Bytes, name: u32, text: Bytes, padding: Bytes, version: u32, more: Bytes)
    requires 0 < |text| < U32 && |padding| < 4 && (|text| + |padding|) % 4 == 0
    requires args == Bytes32(name) + Bytes32(|text|) + text + padding + Bytes32(version) + more
    ensures |args| >= 8 && Get32(args, 0) == name && Get32(args, 4) == |text|
    ensures Announces(args) && Whole(args) && args[8..] == text + (padding + Bytes32(version) + more)
    ensures forall beyond: u32 :: Version(args, beyond) == if version == 0 then 1 else version
  {
    hide Get32, Bytes32;
    Lengths(name, |text|, version, 0);
    var rest := text + (padding + Bytes32(version) + more);
    assert args == Bytes32(name) + (Bytes32(|text|) + rest);
    Get32Back(name, Bytes32(|text|) + rest);
    Get32Within(Bytes32(name), Bytes32(|text|) + rest, 0);
    Get32Back(|text|, rest);
    var front := Bytes32(name) + Bytes32(|text|) + text + padding;
    assert args == front + (Bytes32(version) + more);
    assert Pad4(|text|) == |text| + |padding|;
    Get32Within(front, Bytes32(version) + more, 0);
    Get32Back(version, more);
  }

  /** And any other event changes nothing: one that is neither an error nor a deletion, nor the
      first event of a registry with a text in it, of a surface or of a device. */
  lemma NothingElseMatters(app: App, ifaces: seq<Bytes>, e: Event, beyond: u32)
    requires !IsError(e) && !(e.sender == 1 && e.opcode == 1 && |e.args| >= 4)
    requires e.opcode == 0 && |e.args| >= 4 ==> KindOf(app.objects, e.sender) !in {11, 21}
    requires e.opcode == 0 && KindOf(app.objects, e.sender) == 2 ==> !HasText(e.args)
    ensures Acted(app, ifaces, e, beyond) == app
  {
    hide Get32, Bytes32, KindOf;
    if |e.args| >= 8 {
      var length := Get32(e.args, 4);
      SecondWord(e.args);
    }
  }

  ghost predicate HasText(args: Bytes) {
    exists length: u32 :: 0 < length <= |args| - 8 && args[4..8] == Bytes32(length)
  }

  lemma SecondWord(args: Bytes)
    requires |args| >= 8
    ensures args[4..8] == Bytes32(Get32(args, 4))
  {
    BytesOfWord(args[4], args[5], args[6], args[7]);
    assert args[4..8] == [args[4], args[5], args[6], args[7]];
  }

  lemma BytesOfWord(a: byte, b: byte, c: byte, d: byte)
    ensures Bytes32(a as int + 0x100 * (b as int) + 0x1_0000 * (c as int) + 0x100_0000 * (d as int)) == [a, b, c, d]
  {
    var two := c as int + 0x100 * (d as int);
    var three := b as int + 0x100 * two;
    var v := a as int + 0x100 * three;
    LowByte(c, d);
    LowByte(b, two);
    LowByte(a, three);
    Quotients(v);
  }

  lemma LowByte(low: byte, rest: nat)
    ensures (low as int + 0x100 * rest) % 0x100 == low && (low as int + 0x100 * rest) / 0x100 == rest
  {
  }

  lemma Quotients(v: nat)
    ensures v / 0x1_0000 == v / 0x100 / 0x100 && v / 0x100_0000 == v / 0x100 / 0x100 / 0x100
  {
  }

  // ---- A stream of events ----

  /** A message byte by byte: its sender's four, the lowest first, the two of its number, the
      two of its length, and what it carries. */
  lemma MessageInBytes(a: byte, b: byte, c: byte, d: byte, low: byte, high: byte, args: Bytes)
    requires 8 + |args| < 0x1_0000
    ensures var sender := a as int + 256 * (b as int) + 65536 * (c as int) + 16777216 * (d as int);
      MessageBytes(sender, low as int + 256 * (high as int), args) ==
      [a, b, c, d, low, high, (8 + |args|) % 256, (8 + |args|) / 256] + args
  {
    hide Bytes32;
    var n := 8 + |args|;
    BytesOfWord(a, b, c, d);
    BytesOfWord(low, high, n % 256, n / 256);
  }

  /** No event is longer than the buffer. */
  predicate Sendable(events: seq<Event>) {
    forall i :: 0 <= i < |events| ==> 8 + |events[i].args| <= INBUF
  }

  /** Events laid down one after another. */
  function Laid(events: seq<Event>): Bytes
    requires Sendable(events)
  {
    if events == [] then [] else
      var last := events[|events| - 1];
      Laid(events[..|events| - 1]) + MessageBytes(last.sender, last.opcode, last.args)
  }

  /** One message through the buffer is one event acted on. */
  lemma OneEvent(app: App, ifaces: seq<Bytes>, e: Event)
    requires 8 + |e.args| <= INBUF
    ensures Flow(app, ifaces, MessageBytes(e.sender, e.opcode, e.args)) ==
            Flowed(Acted(app, ifaces, e, 0), [], false, false)
  {
    hide Handle, Get32, Bytes32;
    HeaderReadsBack(e.sender, e.opcode, e.args);
    Lengths(e.sender, (8 + |e.args|) * 0x1_0000 + e.opcode, 0, 0);
    var s := MessageBytes(e.sender, e.opcode, e.args);
    assert s[8..SizeOf(s)] == e.args && s[SizeOf(s)..] == [];
  }

  /** A stream of events leaves nothing over, and what it does is what each of them does in
      its turn. */
  lemma {:induction false} EventsInTurn(app: App, ifaces: seq<Bytes>, events: seq<Event>)
    requires Sendable(events)
    ensures var f := Flow(app, ifaces, Laid(events)); f == Flowed(f.app, [], false, false)
    ensures events == [] ==> Flow(app, ifaces, Laid(events)).app == app
    ensures events != [] ==>
      Flow(app, ifaces, Laid(events)).app ==
      Acted(Flow(app, ifaces, Laid(events[..|events| - 1])).app, ifaces, events[|events| - 1], 0)
    decreases |events|
  {
    hide Handle, MessageBytes;
    if events != [] {
      var before, last := events[..|events| - 1], events[|events| - 1];
      EventsInTurn(app, ifaces, before);
      var f, message := Flow(app, ifaces, Laid(before)), MessageBytes(last.sender, last.opcode, last.args);
      FlowConcat(app, ifaces, Laid(before), message);
      assert [] + message == message;
      OneEvent(f.app, ifaces, last);
    }
  }

  /** What an event says of an id, as far as has been said before of its sender: that it is
      gone, that it is an offer, or nothing. */
  function Says(said: seq<Op>, e: Event): seq<Op> {
    if |e.args| < 4 then []
    else if e.sender == 1 && e.opcode == 1 then [Deleted(Get32(e.args, 0))]
    else if e.opcode == 0 && !IsError(e) && LastWord(said, e.sender) == Live(K_DEVICE) then
      [Noted(Get32(e.args, 0), K_OFFER)]
    else []
  }

  /** All that has been said, the events' part of it after what was said before. */
  function History(said: seq<Op>, events: seq<Event>): seq<Op>
    decreases |events|
  {
    if events == [] then said else
      var before := History(said, events[..|events| - 1]);
      before + Says(before, events[|events| - 1])
  }

  /** A client that a stream of events has come to knows of each id what was last said of it,
      by the client itself or by an event, so long as the table has had room. */
  lemma {:induction false} StreamLeavesLastWord(app: App, ifaces: seq<Bytes>, said: seq<Op>, events: seq<Event>)
    requires Wellformed(app, ifaces) && Sendable(events) && app.objects == TableAfter(said)
    ensures var end := Flow(app, ifaces, Laid(events)).app;
      && Wellformed(end, ifaces) && |app.objects| <= |end.objects|
      && (|end.objects| < MAX_OBJECTS ==>
            && end.objects == TableAfter(History(said, events))
            && forall id: u32 :: Lookup(end.objects, id) == LastWord(History(said, events), id))
    decreases |events|
  {
    hide Flow, Handle, Wellformed, Lookup, LastWord, TableAfter, Says;
    EventsInTurn(app, ifaces, events);
    var end := Flow(app, ifaces, Laid(events)).app;
    if events != [] {
      var before, last := events[..|events| - 1], events[|events| - 1];
      StreamLeavesLastWord(app, ifaces, said, before);
      OneEventSaid(Flow(app, ifaces, Laid(before)).app, ifaces, History(said, before), last);
    }
    if |end.objects| < MAX_OBJECTS {
      forall id: u32 ensures Lookup(end.objects, id) == LastWord(History(said, events), id) {
        TableHoldsLastWord(History(said, events), id);
      }
    }
  }

  lemma OneEventSaid(app: App, ifaces: seq<Bytes>, said: seq<Op>, e: Event)
    requires Wellformed(app, ifaces)
    ensures var after := Acted(app, ifaces, e, 0);
      && Wellformed(after, ifaces) && |app.objects| <= |after.objects|
      && (app.objects == TableAfter(said) && |app.objects| < MAX_OBJECTS ==>
            after.objects == TableAfter(said + Says(said, e)))
  {
    hide Get32, KindOf, Lookup, LastWord, Remember, Forget, Distinct, SameString;
    HandleKeeps(app, ifaces, e.sender, e.opcode, e.args, 0);
    if |e.args| >= 4 {
      RememberNeverShrinks(app.objects, Get32(e.args, 0), K_OFFER);
    }
    if app.objects == TableAfter(said) && |app.objects| < MAX_OBJECTS {
      TableHoldsLastWord(said, e.sender);
      KindIsLookup(app.objects, e.sender);
      var more := Says(said, e);
      assert more == [] ==> said + more == said;
      assert more != [] ==> (said + more)[..|said + more| - 1] == said;
    }
  }
}
