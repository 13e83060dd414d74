/** The rights a program asks for: the manifest blocks compiled into its image, found
    by looking for their magic at every eighth byte. */
module Manifest {
  import opened Bytes

  const MAGIC: Bytes := Little(0x46494E414D4B5251, 8)
  const VERSION := 1
  const HEADER := 24
  const REQUEST := 24

  datatype Request = Request(kind: nat, first: nat, second: nat)

  /** A number in so many bytes, the least first. */
  function Little(n: nat, width: nat): (s: Bytes)
    ensures |s| == width
    decreases width
  {
    if width == 0 then [] else [n % 256] + Little(n / 256, width - 1)
  }

  function Number(s: Bytes): nat {
    if s == [] then 0 else s[0] + 256 * Number(s[1..])
  }

  function Power256(width: nat): nat {
    if width == 0 then 1 else 256 * Power256(width - 1)
  }

  lemma {:induction false} NumberBack(n: nat, width: nat)
    requires n < Power256(width)
    ensures Number(Little(n, width)) == n
    decreases width
  {
    if width > 0 {
      NumberBack(n / 256, width - 1);
      assert Little(n, width)[1..] == Little(n / 256, width - 1);
    }
  }

  lemma EightBytes()
    ensures Power256(8) == U64
  {
    assert Power256(4) == 0x1_0000_0000;
    assert Power256(6) == 65536 * Power256(4);
  }

  // ---- Blocks ----

  function Word(data: Bytes, at: nat): nat
    requires at + 8 <= |data|
  {
    Number(data[at..at + 8])
  }

  function Size(data: Bytes, off: nat): nat
    requires off + HEADER <= |data|
  {
    HEADER + Word(data, off + 16) * REQUEST
  }

  /** A whole block, of the version there is. */
  predicate Block(data: Bytes, off: nat) {
    && off + HEADER <= |data|
    && data[off..off + 8] == MAGIC
    && Word(data, off + 8) == VERSION
    && off + Size(data, off) <= |data|
  }

  function RequestAt(data: Bytes, at: nat): Request
    requires at + REQUEST <= |data|
  {
    Request(Word(data, at), Word(data, at + 8), Word(data, at + 16))
  }

  function Requests(data: Bytes, off: nat): seq<Request>
    requires Block(data, off)
  {
    seq(Word(data, off + 16), i requires 0 <= i < Word(data, off + 16) => RequestAt(data, off + HEADER + i * REQUEST))
  }

  /** Where the blocks are, from a place on. */
  function Blocks(data: Bytes, off: nat): seq<nat>
    decreases |data| - off
  {
    if off + HEADER > |data| then []
    else if Block(data, off) then [off] + Blocks(data, off + Size(data, off))
    else Blocks(data, off + 8)
  }

  /** Everything asked for, from a place on. */
  function Asked(data: Bytes, off: nat): seq<Request>
    decreases |data| - off
  {
    if off + HEADER > |data| then []
    else if Block(data, off) then Requests(data, off) + Asked(data, off + Size(data, off))
    else Asked(data, off + 8)
  }

  // ---- What the places are ----

  ghost predicate Apart(data: Bytes, places: seq<nat>) {
    && (forall i :: 0 <= i < |places| ==> Block(data, places[i]) && places[i] % 8 == 0)
    && (forall i :: 0 < i < |places| ==> places[i - 1] + Size(data, places[i - 1]) <= places[i])
  }

  /** The blocks are whole, at eighth bytes, one after another and none over another. */
  lemma {:induction false} BlocksAreApart(data: Bytes, off: nat)
    requires off % 8 == 0
    ensures Apart(data, Blocks(data, off))
    ensures Blocks(data, off) != [] ==> off <= Blocks(data, off)[0]
    decreases |data| - off
  {
    hide Number, Size, Block;
    if off + HEADER <= |data| {
      if Block(data, off) {
        WholeEighths(data, off);
        BlocksAreApart(data, off + Size(data, off));
      } else {
        BlocksAreApart(data, off + 8);
      }
    }
  }

  lemma WholeEighths(data: Bytes, off: nat)
    requires off % 8 == 0 && off + HEADER <= |data|
    ensures (off + Size(data, off)) % 8 == 0 && Size(data, off) >= HEADER
  {
  }

  ghost predicate AllBlocks(data: Bytes, places: seq<nat>) {
    forall i :: 0 <= i < |places| ==> Block(data, places[i])
  }

  /** The requests of some blocks, one block's after another's. */
  ghost function Gathered(data: Bytes, places: seq<nat>): seq<Request>
    requires AllBlocks(data, places)
  {
    if places == [] then [] else
      assert AllBlocks(data, places[1..]) by {
        assert forall i :: 0 <= i < |places| - 1 ==> places[1..][i] == places[i + 1];
      }
      Requests(data, places[0]) + Gathered(data, places[1..])
  }

  lemma {:induction false} AskedIsGathered(data: Bytes, off: nat)
    requires off % 8 == 0
    ensures AllBlocks(data, Blocks(data, off)) && Asked(data, off) == Gathered(data, Blocks(data, off))
    decreases |data| - off
  {
    hide Number, Size, Requests, Block;
    if off + HEADER <= |data| {
      if Block(data, off) {
        WholeEighths(data, off);
        AskedIsGathered(data, off + Size(data, off));
        assert Blocks(data, off)[1..] == Blocks(data, off + Size(data, off));
      } else {
        AskedIsGathered(data, off + 8);
      }
    }
  }

  // ---- The scans ----

  /** The first block's requests. */
  method Find(data: Bytes) returns (found: Option<seq<Request>>)
    ensures found.None? <==> Blocks(data, 0) == []
    ensures found.Some? ==> Block(data, Blocks(data, 0)[0]) && found.value == Requests(data, Blocks(data, 0)[0])
    ensures found.Some? ==> found.value <= Asked(data, 0)
  {
    hide Number, Requests;
    var off := 0;
    while off + HEADER <= |data|
      invariant Blocks(data, off) == Blocks(data, 0) && Asked(data, off) == Asked(data, 0)
    {
      if data[off..off + 8] == MAGIC {
        var version, count := Word(data, off + 8), Word(data, off + 16);
        if version == VERSION && off + HEADER + count * REQUEST <= |data| {
          return Some(Requests(data, off));
        }
      }
      off := off + 8;
    }
    return None;
  }

  /** Every block's requests, in the order of the image: the blocks are whole and apart, at
      eighth bytes, and what is returned is what each of them asks for in turn. */
  method FindAll(data: Bytes) returns (reqs: seq<Request>)
    ensures reqs == Asked(data, 0)
    ensures Apart(data, Blocks(data, 0)) && AllBlocks(data, Blocks(data, 0)) && reqs == Gathered(data, Blocks(data, 0))
  {
    hide Number, Requests, Apart, AllBlocks, Gathered, Blocks, Asked;
    reqs := [];
    var off := 0;
    while off + HEADER <= |data|
      invariant reqs + Asked(data, off) == Asked(data, 0)
    {
      AskedHere(data, off);
      if data[off..off + 8] == MAGIC {
        var version, count := Word(data, off + 8), Word(data, off + 16);
        if version == VERSION && off + HEADER + count * REQUEST <= |data| {
          reqs := reqs + Requests(data, off);
          off := off + HEADER + count * REQUEST;
          continue;
        }
      }
      off := off + 8;
    }
    AskedNoMore(data, off);
    BlocksAreApart(data, 0);
    AskedIsGathered(data, 0);
  }

  lemma AskedHere(data: Bytes, off: nat)
    requires off + HEADER <= |data|
    ensures Asked(data, off) ==
            if Block(data, off) then Requests(data, off) + Asked(data, off + Size(data, off)) else Asked(data, off + 8)
  {
  }

  lemma AskedNoMore(data: Bytes, off: nat)
    requires off + HEADER > |data|
    ensures Asked(data, off) == []
  {
  }

  // ---- What is printed, and what is granted ----

  /** A request of no kind is not shown. */
  function Shown(reqs: seq<Request>): seq<Request> {
    if reqs == [] then [] else (if reqs[0].kind == 0 then [] else [reqs[0]]) + Shown(reqs[1..])
  }

  lemma {:induction false} ShownConcat(a: seq<Request>, b: seq<Request>)
    ensures Shown(a + b) == Shown(a) + Shown(b)
    decreases |a|
  {
    if a == [] {
      assert a + b == b;
    } else {
      assert (a + b)[1..] == a[1..] + b;
      ShownConcat(a[1..], b);
    }
  }

  /** All are shown but those of no kind, each as often as it is asked for. */
  lemma {:induction false} ShownExactly(reqs: seq<Request>, r: Request)
    ensures multiset(Shown(reqs))[r] == if r.kind == 0 then 0 else multiset(reqs)[r]
    decreases |reqs|
  {
    if reqs != [] {
      ShownExactly(reqs[1..], r);
      assert reqs == [reqs[0]] + reqs[1..];
    }
  }

  /** And in the order they are asked for. */
  lemma ShownInOrder(before: seq<Request>, r: Request, after: seq<Request>)
    ensures Shown(before + [r] + after) == if r.kind == 0 then Shown(before) + Shown(after)
                                           else Shown(before) + [r] + Shown(after)
  {
    hide Shown;
    ShownConcat(before + [r], after);
    ShownConcat(before, [r]);
    OneShown([r], 0);
    NothingShown();
    assert [r][1..] == [] && [r][0..] == [r];
  }

  /** The requests of the first block, or none. */
  function FirstAsked(data: Bytes): seq<Request> {
    if Blocks(data, 0) == [] then []
    else if Block(data, Blocks(data, 0)[0]) then Requests(data, Blocks(data, 0)[0]) else []
  }

  /** Nothing that would be shown is in any block after the first. */
  ghost predicate NothingAfterFirst(data: Bytes) {
    forall i :: 0 < i < |Blocks(data, 0)| ==>
                  Block(data, Blocks(data, 0)[i]) && Shown(Requests(data, Blocks(data, 0)[i])) == []
  }

  /** A program is granted what all its blocks ask for: what is printed is that if and only if
      no block after the first asks for anything. So an image linked from several objects
      that ask is reported short, and as asking for nothing when it is the first whose block
      is empty. */
  lemma PrintedIsGrantedExactly(data: Bytes)
    ensures Shown(FirstAsked(data)) == Shown(Asked(data, 0)) <==> NothingAfterFirst(data)
    ensures FirstAsked(data) == [] && Asked(data, 0) != [] ==> |Blocks(data, 0)| > 1
  {
    hide Requests, Size, Number;
    AskedIsGathered(data, 0);
    var places := Blocks(data, 0);
    if places != [] {
      var rest := places[1..];
      assert forall i :: 0 <= i < |rest| ==> rest[i] == places[i + 1];
      ShownConcat(Requests(data, places[0]), Gathered(data, rest));
      GatheredShows(data, rest);
    }
  }

  lemma {:induction false} GatheredShows(data: Bytes, places: seq<nat>)
    requires AllBlocks(data, places)
    ensures Shown(Gathered(data, places)) == [] <==>
            forall i :: 0 <= i < |places| ==> Shown(Requests(data, places[i])) == []
    ensures Gathered(data, places) != [] ==> places != []
    decreases |places|
  {
    hide Requests, Block;
    if places != [] {
      var rest := places[1..];
      assert forall i :: 0 <= i < |rest| ==> rest[i] == places[i + 1];
      GatheredShows(data, rest);
      ShownConcat(Requests(data, places[0]), Gathered(data, rest));
    }
  }

  method Show(reqs: seq<Request>) returns (printed: seq<Request>)
    ensures printed == Shown(reqs)
  {
    hide Shown;
    printed := [];
    NothingShown();
    for i := 0 to |reqs|
      invariant printed + Shown(reqs[i..]) == Shown(reqs)
    {
      OneShown(reqs, i);
      if reqs[i].kind != 0 {
        printed := printed + [reqs[i]];
      }
    }
    assert reqs[|reqs|..] == [];
  }

  lemma OneShown(reqs: seq<Request>, i: nat)
    requires i < |reqs|
    ensures Shown(reqs[i..]) == (if reqs[i].kind == 0 then [] else [reqs[i]]) + Shown(reqs[i + 1..])
  {
    assert reqs[i..][0] == reqs[i] && reqs[i..][1..] == reqs[i + 1..];
  }

  /** What the program prints, and its exit status. It fails when the first block asks for
      nothing, or there is none, and prints what is granted exactly when no block after the
      first asks for anything. */
  method Report(data: Bytes) returns (printed: seq<Request>, status: nat)
    ensures status == if FirstAsked(data) == [] then 1 else 0
    ensures printed == Shown(FirstAsked(data))
    ensures forall r :: multiset(printed)[r] == if r.kind == 0 then 0 else multiset(FirstAsked(data))[r]
    ensures printed == Shown(Asked(data, 0)) <==> NothingAfterFirst(data)
  {
    hide Blocks, Requests, Asked, Shown, NothingAfterFirst;
    PrintedIsGrantedExactly(data);
    NothingShown();
    var found := Find(data);
    if found.None? || found.value == [] {
      return [], 1;
    }
    printed := Show(found.value);
    forall r ensures multiset(printed)[r] == if r.kind == 0 then 0 else multiset(found.value)[r] {
      ShownExactly(found.value, r);
    }
    status := 0;
  }

  lemma NothingShown()
    ensures Shown([]) == []
  {
  }

  // ---- What is not found ----

  ghost predicate Inside(data: Bytes, b: nat, at: nat) {
    Block(data, b) && b <= at < b + Size(data, b)
  }

  /** A block at an eighth byte that is not found is inside one that is. */
  lemma {:induction false} NoneIsMissed(data: Bytes, off: nat, at: nat)
    requires off % 8 == 0 && at % 8 == 0 && off <= at && Block(data, at)
    ensures exists i :: 0 <= i < |Blocks(data, off)| && Inside(data, Blocks(data, off)[i], at)
    decreases |data| - off
  {
    hide Number, Size, Block, Inside, Apart;
    FitsIn(data, at);
    if !Block(data, off) {
      assert off + 8 <= at;
      assert Blocks(data, off) == Blocks(data, off + 8);
      NoneIsMissed(data, off + 8, at);
    } else {
      WholeEighths(data, off);
      var next := off + Size(data, off);
      assert Blocks(data, off)[0] == off;
      if next <= at {
        NoneIsMissed(data, next, at);
        var i :| 0 <= i < |Blocks(data, next)| && Inside(data, Blocks(data, next)[i], at);
        assert Blocks(data, off)[i + 1] == Blocks(data, next)[i];
      } else {
        InsideHere(data, off, at);
      }
    }
  }

  lemma FitsIn(data: Bytes, at: nat)
    requires Block(data, at)
    ensures at + HEADER <= |data|
  {
  }

  lemma InsideHere(data: Bytes, b: nat, at: nat)
    requires Block(data, b) && b <= at < b + Size(data, b)
    ensures Inside(data, b, at)
  {
  }

  // ---- What is put in an image is found ----

  datatype Piece = Gap(bytes: Bytes) | Asks(requests: seq<Request>)

  function EncodedRequest(r: Request): (s: Bytes)
    ensures |s| == REQUEST
  {
    Little(r.kind, 8) + Little(r.first, 8) + Little(r.second, 8)
  }

  function Body(requests: seq<Request>): (s: Bytes)
    ensures |s| == REQUEST * |requests|
  {
    if requests == [] then [] else EncodedRequest(requests[0]) + Body(requests[1..])
  }

  function Encoded(requests: seq<Request>): (s: Bytes)
    ensures |s| == HEADER + REQUEST * |requests|
  {
    MAGIC + Little(VERSION, 8) + Little(|requests|, 8) + Body(requests)
  }

  /** A block that asks for nothing, byte by byte: its magic, the version, and no requests. */
  lemma EmptyBlock()
    ensures Encoded([]) == Ascii("QRKMANIF") + [1, 0, 0, 0, 0, 0, 0, 0] + [0, 0, 0, 0, 0, 0, 0, 0]
  {
    hide Little, Ascii, EncodedRequest;
    MagicInBytes();
    EightOf(1, 0, 0, 0, 0, 0, 0, 0);
    EightOf(0, 0, 0, 0, 0, 0, 0, 0);
  }

  lemma MagicInBytes()
    ensures MAGIC == Ascii("QRKMANIF")
  {
    EightOf(0x51, 0x52, 0x4B, 0x4D, 0x41, 0x4E, 0x49, 0x46);
    hide Little;
    assert Ascii("QRKMANIF") == [0x51, 0x52, 0x4B, 0x4D, 0x41, 0x4E, 0x49, 0x46];
  }

  /** The number in eight bytes, the least first. */
  lemma EightOf(a: byte, b: byte, c: byte, d: byte, e: byte, f: byte, g: byte, h: byte)
    ensures Little(a + 256 * (b + 256 * (c + 256 * (d + 256 * (e + 256 * (f + 256 * (g + 256 * h)))))), 8)
            == [a, b, c, d, e, f, g, h]
  {
    FourOf(e, f, g, h);
    FourMore(a, b, c, d, e + 256 * (f + 256 * (g + 256 * h)), 4);
  }

  lemma FourOf(a: byte, b: byte, c: byte, d: byte)
    ensures Little(a + 256 * (b + 256 * (c + 256 * d)), 4) == [a, b, c, d]
  {
    FourMore(a, b, c, d, 0, 0);
  }

  lemma FourMore(a: byte, b: byte, c: byte, d: byte, rest: nat, width: nat)
    ensures Little(a + 256 * (b + 256 * (c + 256 * (d + 256 * rest))), width + 4) == [a, b, c, d] + Little(rest, width)
  {
    hide Little;
    var three := d + 256 * rest;
    var two := c + 256 * three;
    OneMore(d, rest, width);
    OneMore(c, three, width + 1);
    OneMore(b, two, width + 2);
    OneMore(a, b + 256 * two, width + 3);
  }

  lemma OneMore(a: byte, rest: nat, width: nat)
    ensures Little(a + 256 * rest, width + 1) == [a] + Little(rest, width)
  {
    assert (a + 256 * rest) % 256 == a && (a + 256 * rest) / 256 == rest;
  }

  function Part(piece: Piece): Bytes {
    if piece.Gap? then piece.bytes else Encoded(piece.requests)
  }

  function Image(pieces: seq<Piece>): Bytes {
    if pieces == [] then [] else Part(pieces[0]) + Image(pieces[1..])
  }

  function AllAsked(pieces: seq<Piece>): seq<Request> {
    if pieces == [] then [] else (if pieces[0].Asks? then pieces[0].requests else []) + AllAsked(pieces[1..])
  }

  predicate InWords(r: Request) {
    r.kind < U64 && r.first < U64 && r.second < U64
  }

  predicate Encodable(requests: seq<Request>) {
    |requests| < U64 && forall i :: 0 <= i < |requests| ==> InWords(requests[i])
  }

  /** No block begins at an eighth byte between two places. */
  predicate Quiet(data: Bytes, from: nat, to: nat) {
    forall at :: from <= at < to && at % 8 == 0 ==> !Block(data, at)
  }

  /** Blocks at eighth bytes, and nothing in what is between them that looks like one.
      What is inside a block may look like anything. */
  predicate Plain(data: Bytes, off: nat, pieces: seq<Piece>)
    decreases |pieces|
  {
    pieces == [] ||
    (&& |Part(pieces[0])| % 8 == 0
     && (if pieces[0].Gap? then Quiet(data, off, off + |pieces[0].bytes|) else Encodable(pieces[0].requests))
     && Plain(data, off + |Part(pieces[0])|, pieces[1..]))
  }

  lemma {:induction false} OverAGap(data: Bytes, off: nat, end: nat)
    requires off % 8 == 0 && end % 8 == 0 && off <= end && Quiet(data, off, end)
    ensures Asked(data, off) == Asked(data, end)
    decreases end - off
  {
    hide Block;
    if off < end {
      assert (end - off) % 8 == 0;
      OverAGap(data, off + 8, end);
      if off + HEADER <= |data| {
        assert !Block(data, off);
      }
    }
  }

  lemma WordBack(data: Bytes, at: nat, n: nat)
    requires at + 8 <= |data| && data[at..at + 8] == Little(n, 8) && n < U64
    ensures Word(data, at) == n
  {
    EightBytes();
    NumberBack(n, 8);
  }

  lemma BehindFirst(a: Bytes, b: Bytes, i: nat, j: nat)
    requires i <= j <= |b|
    ensures (a + b)[|a| + i..|a| + j] == b[i..j]
  {
    var s, n := a + b, |a|;
    assert forall k :: i <= k < j ==> s[n + k] == b[k];
  }

  lemma {:induction false} BodyAt(requests: seq<Request>, i: nat)
    requires i < |requests|
    ensures Body(requests)[REQUEST * i..REQUEST * i + REQUEST] == EncodedRequest(requests[i])
    decreases |requests|
  {
    hide EncodedRequest;
    if i > 0 {
      BodyAt(requests[1..], i - 1);
      BehindFirst(EncodedRequest(requests[0]), Body(requests[1..]), REQUEST * (i - 1), REQUEST * i);
    }
  }

  lemma RequestBack(data: Bytes, at: nat, r: Request)
    requires at + REQUEST <= |data| && data[at..at + REQUEST] == EncodedRequest(r) && InWords(r)
    ensures RequestAt(data, at) == r
  {
    hide Little, Word;
    var s := data[at..at + REQUEST];
    assert data[at..at + 8] == s[..8] == Little(r.kind, 8);
    assert data[at + 8..at + 16] == s[8..16] == Little(r.first, 8);
    assert data[at + 16..at + 24] == s[16..24] == Little(r.second, 8);
    WordBack(data, at, r.kind);
    WordBack(data, at + 8, r.first);
    WordBack(data, at + 16, r.second);
  }

  lemma EncodedParts(requests: seq<Request>)
    ensures var s := Encoded(requests);
      && s[..8] == MAGIC && s[8..16] == Little(VERSION, 8)
      && s[16..24] == Little(|requests|, 8) && s[24..] == Body(requests)
  {
    hide Little, Body;
    FourParts(MAGIC, Little(VERSION, 8), Little(|requests|, 8), Body(requests));
  }

  lemma FourParts(a: Bytes, b: Bytes, c: Bytes, d: Bytes)
    requires |a| == |b| == |c| == 8
    ensures var s := a + b + c + d; s[..8] == a && s[8..16] == b && s[16..24] == c && s[24..] == d
  {
  }

  lemma PartOf(data: Bytes, off: nat, n: nat, i: nat, j: nat)
    requires off + n <= |data| && i <= j <= n
    ensures data[off..off + n][i..j] == data[off + i..off + j]
  {
    var part := data[off..off + n];
    assert forall k :: i <= k < j ==> part[k] == data[off + k];
  }

  lemma HeaderBack(data: Bytes, off: nat, requests: seq<Request>)
    requires Encodable(requests) && off + |Encoded(requests)| <= |data|
    requires data[off..off + |Encoded(requests)|] == Encoded(requests)
    ensures Block(data, off) && Word(data, off + 16) == |requests| && Size(data, off) == |Encoded(requests)|
  {
    hide Little, Word, Body, Encoded;
    EncodedParts(requests);
    PartOf(data, off, |Encoded(requests)|, 0, 8);
    PartOf(data, off, |Encoded(requests)|, 8, 16);
    PartOf(data, off, |Encoded(requests)|, 16, 24);
    WordBack(data, off + 8, VERSION);
    WordBack(data, off + 16, |requests|);
  }

  lemma OneBack(data: Bytes, off: nat, requests: seq<Request>, i: nat)
    requires Encodable(requests) && off + |Encoded(requests)| <= |data|
    requires data[off..off + |Encoded(requests)|] == Encoded(requests)
    requires i < |requests|
    ensures RequestAt(data, off + HEADER + i * REQUEST) == requests[i]
  {
    hide Word, Body, EncodedRequest, RequestAt, Encoded, InWords;
    EncodedParts(requests);
    var n := |Encoded(requests)|;
    var at := off + HEADER + i * REQUEST;
    PartOf(data, off, n, HEADER, n);
    BodyAt(requests, i);
    PartOf(data, off + HEADER, n - HEADER, REQUEST * i, REQUEST * i + REQUEST);
    RequestBack(data, at, requests[i]);
  }

  lemma BlockBack(data: Bytes, off: nat, requests: seq<Request>)
    requires Encodable(requests) && off + |Encoded(requests)| <= |data|
    requires data[off..off + |Encoded(requests)|] == Encoded(requests)
    ensures Block(data, off) && Size(data, off) == |Encoded(requests)| && Requests(data, off) == requests
  {
    hide Word, Body, EncodedRequest, RequestAt, Encoded, Encodable;
    HeaderBack(data, off, requests);
    forall i | 0 <= i < |requests|
      ensures Requests(data, off)[i] == requests[i]
    {
      OneBack(data, off, requests, i);
    }
  }

  /** Every request of every block put into an image is found, in order, and nothing else
      is, whatever is between the blocks that is not one itself. */
  lemma {:induction false} EveryBlockIsFound(data: Bytes, off: nat, pieces: seq<Piece>)
    requires off <= |data| && off % 8 == 0 && data[off..] == Image(pieces) && Plain(data, off, pieces)
    ensures Asked(data, off) == AllAsked(pieces)
    decreases |pieces|
  {
    hide Block, Part, Requests, Quiet, Encodable, Size, Asked;
    if pieces == [] {
      AskedNoMore(data, off);
    } else {
      var part := Part(pieces[0]);
      var next := off + |part|;
      Cut(data, off, part, Image(pieces[1..]));
      EveryBlockIsFound(data, next, pieces[1..]);
      OnePiece(data, off, pieces[0]);
    }
  }

  lemma OnePiece(data: Bytes, off: nat, piece: Piece)
    requires off % 8 == 0 && |Part(piece)| % 8 == 0
    requires off + |Part(piece)| <= |data| && data[off..off + |Part(piece)|] == Part(piece)
    requires if piece.Gap? then Quiet(data, off, off + |piece.bytes|) else Encodable(piece.requests)
    ensures Asked(data, off) == (if piece.Asks? then piece.requests else []) + Asked(data, off + |Part(piece)|)
  {
    hide Block, Encoded, Requests, Quiet, Encodable, Size, Asked;
    if piece.Gap? {
      OverAGap(data, off, off + |piece.bytes|);
    } else {
      BlockBack(data, off, piece.requests);
      Unfold(data, off);
    }
  }

  lemma Cut(data: Bytes, off: nat, part: Bytes, rest: Bytes)
    requires off <= |data| && data[off..] == part + rest
    ensures off + |part| <= |data| && data[off..off + |part|] == part && data[off + |part|..] == rest
  {
    var s := data[off..];
    assert s[..|part|] == part && s[|part|..] == rest;
  }

  lemma Unfold(data: Bytes, off: nat)
    requires Block(data, off)
    ensures Asked(data, off) == Requests(data, off) + Asked(data, off + Size(data, off))
  {
  }
}
