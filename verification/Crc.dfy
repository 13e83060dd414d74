/** The checksum a package list keeps of each file: the table-driven reflected CRC-32
    of section 8 of RFC 1952, the bit-at-a-time form it refines, and what the checksum
    is for - a change confined to thirty-two consecutive bits always shows. */
module Crc {
  import opened Bytes

  const POLY: bv32 := 0xEDB8_8320
  const START: bv32 := 0xFFFF_FFFF

  // The operations of a register, under names: the proofs about whole files are about
  // these, and only the small facts look at the bits.

  function Xor(x: bv32, y: bv32): bv32 { x ^ y }
  function Half(x: bv32): bv32 { x >> 1 }
  function Shr8(x: bv32): bv32 { x >> 8 }
  function Low8(x: bv32): bv32 { x & 0xFF }
  function High24(x: bv32): bv32 { x & 0xFFFF_FF00 }
  predicate Odd(x: bv32) { x & 1 == 1 }

  /** One bit of polynomial division. */
  function Bit(c: bv32): bv32 {
    if Odd(c) then Xor(Half(c), POLY) else Half(c)
  }

  function Bits(c: bv32, n: nat): bv32
    decreases n
  {
    if n == 0 then c else Bits(Bit(c), n - 1)
  }

  function Octet(b: byte): bv32 {
    (b as bv8) as bv32
  }

  /** The checksum's register after some bytes, a bit at a time. */
  function Run(c: bv32, bytes: Bytes): bv32
    decreases |bytes|
  {
    if bytes == [] then c else Run(Bits(Xor(c, Octet(bytes[0])), 8), bytes[1..])
  }

  function Not(c: bv32): bv32 { !c }

  function Checksum(bytes: Bytes): bv32 {
    Not(Run(START, bytes))
  }

  // ---- Facts about thirty-two bits ----

  lemma XorUnits(x: bv32, y: bv32)
    ensures Xor(x, x) == 0 && Xor(x, 0) == x
    ensures Xor(x, y) == Xor(y, x)
    ensures Xor(Xor(x, y), y) == x
  {
  }

  lemma XorAssociates(x: bv32, y: bv32, k: bv32)
    ensures Xor(x, Xor(y, k)) == Xor(Xor(x, y), k)
  {
  }

  lemma XorShuffle(x: bv32, y: bv32, k: bv32)
    ensures Xor(Xor(x, k), y) == Xor(Xor(x, y), k)
    ensures Xor(x, Xor(y, k)) == Xor(Xor(x, y), k)
    ensures Xor(Xor(x, k), Xor(y, k)) == Xor(x, y)
  {
    hide Xor;
    XorAssociates(x, k, y);
    XorAssociates(x, y, k);
    XorUnits(k, y);
    XorAssociates(Xor(x, k), y, k);
    XorUnits(Xor(x, y), k);
  }

  lemma XorPairs(x: bv32, y: bv32, k: bv32, l: bv32)
    ensures Xor(Xor(x, k), Xor(y, l)) == Xor(Xor(x, y), Xor(k, l))
  {
    hide Xor;
    XorAssociates(Xor(x, k), y, l);
    XorShuffle(x, y, k);
    XorAssociates(Xor(x, y), k, l);
  }

  lemma AndOfXor(x: bv32, y: bv32)
    ensures (x ^ y) & 1 == (x & 1) ^ (y & 1)
  {
  }

  lemma LowBit(x: bv32)
    ensures x & 1 == 0 || x & 1 == 1
  {
  }

  lemma ShiftOfXor(x: bv32, y: bv32)
    ensures (x ^ y) >> 1 == (x >> 1) ^ (y >> 1)
  {
  }

  lemma ParityOfXor(a: bv32, b: bv32)
    requires (a == 0 || a == 1) && (b == 0 || b == 1)
    ensures a ^ b == 1 <==> (a == 1) != (b == 1)
  {
  }

  lemma OddOfXor(x: bv32, y: bv32)
    ensures Odd(Xor(x, y)) <==> Odd(x) != Odd(y)
  {
    AndOfXor(x, y);
    LowBit(x);
    LowBit(y);
    ParityOfXor(x & 1, y & 1);
  }

  lemma HalfOfXor(x: bv32, y: bv32)
    ensures Odd(Xor(x, y)) <==> Odd(x) != Odd(y)
    ensures Half(Xor(x, y)) == Xor(Half(x), Half(y))
  {
    OddOfXor(x, y);
    ShiftOfXor(x, y);
  }

  lemma HalfAndParity(x: bv32, y: bv32)
    requires Half(x) == Half(y) && Odd(x) == Odd(y)
    ensures x == y
  {
  }

  lemma Parts(x: bv32)
    ensures x == Xor(Low8(x), High24(x))
    ensures Low8(High24(x)) == 0
  {
  }

  lemma HighUntouched(c: bv32, b: byte)
    ensures Shr8(High24(Xor(c, Octet(b)))) == Shr8(c)
  {
    var o: bv32 := Octet(b);
    assert o & 0xFFFF_FF00 == 0;
  }

  lemma Evens(x: bv32)
    requires Low8(x) == 0
    ensures !Odd(x) && !Odd(Half(x)) && !Odd(Half(Half(x))) && !Odd(Half(Half(Half(x))))
    ensures var y := Half(Half(Half(Half(x))));
            !Odd(y) && !Odd(Half(y)) && !Odd(Half(Half(y))) && !Odd(Half(Half(Half(y))))
  {
  }

  lemma EightHalves(x: bv32)
    ensures Half(Half(Half(Half(Half(Half(Half(Half(x)))))))) == Shr8(x)
  {
  }

  lemma TopBit(x: bv32)
    ensures Half(Half(Half(Half(Half(Half(Half(Shr8(Shr8(Shr8(x)))))))))) == 0 ==> x & 0x8000_0000 == 0
  {
  }

  // ---- Division is linear, and a byte's worth of it can be looked up ----

  lemma BitLinear(x: bv32, y: bv32)
    ensures Bit(Xor(x, y)) == Xor(Bit(x), Bit(y))
  {
    hide Xor, Half, Odd;
    HalfOfXor(x, y);
    XorShuffle(Half(x), Half(y), POLY);
  }

  lemma {:induction false} BitsLinear(x: bv32, y: bv32, n: nat)
    ensures Bits(Xor(x, y), n) == Xor(Bits(x, n), Bits(y, n))
    decreases n
  {
    hide Bit, Xor;
    if n > 0 {
      BitLinear(x, y);
      BitsLinear(Bit(x), Bit(y), n - 1);
    }
  }

  /** A register whose low byte is clear is only shifted by eight steps. */
  lemma BitsOfHigh(x: bv32)
    requires Low8(x) == 0
    ensures Bits(x, 8) == Shr8(x)
  {
    hide Odd, Half, Shr8, Low8, Bits;
    Evens(x);
    EightHalves(x);
    BitsOfEvens(x);
  }

  lemma BitsOfEvens(x: bv32)
    requires !Odd(x) && !Odd(Half(x)) && !Odd(Half(Half(x))) && !Odd(Half(Half(Half(x))))
    requires var y := Half(Half(Half(Half(x))));
             !Odd(y) && !Odd(Half(y)) && !Odd(Half(Half(y))) && !Odd(Half(Half(Half(y))))
    ensures Bits(x, 8) == Half(Half(Half(Half(Half(Half(Half(Half(x))))))))
  {
    hide Odd, Half, Xor;
    var y := Half(Half(Half(Half(x))));
    assert Bits(x, 8) == Bits(Half(x), 7) == Bits(Half(Half(x)), 6) == Bits(Half(Half(Half(x))), 5) == Bits(y, 4);
    assert Bits(y, 4) == Bits(Half(y), 3) == Bits(Half(Half(y)), 2) == Bits(Half(Half(Half(y))), 1);
  }

  /** One table lookup does what eight steps of division do. */
  lemma TableStep(c: bv32, b: byte)
    ensures Xor(Bits(Low8(Xor(c, Octet(b))), 8), Shr8(c)) == Bits(Xor(c, Octet(b)), 8)
  {
    hide Bits, Xor, Shr8, Low8, High24, Octet;
    var x := Xor(c, Octet(b));
    Parts(x);
    BitsOfHigh(High24(x));
    HighUntouched(c, b);
    BitsLinear(Low8(x), High24(x), 8);
  }

  ghost predicate IsTable(table: seq<bv32>) {
    |table| == 256 && forall i :: 0 <= i < 256 ==> table[i] == Entry(i)
  }

  function Entry(i: nat): bv32
    requires i < 256
  {
    Bits(i as bv32, 8)
  }

  function TestedBit(c: bv32): bv32 {
    if c & 1 != 0 then (c >> 1) ^ POLY else c >> 1
  }

  lemma TestedStep(c: bv32, n: nat)
    ensures n > 0 ==> Bits(TestedBit(c), n - 1) == Bits(c, n)
    ensures n == 0 ==> Bits(c, n) == c
  {
    LowBit(c);
  }

  method New() returns (table: array<bv32>)
    ensures fresh(table) && IsTable(table[..])
  {
    hide Bits, Entry, TestedBit;
    table := new bv32[256];
    for i := 0 to 256
      invariant forall j :: 0 <= j < i ==> table[j] == Entry(j)
    {
      var c := i as bv32;
      EntryStarts(i, c);
      for k := 0 to 8
        invariant Bits(c, 8 - k) == Entry(i)
        invariant forall j :: 0 <= j < i ==> table[j] == Entry(j)
      {
        TestedStep(c, 8 - k);
        c := TestedBit(c);
      }
      TestedStep(c, 0);
      table[i] := c;
    }
  }

  lemma EntryStarts(i: nat, c: bv32)
    requires i < 256 && c == i as bv32
    ensures Bits(c, 8) == Entry(i)
  {
  }

  lemma TableAt(table: seq<bv32>, at: bv32)
    requires IsTable(table) && at <= 0xFF
    ensures 0 <= at as int < 256 && table[at as int] == Bits(at, 8)
  {
    hide Bits;
    assert (at as int) as bv32 == at;
  }

  method Add(table: array<bv32>, crc: bv32, bytes: Bytes) returns (c: bv32)
    requires IsTable(table[..])
    ensures c == Run(crc, bytes)
  {
    c := crc;
    for i := 0 to |bytes|
      invariant Run(c, bytes[i..]) == Run(crc, bytes)
    {
      hide Xor, Shr8, Bits, Octet;
      TableStep(c, bytes[i]);
      var at := Low8(Xor(c, Octet(bytes[i])));
      TableAt(table[..], at);
      c := Xor(table[at as int], Shr8(c));
    }
  }

  function MaskedBit(c: bv32): bv32 {
    (c >> 1) ^ Mask(c & 1)
  }

  function Mask(low: bv32): bv32 { POLY & (0 - low) }

  lemma Masks()
    ensures Mask(0) == 0 && Mask(1) == POLY
  {
  }

  lemma MaskedStep(c: bv32)
    ensures MaskedBit(c) == Bit(c)
  {
    LowBit(c);
    Masks();
    hide Mask;
    XorNothing(c >> 1);
  }

  lemma XorNothing(c: bv32)
    ensures c ^ 0 == c
  {
  }

  /** The form the cairo test keeps of the same checksum: no table, a mask for the test
      of the low bit. */
  method BitwiseChecksum(p: Bytes) returns (r: bv32)
    ensures r == Checksum(p)
  {
    var c := START;
    for i := 0 to |p|
      invariant Run(c, p[i..]) == Run(START, p)
    {
      hide Xor, Octet, Bit;
      var fed := Xor(c, Octet(p[i]));
      c := fed;
      for k := 0 to 8
        invariant Bits(c, 8 - k) == Bits(fed, 8)
      {
        MaskedStep(c);
        c := MaskedBit(c);
      }
    }
    r := Not(c);
  }

  // ---- How a file is cut into pages makes no difference ----

  lemma {:induction false} RunConcat(c: bv32, a: Bytes, b: Bytes)
    ensures Run(c, a + b) == Run(Run(c, a), b)
    decreases |a|
  {
    hide Xor, Bits, Octet;
    if a == [] {
      assert a + b == b;
    } else {
      assert (a + b)[1..] == a[1..] + b;
      RunConcat(Bits(Xor(c, Octet(a[0])), 8), a[1..], b);
    }
  }

  /** The register after a file handed over page by page. */
  function RunPages(c: bv32, pages: seq<Bytes>): bv32
    decreases |pages|
  {
    if pages == [] then c else RunPages(Run(c, pages[0]), pages[1..])
  }

  lemma {:induction false} RunPagesConcat(c: bv32, pages: seq<Bytes>)
    ensures RunPages(c, pages) == Run(c, Concat(pages))
    decreases |pages|
  {
    hide Bits, Xor, Octet;
    if pages != [] {
      RunConcat(c, pages[0], Concat(pages[1..]));
      RunPagesConcat(Run(c, pages[0]), pages[1..]);
    }
  }

  lemma PagingDoesNotMatter(c: bv32, pages: seq<Bytes>, others: seq<Bytes>)
    requires Concat(pages) == Concat(others)
    ensures RunPages(c, pages) == RunPages(c, others)
  {
    RunPagesConcat(c, pages);
    RunPagesConcat(c, others);
  }

  // ---- The register as a machine fed bits ----

  function Unit(bit: bool): bv32 {
    if bit then 1 else 0
  }

  function BitStep(c: bv32, bit: bool): bv32 {
    Bit(Xor(c, Unit(bit)))
  }

  function RunBits(c: bv32, bits: seq<bool>): bv32
    decreases |bits|
  {
    if bits == [] then c else RunBits(BitStep(c, bits[0]), bits[1..])
  }

  /** The low `n` bits of `w`, lowest first. */
  function LowBits(w: bv32, n: nat): (bits: seq<bool>)
    ensures |bits| == n
    decreases n
  {
    if n == 0 then [] else [Odd(w)] + LowBits(Half(w), n - 1)
  }

  /** A file as the checksum sees it: each byte's bits, lowest first. */
  function Stream(bytes: Bytes): (bits: seq<bool>)
    ensures |bits| == 8 * |bytes|
  {
    if bytes == [] then [] else LowBits(Octet(bytes[0]), 8) + Stream(bytes[1..])
  }

  /** `x` moved `n` places down, one place at a time. */
  function Down(x: bv32, n: nat): bv32
    decreases n
  {
    if n == 0 then x else Down(Half(x), n - 1)
  }

  lemma {:induction false} DownAdd(x: bv32, m: nat, n: nat)
    ensures Down(x, m + n) == Down(Down(x, m), n)
    decreases m
  {
    hide Half;
    if m > 0 {
      DownAdd(Half(x), m - 1, n);
    }
  }

  lemma {:induction false} DownZero(n: nat)
    ensures Down(0, n) == 0
    decreases n
  {
    if n > 0 {
      DownZero(n - 1);
    }
  }

  lemma Down7(x: bv32)
    ensures Down(x, 7) == Half(Half(Half(Half(Half(Half(Half(x)))))))
  {
    hide Half;
    var y := Half(Half(Half(x)));
    assert Down(x, 7) == Down(Half(x), 6) == Down(Half(Half(x)), 5) == Down(y, 4);
    assert Down(y, 4) == Down(Half(y), 3) == Down(Half(Half(y)), 2) == Down(Half(Half(Half(y))), 1);
  }

  lemma Down8(x: bv32)
    ensures Down(x, 8) == Shr8(x)
  {
    hide Half, Shr8;
    DownAdd(x, 7, 1);
    Down7(x);
    EightHalves(x);
    assert Down(Down(x, 7), 1) == Down(Half(Down(x, 7)), 0);
  }

  /** What is gone after at most thirty-one places had no top bit. */
  lemma TopClear(x: bv32, n: nat)
    requires n <= 31 && Down(x, n) == 0
    ensures x & 0x8000_0000 == 0
  {
    hide Half, Shr8, Down;
    DownAdd(x, n, 31 - n);
    DownZero(31 - n);
    DownAdd(x, 8, 23);
    DownAdd(Shr8(x), 8, 15);
    DownAdd(Shr8(Shr8(x)), 8, 7);
    Down8(x);
    Down8(Shr8(x));
    Down8(Shr8(Shr8(x)));
    Down7(Shr8(Shr8(Shr8(x))));
    TopBit(x);
  }

  lemma {:induction false} RunBitsConcat(c: bv32, x: seq<bool>, y: seq<bool>)
    ensures RunBits(c, x + y) == RunBits(RunBits(c, x), y)
    decreases |x|
  {
    hide BitStep;
    if x == [] {
      assert x + y == y;
    } else {
      assert (x + y)[1..] == x[1..] + y;
      RunBitsConcat(BitStep(c, x[0]), x[1..], y);
    }
  }

  lemma LowAndRest(c: bv32, w: bv32)
    ensures Bit(Xor(c, w)) == Xor(BitStep(c, Odd(w)), Half(w))
  {
    var low, high := Unit(Odd(w)), w & 0xFFFF_FFFE;
    assert w == Xor(low, high);
    assert !Odd(high) && Half(high) == Half(w);
    LowAndHigh(c, low, high);
  }

  lemma LowAndHigh(c: bv32, low: bv32, high: bv32)
    requires !Odd(high)
    ensures Bit(Xor(c, Xor(low, high))) == Xor(Bit(Xor(c, low)), Half(high))
  {
    hide Xor, Half, Odd;
    XorShuffle(c, low, high);
    BitLinear(Xor(c, low), high);
  }

  /** Feeding a word's bits one at a time is the same as feeding them all at once. */
  lemma {:induction false} FeedWord(c: bv32, w: bv32, n: nat)
    requires Down(w, n) == 0
    ensures RunBits(c, LowBits(w, n)) == Bits(Xor(c, w), n)
    decreases n
  {
    hide Xor, Half, Odd, Bit, BitStep;
    if n == 0 {
      XorUnits(c, 0);
    } else {
      LowAndRest(c, w);
      FeedWord(BitStep(c, Odd(w)), Half(w), n - 1);
    }
  }

  lemma OctetIsLow(b: byte)
    ensures Down(Octet(b), 8) == 0
  {
    hide Down;
    Down8(Octet(b));
  }

  lemma {:induction false} RunIsRunBits(c: bv32, bytes: Bytes)
    ensures Run(c, bytes) == RunBits(c, Stream(bytes))
    decreases |bytes|
  {
    hide Xor, Bits, Octet, BitStep, Down, LowBits;
    if bytes != [] {
      var o: bv32 := Octet(bytes[0]);
      OctetIsLow(bytes[0]);
      FeedWord(c, o, 8);
      RunBitsConcat(c, LowBits(o, 8), Stream(bytes[1..]));
      RunIsRunBits(Bits(Xor(c, o), 8), bytes[1..]);
    }
  }

  // ---- What is undone by what: states, and bursts ----

  lemma BitStepInjective(c: bv32, d: bv32, bit: bool)
    requires BitStep(c, bit) == BitStep(d, bit)
    ensures c == d
  {
    BitInjective(Xor(c, Unit(bit)), Xor(d, Unit(bit)));
  }

  lemma BitInjective(c: bv32, d: bv32)
    requires Bit(c) == Bit(d)
    ensures c == d
  {
  }

  /** After the same bits, only the same register gives the same register. */
  lemma {:induction false} RunBitsInjective(c: bv32, d: bv32, bits: seq<bool>)
    requires RunBits(c, bits) == RunBits(d, bits)
    ensures c == d
    decreases |bits|
  {
    hide BitStep;
    if bits != [] {
      RunBitsInjective(BitStep(c, bits[0]), BitStep(d, bits[0]), bits[1..]);
      BitStepInjective(c, d, bits[0]);
    }
  }

  /** Two steps whose results differ in no top bit shifted the difference out and no more. */
  lemma StepsAgreeOnTop(c: bv32, d: bv32, p: bool, q: bool)
    requires Xor(BitStep(c, p), BitStep(d, q)) & 0x8000_0000 == 0
    ensures Xor(BitStep(c, p), BitStep(d, q)) == Half(Xor(c, d))
  {
    hide Xor, Half, Bit, Unit;
    var e := Unit(p != q);
    XorPairs(c, d, Unit(p), Unit(q));
    UnitXor(p, q);
    BitLinear(Xor(c, Unit(p)), Xor(d, Unit(q)));
    LowBitOnly(Xor(c, d), e);
  }

  lemma UnitXor(p: bool, q: bool)
    ensures Xor(Unit(p), Unit(q)) == Unit(p != q) <= 1
  {
  }

  lemma LowBitOnly(diff: bv32, e: bv32)
    requires e <= 1 && Bit(Xor(diff, e)) & 0x8000_0000 == 0
    ensures Bit(Xor(diff, e)) == Half(diff)
  {
  }

  /** Two registers that some bits - whatever they are - bring together within `n` steps
      differ only in their low `n` bits. */
  lemma {:induction false} MeetingRegisters(c: bv32, d: bv32, x: seq<bool>, y: seq<bool>)
    requires |x| == |y| <= 31
    requires RunBits(c, x) == RunBits(d, y)
    ensures Down(Xor(c, d), |x|) == 0
    decreases |x|
  {
    hide Xor, BitStep, Half;
    if x == [] {
      XorUnits(c, c);
    } else {
      var c', d' := BitStep(c, x[0]), BitStep(d, y[0]);
      MeetingRegisters(c', d', x[1..], y[1..]);
      TopClear(Xor(c', d'), |x| - 1);
      StepsAgreeOnTop(c, d, x[0], y[0]);
    }
  }

  lemma UnlikeBits(c: bv32, p: bool, q: bool)
    requires p != q
    ensures Xor(BitStep(c, p), BitStep(c, q)) == POLY
  {
    assert Xor(Xor(c, Unit(p)), Xor(c, Unit(q))) == 1;
    BitLinear(Xor(c, Unit(p)), Xor(c, Unit(q)));
  }

  /** From one register, different bits - up to thirty-two of them - give different
      registers. */
  lemma {:induction false} BurstInjective(c: bv32, x: seq<bool>, y: seq<bool>)
    requires |x| == |y| <= 32
    requires RunBits(c, x) == RunBits(c, y)
    ensures x == y
    decreases |x|
  {
    hide Xor, BitStep, Down;
    if x != [] {
      if x[0] != y[0] {
        MeetingRegisters(BitStep(c, x[0]), BitStep(c, y[0]), x[1..], y[1..]);
        UnlikeBits(c, x[0], y[0]);
        TopClear(POLY, |x| - 1);
        assert false;
      } else {
        BurstInjective(BitStep(c, x[0]), x[1..], y[1..]);
        assert x == [x[0]] + x[1..] && y == [y[0]] + y[1..];
      }
    }
  }

  lemma {:induction false} LowBitsInjective(v: bv32, w: bv32, n: nat)
    requires Down(v, n) == 0 && Down(w, n) == 0
    requires LowBits(v, n) == LowBits(w, n)
    ensures v == w
    decreases n
  {
    hide Half, Odd;
    if n > 0 {
      assert LowBits(v, n)[0] == LowBits(w, n)[0];
      assert LowBits(v, n)[1..] == LowBits(w, n)[1..];
      LowBitsInjective(Half(v), Half(w), n - 1);
      HalfAndParity(v, w);
    }
  }

  lemma ByteRoundTrip(b: byte)
    ensures (b as bv8) as int == b
  {
    assert b == b % 256;
  }

  lemma OctetInjective(a: byte, b: byte)
    requires Octet(a) == Octet(b)
    ensures a == b
  {
    ByteRoundTrip(a);
    ByteRoundTrip(b);
    assert a as bv8 == b as bv8;
  }

  lemma {:induction false} StreamInjective(a: Bytes, b: Bytes)
    requires Stream(a) == Stream(b)
    ensures a == b
    decreases |a|
  {
    hide Octet, LowBits, Down;
    assert |a| == |b|;
    if a != [] {
      assert Stream(a)[..8] == LowBits(Octet(a[0]), 8) && Stream(b)[..8] == LowBits(Octet(b[0]), 8);
      assert Stream(a)[8..] == Stream(a[1..]) && Stream(b)[8..] == Stream(b[1..]);
      OctetIsLow(a[0]);
      OctetIsLow(b[0]);
      LowBitsInjective(Octet(a[0]), Octet(b[0]), 8);
      OctetInjective(a[0], b[0]);
      StreamInjective(a[1..], b[1..]);
      assert a == [a[0]] + a[1..] && b == [b[0]] + b[1..];
    }
  }

  lemma {:induction false} StreamConcat(a: Bytes, b: Bytes)
    ensures Stream(a + b) == Stream(a) + Stream(b)
    decreases |a|
  {
    hide Octet, LowBits;
    if a == [] {
      assert a + b == b;
    } else {
      assert (a + b)[1..] == a[1..] + b;
      StreamConcat(a[1..], b);
    }
  }

  lemma SameChecksum(a: Bytes, b: Bytes)
    requires Checksum(a) == Checksum(b)
    ensures RunBits(START, Stream(a)) == RunBits(START, Stream(b))
  {
    hide Run, RunBits, Stream;
    RunIsRunBits(START, a);
    RunIsRunBits(START, b);
    NotInjective(Run(START, a), Run(START, b));
  }

  lemma NotInjective(c: bv32, d: bv32)
    requires Not(c) == Not(d)
    ensures c == d
  {
    assert !!c == c && !!d == d;
  }

  /** Two different files whose bits agree everywhere but in one run of at most
      thirty-two never have the same checksum. */
  lemma BurstChangesChecksum(a: Bytes, b: Bytes, from: nat, to: nat)
    requires a != b && |a| == |b|
    requires from <= to <= 8 * |a| && to - from <= 32
    requires Stream(a)[..from] == Stream(b)[..from] && Stream(a)[to..] == Stream(b)[to..]
    ensures Checksum(a) != Checksum(b)
  {
    hide Checksum, RunBits, Stream;
    if Checksum(a) == Checksum(b) {
      var x, y := Stream(a), Stream(b);
      SameChecksum(a, b);
      var c := RunBits(START, x[..from]);
      assert x == x[..from] + (x[from..to] + x[to..]) && y == y[..from] + (y[from..to] + y[to..]);
      RunBitsConcat(START, x[..from], x[from..to] + x[to..]);
      RunBitsConcat(START, y[..from], y[from..to] + y[to..]);
      RunBitsConcat(c, x[from..to], x[to..]);
      RunBitsConcat(c, y[from..to], y[to..]);
      RunBitsInjective(RunBits(c, x[from..to]), RunBits(c, y[from..to]), x[to..]);
      BurstInjective(c, x[from..to], y[from..to]);
      StreamInjective(a, b);
    }
  }

  /** The same for whole bytes: a change inside four consecutive ones. */
  lemma FourBytesChangeChecksum(head: Bytes, was: Bytes, now: Bytes, tail: Bytes)
    requires |was| == |now| <= 4 && was != now
    ensures Checksum(head + was + tail) != Checksum(head + now + tail)
  {
    hide Checksum, Stream;
    var a, b := head + was + tail, head + now + tail;
    assert a[|head|..|head| + |was|] == was && b[|head|..|head| + |was|] == now;
    StreamConcat(head + was, tail);
    StreamConcat(head + now, tail);
    StreamConcat(head, was);
    StreamConcat(head, now);
    BurstChangesChecksum(a, b, 8 * |head|, 8 * (|head| + |was|));
  }

  /** Thirty-two bits is as far as it goes: the generator polynomial itself, laid over any
      stretch of a file, spans thirty-three and changes nothing. */
  lemma ThirtyThreeBitsMayNot(c: bv32)
    ensures RunBits(c, [false] + LowBits(0, 32)) == RunBits(c, [true] + LowBits(POLY, 32))
  {
    hide Xor, Half, Odd, BitStep, RunBits, Down, LowBits;
    var c0, c1 := BitStep(c, false), BitStep(c, true);
    UnlikeBits(c, false, true);
    XorUnits(c0, c1);
    XorUnits(c0, 0);
    XorUnits(c1, POLY);
    XorUnits(POLY, c1);
    XorShuffle(c0, 0, c1);
    ThirtyTwoDown(POLY);
    ThirtyTwoDown(0);
    FeedWord(c1, POLY, 32);
    FeedWord(c0, 0, 32);
    RunBitsFirst(c, false, LowBits(0, 32));
    RunBitsFirst(c, true, LowBits(POLY, 32));
  }

  lemma RunBitsFirst(c: bv32, bit: bool, rest: seq<bool>)
    ensures RunBits(c, [bit] + rest) == RunBits(BitStep(c, bit), rest)
  {
    hide BitStep;
    assert ([bit] + rest)[1..] == rest;
  }

  lemma ThirtyTwoDown(x: bv32)
    ensures Down(x, 32) == 0
  {
    hide Half, Shr8, Down;
    DownAdd(x, 8, 24);
    DownAdd(Shr8(x), 8, 16);
    DownAdd(Shr8(Shr8(x)), 8, 8);
    Down8(x);
    Down8(Shr8(x));
    Down8(Shr8(Shr8(x)));
    Down8(Shr8(Shr8(Shr8(x))));
    ShiftedOut(x);
  }

  lemma ShiftedOut(x: bv32)
    ensures Shr8(Shr8(Shr8(Shr8(x)))) == 0
  {
  }

  // ---- It is the CRC-32 there is ----

  /** The exponents of the generator polynomial of ISO 3309. */
  const EXPONENTS: set<nat> := {32, 26, 23, 22, 16, 12, 11, 10, 8, 7, 5, 4, 2, 1, 0}

  /** Its coefficients, the highest first. */
  function Generator(): (g: seq<bool>)
    ensures |g| == 33
  {
    seq(33, i requires 0 <= i < 33 => 32 - i in EXPONENTS)
  }

  /** Two polynomials added, coefficient by coefficient. */
  function Plus(a: seq<bool>, b: seq<bool>): (r: seq<bool>)
    requires |a| == |b|
    ensures |r| == |a|
  {
    seq(|a|, i requires 0 <= i < |a| => a[i] != b[i])
  }

  /** What is left of a polynomial divided by the generator, as it is done on paper: the
      generator taken away under the highest coefficient as long as there is room for it. */
  function Remainder(p: seq<bool>): (r: seq<bool>)
    ensures |p| >= 32 ==> |r| == 32
    decreases |p|
  {
    if |p| <= 32 then p
    else if p[0] then Remainder(Plus(p[..33], Generator())[1..] + p[33..])
    else Remainder(p[1..])
  }

  function Falses(n: nat): (z: seq<bool>)
    ensures |z| == n
  {
    seq(n, _ => false)
  }

  /** A message made room after, with a register laid over its beginning. */
  function Laid(c: bv32, x: seq<bool>): (p: seq<bool>)
    ensures |p| == |x| + 32
  {
    Plus(LowBits(c, 32) + Falses(|x|), x + Falses(32))
  }

  lemma {:induction false} LowBitsOfXor(x: bv32, y: bv32, n: nat)
    ensures LowBits(Xor(x, y), n) == Plus(LowBits(x, n), LowBits(y, n))
    decreases n
  {
    hide Xor, Half, Odd, LowBits, Plus;
    if n == 0 {
      NoBits(x);
      NoBits(y);
      NoBits(Xor(x, y));
      PlusNothing();
    } else {
      HalfOfXor(x, y);
      LowBitsOfXor(Half(x), Half(y), n - 1);
      LowBitsFirst(x, n);
      LowBitsFirst(y, n);
      LowBitsFirst(Xor(x, y), n);
      PlusFirst(Odd(x), LowBits(Half(x), n - 1), Odd(y), LowBits(Half(y), n - 1));
    }
  }

  lemma PlusFirst(p: bool, a: seq<bool>, q: bool, b: seq<bool>)
    requires |a| == |b|
    ensures Plus([p] + a, [q] + b) == [p != q] + Plus(a, b)
  {
  }

  lemma PlusNothing()
    ensures Plus([], []) == []
  {
  }

  lemma {:induction false} LowBitsGrow(x: bv32, n: nat)
    ensures LowBits(x, n + 1) == LowBits(x, n) + [Odd(Down(x, n))]
    decreases n
  {
    hide Half, Odd;
    if n > 0 {
      LowBitsGrow(Half(x), n - 1);
    }
  }

  /** Half a register is its bits moved up one place, with none at the end. */
  lemma LowBitsOfHalf(x: bv32)
    ensures LowBits(Half(x), 32) == LowBits(x, 32)[1..] + [false]
  {
    hide Half, Odd, Down, LowBits;
    LowBitsGrow(x, 32);
    ThirtyTwoDown(x);
    LowBitsFirst(x, 33);
    LowBitsFirst(x, 32);
    ZeroIsEven();
    assert LowBits(x, 33)[1..] == LowBits(x, 32)[1..] + [false];
  }

  lemma ZeroIsEven()
    ensures !Odd(0)
  {
  }

  lemma LowBitsFirst(x: bv32, n: nat)
    requires n > 0
    ensures LowBits(x, n) == [Odd(x)] + LowBits(Half(x), n - 1) && LowBits(x, n)[1..] == LowBits(Half(x), n - 1)
  {
  }

  lemma {:induction false} LowBitsSplit(x: bv32, m: nat, n: nat)
    ensures LowBits(x, m + n) == LowBits(x, m) + LowBits(Down(x, m), n)
    decreases m
  {
    hide Half, Odd;
    if m > 0 {
      LowBitsSplit(Half(x), m - 1, n);
    }
  }

  /** The lowest four bits of a number, and the rest. */
  lemma Nibble(x: bv32, n: nat)
    requires n >= 4
    ensures LowBits(x, n) == [x & 1 == 1, x & 2 == 2, x & 4 == 4, x & 8 == 8] + LowBits(x >> 4, n - 4)
  {
    hide Half, Odd, LowBits, Down;
    LowBitsSplit(x, 4, n - 4);
    FirstBit(x);
    SecondBit(x);
    ThirdBit(x);
    FourthBit(x);
    FourDown(x);
    LowFour(x);
    DownFour(x);
  }

  lemma LowFour(x: bv32)
    ensures LowBits(x, 4) == [Odd(x), Odd(Half(x)), Odd(Half(Half(x))), Odd(Half(Half(Half(x))))]
  {
    hide Half, Odd;
    assert LowBits(x, 4) == [Odd(x)] + LowBits(Half(x), 3);
    assert LowBits(Half(x), 3) == [Odd(Half(x))] + LowBits(Half(Half(x)), 2);
  }

  lemma DownFour(x: bv32)
    ensures Down(x, 4) == Half(Half(Half(Half(x))))
  {
    hide Half;
    assert Down(x, 4) == Down(Half(x), 3) == Down(Half(Half(x)), 2);
  }

  lemma FirstBit(x: bv32)
    ensures Odd(x) == (x & 1 == 1)
  {
  }

  lemma SecondBit(x: bv32)
    ensures Odd(Half(x)) == (x & 2 == 2)
  {
  }

  lemma ThirdBit(x: bv32)
    ensures Odd(Half(Half(x))) == (x & 4 == 4)
  {
  }

  lemma FourthBit(x: bv32)
    ensures Odd(Half(Half(Half(x)))) == (x & 8 == 8)
  {
  }

  lemma FourDown(x: bv32)
    ensures Half(Half(Half(Half(x)))) == x >> 4
  {
  }

  lemma PolyBits()
    ensures LowBits(POLY, 32) ==
            [false, false, false, false, false, true, false, false,
             true, true, false, false, false, false, false, true,
             false, false, false, true, true, true, false, true,
             true, false, true, true, false, true, true, true]
  {
    hide LowBits;
    LowerPolyBits();
    UpperPolyBits();
  }

  lemma LowerPolyBits()
    ensures LowBits(POLY, 32) ==
            [false, false, false, false, false, true, false, false,
             true, true, false, false, false, false, false, true] + LowBits(0xEDB8, 16)
  {
    hide LowBits;
    Nibble(0xEDB8_8320, 32);
    Nibble(0x0EDB_8832, 28);
    Nibble(0x00ED_B883, 24);
    Nibble(0x000E_DB88, 20);
  }

  lemma UpperPolyBits()
    ensures LowBits(0xEDB8, 16) ==
            [false, false, false, true, true, true, false, true,
             true, false, true, true, false, true, true, true]
  {
    hide LowBits;
    Nibble(0xEDB8, 16);
    Nibble(0x0EDB, 12);
    Nibble(0x00ED, 8);
    Nibble(0x000E, 4);
    NoBits(0);
  }

  lemma NoBits(x: bv32)
    ensures LowBits(x, 0) == []
  {
  }

  /** The constant of the loops is the generator's coefficients but the first. */
  lemma PolyIsGenerator()
    ensures LowBits(POLY, 32) == Generator()[1..] && Generator()[0]
  {
    PolyBits();
    hide LowBits;
    var g := Generator();
    assert forall i :: 0 <= i < 33 ==> g[i] == (32 - i in EXPONENTS);
  }

  /** A step of the register is a step of the division. */
  lemma OneDivision(c: bv32, bit: bool)
    ensures LowBits(BitStep(c, bit), 32) ==
            if Odd(c) != bit then Plus(LowBits(c, 32)[1..] + [false], Generator()[1..])
            else LowBits(c, 32)[1..] + [false]
  {
    FedParity(c, bit);
    hide LowBits, Odd, Half, Xor, Unit, Generator, Plus;
    LowBitsOfHalf(c);
    LowBitsOfXor(Half(c), POLY, 32);
    PolyIsGenerator();
  }

  lemma FedParity(c: bv32, bit: bool)
    ensures Odd(Xor(c, Unit(bit))) == (Odd(c) != bit) && Half(Xor(c, Unit(bit))) == Half(c)
  {
  }

  lemma LaidAt(c: bv32, x: seq<bool>, i: nat)
    requires i < |x| + 32
    ensures Laid(c, x)[i] == ((i < 32 && LowBits(c, 32)[i]) != (i < |x| && x[i]))
  {
    hide LowBits;
  }

  lemma AfterAt(c: bv32, bit: bool, i: nat)
    requires i < 32
    ensures LowBits(BitStep(c, bit), 32)[i] ==
            ((i < 31 && LowBits(c, 32)[i + 1]) != (Odd(c) != bit && Generator()[i + 1]))
  {
    OneDivision(c, bit);
    hide LowBits, Odd, BitStep, Generator;
  }

  lemma NextAt(c: bv32, x: seq<bool>, i: nat)
    requires x != [] && i < |x| + 31
    ensures Laid(BitStep(c, x[0]), x[1..])[i] ==
            (Laid(c, x)[i + 1] != (Odd(c) != x[0] && i < 32 && Generator()[i + 1]))
  {
    hide LowBits, Odd, BitStep, Generator, Laid;
    LaidAt(c, x, i + 1);
    LaidAt(BitStep(c, x[0]), x[1..], i);
    if i < 32 {
      AfterAt(c, x[0], i);
    }
  }

  lemma LaidNext(c: bv32, x: seq<bool>)
    requires x != []
    ensures var p, next := Laid(c, x), Laid(BitStep(c, x[0]), x[1..]);
      && p[0] == (Odd(c) != x[0])
      && next == if p[0] then Plus(p[..33], Generator())[1..] + p[33..] else p[1..]
  {
    LaidAt(c, x, 0);
    LowBitsFirst(c, 32);
    hide LowBits, Odd, BitStep, Generator, Laid;
    var p, next := Laid(c, x), Laid(BitStep(c, x[0]), x[1..]);
    forall i | 0 <= i < |next| ensures next[i] == (p[i + 1] != (p[0] && i < 32 && Generator()[i + 1])) {
      NextAt(c, x, i);
    }
    Divided(p, next);
  }

  lemma Divided(p: seq<bool>, next: seq<bool>)
    requires |p| == |next| + 1 >= 33
    requires forall i :: 0 <= i < |next| ==> next[i] == (p[i + 1] != (p[0] && i < 32 && Generator()[i + 1]))
    ensures next == if p[0] then Plus(p[..33], Generator())[1..] + p[33..] else p[1..]
  {
    hide Generator;
  }

  /** What is in the register after some bits is what is left of dividing them. */
  lemma {:induction false} RunBitsDivides(c: bv32, x: seq<bool>)
    ensures LowBits(RunBits(c, x), 32) == Remainder(Laid(c, x))
    decreases |x|
  {
    hide LowBits, BitStep, Generator, Plus;
    if x == [] {
      NothingLaid(c);
    } else {
      RunBitsDivides(BitStep(c, x[0]), x[1..]);
      LaidNext(c, x);
    }
  }

  lemma NothingLaid(c: bv32)
    ensures Laid(c, []) == LowBits(c, 32)
  {
    hide LowBits;
  }

  /** The checksum of any file, as section 8 of RFC 1952 and ISO 3309 have it: its bits, the
      lowest of each byte first, room made after them, the first thirty-two turned over, and
      divided by the generator; and what is left, the highest coefficient in the lowest bit,
      turned over again. */
  lemma ChecksumIsRemainder(bytes: Bytes)
    ensures var x := Stream(bytes) + Falses(32);
      LowBits(Checksum(bytes), 32) == Turned(Remainder(Turned(x[..32]) + x[32..]))
  {
    hide LowBits, Run, RunBits, Remainder, Stream;
    var x := Stream(bytes) + Falses(32);
    RunIsRunBits(START, bytes);
    RunBitsDivides(START, Stream(bytes));
    var ones := LowBits(START, 32);
    StartIsOnes();
    assert Laid(START, Stream(bytes)) == Turned(x[..32]) + x[32..];
    LowBitsOfNot(Run(START, bytes));
  }

  /** Every coefficient the other way round. */
  function Turned(p: seq<bool>): (r: seq<bool>)
    ensures |r| == |p|
  {
    seq(|p|, i requires 0 <= i < |p| => !p[i])
  }

  lemma StartIsOnes()
    ensures forall i :: 0 <= i < 32 ==> LowBits(START, 32)[i]
  {
    hide LowBits;
    Nibble(0xFFFF_FFFF, 32);
    Nibble(0x0FFF_FFFF, 28);
    Nibble(0x00FF_FFFF, 24);
    Nibble(0x000F_FFFF, 20);
    Nibble(0x0000_FFFF, 16);
    Nibble(0x0000_0FFF, 12);
    Nibble(0x0000_00FF, 8);
    Nibble(0x0000_000F, 4);
    NoBits(0);
  }

  lemma LowBitsOfNot(c: bv32)
    ensures LowBits(Not(c), 32) == Turned(LowBits(c, 32))
  {
    NotIsXor(c);
    hide LowBits, Xor, Not;
    LowBitsOfXor(c, START, 32);
    StartIsOnes();
  }

  lemma NotIsXor(c: bv32)
    ensures Not(c) == Xor(c, START)
  {
  }

  /** A file with its own checksum after it leaves one register, whatever the file. */
  lemma ResidueIsOne(bytes: Bytes)
    ensures RunBits(START, Stream(bytes) + LowBits(Checksum(bytes), 32)) == 0xDEBB_20E3
  {
    hide LowBits, Run, RunBits, Stream, Bits, Xor, Not, Down;
    var c := Run(START, bytes);
    RunIsRunBits(START, bytes);
    RunBitsConcat(START, Stream(bytes), LowBits(Not(c), 32));
    ThirtyTwoDown(Not(c));
    FeedWord(c, Not(c), 32);
    OnesFromNot(c);
    Residue();
  }

  lemma OnesFromNot(c: bv32)
    ensures Xor(c, Not(c)) == 0xFFFF_FFFF
  {
  }

  lemma {:induction false} BitsAdd(c: bv32, m: nat, n: nat)
    ensures Bits(c, m + n) == Bits(Bits(c, m), n)
    decreases m
  {
    hide Bit;
    if m > 0 {
      BitsAdd(Bit(c), m - 1, n);
    }
  }

  lemma Residue()
    ensures Bits(0xFFFF_FFFF, 32) == 0xDEBB_20E3
  {
    hide Bits;
    BitsAdd(0xFFFF_FFFF, 16, 16);
    FirstHalf();
    SecondHalf();
  }

  lemma FirstHalf()
    ensures Bits(0xFFFF_FFFF, 16) == 0xBE26_ED00
  {
    BitsAdd(0xFFFF_FFFF, 8, 8);
    assert Bits(0xFFFF_FFFF, 8) == 0x2DFD_1072;
    assert Bits(0x2DFD_1072, 8) == 0xBE26_ED00;
  }

  lemma SecondHalf()
    ensures Bits(0xBE26_ED00, 16) == 0xDEBB_20E3
  {
    BitsAdd(0xBE26_ED00, 8, 8);
    assert Bits(0xBE26_ED00, 8) == 0x00BE_26ED;
    assert Bits(0x00BE_26ED, 8) == 0xDEBB_20E3;
  }

  /** The check value: of the digits from one to nine. */
  lemma CheckValue()
    ensures Checksum([49, 50, 51, 52, 53, 54, 55, 56, 57]) == 0xCBF4_3926
  {
    hide Run;
    OneToThree();
    FourToSix();
    SevenToNine();
    RunConcat(START, [49, 50, 51], [52, 53, 54]);
    RunConcat(START, [49, 50, 51, 52, 53, 54], [55, 56, 57]);
    assert [49, 50, 51] + [52, 53, 54] == [49, 50, 51, 52, 53, 54];
    assert [49, 50, 51, 52, 53, 54] + [55, 56, 57] == [49, 50, 51, 52, 53, 54, 55, 56, 57];
  }

  lemma OneToThree()
    ensures Run(0xFFFF_FFFF, [49, 50, 51]) == 0x77B7_9C2D
  {
    hide Run;
    OneByte(0xFFFF_FFFF, 49, 0xFFFF_FFCE, [50, 51]);
    assert Bits(0xFFFF_FFCE, 8) == 0x7C23_1048;
    OneByte(0x7C23_1048, 50, 0x7C23_107A, [51]);
    assert Bits(0x7C23_107A, 8) == 0xB0AC_BB32;
    OneByte(0xB0AC_BB32, 51, 0xB0AC_BB01, []);
    assert Bits(0xB0AC_BB01, 8) == 0x77B7_9C2D;
    assert [49] + [50, 51] == [49, 50, 51];
    assert [50] + [51] == [50, 51] && [51] + [] == [51];
    NoBytes(0x77B7_9C2D);
  }

  lemma FourToSix()
    ensures Run(0x77B7_9C2D, [52, 53, 54]) == 0xF68D_2C9E
  {
    hide Run;
    OneByte(0x77B7_9C2D, 52, 0x77B7_9C19, [53, 54]);
    assert Bits(0x77B7_9C19, 8) == 0x641C_1F5C;
    OneByte(0x641C_1F5C, 53, 0x641C_1F69, [54]);
    assert Bits(0x641C_1F69, 8) == 0x340A_C5E3;
    OneByte(0x340A_C5E3, 54, 0x340A_C5D5, []);
    assert Bits(0x340A_C5D5, 8) == 0xF68D_2C9E;
    assert [52] + [53, 54] == [52, 53, 54];
    assert [53] + [54] == [53, 54] && [54] + [] == [54];
    NoBytes(0xF68D_2C9E);
  }

  lemma SevenToNine()
    ensures Run(0xF68D_2C9E, [55, 56, 57]) == 0x340B_C6D9
  {
    hide Run;
    OneByte(0xF68D_2C9E, 55, 0xF68D_2CA9, [56, 57]);
    assert Bits(0xF68D_2CA9, 8) == 0xAFFC_9660;
    OneByte(0xAFFC_9660, 56, 0xAFFC_9658, [57]);
    assert Bits(0xAFFC_9658, 8) == 0x651F_2550;
    OneByte(0x651F_2550, 57, 0x651F_2569, []);
    assert Bits(0x651F_2569, 8) == 0x340B_C6D9;
    assert [55] + [56, 57] == [55, 56, 57];
    assert [56] + [57] == [56, 57] && [57] + [] == [57];
    NoBytes(0x340B_C6D9);
  }

  lemma OneByte(c: bv32, b: byte, fed: bv32, rest: Bytes)
    requires fed == Xor(c, Octet(b))
    ensures Run(c, [b] + rest) == Run(Bits(fed, 8), rest)
  {
    assert ([b] + rest)[1..] == rest;
  }

  lemma NoBytes(c: bv32)
    ensures Run(c, []) == c
  {
  }
}
