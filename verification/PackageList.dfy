/** A package's list: how the staging tool writes it and how `qpkg` reads it back. */
module PackageList {
  import opened Bytes

  const NEWLINE: byte := 10
  const SPACE: byte := 32

  const D: byte := 100
  const F: byte := 102
  const Y: byte := 121
  const L: byte := 108
  const C: byte := 99

  /** How long a list may not be: the buffer one is read to. */
  const RECORD_MAX := 256 * 4096

  const NAME: Bytes := [110, 97, 109, 101]
  const VERSION: Bytes := [118, 101, 114, 115, 105, 111, 110]
  const SET: Bytes := [115, 101, 116]
  const ABOUT: Bytes := [97, 98, 111, 117, 116]

  type u64 = x: int | 0 <= x < U64 witness 0

  /** One line of a list, as `qpkg` reads it. */
  datatype Line =
    | Says(key: Bytes, value: Bytes)
    | Dir(mode: u32, path: Bytes)
    | File(crc: u32, size: u64, path: Bytes)
    | Yours(crc: u32, size: u64, path: Bytes)
    | Link(path: Bytes)
    | May(path: Bytes, what: Bytes)

  /** One line of a list, as the staging tool has it to write: a directory's mode is the
      text the configuration gave. */
  datatype Entry =
    | Head(key: Bytes, value: Bytes)
    | Want(mode: Bytes, path: Bytes)
    | Owns(yours: bool, crc: u32, size: u64, path: Bytes)
    | Points(path: Bytes)
    | Asks(path: Bytes, what: Bytes)

  // ---- Reading ----

  /** The value of a digit, either case, as `char::to_digit` has it. */
  function Digit(b: byte, radix: nat): Option<nat> {
    var d := if 48 <= b <= 57 then b - 48
             else if 97 <= b <= 122 then b - 87
             else if 65 <= b <= 90 then b - 55
             else radix;
    if d < radix then Some(d) else None
  }

  /** A number with one more digit, refused when it does not fit sixty-four bits. */
  function Onward(n: u64, b: byte, radix: nat): Option<u64> {
    match Digit(b, radix)
    case None => None
    case Some(d) => if n * radix >= U64 || n * radix + d >= U64 then None else Some(n * radix + d)
  }

  /** A number read on from `n`. */
  function NumberFrom(n: u64, digits: Bytes, radix: nat): Option<u64>
    decreases |digits|
  {
    if digits == [] then Some(n) else
      match Onward(n, digits[0], radix)
      case None => None
      case Some(m) => NumberFrom(m, digits[1..], radix)
  }

  function Number(digits: Bytes, radix: nat): Option<u64> {
    if digits == [] then None else NumberFrom(0, digits, radix)
  }

  /** Bytes cut in two at the first space, which is lost. */
  function FirstWord(s: Bytes): Option<(Bytes, Bytes)> {
    var at := Index(s, SPACE);
    if at == |s| then None else Some((s[..at], s[at + 1..]))
  }

  function ReadFile(yours: bool, rest: Bytes): Option<Line> {
    match FirstWord(rest)
    case None => None
    case Some((crc, rest)) =>
      match FirstWord(rest)
      case None => None
      case Some((size, path)) =>
        match Number(crc, 16)
        case None => None
        case Some(c) =>
          match Number(size, 10)
          case None => None
          case Some(n) => Some(if yours then Yours(c % U32, n, path) else File(c % U32, n, path))
  }

  function ReadLine(line: Bytes): Option<Line> {
    match FirstWord(line)
    case None => None
    case Some((key, rest)) =>
      if key == [D] then
        match FirstWord(rest)
        case None => None
        case Some((mode, path)) =>
          match Number(mode, 8)
          case None => None
          case Some(m) => Some(Dir(m % U32, path))
      else if key == [F] || key == [Y] then ReadFile(key == [Y], rest)
      else if key == [L] then Some(Link(rest))
      else if key == [C] then
        match FirstWord(rest)
        case None => None
        case Some((path, what)) => Some(May(path, what))
      else Some(Says(key, rest))
  }

  /** The lines that read as something, in order. */
  function ReadAll(parts: seq<Bytes>): seq<Line> {
    if parts == [] then [] else
      match ReadLine(parts[0])
      case None => ReadAll(parts[1..])
      case Some(line) => [line] + ReadAll(parts[1..])
  }

  function Lines(list: Bytes): seq<Line> {
    ReadAll(Split(list, NEWLINE))
  }

  /** What some lines say for `key`: the first that says anything, or nothing. */
  function SaidIn(lines: seq<Line>, key: Bytes): Bytes {
    if lines == [] then []
    else if lines[0].Says? && lines[0].key == key then lines[0].value
    else SaidIn(lines[1..], key)
  }

  function Said(list: Bytes, key: Bytes): Bytes {
    SaidIn(Lines(list), key)
  }

  function Wrap(n: nat): u64 {
    n % U64
  }

  /** One line's part in the count, as a `u64` counts bytes. */
  function Tally(n: nat, bytes: u64, line: Line): (nat, u64) {
    match line
    case File(_, size, _) => (n + 1, Wrap(bytes + size))
    case Yours(_, size, _) => (n + 1, Wrap(bytes + size))
    case Link(_) => (n + 1, bytes)
    case _ => (n, bytes)
  }

  function WeightFrom(n: nat, bytes: u64, lines: seq<Line>): (nat, u64)
    decreases |lines|
  {
    if lines == [] then (n, bytes) else
      var t := Tally(n, bytes, lines[0]);
      WeightFrom(t.0, t.1, lines[1..])
  }

  /** The count and the byte total of what a list has its package own. */
  function Weight(list: Bytes): (nat, u64) {
    WeightFrom(0, 0, Lines(list))
  }

  // ---- Writing ----

  function DigitChar(d: nat): byte
    requires d < 16
  {
    if d < 10 then 48 + d else 87 + d
  }

  function Decimal(n: nat): Bytes {
    if n < 10 then [DigitChar(n)] else Decimal(n / 10) + [DigitChar(n % 10)]
  }

  /** The low `width` hexadecimal digits. */
  function Hex(n: nat, width: nat): Bytes
    decreases width
  {
    if width == 0 then [] else Hex(n / 16, width - 1) + [DigitChar(n % 16)]
  }

  function Render(e: Entry): Bytes {
    match e
    case Head(key, value) => key + [SPACE] + value
    case Want(mode, path) => [D] + [SPACE] + (mode + [SPACE] + path)
    case Owns(yours, crc, size, path) =>
      [if yours then Y else F] + [SPACE] + (Hex(crc, 8) + [SPACE] + (Decimal(size) + [SPACE] + path))
    case Points(path) => [L] + [SPACE] + path
    case Asks(path, what) => [C] + [SPACE] + (path + [SPACE] + what)
  }

  function Text(entries: seq<Entry>): Bytes {
    if entries == [] then [] else Render(entries[0]) + [NEWLINE] + Text(entries[1..])
  }

  /** What an entry is meant to be read back as: nothing, for a directory whose mode is
      not a number. */
  function Meaning(e: Entry): Option<Line> {
    match e
    case Head(key, value) => Some(Says(key, value))
    case Want(mode, path) =>
      (match Number(mode, 8)
       case None => None
       case Some(m) => Some(Dir(m % U32, path)))
    case Owns(yours, crc, size, path) => Some(if yours then Yours(crc, size, path) else File(crc, size, path))
    case Points(path) => Some(Link(path))
    case Asks(path, what) => Some(May(path, what))
  }

  function Meanings(entries: seq<Entry>): seq<Line> {
    if entries == [] then [] else
      match Meaning(entries[0])
      case None => Meanings(entries[1..])
      case Some(line) => [line] + Meanings(entries[1..])
  }

  predicate Keyword(key: Bytes) {
    key in {[D], [F], [Y], [L], [C]}
  }

  /** What the format can carry. */
  predicate Writable(e: Entry) {
    match e
    case Head(key, value) => SPACE !in key && NEWLINE !in key && !Keyword(key) && NEWLINE !in value
    case Want(mode, path) => SPACE !in mode && NEWLINE !in mode && NEWLINE !in path
    case Owns(_, _, _, path) => NEWLINE !in path
    case Points(path) => NEWLINE !in path
    case Asks(path, what) => SPACE !in path && NEWLINE !in path && NEWLINE !in what
  }

  /** Apart from newlines: each first word ends where it should. */
  predicate Spaced(e: Entry) {
    match e
    case Head(key, value) => SPACE !in key && !Keyword(key)
    case Want(mode, path) => SPACE !in mode
    case Asks(path, what) => SPACE !in path
    case _ => true
  }

  /** Each entry is one line, whatever that line is read as. */
  predicate Lined(entries: seq<Entry>) {
    forall e :: e in entries ==> NEWLINE !in Render(e)
  }

  function Rendered(entries: seq<Entry>): seq<Bytes> {
    if entries == [] then [] else [Render(entries[0])] + Rendered(entries[1..])
  }

  /** What is read of some entries' lines. */
  function ReadEntries(entries: seq<Entry>): seq<Line> {
    ReadAll(Rendered(entries))
  }

  // ---- Numbers come back ----

  lemma {:induction false} NumberFromConcat(n: u64, a: Bytes, b: Bytes, radix: nat)
    requires NumberFrom(n, a, radix).Some?
    ensures NumberFrom(n, a + b, radix) == NumberFrom(NumberFrom(n, a, radix).value, b, radix)
    decreases |a|
  {
    hide Onward;
    if a == [] {
      assert a + b == b;
    } else {
      assert (a + b)[1..] == a[1..] + b;
      NumberFromConcat(Onward(n, a[0], radix).value, a[1..], b, radix);
    }
  }

  lemma DigitBack(d: nat, radix: nat)
    requires d < radix <= 16
    ensures Digit(DigitChar(d), radix) == Some(d)
  {
  }

  /** One more digit on the end of a number. */
  lemma OneDigit(n: u64, d: nat, radix: nat)
    requires d < radix <= 16 && n * radix + d < U64
    ensures NumberFrom(n, [DigitChar(d)], radix) == Some(n * radix + d)
  {
    hide Digit, DigitChar;
    DigitBack(d, radix);
    var digits := [DigitChar(d)];
    assert digits[1..] == [];
    NoDigits(n * radix + d, radix);
  }

  lemma NoDigits(n: u64, radix: nat)
    ensures NumberFrom(n, [], radix) == Some(n)
  {
  }

  lemma DecimalFirst(n: nat)
    ensures n < 10 ==> Decimal(n) == [DigitChar(n)]
    ensures n >= 10 ==> Decimal(n) == Decimal(n / 10) + [DigitChar(n % 10)]
  {
  }

  lemma PlainDigit(d: nat)
    requires d < 16
    ensures DigitChar(d) != SPACE && DigitChar(d) != NEWLINE
  {
  }

  lemma {:induction false} DecimalBack(n: u64)
    ensures Decimal(n) != [] && NumberFrom(0, Decimal(n), 10) == Some(n)
    ensures SPACE !in Decimal(n) && NEWLINE !in Decimal(n)
    decreases n
  {
    hide Decimal, NumberFrom, DigitChar;
    DecimalFirst(n);
    PlainDigit(n % 10);
    if n < 10 {
      OneDigit(0, n, 10);
    } else {
      DecimalBack(n / 10);
      OneDigit(n / 10, n % 10, 10);
      NumberFromConcat(0, Decimal(n / 10), [DigitChar(n % 10)], 10);
    }
  }

  /** A digit as it is written, either case. */
  predicate Shows(b: byte, d: nat) {
    d < 16 && (b == "0123456789abcdef"[d] as int || b == "0123456789ABCDEF"[d] as int)
  }

  /** What some digits come to, each counting for the radix times as much as the next. */
  function Value(digits: seq<nat>, radix: nat): nat {
    if digits == [] then 0 else Value(digits[..|digits| - 1], radix) * radix + digits[|digits| - 1]
  }

  lemma DigitExactly(b: byte, radix: nat, d: nat)
    requires radix <= 16
    ensures Digit(b, radix) == Some(d) <==> d < radix && Shows(b, d)
  {
    if d < 16 {
      assert "0123456789abcdef"[d] as int == if d < 10 then 48 + d else 87 + d;
      assert "0123456789ABCDEF"[d] as int == if d < 10 then 48 + d else 55 + d;
    }
  }

  lemma {:induction false} NumberFromNone(n: u64, a: Bytes, b: Bytes, radix: nat)
    requires NumberFrom(n, a, radix).None?
    ensures NumberFrom(n, a + b, radix).None?
    decreases |a|
  {
    hide Onward;
    assert (a + b)[1..] == a[1..] + b;
    if Onward(n, a[0], radix).Some? {
      NumberFromNone(Onward(n, a[0], radix).value, a[1..], b, radix);
    }
  }

  lemma LastDigit(n: u64, b: byte, radix: nat)
    ensures NumberFrom(n, [b], radix) == Onward(n, b, radix)
  {
    hide Onward;
    assert [b][1..] == [];
    if Onward(n, b, radix).Some? {
      NoDigits(Onward(n, b, radix).value, radix);
    }
  }

  /** Digits are read as what they come to, if that fits in sixty-four bits, and as no number if
      it does not. */
  lemma {:induction false} NumberFromExactly(digits: Bytes, worth: seq<nat>, radix: nat)
    requires |digits| == |worth| && 1 <= radix <= 16
    requires forall i :: 0 <= i < |digits| ==> worth[i] < radix && Shows(digits[i], worth[i])
    ensures NumberFrom(0, digits, radix) == if Value(worth, radix) < U64 then Some(Value(worth, radix)) else None
    decreases |digits|
  {
    hide NumberFrom, Onward, Shows;
    if digits == [] {
      NoDigits(0, radix);
    } else {
      var n := |digits| - 1;
      var before, m := digits[..n], Value(worth[..n], radix);
      assert digits == before + [digits[n]];
      NumberFromExactly(before, worth[..n], radix);
      OneDigitOn(m, digits[n], worth[n], radix);
      if m < U64 {
        NumberFromConcat(0, before, [digits[n]], radix);
        LastDigit(m, digits[n], radix);
      } else {
        NumberFromNone(0, before, [digits[n]], radix);
      }
    }
  }

  lemma OneDigitOn(m: nat, b: byte, d: nat, radix: nat)
    requires 1 <= radix <= 16 && d < radix && Shows(b, d)
    ensures m * radix + d >= m
    ensures m < U64 ==> Onward(m, b, radix) == if m * radix + d < U64 then Some(m * radix + d) else None
  {
    hide Digit, Shows;
    DigitExactly(b, radix, d);
    assert m * radix >= m;
  }

  /** And bytes of which one is no digit are read as no number. */
  lemma NotANumber(digits: Bytes, at: nat, radix: nat)
    requires at < |digits| && radix <= 16 && forall d: nat :: d < radix ==> !Shows(digits[at], d)
    ensures Number(digits, radix).None?
  {
    hide NumberFrom, Digit, Shows;
    var before, rest := digits[..at], digits[at + 1..];
    assert digits == before + ([digits[at]] + rest) && before + [digits[at]] + rest == digits;
    if NumberFrom(0, before, radix).Some? {
      var n := NumberFrom(0, before, radix).value;
      if Digit(digits[at], radix).Some? {
        DigitExactly(digits[at], radix, Digit(digits[at], radix).value);
      }
      LastDigit(n, digits[at], radix);
      NumberFromConcat(0, before, [digits[at]], radix);
    } else {
      NumberFromNone(0, before, [digits[at]], radix);
    }
    NumberFromNone(0, before + [digits[at]], rest, radix);
  }

  function Power16(k: nat): nat {
    if k == 0 then 1 else 16 * Power16(k - 1)
  }

  lemma HexFirst(n: nat, width: nat)
    ensures Hex(n, 0) == []
    ensures width > 0 ==> Hex(n, width) == Hex(n / 16, width - 1) + [DigitChar(n % 16)]
  {
  }

  lemma {:induction false} HexBack(n: nat, width: nat)
    requires width <= 16 && n < Power16(width) <= U64
    ensures NumberFrom(0, Hex(n, width), 16) == Some(n)
    ensures |Hex(n, width)| == width
    ensures SPACE !in Hex(n, width) && NEWLINE !in Hex(n, width)
    decreases width
  {
    hide Hex, NumberFrom, DigitChar;
    HexFirst(n, width);
    if width == 0 {
      NoDigits(0, 16);
    } else {
      HexBack(n / 16, width - 1);
      PlainDigit(n % 16);
      OneDigit(n / 16, n % 16, 16);
      NumberFromConcat(0, Hex(n / 16, width - 1), [DigitChar(n % 16)], 16);
    }
  }

  lemma Hex8Back(crc: u32)
    ensures Number(Hex(crc, 8), 16) == Some(crc)
    ensures SPACE !in Hex(crc, 8) && NEWLINE !in Hex(crc, 8)
  {
    assert Power16(4) == 16 * (16 * (16 * 16)) by { assert Power16(2) == 256; }
    assert Power16(8) == U32 by { assert Power16(6) == 256 * Power16(4); }
    HexBack(crc, 8);
  }

  // ---- Lists come back ----

  lemma FirstWordBack(a: Bytes, b: Bytes)
    requires SPACE !in a
    ensures FirstWord(a + [SPACE] + b) == Some((a, b))
  {
    var s := a + [SPACE] + b;
    assert s[..|a|] == a && s[|a| + 1..] == b;
    IndexAt(s, SPACE, |a|);
  }

  lemma OwnsBack(yours: bool, crc: u32, size: u64, path: Bytes)
    ensures ReadFile(yours, Hex(crc, 8) + [SPACE] + (Decimal(size) + [SPACE] + path)) ==
            Some(if yours then Yours(crc, size, path) else File(crc, size, path))
  {
    hide Hex, Decimal, FirstWord, NumberFrom;
    Hex8Back(crc);
    DecimalBack(size);
    FirstWordBack(Hex(crc, 8), Decimal(size) + [SPACE] + path);
    FirstWordBack(Decimal(size), path);
  }

  lemma ReadBack(e: Entry)
    requires Spaced(e)
    ensures ReadLine(Render(e)) == Meaning(e)
  {
    hide ReadFile, FirstWord, Number, Hex, Decimal;
    match e
    case Head(key, value) => FirstWordBack(key, value);
    case Want(mode, path) =>
      FirstWordBack([D], mode + [SPACE] + path);
      FirstWordBack(mode, path);
    case Owns(yours, crc, size, path) =>
      FirstWordBack([if yours then Y else F], Hex(crc, 8) + [SPACE] + (Decimal(size) + [SPACE] + path));
      OwnsBack(yours, crc, size, path);
    case Points(path) => FirstWordBack([L], path);
    case Asks(path, what) =>
      FirstWordBack([C], path + [SPACE] + what);
      FirstWordBack(path, what);
  }

  /** A line asking for something is read as one, if not always of the same file. */
  lemma AsksBack(path: Bytes, what: Bytes)
    ensures ReadLine(Render(Asks(path, what))).Some? && ReadLine(Render(Asks(path, what))).value.May?
  {
    hide Index, FirstWord;
    FirstWordBack([C], path + [SPACE] + what);
    SomeFirstWord(path, what);
  }

  lemma SomeFirstWord(a: Bytes, b: Bytes)
    ensures FirstWord(a + [SPACE] + b).Some?
  {
    var s := a + [SPACE] + b;
    assert s[..|s|] == s && s[|a|] == SPACE;
  }

  /** Each line byte by byte, as it is written. */
  lemma WrittenAs(e: Entry)
    ensures Render(e) == match e {
      case Head(key, value) => key + Ascii(" ") + value
      case Want(mode, path) => Ascii("d ") + mode + Ascii(" ") + path
      case Owns(yours, crc, size, path) =>
        Ascii(if yours then "y " else "f ") + Hex(crc, 8) + Ascii(" ") + Decimal(size) + Ascii(" ") + path
      case Points(path) => Ascii("l ") + path
      case Asks(path, what) => Ascii("c ") + path + Ascii(" ") + what
    }
  {
    hide Hex, Decimal, Ascii;
    Letters();
    match e
    case Want(mode, path) => Regrouped([D] + [SPACE], mode, [SPACE], path);
    case Asks(path, what) => Regrouped([C] + [SPACE], path, [SPACE], what);
    case Owns(yours, crc, size, path) =>
      var head := [if yours then Y else F] + [SPACE];
      Regrouped(head, Hex(crc, 8), [SPACE], Decimal(size) + [SPACE] + path);
      Regrouped(head + Hex(crc, 8) + [SPACE], Decimal(size), [SPACE], path);
    case _ =>
  }

  lemma Letters()
    ensures Ascii(" ") == [SPACE] && Ascii("d ") == [D] + [SPACE] && Ascii("l ") == [L] + [SPACE]
    ensures Ascii("c ") == [C] + [SPACE] && Ascii("y ") == [Y] + [SPACE] && Ascii("f ") == [F] + [SPACE]
  {
  }

  lemma Regrouped(a: Bytes, b: Bytes, c: Bytes, d: Bytes)
    ensures a + (b + c + d) == a + b + c + d
  {
  }

  /** A directory's line is read as its path and its mode, a numeral of the radix eight, as far
      as thirty-two bits go - and as nothing, if the mode is more than sixty-four hold, or is no
      such numeral. */
  lemma ModeIsOctal(mode: Bytes, worth: seq<nat>, path: Bytes)
    requires |mode| == |worth| > 0
    requires forall i :: 0 <= i < |mode| ==> worth[i] < 8 && mode[i] == 48 + worth[i]
    ensures ReadLine(Ascii("d ") + mode + Ascii(" ") + path) ==
            if Value(worth, 8) < 0x1_0000_0000_0000_0000 then Some(Dir(Value(worth, 8) % 0x1_0000_0000, path)) else None
  {
    hide Render, ReadLine, NumberFrom, Value;
    forall i | 0 <= i < |mode| ensures Shows(mode[i], worth[i]) {
      assert "0123456789abcdef"[worth[i]] as int == 48 + worth[i];
    }
    NumberFromExactly(mode, worth, 8);
    assert SPACE !in mode;
    WrittenAs(Want(mode, path));
    ReadBack(Want(mode, path));
  }

  lemma OneLine(e: Entry)
    ensures Writable(e) <==> Spaced(e) && NEWLINE !in Render(e)
  {
    hide Hex, Decimal;
    match e
    case Owns(yours, crc, size, path) =>
      Hex8Back(crc);
      DecimalBack(size);
    case Head(key, value) => Around(key, SPACE, value);
    case Want(mode, path) => Around(mode, SPACE, path);
    case Points(path) =>
    case Asks(path, what) => Around(path, SPACE, what);
  }

  lemma Around(a: Bytes, sep: byte, b: Bytes)
    requires sep != NEWLINE
    ensures NEWLINE !in a + [sep] + b <==> NEWLINE !in a && NEWLINE !in b
  {
  }

  lemma {:induction false} ReadAllConcat(a: seq<Bytes>, b: seq<Bytes>)
    ensures ReadAll(a + b) == ReadAll(a) + ReadAll(b)
    decreases |a|
  {
    if a == [] {
      assert a + b == b;
    } else {
      assert (a + b)[1..] == a[1..] + b;
      ReadAllConcat(a[1..], b);
    }
  }

  lemma ReadOne(part: Bytes, rest: seq<Bytes>)
    ensures ReadAll([part] + rest) == (if ReadLine(part).None? then [] else [ReadLine(part).value]) + ReadAll(rest)
  {
    assert ([part] + rest)[1..] == rest;
  }

  lemma {:induction false} RenderedConcat(a: seq<Entry>, b: seq<Entry>)
    ensures Rendered(a + b) == Rendered(a) + Rendered(b)
    decreases |a|
  {
    if a == [] {
      assert a + b == b;
    } else {
      assert (a + b)[1..] == a[1..] + b;
      RenderedConcat(a[1..], b);
    }
  }

  lemma ReadEntriesConcat(a: seq<Entry>, b: seq<Entry>)
    ensures ReadEntries(a + b) == ReadEntries(a) + ReadEntries(b)
  {
    RenderedConcat(a, b);
    ReadAllConcat(Rendered(a), Rendered(b));
  }

  lemma {:induction false} LinesOfText(entries: seq<Entry>)
    requires Lined(entries)
    ensures Lines(Text(entries)) == ReadEntries(entries)
    decreases |entries|
  {
    if entries == [] {
      assert Split([], NEWLINE) == [[]] by { SplitNone([], NEWLINE); }
      ReadOne([], []);
      assert ReadLine([]) == None;
      assert Split([], NEWLINE) == [[]] + Rendered(entries);
    } else {
      hide Split, Render, ReadLine;
      var first, rest := Render(entries[0]), Text(entries[1..]);
      SplitFirst(first, NEWLINE, rest);
      ReadOne(first, Split(rest, NEWLINE));
      ReadOne(first, Rendered(entries[1..]));
      LinesOfText(entries[1..]);
    }
  }

  lemma {:induction false} ReadEntriesMean(entries: seq<Entry>)
    requires forall e :: e in entries ==> Spaced(e)
    ensures ReadEntries(entries) == Meanings(entries)
    decreases |entries|
  {
    hide Render, ReadLine, Meaning, Spaced;
    if entries != [] {
      ReadBack(entries[0]);
      ReadOne(Render(entries[0]), Rendered(entries[1..]));
      ReadEntriesMean(entries[1..]);
    }
  }

  lemma RoundTrip(entries: seq<Entry>)
    requires forall e :: e in entries ==> Writable(e)
    ensures Lines(Text(entries)) == Meanings(entries)
  {
    hide Render, Writable, Spaced;
    forall e | e in entries ensures Spaced(e) && NEWLINE !in Render(e) {
      OneLine(e);
    }
    LinesOfText(entries);
    ReadEntriesMean(entries);
  }

  /** Anything read has these properties, whatever the text: so what lacks them cannot
      have been read back. */
  predicate Readable(line: Line) {
    match line
    case Says(key, value) => SPACE !in key && NEWLINE !in key && !Keyword(key) && NEWLINE !in value
    case Dir(_, path) => NEWLINE !in path
    case File(_, _, path) => NEWLINE !in path
    case Yours(_, _, path) => NEWLINE !in path
    case Link(path) => NEWLINE !in path
    case May(path, what) => SPACE !in path && NEWLINE !in path && NEWLINE !in what
  }

  lemma FirstWordIs(s: Bytes)
    requires FirstWord(s).Some?
    ensures var (a, b) := FirstWord(s).value;
            SPACE !in a && (NEWLINE !in s ==> NEWLINE !in a && NEWLINE !in b)
  {
  }

  lemma ReadFileReadable(yours: bool, rest: Bytes)
    requires NEWLINE !in rest && ReadFile(yours, rest).Some?
    ensures Readable(ReadFile(yours, rest).value)
  {
    hide FirstWord, Number;
    FirstWordIs(rest);
    FirstWordIs(FirstWord(rest).value.1);
  }

  lemma OneReadable(part: Bytes)
    requires NEWLINE !in part && ReadLine(part).Some?
    ensures Readable(ReadLine(part).value)
  {
    hide FirstWord, Number, ReadFile;
    FirstWordIs(part);
    var (key, rest) := FirstWord(part).value;
    if key == [D] || key == [C] {
      FirstWordIs(rest);
    } else if key == [F] || key == [Y] {
      ReadFileReadable(key == [Y], rest);
    }
  }

  lemma {:induction false} WhatIsReadIsReadable(parts: seq<Bytes>)
    requires forall p :: p in parts ==> NEWLINE !in p
    ensures forall line :: line in ReadAll(parts) ==> Readable(line)
    decreases |parts|
  {
    hide ReadLine, Readable;
    if parts != [] {
      assert parts[0] in parts;
      WhatIsReadIsReadable(parts[1..]);
      if ReadLine(parts[0]).Some? {
        OneReadable(parts[0]);
      }
    }
  }

  lemma {:induction false} MeaningsAll(entries: seq<Entry>)
    requires forall e :: e in entries ==> Meaning(e).Some?
    ensures forall e :: e in entries ==> Meaning(e).value in Meanings(entries)
    decreases |entries|
  {
    if entries != [] {
      MeaningsAll(entries[1..]);
      assert forall e :: e in entries ==> e == entries[0] || e in entries[1..];
    }
  }

  lemma ReadableMeaning(e: Entry)
    requires Meaning(e).Some? && Readable(Meaning(e).value)
    ensures Writable(e)
  {
    if e.Want? {
      ModeIsDigits(0, e.mode);
    }
  }

  lemma {:induction false} ModeIsDigits(n: u64, mode: Bytes)
    requires NumberFrom(n, mode, 8).Some?
    ensures SPACE !in mode && NEWLINE !in mode
    decreases |mode|
  {
    if mode != [] {
      ModeIsDigits(Onward(n, mode[0], 8).value, mode[1..]);
      assert mode == [mode[0]] + mode[1..];
    }
  }

  /** Reading a written list gives back exactly what was written, in order, precisely
      when no field holds a newline, no program asking for something has a space in its
      path, and no key is one of the letters the other lines start with. */
  lemma RoundTripExactly(entries: seq<Entry>)
    requires forall e :: e in entries ==> Meaning(e).Some?
    ensures Lines(Text(entries)) == Meanings(entries) <==> forall e :: e in entries ==> Writable(e)
  {
    if forall e :: e in entries ==> Writable(e) {
      RoundTrip(entries);
    }
    if Lines(Text(entries)) == Meanings(entries) {
      WhatIsReadIsReadable(Split(Text(entries), NEWLINE));
      MeaningsAll(entries);
      forall e | e in entries ensures Writable(e) {
        ReadableMeaning(e);
      }
    }
  }

  // ---- Whole packages ----

  datatype Package = Package(name: Bytes, version: Bytes, set_: Bytes, about: Bytes, dirs: seq<(Bytes, Bytes)>,
                             records: seq<Entry>)

  function Wants(dirs: seq<(Bytes, Bytes)>): seq<Entry> {
    if dirs == [] then [] else [Want(dirs[0].0, [SLASH] + dirs[0].1)] + Wants(dirs[1..])
  }

  function Heads(p: Package): seq<Entry> {
    [Head(NAME, p.name), Head(VERSION, p.version), Head(SET, p.set_), Head(ABOUT, p.about)]
  }

  function Entries(p: Package): seq<Entry> {
    Heads(p) + Wants(p.dirs) + p.records
  }

  /** Records are only of the kinds the staging tool writes. */
  predicate Kinds(records: seq<Entry>) {
    forall e :: e in records ==> e.Owns? || e.Points? || e.Asks?
  }

  /** Each entry of a package is one line. */
  predicate Plain(p: Package) {
    Kinds(p.records) && Lined(Entries(p))
  }

  /** ... and all its text is what the format can carry. */
  predicate Sound(p: Package) {
    Kinds(p.records) && forall e :: e in Entries(p) ==> Writable(e)
  }

  function Size(e: Entry): nat {
    if e.Owns? then e.size else 0
  }

  function TotalSize(records: seq<Entry>): nat {
    if records == [] then 0 else Size(records[0]) + TotalSize(records[1..])
  }

  function Owned(records: seq<Entry>): nat {
    if records == [] then 0 else (if records[0].Asks? then 0 else 1) + Owned(records[1..])
  }

  lemma {:induction false} MeaningsConcat(a: seq<Entry>, b: seq<Entry>)
    ensures Meanings(a + b) == Meanings(a) + Meanings(b)
    decreases |a|
  {
    if a == [] {
      assert a + b == b;
    } else {
      assert (a + b)[1..] == a[1..] + b;
      MeaningsConcat(a[1..], b);
    }
  }

  function Sayings(p: Package): seq<Line> {
    [Says(NAME, p.name), Says(VERSION, p.version), Says(SET, p.set_), Says(ABOUT, p.about)]
  }

  lemma PackageLines(p: Package)
    requires Sound(p)
    ensures Lines(Text(Entries(p))) ==
            Sayings(p) + (Meanings(Wants(p.dirs)) + Meanings(p.records))
  {
    RoundTrip(Entries(p));
    MeaningsConcat(Heads(p) + Wants(p.dirs), p.records);
    MeaningsConcat(Heads(p), Wants(p.dirs));
    HeadMeanings(p);
  }

  lemma MeaningsFirst(e: Entry, rest: seq<Entry>)
    requires Meaning(e).Some?
    ensures Meanings([e] + rest) == [Meaning(e).value] + Meanings(rest)
  {
    assert ([e] + rest)[1..] == rest;
  }

  lemma MeaningsNone()
    ensures Meanings([]) == []
  {
  }

  /** The four sayings a list begins with, as they are written. */
  lemma HeadsWritten(p: Package)
    ensures Text(Heads(p)) ==
            (Ascii("name ") + p.name + [10]) + (Ascii("version ") + p.version + [10])
            + (Ascii("set ") + p.set_ + [10]) + (Ascii("about ") + p.about + [10])
  {
    hide Text, Render, Ascii;
    var heads := Heads(p);
    HeadsAre(p);
    TextFirst(heads);
    TextFirst(heads[1..]);
    TextFirst(heads[2..]);
    TextFirst(heads[3..]);
    assert heads[1..][1..] == heads[2..] && heads[2..][1..] == heads[3..] && heads[3..][1..] == [];
    TextOfNone();
    FourInTurn(Ascii("name ") + p.name + [10], Ascii("version ") + p.version + [10],
               Ascii("set ") + p.set_ + [10], Ascii("about ") + p.about + [10]);
  }

  lemma HeadsAre(p: Package)
    ensures var heads := Heads(p);
      && Render(heads[0]) == Ascii("name ") + p.name && Render(heads[1]) == Ascii("version ") + p.version
      && Render(heads[2]) == Ascii("set ") + p.set_ && Render(heads[3]) == Ascii("about ") + p.about
  {
    assert Ascii("name ") == NAME + [SPACE] && Ascii("version ") == VERSION + [SPACE];
    assert Ascii("set ") == SET + [SPACE] && Ascii("about ") == ABOUT + [SPACE];
  }

  lemma FourInTurn(a: Bytes, b: Bytes, c: Bytes, d: Bytes)
    ensures a + (b + (c + (d + []))) == a + b + c + d
  {
  }

  lemma TextFirst(entries: seq<Entry>)
    requires entries != []
    ensures Text(entries) == Render(entries[0]) + [10] + Text(entries[1..])
  {
  }

  lemma TextOfNone()
    ensures Text([]) == []
  {
  }

  lemma HeadsSpaced(p: Package)
    ensures forall e :: e in Heads(p) ==> Spaced(e)
  {
    assert |NAME| == 4 && |VERSION| == 7 && |SET| == 3 && |ABOUT| == 5;
  }

  /** What is read of a package's list, with no more asked than that no name or path has a
      newline in it. */
  lemma PlainLines(p: Package)
    requires Plain(p)
    ensures Lines(Text(Entries(p))) == Sayings(p) + (ReadEntries(Wants(p.dirs)) + ReadEntries(p.records))
  {
    hide Text, Rendered, ReadAll, Render, Meanings, Spaced;
    LinesOfText(Entries(p));
    ReadEntriesConcat(Heads(p) + Wants(p.dirs), p.records);
    ReadEntriesConcat(Heads(p), Wants(p.dirs));
    HeadsSpaced(p);
    ReadEntriesMean(Heads(p));
    HeadMeanings(p);
  }

  lemma ReadFirst(e: Entry, rest: seq<Entry>)
    ensures ReadEntries([e] + rest) ==
            (if ReadLine(Render(e)).None? then [] else [ReadLine(Render(e)).value]) + ReadEntries(rest)
  {
    assert ([e] + rest)[1..] == rest;
    ReadOne(Render(e), Rendered(rest));
  }

  lemma WantBack(mode: Bytes, path: Bytes)
    ensures var line := ReadLine(Render(Want(mode, path))); line.Some? ==> line.value.Dir?
  {
    hide FirstWord, Number;
    FirstWordBack([D], mode + [SPACE] + path);
  }

  lemma {:induction false} WantsAreDirs(dirs: seq<(Bytes, Bytes)>)
    ensures forall line :: line in ReadEntries(Wants(dirs)) ==> line.Dir?
    decreases |dirs|
  {
    hide Render, ReadLine;
    if dirs != [] {
      WantBack(dirs[0].0, [SLASH] + dirs[0].1);
      ReadFirst(Want(dirs[0].0, [SLASH] + dirs[0].1), Wants(dirs[1..]));
      WantsAreDirs(dirs[1..]);
    }
  }

  lemma HeadMeanings(p: Package)
    ensures Meanings(Heads(p)) == Sayings(p)
  {
    hide Meanings;
    var heads := Heads(p);
    MeaningsFirst(heads[0], heads[1..]);
    MeaningsFirst(heads[1], heads[2..]);
    MeaningsFirst(heads[2], heads[3..]);
    MeaningsFirst(heads[3], []);
    assert heads == [heads[0]] + heads[1..] && heads[1..] == [heads[1]] + heads[2..];
    assert heads[2..] == [heads[2]] + heads[3..] && heads[3..] == [heads[3]] + [];
    MeaningsNone();
  }

  /** What a written list says of its package is what the package is. */
  lemma SaidBack(p: Package)
    requires Plain(p)
    ensures Said(Text(Entries(p)), NAME) == p.name
    ensures Said(Text(Entries(p)), VERSION) == p.version
    ensures Said(Text(Entries(p)), SET) == p.set_
    ensures Said(Text(Entries(p)), ABOUT) == p.about
  {
    hide SaidIn, Lined, Text, Sayings, ReadEntries;
    PlainLines(p);
    var rest := ReadEntries(Wants(p.dirs)) + ReadEntries(p.records);
    SaidAfter(p, rest, NAME);
    SaidAfter(p, rest, VERSION);
    SaidAfter(p, rest, SET);
    SaidAfter(p, rest, ABOUT);
  }

  lemma SaidFirst(line: Line, rest: seq<Line>, key: Bytes)
    requires line.Says?
    ensures SaidIn([line] + rest, key) == if line.key == key then line.value else SaidIn(rest, key)
  {
    assert ([line] + rest)[1..] == rest;
  }

  lemma SaidAfter(p: Package, rest: seq<Line>, key: Bytes)
    ensures SaidIn(Sayings(p) + rest, key) ==
            if key == NAME then p.name else if key == VERSION then p.version
            else if key == SET then p.set_ else if key == ABOUT then p.about
            else SaidIn(rest, key)
  {
    hide SaidIn;
    assert |NAME| == 4 && |VERSION| == 7 && |SET| == 3 && |ABOUT| == 5;
    var all := Sayings(p) + rest;
    assert all[0] == Says(NAME, p.name) && all[1] == Says(VERSION, p.version);
    assert all[2] == Says(SET, p.set_) && all[3] == Says(ABOUT, p.about);
    SaidFirst(all[0], all[1..], key);
    SaidFirst(all[1], all[2..], key);
    SaidFirst(all[2], all[3..], key);
    SaidFirst(all[3], rest, key);
    assert all == [all[0]] + all[1..] && all[1..] == [all[1]] + all[2..];
    assert all[2..] == [all[2]] + all[3..] && all[3..] == [all[3]] + rest;
  }

  lemma {:induction false} WeightConcat(n: nat, bytes: u64, a: seq<Line>, b: seq<Line>)
    ensures var w := WeightFrom(n, bytes, a); WeightFrom(n, bytes, a + b) == WeightFrom(w.0, w.1, b)
    decreases |a|
  {
    if a == [] {
      assert a + b == b;
    } else {
      assert (a + b)[1..] == a[1..] + b;
      var t := Tally(n, bytes, a[0]);
      WeightConcat(t.0, t.1, a[1..], b);
    }
  }

  lemma WrapTwice(a: nat, b: nat)
    ensures Wrap(Wrap(a) + b) == Wrap(a + b)
    ensures a < U64 ==> Wrap(a) == a
  {
  }

  lemma WeightOfOne(n: nat, bytes: u64, e: Entry, rest: seq<Entry>)
    requires e.Owns? || e.Points? || e.Asks?
    ensures WeightFrom(n, bytes, ReadEntries([e] + rest)) ==
            WeightFrom(n + (if e.Asks? then 0 else 1), Wrap(bytes + Size(e)), ReadEntries(rest))
  {
    hide Render, ReadLine, ReadEntries;
    ReadFirst(e, rest);
    if e.Asks? {
      AsksBack(e.path, e.what);
    } else {
      ReadBack(e);
    }
    var line := ReadLine(Render(e)).value;
    assert ([line] + ReadEntries(rest))[1..] == ReadEntries(rest);
    WrapTwice(bytes, 0);
  }

  lemma KindsFirst(e: Entry, rest: seq<Entry>)
    requires Kinds([e] + rest)
    ensures (e.Owns? || e.Points? || e.Asks?) && Kinds(rest)
  {
    assert e in [e] + rest;
    assert forall r :: r in rest ==> r in [e] + rest;
  }

  lemma NothingWeighs(n: nat, bytes: u64)
    ensures WeightFrom(n, bytes, ReadEntries([])) == (n, Wrap(bytes))
  {
  }

  lemma {:induction false} WeightOfRecords(n: nat, bytes: u64, records: seq<Entry>)
    requires Kinds(records)
    ensures WeightFrom(n, bytes, ReadEntries(records)) == (n + Owned(records), Wrap(bytes + TotalSize(records)))
    decreases |records|
  {
    hide WeightFrom, ReadEntries, Wrap, Kinds, Size;
    if records == [] {
      NothingWeighs(n, bytes);
    } else {
      var e, rest := records[0], records[1..];
      assert records == [e] + rest;
      KindsFirst(e, rest);
      WeightOfOne(n, bytes, e, rest);
      WeightOfRecords(n + (if e.Asks? then 0 else 1), Wrap(bytes + Size(e)), rest);
      WrapTwice(bytes + Size(e), TotalSize(rest));
    }
  }

  lemma {:induction false} WeightOfOthers(n: nat, bytes: u64, lines: seq<Line>)
    requires forall l :: l in lines ==> l.Says? || l.Dir?
    ensures WeightFrom(n, bytes, lines) == (n, bytes)
    decreases |lines|
  {
    if lines != [] {
      WeightOfOthers(n, bytes, lines[1..]);
    }
  }

  /** The weight `qpkg` shows is the exact count of the package's files and links and
      the exact total of their sizes, as far as a `u64` goes. */
  lemma WeightBack(p: Package)
    requires Plain(p)
    ensures Weight(Text(Entries(p))) == (Owned(p.records), Wrap(TotalSize(p.records)))
  {
    hide WeightFrom, ReadEntries, Lines, Text, Entries, Wrap, Lined;
    PlainLines(p);
    WantsAreDirs(p.dirs);
    var wants, records := ReadEntries(Wants(p.dirs)), ReadEntries(p.records);
    WeightConcat(0, 0, Sayings(p), wants + records);
    WeightOfOthers(0, 0, Sayings(p));
    WeightConcat(0, 0, wants, records);
    WeightOfOthers(0, 0, wants);
    WeightOfRecords(0, 0, p.records);
    WrapTwice(TotalSize(p.records), 0);
  }
}
