/** Reading a text console's screen back from its pixels. A row of text is sixteen lines of
    pixels; a cell is eight of them wide, or sixteen, and its shape is where it is not of the
    ground, the colour that most of it has. */
module Screen {
  import opened Bytes

  const GLYPH_H := 16
  const MEMO := 2000

  /** A pixel as it is in a dump: three bytes, or what there is of them where the dump has
      been cut short. */
  datatype Color = Color(bytes: Bytes)

  type Pixels = seq<Color>

  /** A row of text as it is drawn: its sixteen lines of pixels. */
  type Scan = seq<Pixels>

  /** A glyph, one byte to eight pixels, line by line: sixteen of them when it is narrow
      and thirty-two when it is wide. */
  type Glyph = Bytes

  datatype Font = Font(narrow: map<Glyph, char>, wide: map<Glyph, char>)

  /** One more shape, which keeps the character it has if it has one. */
  function Add(font: Font, rows: Glyph, c: char): Font {
    if |rows| == 2 * GLYPH_H then if rows in font.wide then font else font.(wide := font.wide[rows := c])
    else if rows in font.narrow then font else font.(narrow := font.narrow[rows := c])
  }

  /** A font from its shapes in the order they are read, each sixteen bytes or thirty-two. */
  function Loaded(shapes: seq<(Glyph, char)>): Font {
    if shapes == [] then Font(map[], map[])
    else Add(Loaded(shapes[..|shapes| - 1]), shapes[|shapes| - 1].0, shapes[|shapes| - 1].1)
  }

  /** Narrow shapes and wide ones are of their sizes. */
  ghost predicate Sized(font: Font) {
    && (forall g :: g in font.narrow ==> |g| == GLYPH_H)
    && (forall g :: g in font.wide ==> |g| == 2 * GLYPH_H)
  }

  /** The first character to come with a shape is the one it reads as, whatever comes after
      it. */
  lemma {:induction false} FirstClaimIsKept(shapes: seq<(Glyph, char)>, i: nat)
    requires i < |shapes| && forall j :: 0 <= j < i ==> shapes[j].0 != shapes[i].0
    ensures var glyphs := if |shapes[i].0| == 2 * GLYPH_H then Loaded(shapes).wide else Loaded(shapes).narrow;
            shapes[i].0 in glyphs && glyphs[shapes[i].0] == shapes[i].1
    decreases |shapes|
  {
    var before := shapes[..|shapes| - 1];
    if i < |before| {
      FirstClaimIsKept(before, i);
    } else {
      NotYetClaimed(before, shapes[i].0);
    }
  }

  lemma {:induction false} NotYetClaimed(shapes: seq<(Glyph, char)>, glyph: Glyph)
    requires forall j :: 0 <= j < |shapes| ==> shapes[j].0 != glyph
    ensures glyph !in Loaded(shapes).narrow && glyph !in Loaded(shapes).wide
    decreases |shapes|
  {
    if shapes != [] {
      NotYetClaimed(shapes[..|shapes| - 1], glyph);
    }
  }

  lemma {:induction false} LoadedIsSized(shapes: seq<(Glyph, char)>)
    requires forall j :: 0 <= j < |shapes| ==> |shapes[j].0| == GLYPH_H || |shapes[j].0| == 2 * GLYPH_H
    ensures Sized(Loaded(shapes))
    decreases |shapes|
  {
    if shapes != [] {
      LoadedIsSized(shapes[..|shapes| - 1]);
    }
  }

  // ---- The shape in a cell ----

  function Count(pixels: Pixels, c: Color): nat {
    if pixels == [] then 0 else (if pixels[0] == c then 1 else 0) + Count(pixels[1..], c)
  }

  /** The most common of the first `k` pixels' colours, the first to come where two are as
      common. */
  function Leader(pixels: Pixels, k: nat): (c: Color)
    requires 0 < k <= |pixels|
    ensures c in pixels
    ensures forall i :: 0 <= i < k ==> Count(pixels, pixels[i]) <= Count(pixels, c)
  {
    if k == 1 then pixels[0] else
      var c := Leader(pixels, k - 1);
      if Count(pixels, pixels[k - 1]) > Count(pixels, c) then pixels[k - 1] else c
  }

  function Flat(scan: Scan): Pixels {
    if scan == [] then [] else scan[0] + Flat(scan[1..])
  }

  /** Eight pixels as a byte, the leftmost the highest bit, one where `ground` is not. */
  function Pack(p: Pixels, ground: Color): byte
    requires |p| >= 8
  {
    (if p[0] != ground then 128 else 0) + (if p[1] != ground then 64 else 0) + (if p[2] != ground then 32 else 0)
    + (if p[3] != ground then 16 else 0) + (if p[4] != ground then 8 else 0) + (if p[5] != ground then 4 else 0)
    + (if p[6] != ground then 2 else 0) + (if p[7] != ground then 1 else 0)
  }

  /** The bytes of one line of a cell `octets` bytes wide. */
  function LineKey(p: Pixels, ground: Color, octets: nat): Bytes
    requires |p| >= 8 * octets
    decreases octets
  {
    if octets == 0 then [] else [Pack(p, ground)] + LineKey(p[8..], ground, octets - 1)
  }

  /** Every line is so many pixels long, or longer. */
  predicate Spans(scan: Scan, n: nat) {
    forall l :: l in scan ==> |l| >= n
  }

  function Keys(scan: Scan, ground: Color, octets: nat): Glyph
    requires Spans(scan, 8 * octets)
  {
    if scan == [] then [] else LineKey(scan[0], ground, octets) + Keys(scan[1..], ground, octets)
  }

  predicate Regular(scan: Scan, width: nat) {
    |scan| == GLYPH_H && forall l :: l in scan ==> |l| == width
  }

  function Take(scan: Scan, n: nat): (r: Scan)
    requires Spans(scan, n)
    ensures |r| == |scan| && forall l :: l in r ==> |l| == n
  {
    seq(|scan|, y requires 0 <= y < |scan| => scan[y][..n])
  }

  function Drop(scan: Scan, n: nat): (r: Scan)
    requires Spans(scan, n)
    ensures |r| == |scan|
  {
    seq(|scan|, y requires 0 <= y < |scan| => scan[y][n..])
  }

  /** The shape of the first cell of a row, `octets` bytes wide. */
  function CellKey(scan: Scan, octets: nat): Glyph
    requires |scan| == GLYPH_H && octets > 0 && Spans(scan, 8 * octets)
  {
    var cell := Take(scan, 8 * octets);
    var all := Flat(cell);
    FlatHas(cell);
    Keys(cell, Leader(all, |all|), octets)
  }

  lemma FlatHas(scan: Scan)
    requires scan != [] && scan[0] != []
    ensures Flat(scan) != []
  {
  }

  function Reverse(glyph: Glyph): (r: Glyph)
    ensures |r| == |glyph|
  {
    seq(|glyph|, i requires 0 <= i < |glyph| => 255 - glyph[i])
  }

  /** The character of a shape, or of the shape in reverse video. */
  function Lookup(glyphs: map<Glyph, char>, key: Glyph): Option<char> {
    if key in glyphs then Some(glyphs[key])
    else if Reverse(key) in glyphs then Some(glyphs[Reverse(key)])
    else None
  }

  /** One cell wide: as it is, or with the cursor's two lines taken off its bottom. */
  function ReadNarrow(font: Font, key: Glyph): Option<char>
    requires |key| >= 2
  {
    var c := Lookup(font.narrow, key);
    if c.None? && key[|key| - 2..] == [255, 255] then Lookup(font.narrow, key[..|key| - 2] + [0, 0]) else c
  }

  lemma {:induction false} KeysLength(scan: Scan, ground: Color, octets: nat)
    requires octets <= 2 && Spans(scan, 8 * octets)
    ensures octets == 1 ==> |Keys(scan, ground, octets)| == |scan|
    ensures octets == 2 ==> |Keys(scan, ground, octets)| == 2 * |scan|
    decreases |scan|
  {
    hide LineKey;
    if scan != [] {
      LineKeyLength(scan[0], ground, octets);
      KeysLength(scan[1..], ground, octets);
    }
  }

  lemma {:induction false} LineKeyLength(p: Pixels, ground: Color, octets: nat)
    requires |p| >= 8 * octets
    ensures |LineKey(p, ground, octets)| == octets
    decreases octets
  {
    if octets > 0 {
      LineKeyLength(p[8..], ground, octets - 1);
    }
  }

  lemma CellKeyLength(scan: Scan, octets: nat)
    requires |scan| == GLYPH_H && 0 < octets <= 2 && Spans(scan, 8 * octets)
    ensures |CellKey(scan, octets)| == GLYPH_H * octets
  {
    var cell := Take(scan, 8 * octets);
    var all := Flat(cell);
    FlatHas(cell);
    KeysLength(cell, Leader(all, |all|), octets);
  }

  // ---- A row ----

  /** A row of `n` cells has a narrow one at its left, and a wide one if there are two. */
  lemma Narrower(scan: Scan, n: nat)
    requires n > 0 && Spans(scan, 8 * n)
    ensures Spans(scan, 8) && Spans(Drop(scan, 8), 8 * (n - 1))
    ensures n > 1 ==> Spans(scan, 16) && Spans(Drop(scan, 16), 8 * (n - 2))
  {
    SpansLess(scan, 8, 8 * (n - 1));
    if n > 1 {
      SpansLess(scan, 16, 8 * (n - 2));
    }
  }

  lemma SpansLess(scan: Scan, m: nat, n: nat)
    requires Spans(scan, m + n)
    ensures Spans(scan, m) && Spans(Drop(scan, m), n)
  {
    assert Spans(scan, m);
    forall y | 0 <= y < |scan| ensures |Drop(scan, m)[y]| >= n {
      assert scan[y] in scan;
    }
  }

  /** `n` cells of a row, as characters. */
  function ReadCells(font: Font, scan: Scan, n: nat): string
    requires |scan| == GLYPH_H && Spans(scan, 8 * n)
    decreases n
  {
    if n == 0 then "" else
      Narrower(scan, n);
      CellKeyLength(scan, 1);
      var c := ReadNarrow(font, CellKey(scan, 1));
      var w := if c.None? && font.wide != map[] && n > 1 then Lookup(font.wide, CellKey(scan, 2)) else None;
      if w.Some? then [w.value] + ReadCells(font, Drop(scan, 16), n - 2)
      else [if c.None? then '?' else c.value] + ReadCells(font, Drop(scan, 8), n - 1)
  }

  predicate Blank(c: char) {
    c == ' ' || '\t' <= c <= '\r' || '\U{1C}' <= c <= '\U{1F}' || c == '\U{85}' || c == '\U{A0}' || c == '\U{1680}'
    || '\U{2000}' <= c <= '\U{200A}' || c == '\U{2028}' || c == '\U{2029}' || c == '\U{202F}'
    || c == '\U{205F}' || c == '\U{3000}'
  }

  function RStrip(s: string): string {
    if s != [] && Blank(s[|s| - 1]) then RStrip(s[..|s| - 1]) else s
  }

  /** A row from column `col` on. */
  function From(scan: Scan, col: nat): (r: Scan)
    requires Spans(scan, 8 * col)
    ensures |r| == |scan|
  {
    Drop(scan, 8 * col)
  }

  lemma FromFrom(scan: Scan, width: nat, col: nat, more: nat)
    requires (forall l :: l in scan ==> |l| == width) && 8 * (col + more) <= width
    ensures forall l :: l in From(scan, col) ==> |l| == width - 8 * col
    ensures Drop(From(scan, col), 8 * more) == From(scan, col + more)
  {
    var a, b := Drop(From(scan, col), 8 * more), From(scan, col + more);
    forall y | 0 <= y < |scan| ensures a[y] == b[y] {
      assert scan[y] in scan;
    }
  }

  function ReadRow(font: Font, scan: Scan, width: nat): string
    requires Regular(scan, width)
  {
    RStrip(ReadCells(font, scan, width / 8))
  }

  /** A dump of a screen: what its header says of its size, and the bytes after it, which may
      be fewer than that. */
  datatype Dump = Dump(width: nat, height: nat, data: Bytes)

  /** A slice of bytes, as far as there are any. */
  function Slice(s: Bytes, from: nat, to: nat): Bytes
    requires from <= to
  {
    s[if from < |s| then from else |s|..if to < |s| then to else |s|]
  }

  /** How many bytes there are to a row of text. */
  function RowBytes(width: nat): nat {
    3 * GLYPH_H * width
  }

  function Pixel(data: Bytes, n: nat): Color {
    Color(Slice(data, 3 * n, 3 * n + 3))
  }

  /** A line of pixels, from the n-th of the dump on. */
  function PixelLine(data: Bytes, n: nat, width: nat): (line: Pixels)
    ensures |line| == width
  {
    seq(width, x requires 0 <= x < width => Pixel(data, n + x))
  }

  /** A line of a row, out of the whole of the dump. */
  function RowLine(dump: Dump, row: nat, y: nat): (line: Pixels)
    ensures |line| == dump.width
  {
    PixelLine(dump.data, (row * GLYPH_H + y) * dump.width, dump.width)
  }

  /** A row's pixels. */
  function RowScan(dump: Dump, row: nat): (scan: Scan)
    ensures Regular(scan, dump.width)
  {
    seq(GLYPH_H, y requires 0 <= y < GLYPH_H => RowLine(dump, row, y))
  }

  /** The bytes of a row, by which it is remembered. */
  function RowRaw(dump: Dump, row: nat): Bytes {
    Slice(dump.data, row * RowBytes(dump.width), row * RowBytes(dump.width) + RowBytes(dump.width))
  }

  /** A row's pixels, out of its own bytes. */
  function RawScan(raw: Bytes, width: nat): (scan: Scan)
    ensures Regular(scan, width)
  {
    RowScan(Dump(width, GLYPH_H, raw), 0)
  }

  /** All of a row is there. */
  predicate Whole(raw: Bytes, width: nat) {
    |raw| == RowBytes(width)
  }

  lemma SliceOfSlice(s: Bytes, from: nat, len: nat, k: nat, n: nat)
    requires k + n <= len
    ensures Slice(Slice(s, from, from + len), k, k + n) == Slice(s, from + k, from + k + n)
  {
    var t := Slice(s, from, from + len);
    assert |t| == if |s| < from then 0 else if |s| < from + len then |s| - from else len;
    assert forall i :: 0 <= i < |t| ==> t[i] == s[from + i];
    var a, b := Slice(t, k, k + n), Slice(s, from + k, from + k + n);
    assert |a| == |b|;
    assert forall i :: 0 <= i < |a| ==> a[i] == t[k + i] == s[from + (k + i)] == b[i];
  }

  lemma Distribute(a: nat, b: nat, width: nat)
    ensures (a + b) * width == a * width + b * width
  {
  }

  lemma Associate(a: nat, b: nat, width: nat)
    ensures (a * b) * width == a * (b * width)
  {
  }

  lemma NoMoreLines(y: nat, n: nat, width: nat)
    requires y < n
    ensures y * width + width <= n * width
  {
    Distribute(y + 1, n - y - 1, width);
    Distribute(y, 1, width);
  }

  lemma PixelPlace(width: nat, row: nat, y: nat, x: nat)
    requires y < GLYPH_H && x < width
    ensures 3 * ((row * GLYPH_H + y) * width + x) == row * RowBytes(width) + 3 * (y * width + x)
    ensures 3 * (y * width + x) + 3 <= RowBytes(width)
  {
    Distribute(row * GLYPH_H, y, width);
    Associate(row, GLYPH_H, width);
    Associate(row, 3, GLYPH_H * width);
    assert row * RowBytes(width) == (row * 3) * (GLYPH_H * width) == 3 * (row * (GLYPH_H * width));
    NoMoreLines(y, GLYPH_H, width);
  }

  /** A row is made of its own bytes and the width, and nothing else of the dump. */
  lemma RowIsItsBytes(dump: Dump, row: nat)
    ensures RowScan(dump, row) == RawScan(RowRaw(dump, row), dump.width)
  {
    hide RowLine, RowRaw;
    forall y | 0 <= y < GLYPH_H
      ensures RowScan(dump, row)[y] == RawScan(RowRaw(dump, row), dump.width)[y]
    {
      OneLine(dump, row, y);
    }
  }

  lemma OneLine(dump: Dump, row: nat, y: nat)
    requires y < GLYPH_H
    ensures RowLine(dump, row, y) == RowLine(Dump(dump.width, GLYPH_H, RowRaw(dump, row)), 0, y)
  {
    hide RowRaw, Pixel;
    var a, b := RowLine(dump, row, y), RowLine(Dump(dump.width, GLYPH_H, RowRaw(dump, row)), 0, y);
    forall x | 0 <= x < dump.width ensures a[x] == b[x] {
      OnePixel(dump, row, y, x);
    }
  }

  lemma OnePixel(dump: Dump, row: nat, y: nat, x: nat)
    requires y < GLYPH_H && x < dump.width
    ensures Pixel(dump.data, (row * GLYPH_H + y) * dump.width + x) ==
            Pixel(RowRaw(dump, row), (0 * GLYPH_H + y) * dump.width + x)
  {
    hide Slice, RowBytes;
    PixelPlace(dump.width, row, y, x);
    PixelPlace(dump.width, 0, y, x);
    SliceOfSlice(dump.data, row * RowBytes(dump.width), RowBytes(dump.width), 3 * (y * dump.width + x), 3);
  }

  /** The lines of a dump from row `row` on, each read afresh. */
  function ReadRows(font: Font, dump: Dump, row: nat): seq<string>
    requires row <= dump.height / GLYPH_H
    decreases dump.height / GLYPH_H - row
  {
    if row == dump.height / GLYPH_H then []
    else [ReadRow(font, RowScan(dump, row), dump.width)] + ReadRows(font, dump, row + 1)
  }

  function WithoutBlankEnd(lines: seq<string>): seq<string> {
    if lines != [] && lines[|lines| - 1] == "" then WithoutBlankEnd(lines[..|lines| - 1]) else lines
  }

  function ReadScreen(font: Font, dump: Dump): seq<string> {
    WithoutBlankEnd(ReadRows(font, dump, 0))
  }

  // ---- The reader, with its memory of rows ----

  function ReadRest(font: Font, scan: Scan, width: nat, col: nat): string
    requires Regular(scan, width) && col <= width / 8
  {
    FromFrom(scan, width, col, 0);
    ReadCells(font, From(scan, col), width / 8 - col)
  }

  lemma FromStart(font: Font, scan: Scan, width: nat)
    requires Regular(scan, width)
    ensures From(scan, 0) == scan
    ensures ReadRest(font, scan, width, 0) == ReadCells(font, scan, width / 8)
  {
    forall y | 0 <= y < |scan| ensures From(scan, 0)[y] == scan[y] {
      assert scan[y] in scan;
    }
  }

  lemma FromEnd(font: Font, scan: Scan, width: nat, col: nat)
    requires Regular(scan, width) && col == width / 8
    ensures ReadRest(font, scan, width, col) == ""
  {
  }

  /** What one turn of the loop does to what is left to read. */
  lemma OneCell(font: Font, scan: Scan, width: nat, col: nat)
    requires Regular(scan, width) && col < width / 8
    ensures Spans(From(scan, col), 8)
    ensures col + 1 < width / 8 ==> Spans(From(scan, col), 16)
    ensures var key := CellKey(From(scan, col), 1);
            && |key| == GLYPH_H
            && var c := ReadNarrow(font, key);
            && var w := if c.None? && font.wide != map[] && col + 1 < width / 8
                        then Lookup(font.wide, CellKey(From(scan, col), 2)) else None;
            && ReadRest(font, scan, width, col) ==
                 if w.Some? then [w.value] + ReadRest(font, scan, width, col + 2)
                 else [if c.None? then '?' else c.value] + ReadRest(font, scan, width, col + 1)
  {
    hide CellKey, Drop, Lookup, ReadNarrow;
    FromFrom(scan, width, col, 0);
    CellKeyLength(From(scan, col), 1);
    FromFrom(scan, width, col, 1);
    if col + 1 < width / 8 {
      FromFrom(scan, width, col, 2);
    }
  }

  class Reader {
    const font: Font
    /** Rows already read, by their bytes. */
    var rows: map<Bytes, string>
    /** How wide each was when it was read, which is not looked at again. */
    ghost var widths: map<Bytes, nat>

    constructor (font: Font)
      ensures this.font == font && Valid() && widths == map[]
    {
      this.font := font;
      rows, widths := map[], map[];
    }

    /** What is remembered of a row is what reading it would give at the width it had. */
    ghost predicate Valid()
      reads this
    {
      && rows.Keys == widths.Keys
      && forall raw :: raw in rows ==> rows[raw] == ReadRow(font, RawScan(raw, widths[raw]), widths[raw])
    }

    /** A cell of a line the cursor's underline is on reads as the cell without it. */
    method Narrow(key: Glyph) returns (c: Option<char>)
      requires |key| >= 2
      ensures c == ReadNarrow(font, key)
    {
      c := Lookup(font.narrow, key);
      if c.None? && key[|key| - 2..] == [255, 255] {
        c := Lookup(font.narrow, key[..|key| - 2] + [0, 0]);
      }
    }

    /** A row read cell by cell. */
    method ReadOne(scan: Scan, width: nat) returns (text: string)
      requires Regular(scan, width)
      ensures text == ReadRow(font, scan, width)
    {
      hide CellKey, ReadCells, ReadRest, Drop, Lookup, ReadNarrow, RStrip, From;
      var cols := width / 8;
      var out := "";
      var col := 0;
      FromStart(font, scan, width);
      while col < cols
        invariant 0 <= col <= cols
        invariant out + ReadRest(font, scan, width, col) == ReadCells(font, scan, cols)
      {
        OneCell(font, scan, width, col);
        var c := Narrow(CellKey(From(scan, col), 1));
        assert forall x: char, rest: string :: out + ([x] + rest) == (out + [x]) + rest;
        if c.None? && font.wide != map[] && col + 1 < cols {
          c := Lookup(font.wide, CellKey(From(scan, col), 2));
          if c.Some? {
            out := out + [c.value];
            col := col + 2;
            continue;
          }
        }
        out := out + [if c.None? then '?' else c.value];
        col := col + 1;
      }
      FromEnd(font, scan, width, col);
      assert out + "" == out;
      text := RStrip(out);
    }

    /** A row looked up if it was seen before, and read and remembered if not: its line as it
        is read afresh, at the width it had the first time. */
    method Row(raw: Bytes, width: nat) returns (text: string)
      requires Valid()
      modifies this
      ensures Valid()
      ensures var w := if raw in old(widths) then old(widths)[raw] else width;
              text == ReadRow(font, RawScan(raw, w), w)
      ensures raw in old(widths) ==> widths == old(widths)
      ensures raw !in old(widths) ==> widths == (if |old(rows)| > MEMO then map[] else old(widths))[raw := width]
    {
      hide ReadRow, RawScan, RowScan, Regular, Whole;
      if raw in rows {
        return rows[raw];
      }
      text := ReadOne(RawScan(raw, width), width);
      if |rows| > MEMO {
        rows, widths := map[], map[];
      }
      rows, widths := rows[raw := text], widths[raw := width];
    }

    /** A whole screen, rows seen before looked up: the same lines as reading each of them,
        if no row of those bytes was read at another width - as none was, when all that was
        read was whole, and this dump is, or all of it was as wide as this. */
    method ScreenLines(dump: Dump) returns (lines: seq<string>)
      requires Valid()
      modifies this
      ensures Valid()
      ensures Unmixed(old(widths), dump) ==> lines == ReadScreen(font, dump)
      ensures AllWhole(old(widths)) && IsWhole(dump) ==> Unmixed(old(widths), dump) && AllWhole(widths)
      ensures AllOf(old(widths), dump.width) ==> Unmixed(old(widths), dump) && AllOf(widths, dump.width)
    {
      hide ReadRow, Valid, RowScan, RawScan, RowRaw, Unmixed, Grown, AllWhole, IsWhole, AllOf;
      ghost var was, unmixed := widths, Unmixed(widths, dump);
      NothingGrown(was, dump);
      lines := [];
      for row := 0 to dump.height / GLYPH_H
        invariant Valid() && Grown(was, widths, dump, row)
        invariant unmixed ==> lines + ReadRows(font, dump, row) == ReadRows(font, dump, 0)
      {
        ghost var before := widths;
        var raw := RowRaw(dump, row);
        RowIsItsBytes(dump, row);
        if unmixed {
          StillUnmixed(was, before, dump, row);
        }
        var text := Row(raw, dump.width);
        GrownByOne(was, before, widths, dump, row);
        assert lines + ([text] + ReadRows(font, dump, row + 1)) == (lines + [text]) + ReadRows(font, dump, row + 1);
        lines := lines + [text];
      }
      GrownAll(was, widths, dump);
      assert lines + [] == lines;
      while lines != [] && lines[|lines| - 1] == ""
        invariant unmixed ==> WithoutBlankEnd(lines) == ReadScreen(font, dump)
        decreases |lines|
      {
        lines := lines[..|lines| - 1];
      }
    }
  }

  // ---- When looking a row up is reading it ----

  /** No row of a dump has the bytes of one read at another width. */
  ghost predicate Unmixed(widths: map<Bytes, nat>, dump: Dump) {
    forall row :: 0 <= row < dump.height / GLYPH_H && RowRaw(dump, row) in widths ==>
                    widths[RowRaw(dump, row)] == dump.width
  }

  ghost predicate AllWhole(widths: map<Bytes, nat>) {
    forall raw :: raw in widths ==> Whole(raw, widths[raw])
  }

  ghost predicate AllOf(widths: map<Bytes, nat>, width: nat) {
    forall raw :: raw in widths ==> widths[raw] == width
  }

  /** What is remembered after some rows of a dump was so before, or is one of them. */
  ghost predicate Grown(was: map<Bytes, nat>, now: map<Bytes, nat>, dump: Dump, rows: nat) {
    forall raw :: raw in now ==>
                    (raw in was && now[raw] == was[raw]) || (IsRow(dump, rows, raw) && now[raw] == dump.width)
  }

  lemma NothingGrown(was: map<Bytes, nat>, dump: Dump)
    ensures Grown(was, was, dump, 0)
  {
  }

  lemma GrownByOne(was: map<Bytes, nat>, before: map<Bytes, nat>, now: map<Bytes, nat>, dump: Dump, row: nat)
    requires Grown(was, before, dump, row)
    requires forall raw :: raw in now ==>
                             (raw in before && now[raw] == before[raw])
                             || (raw == RowRaw(dump, row) && now[raw] == dump.width)
    ensures Grown(was, now, dump, row + 1)
  {
    hide RowRaw;
    assert IsRow(dump, row + 1, RowRaw(dump, row));
    assert forall raw :: IsRow(dump, row, raw) ==> IsRow(dump, row + 1, raw);
  }

  lemma StillUnmixed(was: map<Bytes, nat>, now: map<Bytes, nat>, dump: Dump, row: nat)
    requires Grown(was, now, dump, row) && Unmixed(was, dump) && row < dump.height / GLYPH_H
    ensures RowRaw(dump, row) in now ==> now[RowRaw(dump, row)] == dump.width
  {
    hide RowRaw;
  }

  lemma GrownAll(was: map<Bytes, nat>, now: map<Bytes, nat>, dump: Dump)
    requires Grown(was, now, dump, dump.height / GLYPH_H)
    ensures AllWhole(was) && IsWhole(dump) ==> Unmixed(was, dump) && AllWhole(now)
    ensures AllOf(was, dump.width) ==> Unmixed(was, dump) && AllOf(now, dump.width)
  {
    hide RowRaw;
    if AllWhole(was) && IsWhole(dump) {
      forall row | 0 <= row < dump.height / GLYPH_H && RowRaw(dump, row) in was
        ensures was[RowRaw(dump, row)] == dump.width
      {
        assert Whole(RowRaw(dump, row), dump.width);
      }
    }
  }

  /** It is one of the dump's first rows. */
  ghost predicate IsRow(dump: Dump, rows: nat, raw: Bytes) {
    exists row :: 0 <= row < rows && raw == RowRaw(dump, row)
  }

  /** Every row of a dump is whole. */
  ghost predicate IsWhole(dump: Dump) {
    forall row :: 0 <= row < dump.height / GLYPH_H ==> Whole(RowRaw(dump, row), dump.width)
  }

  /** As they are, when there are as many bytes as the header says. */
  lemma CompleteIsWhole(dump: Dump)
    requires |dump.data| >= 3 * dump.width * dump.height
    ensures IsWhole(dump)
  {
    forall row | 0 <= row < dump.height / GLYPH_H
      ensures Whole(RowRaw(dump, row), dump.width)
    {
      RowEndsWithin(dump.width, dump.height, row);
    }
  }

  lemma RowEndsWithin(width: nat, height: nat, row: nat)
    requires row < height / GLYPH_H
    ensures row * RowBytes(width) + RowBytes(width) <= 3 * width * height
  {
    assert (row + 1) * RowBytes(width) == 3 * width * (GLYPH_H * (row + 1));
    assert GLYPH_H * (row + 1) <= height;
    assert 3 * width * (height - GLYPH_H * (row + 1)) >= 0;
  }

  // ---- A screen drawn, and read back ----

  /** One cell of a row as the console draws it: a glyph in two colours. */
  datatype Cell = Cell(glyph: Glyph, ink: Color, ground: Color)

  function Octets(c: Cell): nat {
    if |c.glyph| == 2 * GLYPH_H then 2 else 1
  }

  function Paint(b: byte, ink: Color, ground: Color): (p: Pixels)
    ensures |p| == 8
  {
    [if b >= 128 then ink else ground, if b % 128 >= 64 then ink else ground,
     if b % 64 >= 32 then ink else ground, if b % 32 >= 16 then ink else ground,
     if b % 16 >= 8 then ink else ground, if b % 8 >= 4 then ink else ground,
     if b % 4 >= 2 then ink else ground, if b % 2 >= 1 then ink else ground]
  }

  function PaintLine(bytes: Bytes, ink: Color, ground: Color): (p: Pixels)
    ensures |p| == 8 * |bytes|
  {
    if bytes == [] then [] else Paint(bytes[0], ink, ground) + PaintLine(bytes[1..], ink, ground)
  }

  /** Lines of pixels, each of `octets` of a glyph's bytes. */
  function PaintScan(glyph: Glyph, octets: nat, ink: Color, ground: Color): (scan: Scan)
    requires octets > 0
    ensures forall l :: l in scan ==> |l| == 8 * octets
    decreases |glyph|
  {
    if |glyph| < octets then []
    else [PaintLine(glyph[..octets], ink, ground)] + PaintScan(glyph[octets..], octets, ink, ground)
  }

  function CellScan(c: Cell): Scan {
    PaintScan(c.glyph, Octets(c), c.ink, c.ground)
  }

  /** Two pieces of a row side by side. */
  function Beside(a: Scan, b: Scan): (r: Scan)
    requires |a| == |b|
    ensures |r| == |a|
  {
    seq(|a|, y requires 0 <= y < |a| => a[y] + b[y])
  }

  predicate Drawable(c: Cell) {
    (|c.glyph| == GLYPH_H || |c.glyph| == 2 * GLYPH_H) && c.ink != c.ground
  }

  predicate AllDrawable(cells: seq<Cell>) {
    forall i :: 0 <= i < |cells| ==> Drawable(cells[i])
  }

  function Columns(cells: seq<Cell>): nat {
    if cells == [] then 0 else Octets(cells[0]) + Columns(cells[1..])
  }

  /** A row of cells, and whatever pixels are left at its right. */
  function Drawn(cells: seq<Cell>, margin: Scan): (scan: Scan)
    requires |margin| == GLYPH_H && AllDrawable(cells)
    ensures |scan| == GLYPH_H
  {
    if cells == [] then margin else
      PaintScanLines(cells[0].glyph, Octets(cells[0]), cells[0].ink, cells[0].ground);
      Beside(CellScan(cells[0]), Drawn(cells[1..], margin))
  }

  lemma {:induction false} PaintScanLines(glyph: Glyph, octets: nat, ink: Color, ground: Color)
    requires 1 <= octets <= 2 && |glyph| % octets == 0
    ensures octets == 1 ==> |PaintScan(glyph, octets, ink, ground)| == |glyph|
    ensures octets == 2 ==> 2 * |PaintScan(glyph, octets, ink, ground)| == |glyph|
    decreases |glyph|
  {
    hide PaintLine;
    if |glyph| >= octets {
      PaintScanLines(glyph[octets..], octets, ink, ground);
    }
  }

  function Bit(b: byte, low: nat): nat
    requires low > 0
  {
    if b % (2 * low) >= low then low else 0
  }

  /** A byte is the sum of its bits. */
  lemma HighBits(b: byte)
    ensures b == Bit(b, 128) + Bit(b, 64) + Bit(b, 32) + Bit(b, 16) + b % 16
  {
    assert b == Bit(b, 128) + b % 128;
    assert b % 128 == Bit(b, 64) + b % 64;
    assert b % 64 == Bit(b, 32) + b % 32;
    assert b % 32 == Bit(b, 16) + b % 16;
  }

  lemma LowBits(b: byte)
    ensures b % 16 == Bit(b, 8) + Bit(b, 4) + Bit(b, 2) + Bit(b, 1)
  {
    BitEight(b);
    BitFour(b);
    assert b % 4 == Bit(b, 2) + b % 2;
  }

  lemma BitEight(b: byte)
    ensures b % 16 == Bit(b, 8) + b % 8
  {
  }

  lemma BitFour(b: byte)
    ensures b % 8 == Bit(b, 4) + b % 4
  {
  }

  /** Painted on its ground a byte reads as itself; on its ink, as its complement. */
  lemma PackPaint(b: byte, ink: Color, ground: Color)
    requires ink != ground
    ensures Pack(Paint(b, ink, ground), ground) == b
    ensures Pack(Paint(b, ink, ground), ink) == 255 - b
  {
    hide Bit;
    HighBits(b);
    LowBits(b);
    var p := Paint(b, ink, ground);
    PixelIs(b, p, ink, ground);
  }

  lemma PixelIs(b: byte, p: Pixels, ink: Color, ground: Color)
    requires ink != ground && p == Paint(b, ink, ground)
    ensures |p| == 8 && forall i :: 0 <= i < 8 ==> p[i] == ink || p[i] == ground
    ensures (if p[0] == ink then 128 else 0) == Bit(b, 128) && (if p[1] == ink then 64 else 0) == Bit(b, 64)
    ensures (if p[2] == ink then 32 else 0) == Bit(b, 32) && (if p[3] == ink then 16 else 0) == Bit(b, 16)
    ensures (if p[4] == ink then 8 else 0) == Bit(b, 8) && (if p[5] == ink then 4 else 0) == Bit(b, 4)
    ensures (if p[6] == ink then 2 else 0) == Bit(b, 2) && (if p[7] == ink then 1 else 0) == Bit(b, 1)
  {
  }

  lemma PackFirst(p: Pixels, rest: Pixels, ground: Color)
    requires |p| == 8
    ensures Pack(p + rest, ground) == Pack(p, ground)
  {
  }

  /** A key for each of the two colours the ground may be taken to be. */
  function KeyFor(glyph: Glyph, reversed: bool): Glyph {
    if reversed then Reverse(glyph) else glyph
  }

  lemma {:induction false} LineKeyOfPaint(bytes: Bytes, ink: Color, ground: Color, reversed: bool)
    requires ink != ground
    ensures LineKey(PaintLine(bytes, ink, ground), if reversed then ink else ground, |bytes|) == KeyFor(bytes, reversed)
    decreases |bytes|
  {
    hide Pack, Paint, KeyFor, Reverse;
    if bytes == [] {
      NoKey(reversed);
    } else {
      var rest := PaintLine(bytes[1..], ink, ground);
      PackPaint(bytes[0], ink, ground);
      PackFirst(Paint(bytes[0], ink, ground), rest, if reversed then ink else ground);
      assert (Paint(bytes[0], ink, ground) + rest)[8..] == rest;
      LineKeyOfPaint(bytes[1..], ink, ground, reversed);
      KeyForOne(bytes[0], reversed);
      KeyForConcat([bytes[0]], bytes[1..], reversed);
      assert bytes == [bytes[0]] + bytes[1..];
    }
  }

  lemma NoKey(reversed: bool)
    ensures KeyFor([], reversed) == []
  {
  }

  lemma KeyForOne(b: byte, reversed: bool)
    ensures KeyFor([b], reversed) == [if reversed then 255 - b else b]
  {
  }

  lemma KeysFirst(line: Pixels, rest: Scan, ground: Color, octets: nat)
    requires |line| >= 8 * octets && Spans(rest, 8 * octets)
    ensures Keys([line] + rest, ground, octets) == LineKey(line, ground, octets) + Keys(rest, ground, octets)
  {
    assert ([line] + rest)[1..] == rest;
  }

  lemma KeyForConcat(a: Glyph, b: Glyph, reversed: bool)
    ensures KeyFor(a + b, reversed) == KeyFor(a, reversed) + KeyFor(b, reversed)
  {
  }

  lemma {:induction false} KeysOfPaint(glyph: Glyph, octets: nat, ink: Color, ground: Color, reversed: bool)
    requires ink != ground && 1 <= octets <= 2 && |glyph| % octets == 0
    ensures Keys(PaintScan(glyph, octets, ink, ground), if reversed then ink else ground, octets) ==
            KeyFor(glyph, reversed)
    decreases |glyph|
  {
    hide PaintLine, LineKey, Keys, KeyFor, PaintScan;
    if |glyph| < octets {
      KeysOfNone(glyph, octets, ink, ground, reversed);
    } else {
      var g := if reversed then ink else ground;
      var a, b := glyph[..octets], glyph[octets..];
      assert glyph == a + b;
      PaintScanFirst(a, b, octets, ink, ground);
      KeysFirst(PaintLine(a, ink, ground), PaintScan(b, octets, ink, ground), g, octets);
      LineKeyOfPaint(a, ink, ground, reversed);
      KeysOfPaint(b, octets, ink, ground, reversed);
      KeyForConcat(a, b, reversed);
    }
  }

  lemma KeysOfNone(glyph: Glyph, octets: nat, ink: Color, ground: Color, reversed: bool)
    requires 1 <= octets <= 2 && |glyph| % octets == 0 && |glyph| < octets
    ensures Keys(PaintScan(glyph, octets, ink, ground), if reversed then ink else ground, octets) ==
            KeyFor(glyph, reversed)
  {
    assert glyph == [];
  }

  lemma {:induction false} LineColors(bytes: Bytes, ink: Color, ground: Color)
    ensures forall p :: p in PaintLine(bytes, ink, ground) ==> p == ink || p == ground
    decreases |bytes|
  {
    if bytes != [] {
      LineColors(bytes[1..], ink, ground);
    }
  }

  lemma {:induction false} ScanColors(glyph: Glyph, octets: nat, ink: Color, ground: Color)
    requires octets > 0
    ensures forall p :: p in Flat(PaintScan(glyph, octets, ink, ground)) ==> p == ink || p == ground
    decreases |glyph|
  {
    hide PaintLine;
    if |glyph| >= octets {
      LineColors(glyph[..octets], ink, ground);
      ScanColors(glyph[octets..], octets, ink, ground);
    }
  }

  /** A painted cell's key is its glyph or the glyph's complement, whichever of its colours
      is the commoner. */
  lemma KeyOfPaint(scan: Scan, glyph: Glyph, octets: nat, ink: Color, ground: Color)
    requires ink != ground && 1 <= octets <= 2 && |glyph| == GLYPH_H * octets
    requires |scan| == GLYPH_H && Spans(scan, 8 * octets)
    requires Take(scan, 8 * octets) == PaintScan(glyph, octets, ink, ground)
    ensures CellKey(scan, octets) == glyph || CellKey(scan, octets) == Reverse(glyph)
  {
    hide PaintScan, Keys;
    var cell := Take(scan, 8 * octets);
    var all := Flat(cell);
    FlatHas(cell);
    ScanColors(glyph, octets, ink, ground);
    KeysOfPaint(glyph, octets, ink, ground, true);
    KeysOfPaint(glyph, octets, ink, ground, false);
    assert Leader(all, |all|) == ink || Leader(all, |all|) == ground;
  }

  /** Every other byte: a wide glyph's left half. */
  function LeftHalf(glyph: Glyph): Glyph {
    if |glyph| < 2 then [] else [glyph[0]] + LeftHalf(glyph[2..])
  }

  lemma TakeFirst(line: Pixels, rest: Scan, n: nat)
    requires |line| >= n && Spans(rest, n)
    ensures Take([line] + rest, n) == [line[..n]] + Take(rest, n)
  {
  }

  lemma PaintLineFirst(b: byte, rest: Bytes, ink: Color, ground: Color)
    ensures PaintLine([b] + rest, ink, ground) == Paint(b, ink, ground) + PaintLine(rest, ink, ground)
  {
    assert ([b] + rest)[1..] == rest;
  }

  lemma PaintScanFirst(bytes: Bytes, rest: Glyph, octets: nat, ink: Color, ground: Color)
    requires |bytes| == octets > 0
    ensures PaintScan(bytes + rest, octets, ink, ground) ==
            [PaintLine(bytes, ink, ground)] + PaintScan(rest, octets, ink, ground)
  {
    assert (bytes + rest)[..octets] == bytes && (bytes + rest)[octets..] == rest;
  }

  lemma {:induction false} LeftOfPaint(glyph: Glyph, ink: Color, ground: Color)
    ensures Take(PaintScan(glyph, 2, ink, ground), 8) == PaintScan(LeftHalf(glyph), 1, ink, ground)
    ensures |LeftHalf(glyph)| == |glyph| / 2
    decreases |glyph|
  {
    hide Paint, PaintLine, Take;
    if |glyph| < 2 {
      TakeNone(8);
    } else {
      hide PaintScan;
      var a, b, rest := glyph[0], glyph[1], glyph[2..];
      assert glyph == [a, b] + rest && [a, b] == [a] + [b] && [a] == [a] + [] && [b] == [b] + [];
      PaintScanFirst([a, b], rest, 2, ink, ground);
      PaintLineFirst(a, [b], ink, ground);
      PaintLineFirst(a, [], ink, ground);
      PaintLineOfNone(ink, ground);
      assert PaintLine([a, b], ink, ground)[..8] == Paint(a, ink, ground) == PaintLine([a], ink, ground);
      assert LeftHalf(glyph) == [a] + LeftHalf(rest);
      TakeFirst(PaintLine([a, b], ink, ground), PaintScan(rest, 2, ink, ground), 8);
      LeftOfPaint(rest, ink, ground);
      PaintScanFirst([a], LeftHalf(rest), 1, ink, ground);
    }
  }

  lemma TakeNone(n: nat)
    ensures Take([], n) == []
  {
  }

  lemma PaintLineOfNone(ink: Color, ground: Color)
    ensures PaintLine([], ink, ground) == []
  {
  }

  lemma TakeBeside(a: Scan, b: Scan, n: nat)
    requires |a| == |b| && Spans(a, n)
    ensures Spans(Beside(a, b), n)
    ensures Take(Beside(a, b), n) == Take(a, n)
  {
    forall y | 0 <= y < |a| ensures (a[y] + b[y])[..n] == a[y][..n] {
      assert a[y] in a;
    }
  }

  lemma DropBeside(a: Scan, b: Scan, n: nat)
    requires |a| == |b| && (forall l :: l in a ==> |l| == n)
    ensures Spans(Beside(a, b), n)
    ensures Drop(Beside(a, b), n) == b && Take(a, n) == a
  {
    forall y | 0 <= y < |a| ensures a[y][..n] == a[y] {
      assert a[y] in a;
    }
    forall y | 0 <= y < |a| ensures (a[y] + b[y])[n..] == b[y] {
      assert a[y] in a;
    }
  }

  // ---- What a cell reads as ----

  predicate Has(font: Font, c: Cell) {
    Drawable(c) && (c.glyph in font.narrow || c.glyph in font.wide)
  }

  predicate AllThere(font: Font, cells: seq<Cell>) {
    forall i :: 0 <= i < |cells| ==> Has(font, cells[i])
  }

  function Char(font: Font, c: Cell): char
    requires Has(font, c)
  {
    if c.glyph in font.narrow then font.narrow[c.glyph] else font.wide[c.glyph]
  }

  function Text(font: Font, cells: seq<Cell>): string
    requires AllThere(font, cells)
  {
    if cells == [] then "" else
      [Char(font, cells[0])] + Text(font, cells[1..])
  }

  lemma CellShape(c: Cell)
    requires Drawable(c)
    ensures |CellScan(c)| == GLYPH_H && 1 <= Octets(c) <= 2
    ensures forall l :: l in CellScan(c) ==> |l| == 8 * Octets(c)
  {
    PaintScanLines(c.glyph, Octets(c), c.ink, c.ground);
  }

  /** The key of a cell's first eight columns, which for a narrow cell is all of it. */
  function NarrowKey(c: Cell): (key: Glyph)
    requires Drawable(c)
    ensures |key| == GLYPH_H
  {
    CellShape(c);
    CellKeyLength(CellScan(c), 1);
    CellKey(CellScan(c), 1)
  }

  function WideKey(c: Cell): (key: Glyph)
    requires Drawable(c) && Octets(c) == 2
  {
    CellShape(c);
    CellKey(CellScan(c), 2)
  }

  /** A cell, drawn alone, reads as its character. */
  predicate ReadsRight(font: Font, c: Cell)
    requires Has(font, c)
  {
    if c.glyph in font.narrow then ReadNarrow(font, NarrowKey(c)) == Some(font.narrow[c.glyph])
    else Octets(c) == 2 && ReadNarrow(font, NarrowKey(c)).None?
         && Lookup(font.wide, WideKey(c)) == Some(font.wide[c.glyph])
  }

  predicate AllReadRight(font: Font, cells: seq<Cell>)
    requires AllThere(font, cells)
  {
    forall i :: 0 <= i < |cells| ==> ReadsRight(font, cells[i])
  }

  lemma ReverseTwice(glyph: Glyph)
    ensures Reverse(Reverse(glyph)) == glyph
  {
  }

  /** A shape or its complement is looked up as the shape's character, unless it is the
      complement and has a character of its own that is another. */
  lemma LookupExactly(glyphs: map<Glyph, char>, glyph: Glyph, key: Glyph)
    requires glyph in glyphs && (key == glyph || key == Reverse(glyph))
    ensures Lookup(glyphs, key).Some?
    ensures Lookup(glyphs, key) == Some(glyphs[glyph])
            <==> !(key != glyph && Reverse(glyph) in glyphs && glyphs[Reverse(glyph)] != glyphs[glyph])
  {
    ReverseTwice(glyph);
  }

  lemma NarrowKeyIs(c: Cell)
    requires Drawable(c)
    ensures Octets(c) == 1 ==> NarrowKey(c) == c.glyph || NarrowKey(c) == Reverse(c.glyph)
    ensures Octets(c) == 2 ==> NarrowKey(c) == LeftHalf(c.glyph) || NarrowKey(c) == Reverse(LeftHalf(c.glyph))
  {
    hide PaintScan, CellKey, LeftHalf;
    CellShape(c);
    var scan := CellScan(c);
    if Octets(c) == 1 {
      DropBeside(scan, scan, 8);
      KeyOfPaint(scan, c.glyph, 1, c.ink, c.ground);
    } else {
      LeftOfPaint(c.glyph, c.ink, c.ground);
      KeyOfPaint(scan, LeftHalf(c.glyph), 1, c.ink, c.ground);
    }
  }

  lemma WideKeyIs(c: Cell)
    requires Drawable(c) && Octets(c) == 2
    ensures WideKey(c) == c.glyph || WideKey(c) == Reverse(c.glyph)
  {
    hide PaintScan, CellKey;
    CellShape(c);
    var scan := CellScan(c);
    DropBeside(scan, scan, 16);
    KeyOfPaint(scan, c.glyph, 2, c.ink, c.ground);
  }

  /** A narrow cell is misread in exactly one case: more of it is ink than ground, and its
      complement is another character. */
  lemma ReadBackExactly(font: Font, c: Cell)
    requires Drawable(c) && |c.glyph| == GLYPH_H && c.glyph in font.narrow
    ensures ReadsRight(font, c)
            <==> !(NarrowKey(c) != c.glyph && Reverse(c.glyph) in font.narrow
                   && font.narrow[Reverse(c.glyph)] != font.narrow[c.glyph])
  {
    hide NarrowKey;
    NarrowKeyIs(c);
    LookupExactly(font.narrow, c.glyph, NarrowKey(c));
  }

  /** And a wide cell in that case, or when its left half reads as a narrow character. */
  lemma WideReadBackExactly(font: Font, c: Cell)
    requires Drawable(c) && |c.glyph| == 2 * GLYPH_H && c.glyph in font.wide && c.glyph !in font.narrow
    ensures ReadsRight(font, c)
            <==> ReadNarrow(font, NarrowKey(c)).None?
                 && !(WideKey(c) != c.glyph && Reverse(c.glyph) in font.wide
                      && font.wide[Reverse(c.glyph)] != font.wide[c.glyph])
  {
    hide NarrowKey, WideKey;
    WideKeyIs(c);
    LookupExactly(font.wide, c.glyph, WideKey(c));
  }

  // ---- The cursor ----

  /** A glyph with the cursor over its last two lines. */
  function Cursored(glyph: Glyph): Glyph
    requires |glyph| == GLYPH_H
  {
    glyph[..GLYPH_H - 2] + [255, 255]
  }

  function Uncursored(glyph: Glyph): Glyph
    requires |glyph| == GLYPH_H
  {
    glyph[..GLYPH_H - 2] + [0, 0]
  }

  /** What a cell with the cursor over it reads as: what its shape does, cursor and all, if
      that is anything; and if not, what the glyph does with its last two lines blank, so
      long as no more of the cell is ink than ground. */
  lemma CursorReads(font: Font, glyph: Glyph, ink: Color, ground: Color)
    requires |glyph| == GLYPH_H && ink != ground
    ensures var key := NarrowKey(Cell(Cursored(glyph), ink, ground));
      && (key == Cursored(glyph) || key == Reverse(Cursored(glyph)))
      && ReadNarrow(font, key) ==
         if Lookup(font.narrow, key).Some? then Lookup(font.narrow, key)
         else if key == Cursored(glyph) then Lookup(font.narrow, Uncursored(glyph)) else None
  {
    hide NarrowKey, Lookup;
    var c := Cell(Cursored(glyph), ink, ground);
    NarrowKeyIs(c);
    var key := NarrowKey(c);
    assert Reverse(Cursored(glyph))[GLYPH_H - 1] == 0;
    assert Cursored(glyph)[..GLYPH_H - 2] == glyph[..GLYPH_H - 2];
    assert key == Cursored(glyph) ==> key[GLYPH_H - 2..] == [255, 255];
    assert key != Cursored(glyph) ==> key[GLYPH_H - 2..][1] == 0;
  }

  /** No two shapes are one character, and none is another's complement. */
  ghost predicate OneShapeEach(glyphs: map<Glyph, char>) {
    && (forall g :: g in glyphs ==> |g| == GLYPH_H && Reverse(g) !in glyphs)
    && (forall g, h :: g in glyphs && h in glyphs && glyphs[g] == glyphs[h] ==> g == h)
  }

  lemma LookupFinds(glyphs: map<Glyph, char>, glyph: Glyph, key: Glyph)
    requires OneShapeEach(glyphs) && glyph in glyphs
    ensures Lookup(glyphs, key) == Some(glyphs[glyph]) <==> key == glyph || key == Reverse(glyph)
  {
    ReverseTwice(glyph);
    ReverseTwice(key);
  }

  /** In such a font a character reads as itself under the cursor if and only if its own last
      two lines are full, or they are blank, the cell is taken the right way round, and no
      character has its shape with the cursor. A letter that comes down into those lines
      does not. */
  lemma CursorReadsExactly(font: Font, glyph: Glyph, ink: Color, ground: Color)
    requires OneShapeEach(font.narrow) && glyph in font.narrow && ink != ground
    ensures var shape, key := Cursored(glyph), NarrowKey(Cell(Cursored(glyph), ink, ground));
      ReadNarrow(font, key) == Some(font.narrow[glyph])
      <==> glyph == shape || (glyph == Uncursored(glyph) && key == shape && Lookup(font.narrow, shape).None?)
  {
    hide NarrowKey, ReadNarrow, Lookup, Reverse;
    var shape, key := Cursored(glyph), NarrowKey(Cell(Cursored(glyph), ink, ground));
    CursorReads(font, glyph, ink, ground);
    LookupFinds(font.narrow, glyph, key);
    LookupFinds(font.narrow, glyph, Uncursored(glyph));
    NotItsComplement(glyph);
  }

  lemma NotItsComplement(glyph: Glyph)
    requires |glyph| == GLYPH_H
    ensures Cursored(glyph) != Reverse(glyph) && Uncursored(glyph) != Reverse(glyph)
    ensures Reverse(Cursored(glyph)) != glyph
    ensures Reverse(Cursored(glyph)) == Reverse(glyph) ==> Cursored(glyph) == glyph
  {
    assert Cursored(glyph)[0] == glyph[0] == Uncursored(glyph)[0];
    assert Reverse(glyph)[0] == 255 - glyph[0] == Reverse(Cursored(glyph))[0];
    ReverseTwice(glyph);
    ReverseTwice(Cursored(glyph));
  }

  // ---- Rows of cells ----

  lemma FirstCellKeys(c: Cell, rest: Scan)
    requires Drawable(c) && |rest| == GLYPH_H && |CellScan(c)| == GLYPH_H
    ensures var scan, n := Beside(CellScan(c), rest), Octets(c);
      && 1 <= n <= 2 && Spans(scan, 8 * n) && Spans(scan, 8) && Drop(scan, 8 * n) == rest
      && CellKey(scan, 1) == NarrowKey(c) && (n == 2 ==> Spans(scan, 16) && CellKey(scan, 2) == WideKey(c))
  {
    hide CellScan, Take, Drop, Beside;
    CellShape(c);
    TakeBeside(CellScan(c), rest, 8);
    TakeBeside(CellScan(c), rest, 8 * Octets(c));
    DropBeside(CellScan(c), rest, 8 * Octets(c));
  }

  lemma CellBeside(c: Cell, rest: Scan, n: nat)
    requires Drawable(c) && |rest| == GLYPH_H && Spans(rest, 8 * n)
    ensures |CellScan(c)| == GLYPH_H
    ensures Spans(Beside(CellScan(c), rest), 8 * (Octets(c) + n))
  {
    hide Beside, CellScan;
    CellShape(c);
    WidthBeside(CellScan(c), rest, 8 * Octets(c), 8 * n);
  }

  /** The first cell of a row, read as it is alone, and the rest of the row after it. */
  lemma ReadFirst(font: Font, c: Cell, rest: Scan, n: nat)
    requires Has(font, c) && ReadsRight(font, c) && Sized(font)
    requires |rest| == GLYPH_H && Spans(rest, 8 * n)
    requires |CellScan(c)| == GLYPH_H && Spans(Beside(CellScan(c), rest), 8 * (Octets(c) + n))
    ensures ReadCells(font, Beside(CellScan(c), rest), Octets(c) + n) == [Char(font, c)] + ReadCells(font, rest, n)
  {
    hide Has, ReadsRight, Sized, ReadCells, Beside, CellScan, Octets, Char, CellKey, NarrowKey, WideKey, Drop, Take,
         Lookup, ReadNarrow, Spans;
    OneOrTwo(font, c);
    FirstCellKeys(c, rest);
    var scan, octets := Beside(CellScan(c), rest), Octets(c);
    FirstIs(font, scan, rest, n, octets, Char(font, c));
  }

  lemma OneOrTwo(font: Font, c: Cell)
    requires Has(font, c) && Sized(font)
    ensures Drawable(c)
    ensures c.glyph in font.narrow ==> Octets(c) == 1 && Char(font, c) == font.narrow[c.glyph]
    ensures c.glyph !in font.narrow ==>
      Octets(c) == 2 && font.wide != map[] && c.glyph in font.wide && Char(font, c) == font.wide[c.glyph]
    ensures ReadsRight(font, c) ==>
      && (Octets(c) == 1 ==> ReadNarrow(font, NarrowKey(c)) == Some(Char(font, c)))
      && (Octets(c) == 2 ==> ReadNarrow(font, NarrowKey(c)).None?)
      && (Octets(c) == 2 ==> Lookup(font.wide, WideKey(c)) == Some(Char(font, c)))
  {
  }

  lemma FirstIs(font: Font, scan: Scan, rest: Scan, n: nat, octets: nat, c: char)
    requires |scan| == GLYPH_H && 1 <= octets <= 2
    requires Spans(scan, 8 * (octets + n)) && Spans(scan, 8 * octets) && Spans(scan, 8)
    requires rest == Drop(scan, 8 * octets) && Spans(rest, 8 * n)
    requires |CellKey(scan, 1)| == GLYPH_H
    requires octets == 1 ==> ReadNarrow(font, CellKey(scan, 1)) == Some(c)
    requires octets == 2 ==> ReadNarrow(font, CellKey(scan, 1)).None? && font.wide != map[]
                             && Lookup(font.wide, CellKey(scan, 2)) == Some(c)
    ensures ReadCells(font, scan, octets + n) == [c] + ReadCells(font, rest, n)
  {
    hide CellKey, Drop, Lookup, ReadNarrow, Spans;
  }

  /** Text drawn in two colours a cell, narrow glyphs and wide, reads back as itself when
      each of the cells drawn does, whatever else there is in the font. */
  lemma {:induction false} DrawnReadsBack(font: Font, cells: seq<Cell>, margin: Scan)
    requires Sized(font) && AllThere(font, cells) && AllReadRight(font, cells) && |margin| == GLYPH_H
    ensures Spans(Drawn(cells, margin), 8 * Columns(cells))
    ensures ReadCells(font, Drawn(cells, margin), Columns(cells)) == Text(font, cells)
    decreases |cells|
  {
    hide Beside, Sized, CellScan, ReadCells, ReadsRight, Drawn, Text;
    if cells == [] {
      DrawnNone(font, margin);
    } else {
      DrawnFirst(font, cells, margin);
      DrawnReadsBack(font, cells[1..], margin);
      var rest, n := Drawn(cells[1..], margin), Columns(cells[1..]);
      CellBeside(cells[0], rest, n);
      ReadFirst(font, cells[0], rest, n);
    }
  }

  lemma DrawnNone(font: Font, margin: Scan)
    requires |margin| == GLYPH_H
    ensures Drawn([], margin) == margin && Text(font, []) == "" && Columns([]) == 0 && ReadCells(font, margin, 0) == ""
  {
  }

  lemma DrawnFirst(font: Font, cells: seq<Cell>, margin: Scan)
    requires cells != [] && AllThere(font, cells) && |margin| == GLYPH_H
    ensures Has(font, cells[0]) && AllThere(font, cells[1..]) && |CellScan(cells[0])| == GLYPH_H
    ensures Drawn(cells, margin) == Beside(CellScan(cells[0]), Drawn(cells[1..], margin))
    ensures Columns(cells) == Octets(cells[0]) + Columns(cells[1..])
    ensures Text(font, cells) == [Char(font, cells[0])] + Text(font, cells[1..])
    ensures AllReadRight(font, cells) <==> ReadsRight(font, cells[0]) && AllReadRight(font, cells[1..])
  {
    hide Beside, ReadsRight, CellScan;
    CellShape(cells[0]);
    assert forall i :: 0 < i < |cells| ==> cells[i] == cells[1..][i - 1];
  }

  lemma WidthBeside(a: Scan, b: Scan, m: nat, n: nat)
    requires |a| == |b| && (forall l :: l in a ==> |l| == m) && Spans(b, n)
    ensures Spans(Beside(a, b), m + n)
  {
    forall y | 0 <= y < |a| ensures |a[y] + b[y]| >= m + n {
      assert a[y] in a && b[y] in b;
    }
  }

  /** So a row of a screen reads as its text, blanks at the end dropped. */
  lemma RowReadsBack(font: Font, cells: seq<Cell>, margin: Scan, width: nat)
    requires Sized(font) && AllThere(font, cells) && AllReadRight(font, cells) && |margin| == GLYPH_H
    requires Regular(Drawn(cells, margin), width) && width / 8 == Columns(cells)
    ensures ReadRow(font, Drawn(cells, margin), width) == RStrip(Text(font, cells))
  {
    hide Drawn, Sized, ReadsRight;
    DrawnReadsBack(font, cells, margin);
  }

  /** No character is both narrow and wide. */
  ghost predicate Unlike(font: Font) {
    forall g, h :: g in font.narrow && h in font.wide ==> font.narrow[g] != font.wide[h]
  }

  /** A cell that does not read right reads as another character. */
  lemma FirstIsAnother(font: Font, c: Cell, rest: Scan, n: nat)
    requires Has(font, c) && !ReadsRight(font, c) && Sized(font) && Unlike(font)
    requires |rest| == GLYPH_H && Spans(rest, 8 * n)
    requires |CellScan(c)| == GLYPH_H && Spans(Beside(CellScan(c), rest), 8 * (Octets(c) + n))
    ensures var read := ReadCells(font, Beside(CellScan(c), rest), Octets(c) + n);
            read != "" && read[0] != Char(font, c)
  {
    WhatItReadsAs(font, c);
    OneOrTwo(font, c);
    hide *;
    FirstCellKeys(c, rest);
    FirstRead(font, Beside(CellScan(c), rest), Octets(c) + n);
  }

  /** What a cell reads as that does not read right. */
  lemma WhatItReadsAs(font: Font, c: Cell)
    requires Has(font, c) && !ReadsRight(font, c) && Sized(font) && Unlike(font)
    ensures var narrow := ReadNarrow(font, NarrowKey(c));
      && (Octets(c) == 1 ==> narrow.Some? && narrow.value != Char(font, c))
      && (Octets(c) == 2 && narrow.Some? ==> narrow.value != Char(font, c))
      && (Octets(c) == 2 && narrow.None? ==>
            Lookup(font.wide, WideKey(c)).Some? && Lookup(font.wide, WideKey(c)).value != Char(font, c))
  {
    hide NarrowKey, WideKey, Lookup;
    NarrowKeyIs(c);
    var narrow := ReadNarrow(font, NarrowKey(c));
    if c.glyph in font.narrow {
      LookupExactly(font.narrow, c.glyph, NarrowKey(c));
    } else {
      WideKeyIs(c);
      LookupExactly(font.wide, c.glyph, WideKey(c));
      if narrow.Some? {
        NarrowIsNarrow(font, NarrowKey(c));
        var g :| g in font.narrow && font.narrow[g] == narrow.value;
        assert font.narrow[g] != font.wide[c.glyph];
      }
    }
  }

  lemma NarrowIsNarrow(font: Font, key: Glyph)
    requires |key| >= 2 && ReadNarrow(font, key).Some?
    ensures exists g :: g in font.narrow && font.narrow[g] == ReadNarrow(font, key).value
  {
    var g, h := key, key[..|key| - 2] + [0, 0];
    assert g in font.narrow || Reverse(g) in font.narrow || h in font.narrow || Reverse(h) in font.narrow;
  }

  lemma FirstRead(font: Font, scan: Scan, n: nat)
    requires |scan| == GLYPH_H && n > 0 && Spans(scan, 8 * n) && Spans(scan, 8) && |CellKey(scan, 1)| == GLYPH_H
    requires n > 1 ==> Spans(scan, 16)
    ensures var narrow, read := ReadNarrow(font, CellKey(scan, 1)), ReadCells(font, scan, n);
      && (narrow.Some? ==> read != "" && read[0] == narrow.value)
      && (narrow.None? && font.wide != map[] && n > 1 && Lookup(font.wide, CellKey(scan, 2)).Some? ==>
            read != "" && read[0] == Lookup(font.wide, CellKey(scan, 2)).value)
  {
    hide CellKey, Drop, Lookup, ReadNarrow, Spans;
  }

  /** And where no character is both narrow and wide, a row reads back as its text if and
      only if each of its cells reads right. */
  lemma {:induction false} DrawnReadsBackExactly(font: Font, cells: seq<Cell>, margin: Scan)
    requires Sized(font) && Unlike(font) && AllThere(font, cells) && |margin| == GLYPH_H
    ensures Spans(Drawn(cells, margin), 8 * Columns(cells))
    ensures ReadCells(font, Drawn(cells, margin), Columns(cells)) == Text(font, cells) <==> AllReadRight(font, cells)
    decreases |cells|
  {
    hide Beside, Sized, CellScan, ReadCells, ReadsRight, Unlike, Drawn, Text, Columns, Octets, Char;
    if cells == [] {
      DrawnNone(font, margin);
    } else {
      DrawnFirst(font, cells, margin);
      DrawnReadsBackExactly(font, cells[1..], margin);
      var rest, n := Drawn(cells[1..], margin), Columns(cells[1..]);
      HasDrawable(font, cells[0]);
      CellBeside(cells[0], rest, n);
      if ReadsRight(font, cells[0]) {
        ReadFirst(font, cells[0], rest, n);
        SameTail(Char(font, cells[0]), ReadCells(font, rest, n), Text(font, cells[1..]));
      } else {
        FirstIsAnother(font, cells[0], rest, n);
      }
    }
  }

  lemma HasDrawable(font: Font, c: Cell)
    requires Has(font, c)
    ensures Drawable(c)
  {
  }

  lemma SameTail(c: char, a: string, b: string)
    ensures [c] + a == [c] + b <==> a == b
  {
    assert ([c] + a)[1..] == a && ([c] + b)[1..] == b;
  }

  // ---- Rows as the bytes of a dump ----

  /** Every pixel is all there. */
  predicate AllThree(p: Pixels) {
    forall i :: 0 <= i < |p| ==> |p[i].bytes| == 3
  }

  function Bytes3(p: Pixels): Bytes {
    if p == [] then [] else Bytes3(p[..|p| - 1]) + p[|p| - 1].bytes
  }

  lemma {:induction false} PixelBack(p: Pixels, rest: Bytes, n: nat)
    requires AllThree(p) && n < |p|
    ensures |Bytes3(p)| == 3 * |p| && Pixel(Bytes3(p) + rest, n) == p[n]
    decreases |p|
  {
    var before, last := p[..|p| - 1], p[|p| - 1].bytes;
    Bytes3Length(before);
    assert Bytes3(p) + rest == Bytes3(before) + (last + rest);
    if n < |before| {
      PixelBack(before, last + rest, n);
    } else {
      assert (Bytes3(before) + (last + rest))[3 * n..3 * n + 3] == last;
    }
  }

  lemma {:induction false} Bytes3Length(p: Pixels)
    requires AllThree(p)
    ensures |Bytes3(p)| == 3 * |p|
    decreases |p|
  {
    if p != [] {
      Bytes3Length(p[..|p| - 1]);
    }
  }

  lemma OneLineMore(n: nat, width: nat)
    ensures (n + 1) * width == width + n * width
  {
  }

  lemma {:induction false} FlatLength(scan: Scan, width: nat)
    requires forall l :: l in scan ==> |l| == width
    ensures |Flat(scan)| == |scan| * width
    decreases |scan|
  {
    if scan != [] {
      assert scan[0] in scan;
      assert forall l :: l in scan[1..] ==> l in scan;
      FlatLength(scan[1..], width);
      OneLineMore(|scan| - 1, width);
    }
  }

  /** Which pixel of a row it is. */
  function At(width: nat, y: nat, x: nat): nat {
    y * width + x
  }

  lemma AtNext(width: nat, y: nat, x: nat)
    ensures At(width, 0, x) == x && At(width, y + 1, x) == width + At(width, y, x)
  {
    OneLineMore(y, width);
  }

  lemma {:induction false} FlatPlace(scan: Scan, width: nat, y: nat, x: nat)
    requires (forall l :: l in scan ==> |l| == width) && y < |scan| && x < width
    ensures At(width, y, x) < |Flat(scan)| && Flat(scan)[At(width, y, x)] == scan[y][x]
    decreases |scan|
  {
    hide At;
    var line, rest := scan[0], scan[1..];
    assert line in scan;
    assert Flat(scan) == line + Flat(rest);
    hide Flat;
    if y == 0 {
      AtNext(width, 0, x);
    } else {
      assert forall l :: l in rest ==> l in scan;
      FlatPlace(rest, width, y - 1, x);
      AtNext(width, y - 1, x);
    }
  }

  /** A row as it is dumped, read out of the dump's bytes, is the row. */
  lemma RawBack(scan: Scan, width: nat)
    requires Regular(scan, width) && AllThree(Flat(scan))
    ensures RawScan(Bytes3(Flat(scan)), width) == scan && Whole(Bytes3(Flat(scan)), width)
  {
    hide Flat, Bytes3;
    var raw := Bytes3(Flat(scan));
    FlatLength(scan, width);
    Bytes3Length(Flat(scan));
    forall y | 0 <= y < GLYPH_H
      ensures RawScan(raw, width)[y] == scan[y]
    {
      LineBack(scan, width, y);
    }
  }

  lemma LineBack(scan: Scan, width: nat, y: nat)
    requires Regular(scan, width) && AllThree(Flat(scan)) && y < GLYPH_H
    ensures RowLine(Dump(width, GLYPH_H, Bytes3(Flat(scan))), 0, y) == scan[y]
  {
    hide Flat, Bytes3, Pixel;
    var raw := Bytes3(Flat(scan));
    var line := RowLine(Dump(width, GLYPH_H, raw), 0, y);
    assert scan[y] in scan;
    forall x | 0 <= x < width ensures line[x] == scan[y][x] {
      FlatPlace(scan, width, y, x);
      FlatLength(scan, width);
      PixelBack(Flat(scan), [], y * width + x);
      assert raw + [] == raw;
    }
  }

  // ---- A row that was cut short ----

  const HALF: Glyph := [0, 0, 0, 0, 0, 0, 0, 0, 255, 255, 255, 255, 255, 255, 255, 255]
  const BLANK: Glyph := seq(GLYPH_H, _ => 0)
  const BLACK := Color([0, 0, 0])
  const NONE := Color([])

  /** A black row of one narrow cell. */
  function BlackRow(): Bytes {
    seq(RowBytes(8), _ => 0)
  }

  lemma BlackPixel(n: nat)
    ensures Pixel(BlackRow(), n) == if n < GLYPH_H * 8 then BLACK else NONE
  {
    assert |BlackRow()| == 3 * GLYPH_H * 8;
    if n < GLYPH_H * 8 {
      assert Slice(BlackRow(), 3 * n, 3 * n + 3) == [0, 0, 0];
    }
  }

  function Repeated(c: Color, n: nat): Pixels {
    seq(n, _ => c)
  }

  lemma BlackLine(width: nat, y: nat)
    requires width == 8 || width == 16
    requires y < GLYPH_H
    ensures RowLine(Dump(width, GLYPH_H, BlackRow()), 0, y) ==
            Repeated(if width == 8 || y < 8 then BLACK else NONE, width)
  {
    hide BlackRow, Pixel;
    var line := RowLine(Dump(width, GLYPH_H, BlackRow()), 0, y);
    forall x | 0 <= x < width ensures line[x] == if width == 8 || y < 8 then BLACK else NONE {
      BlackPixel((0 * GLYPH_H + y) * width + x);
    }
  }

  lemma PaintedFull(ink: Color, ground: Color)
    ensures PaintLine([0], ink, ground) == Repeated(ground, 8)
    ensures PaintLine([255], ink, ground) == Repeated(ink, 8)
  {
    assert PaintLine([0], ink, ground) == Paint(0, ink, ground) + PaintLine([], ink, ground);
    assert PaintLine([255], ink, ground) == Paint(255, ink, ground) + PaintLine([], ink, ground);
  }

  /** Each line of a narrow cell is one byte of its glyph. */
  lemma {:induction false} PaintedLine(glyph: Glyph, ink: Color, ground: Color, y: nat)
    requires y < |glyph|
    ensures |PaintScan(glyph, 1, ink, ground)| == |glyph|
    ensures PaintScan(glyph, 1, ink, ground)[y] == PaintLine([glyph[y]], ink, ground)
    decreases |glyph|
  {
    hide PaintLine;
    PaintScanLines(glyph, 1, ink, ground);
    assert glyph[..1] == [glyph[0]];
    if y > 0 {
      PaintedLine(glyph[1..], ink, ground, y - 1);
    }
  }

  /** Read at its own width the row is one blank cell ... */
  lemma BlackRowIsBlank()
    ensures RawScan(BlackRow(), 8) == CellScan(Cell(BLANK, NONE, BLACK))
  {
    hide BlackRow, RowLine, PaintScan, PaintLine;
    var scan := CellScan(Cell(BLANK, NONE, BLACK));
    PaintedFull(NONE, BLACK);
    PaintScanLines(BLANK, 1, NONE, BLACK);
    forall y | 0 <= y < GLYPH_H ensures RawScan(BlackRow(), 8)[y] == scan[y] {
      BlackLine(8, y);
      PaintedLine(BLANK, NONE, BLACK, y);
    }
  }

  function HalfCell(): Cell {
    Cell(HALF, NONE, BLACK)
  }

  /** ... and at twice that, two cells whose lower halves are missing. */
  lemma BlackRowIsHalves()
    ensures |CellScan(HalfCell())| == GLYPH_H
    ensures RawScan(BlackRow(), 16) == Beside(CellScan(HalfCell()), CellScan(HalfCell()))
  {
    hide BlackRow, RowLine, PaintScan, PaintLine;
    var scan := CellScan(HalfCell());
    PaintedFull(NONE, BLACK);
    PaintScanLines(HALF, 1, NONE, BLACK);
    forall y | 0 <= y < GLYPH_H ensures RawScan(BlackRow(), 16)[y] == scan[y] + scan[y] {
      BlackLine(16, y);
      PaintedLine(HALF, NONE, BLACK, y);
      var c := if y < 8 then BLACK else NONE;
      assert Repeated(c, 16) == Repeated(c, 8) + Repeated(c, 8);
    }
  }

  lemma BlankKey()
    ensures Drawable(Cell(BLANK, NONE, BLACK)) && NarrowKey(Cell(BLANK, NONE, BLACK)) == BLANK
  {
    hide PaintScan, Keys, Leader;
    var c := Cell(BLANK, NONE, BLACK);
    CellShape(c);
    var scan := CellScan(c);
    DropBeside(scan, scan, 8);
    var all := Flat(scan);
    FlatHas(scan);
    AllBlack(BLANK);
    assert Leader(all, |all|) == BLACK;
    KeysOfPaint(BLANK, 1, NONE, BLACK, false);
  }

  lemma {:induction false} AllBlack(glyph: Glyph)
    requires forall b :: b in glyph ==> b == 0
    ensures forall p :: p in Flat(PaintScan(glyph, 1, NONE, BLACK)) ==> p == BLACK
    decreases |glyph|
  {
    hide PaintLine;
    if glyph != [] {
      PaintedFull(NONE, BLACK);
      assert glyph[0] in glyph && glyph[..1] == [0];
      assert forall b :: b in glyph[1..] ==> b in glyph;
      AllBlack(glyph[1..]);
    }
  }

  lemma Unread(font: Font, c: Cell, rest: Scan, n: nat)
    requires Drawable(c) && Octets(c) == 1 && |rest| == GLYPH_H && Spans(rest, 8 * n) && |CellScan(c)| == GLYPH_H
    requires font.wide == map[] && Spans(Beside(CellScan(c), rest), 8 * (1 + n))
    ensures ReadCells(font, Beside(CellScan(c), rest), 1 + n) ==
            (if ReadNarrow(font, NarrowKey(c)).None? then "?" else [ReadNarrow(font, NarrowKey(c)).value])
            + ReadCells(font, rest, n)
  {
    hide CellScan, Beside, CellKey, Drop, Spans, ReadNarrow, NarrowKey;
    FirstCellKeys(c, rest);
  }

  /** A dump of a blank screen, and a dump cut short after as many bytes by a header that
      says it is twice as wide: a row of each has the same bytes. The one is blank, and the
      other two cells that read as nothing known. So whichever is read second is answered
      with the other's line. */
  lemma AShortRowIsMistaken(font: Font)
    requires font.wide == map[] && BLANK in font.narrow && font.narrow[BLANK] == ' '
    requires ReadNarrow(font, HALF).None? && ReadNarrow(font, Reverse(HALF)).None?
    ensures Whole(BlackRow(), 8) && !Whole(BlackRow(), 16)
    ensures ReadRow(font, RawScan(BlackRow(), 8), 8) == ""
    ensures ReadRow(font, RawScan(BlackRow(), 16), 16) == "??"
  {
    hide CellScan, Beside, RawScan, NarrowKey, ReadCells, Regular;
    BlackRowReads(font);
    HalvesRead(font);
    assert RStrip(" ") == RStrip("") == "";
    assert !Blank('?');
  }

  lemma BlackRowReads(font: Font)
    requires font.wide == map[] && BLANK in font.narrow && font.narrow[BLANK] == ' '
    ensures ReadCells(font, RawScan(BlackRow(), 8), 1) == " "
  {
    hide CellScan, Beside, RawScan, NarrowKey, BlackRow;
    var c, margin := Cell(BLANK, NONE, BLACK), seq(GLYPH_H, _ => []);
    BlackRowIsBlank();
    BlankKey();
    CellShape(c);
    BesideNothing(CellScan(c), margin);
    Unread(font, c, margin, 0);
    assert ReadCells(font, margin, 0) == "";
  }

  lemma BesideNothing(a: Scan, margin: Scan)
    requires |a| == |margin| && forall l :: l in margin ==> l == []
    ensures Beside(a, margin) == a
  {
    forall y | 0 <= y < |a| ensures Beside(a, margin)[y] == a[y] {
      assert margin[y] in margin;
    }
  }

  lemma HalfReads(font: Font)
    requires font.wide == map[]
    requires ReadNarrow(font, HALF).None? && ReadNarrow(font, Reverse(HALF)).None?
    ensures |CellScan(HalfCell())| == GLYPH_H && Spans(CellScan(HalfCell()), 8)
    ensures ReadNarrow(font, NarrowKey(HalfCell())).None?
    ensures ReadCells(font, CellScan(HalfCell()), 1) == "?"
  {
    hide CellScan, Beside, NarrowKey, ReadNarrow, HalfCell;
    var c, margin := HalfCell(), seq(GLYPH_H, _ => []);
    HalfIsDrawable();
    CellShape(c);
    NarrowKeyIs(c);
    BesideNothing(CellScan(c), margin);
    WidthBeside(CellScan(c), margin, 8, 0);
    Unread(font, c, margin, 0);
    assert ReadCells(font, margin, 0) == "";
  }

  lemma HalfIsDrawable()
    ensures Drawable(HalfCell()) && Octets(HalfCell()) == 1 && HalfCell().glyph == HALF
  {
  }

  lemma HalvesRead(font: Font)
    requires font.wide == map[]
    requires ReadNarrow(font, HALF).None? && ReadNarrow(font, Reverse(HALF)).None?
    ensures ReadCells(font, RawScan(BlackRow(), 16), 2) == "??"
  {
    hide CellScan, Beside, RawScan, NarrowKey, BlackRow, ReadNarrow, HalfCell, ReadCells, Drawable;
    var c := HalfCell();
    HalfIsDrawable();
    HalfReads(font);
    BlackRowIsHalves();
    CellShape(c);
    WidthBeside(CellScan(c), CellScan(c), 8, 8);
    Unread(font, c, CellScan(c), 1);
  }

  // ---- Fonts of which everything can be read ----

  /** No glyph is another's complement. */
  ghost predicate NoComplements(glyphs: map<Glyph, char>) {
    forall g :: g in glyphs ==> Reverse(g) !in glyphs
  }

  /** ... and no wide glyph's left half reads as a narrow one, whichever way round. */
  ghost predicate Legible(font: Font) {
    && Sized(font) && NoComplements(font.narrow) && NoComplements(font.wide)
    && (forall g :: g in font.wide ==> |LeftHalf(g)| == GLYPH_H
                                       && ReadNarrow(font, LeftHalf(g)).None?
                                       && ReadNarrow(font, Reverse(LeftHalf(g))).None?)
  }

  /** Of such a font every cell reads right, so that any row reads as its text. */
  lemma LegibleReadsRight(font: Font, cells: seq<Cell>)
    requires Legible(font) && AllThere(font, cells)
    ensures AllReadRight(font, cells)
  {
    forall i | 0 <= i < |cells|
      ensures ReadsRight(font, cells[i])
    {
      LegibleCell(font, cells[i]);
    }
  }

  lemma LegibleCell(font: Font, c: Cell)
    requires Legible(font) && Has(font, c)
    ensures ReadsRight(font, c)
  {
    hide LeftHalf, NarrowKey, WideKey, ReadNarrow, Lookup;
    NarrowKeyIs(c);
    if c.glyph in font.narrow {
      ReadBackExactly(font, c);
    } else {
      WideReadBackExactly(font, c);
    }
  }
}
