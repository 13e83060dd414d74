/** Screens: a whole screen's lines, top to bottom, whatever is in the dump; and the text of a
    screen that was drawn. */
module Screens {
  import opened Bytes
  import opened Screen

  // ---- The ground, and blanks ----

  lemma {:induction false} CountIs(pixels: Pixels, c: Color)
    ensures Count(pixels, c) == multiset(pixels)[c]
    decreases |pixels|
  {
    if pixels != [] {
      CountIs(pixels[1..], c);
      assert pixels == [pixels[0]] + pixels[1..];
    }
  }

  /** The ground of a cell is of its commonest colours the one that comes first: at one of its
      pixels, with fewer of every colour that is before that pixel and no more of any. */
  lemma {:induction false} GroundIsFirst(pixels: Pixels, k: nat)
    requires 0 < k <= |pixels|
    ensures var c := Leader(pixels, k);
      && (forall i :: 0 <= i < k ==> multiset(pixels)[pixels[i]] <= multiset(pixels)[c])
      && exists j :: 0 <= j < k && FirstAt(pixels, c, j)
    decreases k
  {
    hide Count;
    var c := Leader(pixels, k);
    CountIs(pixels, c);
    forall i | 0 <= i < k ensures Count(pixels, pixels[i]) == multiset(pixels)[pixels[i]] {
      CountIs(pixels, pixels[i]);
    }
    if k == 1 {
      assert FirstAt(pixels, c, 0);
    } else {
      GroundIsFirst(pixels, k - 1);
      var before := Leader(pixels, k - 1);
      CountIs(pixels, before);
      if c == pixels[k - 1] && Count(pixels, c) > Count(pixels, before) {
        assert FirstAt(pixels, c, k - 1);
      }
    }
  }

  ghost predicate FirstAt(pixels: Pixels, c: Color, j: nat) {
    && j < |pixels| && pixels[j] == c
    && forall i :: 0 <= i < j ==> multiset(pixels)[pixels[i]] < multiset(pixels)[c]
  }

  /** What is dropped from the end of a line: white space, as Unicode has it. */
  lemma BlankExactly(c: char)
    ensures Blank(c) <==> c as int in {
      9, 10, 11, 12, 13, 28, 29, 30, 31, 32, 0x85, 0xA0, 0x1680, 0x2000, 0x2001, 0x2002, 0x2003, 0x2004, 0x2005,
      0x2006, 0x2007, 0x2008, 0x2009, 0x200A, 0x2028, 0x2029, 0x202F, 0x205F, 0x3000}
  {
  }

  // ---- Which lines ----

  /** A string with the blanks at its end dropped, and no other character. */
  ghost predicate Stripped(s: string, r: string) {
    && r <= s && (forall i :: |r| <= i < |s| ==> Blank(s[i]))
    && (r != "" ==> !Blank(r[|r| - 1]))
  }

  lemma {:induction false} RStripExactly(s: string)
    ensures Stripped(s, RStrip(s))
    ensures forall r :: Stripped(s, r) ==> r == RStrip(s)
    decreases |s|
  {
    if s != "" && Blank(s[|s| - 1]) {
      var t := s[..|s| - 1];
      RStripExactly(t);
      forall r | Stripped(s, r) ensures Stripped(t, r) {
        assert |r| < |s|;
      }
    }
  }

  lemma {:induction false} RowsInOrder(font: Font, dump: Dump, row: nat)
    requires row <= dump.height / 16
    ensures |ReadRows(font, dump, row)| == dump.height / 16 - row
    ensures forall i :: 0 <= i < |ReadRows(font, dump, row)| ==>
              ReadRows(font, dump, row)[i] == ReadRow(font, RowScan(dump, row + i), dump.width)
    decreases dump.height / 16 - row
  {
    hide ReadRow, RowScan;
    if row < dump.height / 16 {
      RowsInOrder(font, dump, row + 1);
      var rest := ReadRows(font, dump, row + 1);
      forall i | 0 <= i < |ReadRows(font, dump, row)|
        ensures ReadRows(font, dump, row)[i] == ReadRow(font, RowScan(dump, row + i), dump.width)
      {
        if i > 0 {
          assert ReadRows(font, dump, row)[i] == rest[i - 1];
        }
      }
    }
  }

  lemma {:induction false} BlankEndExactly(lines: seq<string>)
    ensures var r := WithoutBlankEnd(lines);
      r <= lines && (forall i :: |r| <= i < |lines| ==> lines[i] == "") && (r != [] ==> r[|r| - 1] != "")
    decreases |lines|
  {
    if lines != [] && lines[|lines| - 1] == "" {
      BlankEndExactly(lines[..|lines| - 1]);
    }
  }

  /** The lines of a screen are its rows' from the top, each as it reads, as far down as the
      last that is not empty. */
  lemma LinesExactly(font: Font, dump: Dump)
    ensures var lines, rows := ReadScreen(font, dump), dump.height / 16;
      && |lines| <= rows
      && (forall i :: 0 <= i < |lines| ==> lines[i] == ReadRow(font, RowScan(dump, i), dump.width))
      && (forall i :: |lines| <= i < rows ==> ReadRow(font, RowScan(dump, i), dump.width) == "")
      && (lines != [] ==> lines[|lines| - 1] != "")
  {
    hide ReadRow, RowScan, ReadRows, WithoutBlankEnd;
    var all, lines := ReadRows(font, dump, 0), ReadScreen(font, dump);
    RowsInOrder(font, dump, 0);
    BlankEndExactly(all);
    forall i | 0 <= i < |all|
      ensures ReadRow(font, RowScan(dump, i), dump.width) == if i < |lines| then lines[i] else ""
    {
      assert all[i] == ReadRow(font, RowScan(dump, 0 + i), dump.width);
    }
  }

  // ---- A drawn screen ----

  /** Rows of pixels as they are dumped, the top one first. */
  function DataOf(rows: seq<Scan>): Bytes {
    if rows == [] then [] else Bytes3(Flat(rows[0])) + DataOf(rows[1..])
  }

  ghost predicate Dumpable(rows: seq<Scan>, width: nat) {
    forall i :: 0 <= i < |rows| ==> Regular(rows[i], width) && AllThree(Flat(rows[i]))
  }

  /** The bytes of one row. */
  lemma {:induction false} RowsData(rows: seq<Scan>, width: nat, i: nat, more: Bytes)
    requires Dumpable(rows, width) && i < |rows|
    ensures RowRaw(Dump(width, 0, DataOf(rows) + more), i) == Bytes3(Flat(rows[i]))
    decreases |rows|
  {
    hide Flat, Bytes3, Regular, AllThree, Dumpable;
    RowLength(rows, width, 0);
    var first, rest := Bytes3(Flat(rows[0])), DataOf(rows[1..]) + more;
    assert DataOf(rows) + more == first + rest;
    if i == 0 {
      FirstSlice(first, rest, width);
    } else {
      LaterRows(rows, width);
      RowsData(rows[1..], width, i - 1, more);
      LaterSlice(first, rest, width, i);
    }
  }

  lemma RowLength(rows: seq<Scan>, width: nat, i: nat)
    requires Dumpable(rows, width) && i < |rows|
    ensures |Bytes3(Flat(rows[i]))| == RowBytes(width)
  {
    hide Flat, Bytes3;
    RawBack(rows[i], width);
  }

  lemma LaterRows(rows: seq<Scan>, width: nat)
    requires Dumpable(rows, width) && rows != []
    ensures Dumpable(rows[1..], width)
  {
    hide Flat, Regular, AllThree;
    forall i | 0 <= i < |rows| - 1 ensures Regular(rows[1..][i], width) && AllThree(Flat(rows[1..][i])) {
      assert rows[1..][i] == rows[i + 1];
    }
  }

  lemma FirstSlice(first: Bytes, rest: Bytes, width: nat)
    requires |first| == RowBytes(width)
    ensures RowRaw(Dump(width, 0, first + rest), 0) == first
  {
    hide RowBytes;
    assert 0 * RowBytes(width) == 0;
    assert (first + rest)[0..|first|] == first;
  }

  lemma LaterSlice(first: Bytes, rest: Bytes, width: nat, i: nat)
    requires |first| == RowBytes(width) && i > 0
    ensures RowRaw(Dump(width, 0, first + rest), i) == RowRaw(Dump(width, 0, rest), i - 1)
  {
    hide RowBytes;
    var n := RowBytes(width);
    assert i * n == n + (i - 1) * n;
    SlicePast(first, rest, (i - 1) * n, (i - 1) * n + n);
  }

  lemma SlicePast(first: Bytes, rest: Bytes, from: nat, to: nat)
    requires from <= to
    ensures Slice(first + rest, |first| + from, |first| + to) == Slice(rest, from, to)
  {
    var a, b := Slice(first + rest, |first| + from, |first| + to), Slice(rest, from, to);
    assert |a| == |b|;
    assert forall k :: 0 <= k < |a| ==> a[k] == b[k];
  }

  /** Rows dumped one after another are the rows of the dump. */
  lemma RowsBack(rows: seq<Scan>, width: nat, height: nat, i: nat, more: Bytes)
    requires Dumpable(rows, width) && i < |rows|
    ensures RowScan(Dump(width, height, DataOf(rows) + more), i) == rows[i]
  {
    hide Flat, Bytes3, DataOf, RowScan, RawScan;
    var dump := Dump(width, height, DataOf(rows) + more);
    RowsData(rows, width, i, more);
    RowIsItsBytes(dump, i);
    RawBack(rows[i], width);
  }

  /** A row of a screen: its cells, and what pixels are left at its right. */
  datatype Row = Row(cells: seq<Cell>, margin: Scan)

  /** A row that can be drawn over so many pixels, each of its cells one that reads right. */
  ghost predicate Legibly(font: Font, row: Row, width: nat) {
    && AllThere(font, row.cells) && AllReadRight(font, row.cells) && |row.margin| == 16
    && Regular(Drawn(row.cells, row.margin), width) && AllThree(Flat(Drawn(row.cells, row.margin)))
    && width / 8 == Columns(row.cells)
  }

  ghost predicate AllLegible(font: Font, rows: seq<Row>, width: nat) {
    forall i :: 0 <= i < |rows| ==> Legibly(font, rows[i], width)
  }

  function Scans(font: Font, rows: seq<Row>, width: nat): (scans: seq<Scan>)
    requires AllLegible(font, rows, width)
    ensures |scans| == |rows|
    ensures forall i :: 0 <= i < |rows| ==> scans[i] == Drawn(rows[i].cells, rows[i].margin)
  {
    seq(|rows|, i requires 0 <= i < |rows| => Drawn(rows[i].cells, rows[i].margin))
  }

  /** A whole screen drawn row under row, and dumped - with whatever lines there are at its
      bottom too few for another row - reads as its text: each row's in its place, without the
      blanks at its end, down to the last that is not blank. */
  lemma ScreenReadsBack(font: Font, rows: seq<Row>, width: nat, height: nat, more: Bytes)
    requires Screen.Sized(font) && AllLegible(font, rows, width) && height / 16 == |rows|
    ensures var lines := ReadScreen(font, Dump(width, height, DataOf(Scans(font, rows, width)) + more));
      && |lines| <= |rows|
      && (forall i :: 0 <= i < |lines| ==> Stripped(Text(font, rows[i].cells), lines[i]))
      && (forall i :: |lines| <= i < |rows| ==> Stripped(Text(font, rows[i].cells), ""))
      && (lines != [] ==> lines[|lines| - 1] != "")
  {
    hide Stripped, RowScan, DataOf, ReadScreen, ReadRow, Drawn, Text;
    var scans := Scans(font, rows, width);
    var dump := Dump(width, height, DataOf(scans) + more);
    LinesExactly(font, dump);
    forall i | 0 <= i < |rows|
      ensures Stripped(Text(font, rows[i].cells), ReadRow(font, RowScan(dump, i), width))
    {
      LegibleRow(font, rows, width, i);
      RowsBack(scans, width, height, i, more);
      RowReadsBack(font, rows[i].cells, rows[i].margin, width);
      RStripExactly(Text(font, rows[i].cells));
    }
  }

  lemma LegibleRow(font: Font, rows: seq<Row>, width: nat, i: nat)
    requires AllLegible(font, rows, width) && i < |rows|
    ensures Legibly(font, rows[i], width) && Dumpable(Scans(font, rows, width), width)
  {
    hide Drawn, Flat, Regular, AllThree, AllReadRight;
  }
}
