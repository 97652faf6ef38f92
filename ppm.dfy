/**
 The plain-text pixel map ("P3") that main.cpp writes: `printHeader`,
 `write_color` and `printScreenToPPMFile`. The output stream is modelled as the
 sequence of strings written to it, one per call that writes (the header, one
 line per pixel, and the extra line break after every row); Text joins them
 into the file's contents. The decoders read a header or a colour line back.
 */
module Ppm {
  import opened Wrappers
  import opened Decimal
  import opened Vector3
  import opened Screen

  /** `int(x)` on a double: truncation toward zero. */
  function Trunc(r: real): (n: int)
    ensures r >= 0.0 ==> 0 <= n && n as real <= r < n as real + 1.0
    ensures r < 0.0 ==> n <= 0 && n as real - 1.0 < r <= n as real
  {
    if r >= 0.0 then r.Floor else -((-r).Floor)
  }

  /** The byte `write_color` prints for one channel: `int(255.999 * c)`. */
  function ToByte(c: real): int {
    Trunc(255.999 * c)
  }

  /** A channel in [0, 1] gives a byte in [0, 255]; 1.0 gives 255, 0.5 gives
      127 and 0.0 gives 0. A slightly negative channel truncates to 0, not -1. */
  lemma ByteRange(c: real)
    requires 0.0 <= c <= 1.0
    ensures 0 <= ToByte(c) <= 255
  {
  }

  lemma ByteScenarios()
    ensures ToByte(1.0) == 255 && ToByte(0.5) == 127 && ToByte(0.0) == 0
    ensures ToByte(-0.001) == 0
  {
  }

  /** What `printHeader` writes: the tag, the dimensions, the maximum value. */
  function HeaderText(w: nat, h: nat): string {
    "P3\n" + NatToString(w) + " " + NatToString(h) + "\n" + "255\n"
  }

  /** What `write_color` writes for one pixel: three bytes and a line break. */
  function ColorLine(c: Vec3): string {
    TripletLine(ToByte(c.x), ToByte(c.y), ToByte(c.z))
  }

  /** Three integers separated by spaces, ended by a line break. */
  function TripletLine(r: int, g: int, b: int): string {
    IntToString(r) + " " + IntToString(g) + " " + IntToString(b) + "\n"
  }

  function DecodeHeader(s: string): Option<(nat, nat)> {
    var lines := Split(s, '\n');
    if |lines| == 4 && lines[0] == "P3" && lines[2] == "255" && lines[3] == "" then
      var dims := Split(lines[1], ' ');
      if |dims| == 2 then
        match (ParseNat(dims[0]), ParseNat(dims[1]))
        case (Some(w), Some(h)) => Some((w, h))
        case _ => None
      else None
    else None
  }

  function DecodeColorLine(s: string): Option<(int, int, int)> {
    var lines := Split(s, '\n');
    if |lines| == 2 && lines[1] == "" then
      var fields := Split(lines[0], ' ');
      if |fields| == 3 then
        match (ParseInt(fields[0]), ParseInt(fields[1]), ParseInt(fields[2]))
        case (Some(r), Some(g), Some(b)) => Some((r, g, b))
        case _ => None
      else None
    else None
  }

  /** Reading the header back gives the width and height it was written with. */
  lemma HeaderRoundTrip(w: nat, h: nat)
    ensures DecodeHeader(HeaderText(w, h)) == Some((w, h))
  {
    var W, H := NatToString(w), NatToString(h);
    var dims := W + [' '] + H;
    assert '\n' !in dims;
    var tail := "255" + ['\n'] + "";
    assert HeaderText(w, h) == "P3" + ['\n'] + (dims + ['\n'] + tail);
    SplitFirst("P3", dims + ['\n'] + tail, '\n');
    SplitFirst(dims, tail, '\n');
    SplitFirst("255", "", '\n');
    assert Split(HeaderText(w, h), '\n') == ["P3", dims, "255", ""];
    SplitFirst(W, H, ' ');
    SplitNoSeparator(H, ' ');
    assert Split(dims, ' ') == [W, H];
    NatRoundTrip(w);
    NatRoundTrip(h);
  }

  /** Splitting three separator-free fields joined by single spaces. */
  lemma SplitThree(a: string, b: string, c: string)
    requires ' ' !in a && ' ' !in b && ' ' !in c
    ensures Split(a + " " + b + " " + c, ' ') == [a, b, c]
  {
    assert a + " " + b + " " + c == a + [' '] + (b + [' '] + c);
    SplitFirst(a, b + [' '] + c, ' ');
    SplitFirst(b, c, ' ');
    SplitNoSeparator(c, ' ');
  }

  /** Reading a line of three integers back gives the three integers. */
  lemma TripletRoundTrip(r: int, g: int, b: int)
    ensures DecodeColorLine(TripletLine(r, g, b)) == Some((r, g, b))
  {
    var R, G, B := IntToString(r), IntToString(g), IntToString(b);
    var fields := R + " " + G + " " + B;
    assert '\n' !in fields;
    assert TripletLine(r, g, b) == fields + ['\n'] + "";
    SplitFirst(fields, "", '\n');
    SplitThree(R, G, B);
    IntRoundTrip(r);
    IntRoundTrip(g);
    IntRoundTrip(b);
  }

  /** Reading a pixel's line back gives the three bytes of its channels. */
  lemma ColorLineRoundTrip(c: Vec3)
    ensures DecodeColorLine(ColorLine(c)) == Some((ToByte(c.x), ToByte(c.y), ToByte(c.z)))
  {
    TripletRoundTrip(ToByte(c.x), ToByte(c.y), ToByte(c.z));
  }

  /** The line of every cell, in the order of the cells. */
  function PixelLines(cells: seq<Pixel>): (r: seq<string>)
    ensures |r| == |cells|
  {
    seq(|cells|, k requires 0 <= k < |cells| => ColorLine(cells[k].color))
  }

  lemma PixelLineAt(cells: seq<Pixel>, k: nat)
    requires k < |cells|
    ensures PixelLines(cells)[k] == ColorLine(cells[k].color)
  {
  }

  /** Write i of the rows when each row takes w + 1 writes: in row i / (w + 1),
      column i % (w + 1) is the line of cell `w*row + col`, and column w is the
      row's closing line break. */
  function RowChunk(lines: seq<string>, w: nat, h: nat, i: nat): string
    requires w * h <= |lines| && i < h * (w + 1)
  {
    RowChunkBounds(w, h, i);
    var row, col := i / (w + 1), i % (w + 1);
    if col == w then "\n" else lines[w * row + col]
  }

  /** Write i of the rows lies in a row below h, and the cell it names lies
      in the grid. */
  lemma RowChunkBounds(w: nat, h: nat, i: nat)
    requires i < h * (w + 1)
    ensures i / (w + 1) < h && i % (w + 1) <= w
    ensures i % (w + 1) < w ==> w * (i / (w + 1)) + i % (w + 1) < w * h
  {
    CellCoordinates(w + 1, h, i);
    MulMonotone(w, i / (w + 1) + 1, h);
  }

  /** The writes for the h rows, each row its w lines then a line break. */
  function Body(lines: seq<string>, w: nat, h: nat): seq<string>
    requires w * h <= |lines|
  {
    seq(h * (w + 1), i requires 0 <= i < h * (w + 1) => RowChunk(lines, w, h, i))
  }

  /** Everything `printScreenToPPMFile` writes: the header once, then the rows. */
  function PpmChunks(cells: seq<Pixel>, w: nat, h: nat): seq<string>
    requires |cells| == w * h
  {
    [HeaderText(w, h)] + Body(PixelLines(cells), w, h)
  }

  /** The file's contents: the writes joined in order. */
  function Text(chunks: seq<string>): string {
    if chunks == [] then "" else Text(chunks[..|chunks| - 1]) + chunks[|chunks| - 1]
  }

  /** Writing one stream and then another gives the text of both together. */
  lemma {:induction false} TextAppend(a: seq<string>, b: seq<string>)
    ensures Text(a + b) == Text(a) + Text(b)
    decreases |b|
  {
    if b == [] {
      assert a + b == a;
    } else {
      var last := |b| - 1;
      assert (a + b)[..|a + b| - 1] == a + b[..last];
      TextAppend(a, b[..last]);
    }
  }

  /** The file holds the header and then the rows. */
  lemma FileText(cells: seq<Pixel>, w: nat, h: nat)
    requires |cells| == w * h
    ensures Text(PpmChunks(cells, w, h)) == HeaderText(w, h) + Text(Body(PixelLines(cells), w, h))
  {
    TextAppend([HeaderText(w, h)], Body(PixelLines(cells), w, h));
    assert [HeaderText(w, h)][..0] == [];
  }

  /** A two-pixel image, red then green, as the file it becomes. */
  lemma TwoPixelFile()
    ensures Text(PpmChunks([Pixel(0, 0, Vec3(1.0, 0.0, 0.0)), Pixel(1, 0, Vec3(0.0, 1.0, 0.0))], 2, 1))
         == "P3\n2 1\n255\n255 0 0\n0 255 0\n\n"
  {
    TwoPixelChunks();
    TextOfFour("P3\n2 1\n255\n", "255 0 0\n", "0 255 0\n", "\n");
  }

  lemma TwoPixelChunks()
    ensures PpmChunks([Pixel(0, 0, Vec3(1.0, 0.0, 0.0)), Pixel(1, 0, Vec3(0.0, 1.0, 0.0))], 2, 1)
         == ["P3\n2 1\n255\n", "255 0 0\n", "0 255 0\n", "\n"]
  {
    var cells := [Pixel(0, 0, Vec3(1.0, 0.0, 0.0)), Pixel(1, 0, Vec3(0.0, 1.0, 0.0))];
    TwoPixelLines();
    ChunkAt(cells, 2, 1, 0, 0);
    ChunkAt(cells, 2, 1, 1, 0);
    RowEndAt(cells, 2, 1, 0);
    assert Offset(2, 0, 0) == 0 && Offset(2, 1, 0) == 1;
    var chunks := PpmChunks(cells, 2, 1);
    assert |chunks| == 4;
    assert chunks[ChunkIndex(2, 0, 0)] == "255 0 0\n";
    assert chunks[ChunkIndex(2, 1, 0)] == "0 255 0\n";
    assert chunks[ChunkIndex(2, 2, 0)] == "\n";
  }

  lemma TwoPixelLines()
    ensures HeaderText(2, 1) == "P3\n2 1\n255\n"
    ensures ColorLine(Vec3(1.0, 0.0, 0.0)) == "255 0 0\n"
    ensures ColorLine(Vec3(0.0, 1.0, 0.0)) == "0 255 0\n"
  {
    assert ToByte(1.0) == 255 && ToByte(0.0) == 0;
    assert IntToString(255) == "255" && IntToString(0) == "0";
    assert NatToString(2) == "2" && NatToString(1) == "1";
  }

  lemma TextOfFour(a: string, b: string, c: string, d: string)
    ensures Text([a, b, c, d]) == a + b + c + d
  {
    calc {
      Text([a, b, c, d]);
    ==
      { assert [a, b, c, d] == [a, b, c] + [d]; TextAppend([a, b, c], [d]); TextSingle(d); }
      Text([a, b, c]) + d;
    ==
      { assert [a, b, c] == [a, b] + [c]; TextAppend([a, b], [c]); TextSingle(c); }
      Text([a, b]) + c + d;
    ==
      { assert [a, b] == [a] + [b]; TextAppend([a], [b]); TextSingle(a); TextSingle(b); }
      a + b + c + d;
    }
  }

  lemma TextSingle(s: string)
    ensures Text([s]) == s
  {
    assert [s][..0] == [];
  }

  /** Where the write for column col of row row sits in the stream (col == w
      names the row's closing line break). */
  function ChunkIndex(w: nat, col: nat, row: nat): nat {
    1 + row * (w + 1) + col
  }

  /** Write row * (w + 1) + col of the rows is the line of cell
      `w*row + col`, or the row's line break when col == w. */
  lemma BodyAt(lines: seq<string>, w: nat, h: nat, col: nat, row: nat)
    requires w * h <= |lines| && row < h && col <= w
    ensures col < w ==> Offset(w, col, row) < |lines|
    ensures row * (w + 1) + col < |Body(lines, w, h)|
    ensures Body(lines, w, h)[row * (w + 1) + col]
         == if col < w then lines[Offset(w, col, row)] else "\n"
  {
    OffsetCoordinates(w + 1, col, row);
    MulMonotone(w + 1, row + 1, h);
    MulMonotone(w, row + 1, h);
  }

  /** Writing the next line of a row extends the written part of the row. */
  lemma AppendLine(done: seq<string>, lines: seq<string>, start: nat, x: nat, line: string)
    requires start + x < |lines| && line == lines[start + x]
    ensures done + lines[start .. start + x] + [line] == done + lines[start .. start + x + 1]
  {
    assert lines[start .. start + x + 1] == lines[start .. start + x] + [line];
  }

  lemma NextRow(w: nat, y: nat)
    ensures (y + 1) * (w + 1) == y * (w + 1) + w + 1 && w * (y + 1) == w * y + w
  {
  }

  /** Write j of the first y + 1 rows: a write of the first y rows, or one of
      row y. */
  lemma BodyExtendsAt(lines: seq<string>, w: nat, y: nat, j: nat)
    requires w * (y + 1) <= |lines| && j < (y + 1) * (w + 1)
    ensures w * y + w <= |lines| && |Body(lines, w, y)| == y * (w + 1)
    ensures Body(lines, w, y + 1)[j]
         == (Body(lines, w, y) + lines[w * y .. w * y + w] + ["\n"])[j]
  {
    NextRow(w, y);
    if j >= y * (w + 1) {
      BodyAt(lines, w, y + 1, j - y * (w + 1), y);
    }
  }

  /** The first y + 1 rows are the first y rows, then row y's lines and its
      line break. */
  lemma BodyExtends(lines: seq<string>, w: nat, y: nat)
    requires w * (y + 1) <= |lines|
    ensures w * y + w <= |lines|
    ensures Body(lines, w, y + 1) == Body(lines, w, y) + lines[w * y .. w * y + w] + ["\n"]
  {
    NextRow(w, y);
    var after, extended := Body(lines, w, y + 1), Body(lines, w, y) + lines[w * y .. w * y + w] + ["\n"];
    forall j | 0 <= j < |after|
      ensures after[j] == extended[j]
    {
      BodyExtendsAt(lines, w, y, j);
    }
  }

  /** Writing row y and its line break after the first y rows gives the first
      y + 1 rows. */
  lemma AppendRow(prefix: seq<string>, lines: seq<string>, w: nat, h: nat, y: nat)
    requires w * h <= |lines| && y < h
    ensures w * y + w <= |lines| && w * (y + 1) <= |lines|
    ensures prefix + Body(lines, w, y) + lines[w * y .. w * y + w] + ["\n"] == prefix + Body(lines, w, y + 1)
  {
    MulMonotone(w, y + 1, h);
    BodyExtends(lines, w, y);
  }

  lemma RowsLength(w: nat, h: nat)
    ensures h * (w + 1) == w * h + h
  {
  }

  /** The write for column col of row row is the line of cell `width*row + col`. */
  lemma ChunkAt(cells: seq<Pixel>, w: nat, h: nat, col: nat, row: nat)
    requires |cells| == w * h && row < h && col < w
    ensures Offset(w, col, row) < |cells|
    ensures ChunkIndex(w, col, row) < |PpmChunks(cells, w, h)|
    ensures PpmChunks(cells, w, h)[ChunkIndex(w, col, row)] == ColorLine(cells[Offset(w, col, row)].color)
  {
    BodyAt(PixelLines(cells), w, h, col, row);
    PixelLineAt(cells, Offset(w, col, row));
  }

  /** The write after the last column of row row is a line break. */
  lemma RowEndAt(cells: seq<Pixel>, w: nat, h: nat, row: nat)
    requires |cells| == w * h && row < h
    ensures ChunkIndex(w, w, row) < |PpmChunks(cells, w, h)|
    ensures PpmChunks(cells, w, h)[ChunkIndex(w, w, row)] == "\n"
  {
    BodyAt(PixelLines(cells), w, h, w, row);
  }

  /** The stream holds the header once and then, row by row from the top and
      column by column from the left, the line of each cell, with an extra line
      break closing every row. */
  lemma PpmLayout(cells: seq<Pixel>, w: nat, h: nat)
    requires |cells| == w * h
    ensures |PpmChunks(cells, w, h)| == 1 + w * h + h
    ensures PpmChunks(cells, w, h)[0] == HeaderText(w, h)
    ensures forall row, col | 0 <= row < h && 0 <= col <= w ::
      (col < w ==> Offset(w, col, row) < |cells|)
      && ChunkIndex(w, col, row) < |PpmChunks(cells, w, h)|
      && PpmChunks(cells, w, h)[ChunkIndex(w, col, row)]
         == if col < w then ColorLine(cells[Offset(w, col, row)].color) else "\n"
  {
    RowsLength(w, h);
    forall row, col | 0 <= row < h && 0 <= col <= w
      ensures (col < w ==> Offset(w, col, row) < |cells|)
      ensures ChunkIndex(w, col, row) < |PpmChunks(cells, w, h)|
      ensures PpmChunks(cells, w, h)[ChunkIndex(w, col, row)]
         == if col < w then ColorLine(cells[Offset(w, col, row)].color) else "\n"
    {
      if col < w {
        ChunkAt(cells, w, h, col, row);
      } else {
        RowEndAt(cells, w, h, row);
      }
    }
  }

  /** `printScreenToPPMFile`: the header, then for every row y and every column
      x the line of cell `width*y + x`, and a line break after each row. */
  method PrintScreen(screen: array<Pixel>, w: nat, h: nat) returns (out: seq<string>)
    requires screen.Length == w * h
    ensures out == PpmChunks(screen[..], w, h)
  {
    ghost var lines := PixelLines(screen[..]);
    ghost var header := [HeaderText(w, h)];
    out := [HeaderText(w, h)];
    var y := 0;
    while y < h
      invariant 0 <= y <= h
      invariant w * y <= |lines|
      invariant out == header + Body(lines, w, y)
    {
      AppendRow(header, lines, w, h, y);
      var start := w * y;
      MulMonotone(w, y + 1, h);
      assert start + w <= |lines|;
      ghost var done := out;
      var x := 0;
      while x < w
        invariant 0 <= x <= w
        invariant start + w <= |lines|
        invariant out == done + lines[start .. start + x]
      {
        PixelLineAt(screen[..], start + x);
        var line := ColorLine(screen[start + x].color);
        AppendLine(done, lines, start, x, line);
        out := out + [line];
        x := x + 1;
      }
      out := out + ["\n"];
      y := y + 1;
    }
  }
}
