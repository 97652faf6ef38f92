/**
 The image-producing part of `main`: build the screen, colour every pixel by
 its direction, and write the pixel map. Opening the output file, the console
 messages and the vector tests that follow are not part of this module.
 */
module Render {
  import opened Wrappers
  import opened Decimal
  import opened Vector3
  import opened Screen
  import opened Ppm

  /** The three numbers of a colour line are bytes. */
  predicate InByteRange(t: (int, int, int)) {
    0 <= t.0 <= 255 && 0 <= t.1 <= 255 && 0 <= t.2 <= 255
  }

  /** Every colour line of the direction field reads back as three bytes. */
  lemma DirectionLineBytes(w: nat, h: nat, col: nat, row: nat, sqrt: real -> real)
    requires IsSqrt(sqrt)
    ensures DecodeColorLine(ColorLine(DirectionColor(w, h, col, row, sqrt))).Some?
    ensures InByteRange(DecodeColorLine(ColorLine(DirectionColor(w, h, col, row, sqrt))).value)
  {
    var c := DirectionColor(w, h, col, row, sqrt);
    assert At(c, 0) == c.x && At(c, 1) == c.y && At(c, 2) == c.z;
    ByteRange(c.x);
    ByteRange(c.y);
    ByteRange(c.z);
    ColorLineRoundTrip(c);
  }

  /** `main` without its file handling: the written stream holds the header,
      then for each row and each column the line of that pixel's direction
      colour, and a line break closing each row. */
  method RenderImage(w: nat, h: nat, sqrt: real -> real) returns (out: seq<string>)
    requires IsSqrt(sqrt)
    ensures |out| == 1 + w * h + h
    ensures out[0] == HeaderText(w, h)
    ensures forall row, col | 0 <= row < h && 0 <= col < w ::
      ChunkIndex(w, col, row) < |out|
      && out[ChunkIndex(w, col, row)] == ColorLine(DirectionColor(w, h, col, row, sqrt))
    ensures forall row | 0 <= row < h ::
      ChunkIndex(w, w, row) < |out| && out[ChunkIndex(w, w, row)] == "\n"
  {
    var screen := InitScreen(w, h);
    ghost var before := screen[..];
    ghost var order := FillDirections(screen, w, h, sqrt);
    out := PrintScreen(screen, w, h);
    RowsLength(w, h);
    forall row, col | 0 <= row < h && 0 <= col < w
      ensures ChunkIndex(w, col, row) < |out|
      ensures out[ChunkIndex(w, col, row)] == ColorLine(DirectionColor(w, h, col, row, sqrt))
    {
      FilledChunkAt(screen[..], before, w, h, col, row, sqrt);
    }
    forall row | 0 <= row < h
      ensures ChunkIndex(w, w, row) < |out| && out[ChunkIndex(w, w, row)] == "\n"
    {
      RowEndAt(screen[..], w, h, row);
    }
  }

  /** Once every cell holds its direction colour, the write for column col of
      row row is the line of that pixel's direction colour. */
  lemma FilledChunkAt(cells: seq<Pixel>, before: seq<Pixel>, w: nat, h: nat, col: nat, row: nat, sqrt: real -> real)
    requires FilledUpTo(cells, before, w, h, w * h, sqrt) && row < h && col < w
    ensures ChunkIndex(w, col, row) < |PpmChunks(cells, w, h)|
    ensures PpmChunks(cells, w, h)[ChunkIndex(w, col, row)] == ColorLine(DirectionColor(w, h, col, row, sqrt))
  {
    ChunkAt(cells, w, h, col, row);
    OffsetInRange(w, h, col, row);
    OffsetCoordinates(w, col, row);
  }

  /** The centre pixel of the 250 x 250 grid looks straight down the viewing
      axis: its direction is (0, 0, 1) and its colour (0.5, 0.5, 1). */
  lemma CentreColor(sqrt: real -> real)
    requires IsSqrt(sqrt)
    ensures LengthSquared(Sub(PixelPosition(Width, Height, 125, 125), Observer)) > 0.0
    ensures UnitVector(Sub(PixelPosition(Width, Height, 125, 125), Observer), sqrt) == Vec3(0.0, 0.0, 1.0)
    ensures DirectionColor(Width, Height, 125, 125, sqrt) == Vec3(0.5, 0.5, 1.0)
  {
    var v := Sub(PixelPosition(Width, Height, 125, 125), Observer);
    CentreOffset();
    CentreLength(sqrt);
    CentreDirection(UnitVector(v, sqrt));
  }

  /** The length of (0, 0, 100) is 100, whichever square root is used. */
  lemma CentreLength(sqrt: real -> real)
    requires IsSqrt(sqrt)
    ensures Length(Vec3(0.0, 0.0, 100.0), sqrt) == 100.0
  {
    var s := Length(Vec3(0.0, 0.0, 100.0), sqrt);
    assert s * s == 10000.0;
    RootUnique(s, 100.0);
  }

  /** The offset of the centre pixel from the observer is (0, 0, 100). */
  lemma CentreOffset()
    ensures Sub(PixelPosition(Width, Height, 125, 125), Observer) == Vec3(0.0, 0.0, 100.0)
  {
    CentrePosition();
  }

  /** The only vector that scales by 100 to (0, 0, 100) is (0, 0, 1), and
      Remap colours it (0.5, 0.5, 1). */
  lemma CentreDirection(u: Vec3)
    requires ScaleRight(u, 100.0) == Vec3(0.0, 0.0, 100.0)
    ensures u == Vec3(0.0, 0.0, 1.0)
    ensures Remap(u) == Vec3(0.5, 0.5, 1.0)
  {
    assert u.x * 100.0 == 0.0 && u.y * 100.0 == 0.0 && u.z * 100.0 == 100.0;
  }

  /** That colour is written as the bytes 127, 127 and 255. */
  lemma CentreLine()
    ensures ColorLine(Vec3(0.5, 0.5, 1.0)) == "127 127 255\n"
  {
    assert ToByte(0.5) == 127 && ToByte(1.0) == 255;
    assert NatToString(127) == "127";
  }
}
