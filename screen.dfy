/**
 The pixel grid of main.cpp: a `width * height` array of pixels in row-major
 order, its initialisation, the single-cell colour update `setColor`, and the
 loop that colours every pixel by the direction from the observer to it.
 The source fixes width and height at 250; here they are parameters w and h,
 and Width and Height keep the source's values.
 */
module Screen {
  import opened Vector3

  const Width: nat := 250
  const Height: nat := 250

  /** Distance of the image plane from the observer along the viewing axis. */
  const Depth: real := 100.0

  const Observer := Vec3(0.0, 0.0, 0.0)

  /** The colour every cell starts with; it is overwritten before output. */
  const Placeholder := Vec3(0.0, 0.0, 100.0)

  /** A `pixel`: its column x, its row y, and its colour. */
  datatype Pixel = Pixel(x: nat, y: nat, color: Vec3)

  /** The row-major offset `width*y + x` of column x in row y. */
  function Offset(w: nat, x: nat, y: nat): nat {
    w * y + x
  }

  /** A position inside the grid has an offset inside the array. */
  lemma OffsetInRange(w: nat, h: nat, x: nat, y: nat)
    requires x < w && y < h
    ensures Offset(w, x, y) < w * h
  {
    calc {
      Offset(w, x, y);
    <
      w * y + w;
    ==
      w * (y + 1);
    <=
      { MulMonotone(w, y + 1, h); }
      w * h;
    }
  }

  lemma MulMonotone(w: nat, a: nat, b: nat)
    requires a <= b
    ensures w * a <= w * b
  {
  }

  /** The offset determines the position: `% w` and `/ w` give x and y back. */
  lemma OffsetCoordinates(w: nat, x: nat, y: nat)
    requires x < w
    ensures Offset(w, x, y) % w == x && Offset(w, x, y) / w == y
  {
    var k := Offset(w, x, y);
    DivModUnique(w, k, y, x);
  }

  lemma DivModUnique(w: nat, k: nat, q: nat, r: nat)
    requires r < w && k == w * q + r
    ensures k / w == q && k % w == r
  {
    var q', r' := k / w, k % w;
    assert k == w * q' + r';
    if q' < q {
      MulMonotone(w, q' + 1, q);
    } else if q' > q {
      MulMonotone(w, q + 1, q');
    }
  }

  /** Every cell i of a grid of w * h cells sits at column i % w and row i / w,
      inside the grid, and its offset is i again. */
  lemma CellCoordinates(w: nat, h: nat, i: nat)
    requires i < w * h
    ensures w > 0
    ensures i % w < w && i / w < h && Offset(w, i % w, i / w) == i
  {
    if i / w >= h {
      MulMonotone(w, h, i / w);
    }
  }

  /** Each cell records its own position: in range, and at the offset it has. */
  ghost predicate PositionsConsistent(cells: seq<Pixel>, w: nat, h: nat) {
    && |cells| == w * h
    && forall i | 0 <= i < |cells| ::
         cells[i].x < w && cells[i].y < h && Offset(w, cells[i].x, cells[i].y) == i
  }

  /** The first loop of `main`: cell i gets column i % w, row i / w and the placeholder colour. */
  method InitScreen(w: nat, h: nat) returns (screen: array<Pixel>)
    ensures fresh(screen) && screen.Length == w * h
    ensures forall i | 0 <= i < screen.Length :: screen[i] == Pixel(i % w, i / w, Placeholder)
    ensures PositionsConsistent(screen[..], w, h)
  {
    screen := new Pixel[w * h];
    for i := 0 to w * h
      invariant forall k | 0 <= k < i :: w > 0 && screen[k] == Pixel(k % w, k / w, Placeholder)
    {
      CellCoordinates(w, h, i);
      screen[i] := Pixel(i % w, i / w, Placeholder);
    }
    forall i | 0 <= i < screen.Length
      ensures screen[i].x < w && screen[i].y < h && Offset(w, screen[i].x, screen[i].y) == i
    {
      CellCoordinates(w, h, i);
    }
  }

  /** `setColor`: the cell at offset `width*y + x` takes the new colour and keeps
      its position; every other cell is unchanged. */
  method SetColor(screen: array<Pixel>, w: nat, x: nat, y: nat, color: Vec3)
    requires Offset(w, x, y) < screen.Length
    modifies screen
    ensures screen[Offset(w, x, y)] == old(screen[Offset(w, x, y)]).(color := color)
    ensures forall k | 0 <= k < screen.Length && k != Offset(w, x, y) :: screen[k] == old(screen[k])
  {
    screen[w * y + x] := screen[w * y + x].(color := color);
  }

  /** World-space position of the pixel in column col and row row: the image is
      centred on the viewing axis and lies on the plane at Depth. */
  function PixelPosition(w: nat, h: nat, col: nat, row: nat): Vec3 {
    Vec3(col as real - w as real / 2.0, row as real - h as real / 2.0, Depth)
  }

  /** Columns at the same distance left and right of the centre mirror each
      other, and so do rows above and below it. */
  lemma PositionMirrored(w: nat, h: nat, col: nat, row: nat)
    requires col <= w && row <= h
    ensures PixelPosition(w, h, w - col, row).x == -PixelPosition(w, h, col, row).x
    ensures PixelPosition(w, h, col, h - row).y == -PixelPosition(w, h, col, row).y
    ensures PixelPosition(w, h, col, row).z == Depth
  {
  }

  /** The pixel at the centre of a 250 x 250 grid lies on the viewing axis. */
  lemma CentrePosition()
    ensures PixelPosition(Width, Height, 125, 125) == Vec3(0.0, 0.0, Depth)
  {
  }

  /** The colour of a direction: `(d + (1,1,1)) / 2`. A component lies in [0, 1]
      exactly when the direction's component lies in [-1, 1]. */
  function Remap(d: Vec3): (c: Vec3)
    ensures forall i | 0 <= i < 3 :: -1.0 <= At(d, i) <= 1.0 <==> 0.0 <= At(c, i) <= 1.0
  {
    Div(Add(d, Vec3(1.0, 1.0, 1.0)), 2.0)
  }

  /** No pixel position is the observer, so the direction to it is defined. */
  lemma PositionAwayFromObserver(w: nat, h: nat, col: nat, row: nat)
    ensures LengthSquared(Sub(PixelPosition(w, h, col, row), Observer)) > 0.0
  {
    var p := Sub(PixelPosition(w, h, col, row), Observer);
    SquareNonNegative(p.x);
    SquareNonNegative(p.y);
    assert p.z == 100.0;
  }

  /** The colour the direction field gives the pixel in column col and row row:
      every channel lies in [0, 1]. */
  function DirectionColor(w: nat, h: nat, col: nat, row: nat, sqrt: real -> real): (c: Vec3)
    requires IsSqrt(sqrt)
    ensures forall i | 0 <= i < 3 :: 0.0 <= At(c, i) <= 1.0
  {
    PositionAwayFromObserver(w, h, col, row);
    var direction := UnitVector(Sub(PixelPosition(w, h, col, row), Observer), sqrt);
    UnitComponentsBounded(Sub(PixelPosition(w, h, col, row), Observer), sqrt);
    Remap(direction)
  }

  /** The first n cells, in row-major order, hold their direction colour and
      their old position; the rest are as they were. */
  ghost predicate FilledUpTo(cells: seq<Pixel>, before: seq<Pixel>, w: nat, h: nat, n: nat, sqrt: real -> real) {
    && IsSqrt(sqrt)
    && |cells| == |before| == w * h
    && n <= |cells|
    && (n > 0 ==> w > 0)
    && (forall k | 0 <= k < n ::
          cells[k] == before[k].(color := DirectionColor(w, h, k % w, k / w, sqrt)))
    && (forall k | n <= k < |cells| :: cells[k] == before[k])
  }

  lemma FilledStep(cells: seq<Pixel>, before: seq<Pixel>, w: nat, h: nat, col: nat, row: nat, sqrt: real -> real)
    requires col < w && row < h
    requires FilledUpTo(cells, before, w, h, Offset(w, col, row), sqrt)
    ensures Offset(w, col, row) < |cells|
    ensures FilledUpTo(cells[Offset(w, col, row) := before[Offset(w, col, row)].(color := DirectionColor(w, h, col, row, sqrt))],
                       before, w, h, Offset(w, col, row) + 1, sqrt)
  {
    OffsetInRange(w, h, col, row);
    OffsetCoordinates(w, col, row);
  }

  /** The nested loop of `main`: row by row and column by column, each pixel
      takes the colour of its direction, and only colours change. The ghost
      `order` is a trace of the offsets passed to SetColor, one entry per call:
      it shows the cells are written in row-major order, each exactly once. */
  method FillDirections(screen: array<Pixel>, w: nat, h: nat, sqrt: real -> real)
      returns (ghost order: seq<nat>)
    requires IsSqrt(sqrt) && screen.Length == w * h
    modifies screen
    ensures order == seq(w * h, k => k)
    ensures FilledUpTo(screen[..], old(screen[..]), w, h, w * h, sqrt)
  {
    ghost var before := screen[..];
    order := [];
    var i := 0;
    while i < h
      invariant 0 <= i <= h
      invariant order == seq(w * i, k => k)
      invariant FilledUpTo(screen[..], before, w, h, w * i, sqrt)
    {
      var j := 0;
      while j < w
        invariant 0 <= j <= w
        invariant order == seq(w * i + j, k => k)
        invariant FilledUpTo(screen[..], before, w, h, w * i + j, sqrt)
      {
        ghost var prev := screen[..];
        var position := Vec3(j as real - w as real / 2.0, i as real - h as real / 2.0, 100.0);
        PositionAwayFromObserver(w, h, j, i);
        var direction := UnitVector(Sub(position, Observer), sqrt);
        direction := Div(Add(direction, Vec3(1.0, 1.0, 1.0)), 2.0);
        assert direction == DirectionColor(w, h, j, i, sqrt);
        FilledStep(screen[..], before, w, h, j, i, sqrt);
        SetColor(screen, w, j, i, direction);
        assert screen[..] == prev[Offset(w, j, i) := before[Offset(w, j, i)].(color := direction)];
        order := order + [Offset(w, j, i)];
        j := j + 1;
      }
      assert w * i + w == w * (i + 1);
      i := i + 1;
    }
  }
}
