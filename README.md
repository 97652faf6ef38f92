# Raycast starter: the vector type and the pixel-map writer

This project models two parts of the raycasting starter program in Dafny.

The first part is the `vec3` value type of `Vector3.cpp`. That covers three real components, construction, access by name and by index, negation, the binary `+ - * /` operators, scalar scaling on either side, `dot`, `cross`, `length_squared`, `length` and `unit_vector`. It also covers the compound assignments `+=`, `*=`, `/=` and the mutable `operator[]`, which update the object in place. C++ `double` is modelled as `real`.

The second part is the pixel grid of `main.cpp`. It covers:

- the `pixel` record;
- the row-major initialisation of the `width * height` screen;
- `setColor`;
- the loop that colours every pixel by the unit direction from the observer, remapped from [-1, 1] to [0, 1];
- the plain-text "P3" pixel map that `printHeader`, `write_color` and `printScreenToPPMFile` write.

The output stream is a sequence of strings, one per call that writes: the header, each pixel's line, and each row's closing line break. `Text` joins those strings into the file's contents.

Modules:

- `Wrappers` holds `Option`.
- `Decimal` holds the decimal text of integers that the stream prints, together with its parser.
- `Vector3` holds the vector value type (`Vec3`) and the in-place object (`MutableVec3`).
- `Screen` holds the grid, its initialisation, `setColor` and the direction fill.
- `Ppm` holds the byte conversion, the header and colour lines, the row layout and the writer `PrintScreen`.
- `Render` holds the program's image-producing path end to end, plus the centre-pixel scenario.

Two details of the output follow the program's code exactly:

- Every triplet is written on a line of its own, and one extra line break follows each row. So a w x h image has w*h triplet lines and h empty lines after the header.
- A channel is converted with `int(255.999 * c)`, which truncates toward zero. `Ppm.Trunc` models the truncation, and `Ppm.ByteScenarios` shows that -0.001 becomes 0.

The square root is not visible to the model. It is passed as a parameter `sqrt`, and `Vector3.IsSqrt` constrains it to give the non-negative root of every non-negative argument. The width and height (250 and 250 in the program) are parameters `w` and `h`. `Screen.Width` and `Screen.Height` keep the program's values for the centre-pixel scenario.

## Model

| member | source | states |
|---|---|---|
| Vector3.Neg | 02_Raycast/Starter/Vector3.cpp:48-50 | every component of the result is the operand's component negated |
| Vector3.NegInvolutive | 02_Raycast/Starter/Vector3.cpp:48-50 | negating twice gives the operand back |
| Vector3.Add | 02_Raycast/Starter/Vector3.cpp:113-116 | component i of `u + v` is the sum of the components i |
| Vector3.AddCommutative | 02_Raycast/Starter/Vector3.cpp:113-116 | `u + v == v + u` |
| Vector3.Sub | 02_Raycast/Starter/Vector3.cpp:120-123 | component i of `u - v` is the difference of the components i |
| Vector3.SubInvertsAdd | 02_Raycast/Starter/Vector3.cpp:113-123 | `(u + v) - v == u`, and `u - v == u + (-v)` |
| Vector3.Mul | 02_Raycast/Starter/Vector3.cpp:126-128 | component i of `u * v` is the product of the components i |
| Vector3.MulCommutative | 02_Raycast/Starter/Vector3.cpp:126-128 | the component-wise product is commutative |
| Vector3.ScaleLeft | 02_Raycast/Starter/Vector3.cpp:131-133 | component i of `t * v` is `v[i] * t` |
| Vector3.ScaleRight | 02_Raycast/Starter/Vector3.cpp:136-138 | component i of `v * t` is `v[i] * t` |
| Vector3.ScaleSidesAgree | 02_Raycast/Starter/Vector3.cpp:131-138 | `t * v == v * t` |
| Vector3.Div | 02_Raycast/Starter/Vector3.cpp:141-144 | for a non-zero t, scaling `v / t` by t gives v back |
| Vector3.ScaleCompatible | 02_Raycast/Starter/Vector3.cpp:131-133 | `(s * t) * v == s * (t * v)` |
| Vector3.DivIsScaleByInverse | 02_Raycast/Starter/Vector3.cpp:141-144 | `v / t == v * (1 / t)` for a non-zero t |
| Vector3.LengthSquared | 02_Raycast/Starter/Vector3.cpp:102-104 | the squared length is never negative |
| Vector3.Length | 02_Raycast/Starter/Vector3.cpp:96-99 | the length is non-negative and its square is the squared length |
| Vector3.RootUnique | 02_Raycast/Starter/Vector3.cpp:96-99 | a non-negative root of a*a (a >= 0) is a, so `length()` is fixed by the squared length whichever square root is used |
| Vector3.Dot | 02_Raycast/Starter/Vector3.cpp:148-150 | no contract of its own; `DotProperties` and `DotSelfIsLengthSquared` state what it computes |
| Vector3.DotProperties | 02_Raycast/Starter/Vector3.cpp:148-150 | `dot` is the sum of the component products over the indices, and it is symmetric |
| Vector3.DotSelfIsLengthSquared | 02_Raycast/Starter/Vector3.cpp:148-150 | `dot(v, v)` equals the squared length and is non-negative |
| Vector3.Cross | 02_Raycast/Starter/Vector3.cpp:153-159 | no contract of its own; `CrossProperties` states anti-commutativity and orthogonality |
| Vector3.CrossProperties | 02_Raycast/Starter/Vector3.cpp:153-159 | `cross(u, v) == -cross(v, u)`, and the cross product is orthogonal to u and to v |
| Vector3.UnitVector | 02_Raycast/Starter/Vector3.cpp:163-166 | for a non-zero vector, the result has squared length 1, and scaling it by the length gives v back |
| Vector3.UnitLength | 02_Raycast/Starter/Vector3.cpp:163-166 | dividing by any positive root of the squared length gives squared length 1 |
| Vector3.UnitComponentsBounded | 02_Raycast/Starter/Vector3.cpp:163-166 | every component of a unit vector lies in [-1, 1] |
| Vector3.ValueScenarios | 02_Raycast/Starter/main.cpp:169-180 | `{18,18,18} / 3 == {6,6,6}` and `dot({1,2,3}, {5,5,5}) == 30` |
| Vector3.MutableVec3.constructor | 02_Raycast/Starter/Vector3.cpp:23-28 | the three values are stored verbatim and read back by `x()`, `y()`, `z()` and `[0..2]` |
| Vector3.MutableVec3.X | 02_Raycast/Starter/Vector3.cpp:32-34 | `x()` is component 0 of the held vector |
| Vector3.MutableVec3.Y | 02_Raycast/Starter/Vector3.cpp:36-38 | `y()` is component 1 of the held vector |
| Vector3.MutableVec3.Z | 02_Raycast/Starter/Vector3.cpp:39-41 | `z()` is component 2 of the held vector |
| Vector3.MutableVec3.Get | 02_Raycast/Starter/Vector3.cpp:57-59 | the const `operator[]` returns component i of the held vector |
| Vector3.MutableVec3.SetAt | 02_Raycast/Starter/Vector3.cpp:62-64 | an assignment through the mutable `operator[]` changes component i only |
| Vector3.MutableVec3.AddAssign | 02_Raycast/Starter/Vector3.cpp:69-74 | the receiver becomes the old receiver `+` the old operand and is returned, even when the operand is the receiver; a distinct operand is left unchanged |
| Vector3.MutableVec3.MulAssign | 02_Raycast/Starter/Vector3.cpp:78-85 | the receiver becomes the old receiver `* t` and is returned |
| Vector3.MutableVec3.DivAssign | 02_Raycast/Starter/Vector3.cpp:88-93 | the receiver becomes the old receiver `/ t` and is returned |
| Vector3.AddAssignScenario | 02_Raycast/Starter/main.cpp:160 | `{1,2,3} += {5,5,5}` gives `{6,7,8}` |
| Vector3.SelfAddAssignScenario | 02_Raycast/Starter/Vector3.cpp:69-74 | `u += u` doubles u |
| Vector3.ScaleAssignScenario | 02_Raycast/Starter/Vector3.cpp:78-93 | `*= 2` then `/= 3` on `{18,18,18}` gives `{12,12,12}` |
| Decimal.NatToString | 02_Raycast/Starter/main.cpp:34 | the text of an unsigned number is non-empty and all digits, starts with '0' only for 0, and so holds no space or line break |
| Decimal.NatRoundTrip | 02_Raycast/Starter/main.cpp:34 | parsing the text of n gives n |
| Decimal.IntToString | 02_Raycast/Starter/main.cpp:60 | the text of an int starts with '-' exactly when the int is negative, and it contains no space or line break |
| Decimal.IntRoundTrip | 02_Raycast/Starter/main.cpp:60 | parsing the text of i gives i |
| Screen.Pixel | 02_Raycast/Starter/main.cpp:22-26 | the `pixel` record: column, row and colour; `InitScreen` and `SetColor` state how its fields are set |
| Screen.Offset | 02_Raycast/Starter/main.cpp:41 | no contract of its own; `OffsetInRange` and `OffsetCoordinates` state that it stays in the grid and determines the position |
| Screen.OffsetInRange | 02_Raycast/Starter/main.cpp:41 | for x < width and y < height, `width*y + x` lies below `width*height` |
| Screen.OffsetCoordinates | 02_Raycast/Starter/main.cpp:90-92 | `% width` and `/ width` recover x and y from the offset |
| Screen.CellCoordinates | 02_Raycast/Starter/main.cpp:90-92 | every cell index of the grid lies at a column and row inside the grid whose offset is the index again |
| Screen.InitScreen | 02_Raycast/Starter/main.cpp:90-94 | after initialisation, cell i has x = i % width, y = i / width and the placeholder colour, and its position is in range with offset i |
| Screen.SetColor | 02_Raycast/Starter/main.cpp:40-44 | only the colour of cell `width*y + x` changes; its position and every other cell are unchanged |
| Screen.PixelPosition | 02_Raycast/Starter/main.cpp:104 | no contract of its own; `PositionMirrored`, `CentrePosition` and `PositionAwayFromObserver` state where positions lie |
| Screen.PositionMirrored | 02_Raycast/Starter/main.cpp:104 | pixel positions are centred on the viewing axis and lie on the plane at depth 100 |
| Screen.CentrePosition | 02_Raycast/Starter/main.cpp:104 | pixel (125, 125) of the 250 x 250 grid lies at (0, 0, 100) |
| Screen.Remap | 02_Raycast/Starter/main.cpp:109 | a component of the remapped colour lies in [0, 1] exactly when the direction's component lies in [-1, 1] |
| Screen.PositionAwayFromObserver | 02_Raycast/Starter/main.cpp:104-107 | no pixel position is the observer, so `unit_vector` is defined on every direction |
| Screen.DirectionColor | 02_Raycast/Starter/main.cpp:104-109 | every channel of a pixel's direction colour lies in [0, 1] |
| Screen.FilledStep | 02_Raycast/Starter/main.cpp:113 | colouring the next cell in row-major order extends the coloured prefix by one |
| Screen.FillDirections | 02_Raycast/Starter/main.cpp:100-118 | after the fill, every cell holds its direction colour and its old position; the ghost trace of offsets passed to `setColor` is 0, 1, ..., w*h - 1, so cells are written in row-major order, each exactly once |
| Ppm.Trunc | 02_Raycast/Starter/main.cpp:55-57 | `int()` truncates toward zero: a non-negative value gives the largest integer not above it, a negative one the smallest integer not below it |
| Ppm.ToByte | 02_Raycast/Starter/main.cpp:55-57 | no contract of its own; `ByteRange` and `ByteScenarios` state the bytes it gives |
| Ppm.ByteRange | 02_Raycast/Starter/main.cpp:55-57 | a channel in [0, 1] becomes a byte in [0, 255] |
| Ppm.ByteScenarios | 02_Raycast/Starter/main.cpp:55-57 | 1.0 gives 255, 0.5 gives 127, 0.0 gives 0, and -0.001 gives 0 |
| Ppm.HeaderText | 02_Raycast/Starter/main.cpp:32-36 | no contract of its own; `HeaderRoundTrip` reads it back as (w, h) |
| Ppm.HeaderRoundTrip | 02_Raycast/Starter/main.cpp:32-36 | the header is the three lines "P3", the dimensions and "255", and reading it back gives the width and height |
| Ppm.TripletLine | 02_Raycast/Starter/main.cpp:60 | no contract of its own; `TripletRoundTrip` reads it back as the same three integers |
| Ppm.ColorLine | 02_Raycast/Starter/main.cpp:46-62 | no contract of its own; `ColorLineRoundTrip` reads it back as the three truncated bytes |
| Ppm.TripletRoundTrip | 02_Raycast/Starter/main.cpp:60 | three integers written space-separated on a line read back as the same three integers |
| Ppm.ColorLineRoundTrip | 02_Raycast/Starter/main.cpp:46-62 | reading back the line `write_color` writes gives the truncated bytes of the three channels |
| Ppm.BodyAt | 02_Raycast/Starter/main.cpp:70-76 | in the rows part, position `row*(w+1) + col` holds the line of cell `w*row + col` for col < w, and the row's line break for col = w |
| Ppm.BodyExtends | 02_Raycast/Starter/main.cpp:70-76 | writing one more row appends that row's w lines and a line break |
| Ppm.ChunkAt | 02_Raycast/Starter/main.cpp:70-73 | the write for column col of row row is the colour line of cell `w*row + col` |
| Ppm.RowEndAt | 02_Raycast/Starter/main.cpp:75 | each row ends with a line break of its own |
| Ppm.PpmLayout | 02_Raycast/Starter/main.cpp:68-77 | the stream has 1 + w*h + h writes: the header first, then the cells in row-major order, each row closed by a line break |
| Ppm.PrintScreen | 02_Raycast/Starter/main.cpp:68-77 | the nested loop writes exactly the stream `PpmLayout` describes for the screen's cells |
| Ppm.TextAppend | 02_Raycast/Starter/main.cpp:68-77 | the text of two consecutive runs of writes is the text of the first followed by that of the second |
| Ppm.FileText | 02_Raycast/Starter/main.cpp:68-77 | the file is the header text followed by the text of the rows |
| Ppm.TwoPixelFile | 02_Raycast/Starter/main.cpp:68-77 | a 2 x 1 image, red then green, is the file "P3\n2 1\n255\n255 0 0\n0 255 0\n\n" |
| Render.DirectionLineBytes | 02_Raycast/Starter/main.cpp:55-60 | every colour line of the direction field reads back as three integers in [0, 255] |
| Render.RenderImage | 02_Raycast/Starter/main.cpp:84-133 | the written stream is the header, then for every row and column the line of that pixel's direction colour, then a line break per row |
| Render.FilledChunkAt | 02_Raycast/Starter/main.cpp:113-133 | once the fill has coloured every cell, the write for each pixel is the line of that pixel's direction colour |
| Render.CentreColor | 02_Raycast/Starter/main.cpp:104-109 | the centre pixel of the 250 x 250 grid has direction (0, 0, 1) and colour (0.5, 0.5, 1) |
| Render.CentreLength | 02_Raycast/Starter/Vector3.cpp:96-99 | the length of (0, 0, 100) is 100 for any square root |
| Render.CentreLine | 02_Raycast/Starter/main.cpp:55-60 | the colour (0.5, 0.5, 1) is written as "127 127 255" |

## Left out

- File and console I/O are not modelled: opening `output.ppm`, the failure branch and its exit code 1, the console messages, `close()`, and the prints of the vector tests. The stream is the sequence of writes that `printScreenToPPMFile` makes.
- `operator<<` for `vec3` is not modelled. It relies on library formatting of doubles, which the model does not capture. Only integers are written into the pixel map, and their decimal text is modelled exactly.
- IEEE double rounding is not modelled, because components are reals. Identities such as `(u + v) - v == u` hold for reals and not, in general, for doubles.
- The library square root is a parameter constrained by `IsSqrt`. The model does not pin down which root function the program links against.
- The default constructor is not modelled. It only builds and discards a temporary, so what it leaves in the components depends on the class declaration, and `Vector3.hpp` is not part of this model.
- Out-of-range indices and division or normalisation by zero are undefined in the program. They are excluded by `requires` clauses, not modelled as behaviour.
- The screen lives on the stack in the program, and a commented-out alternative uses a heap vector. Here it is a Dafny array, and its storage class is not modelled.
- Width and height are parameters. The program's unsigned arithmetic does not wrap at 250 x 250, so the model uses unbounded naturals.
- Vector3.LengthSquared: states only that the result is non-negative. The squared length itself is the sum of squares, and `DotSelfIsLengthSquared` relates it to `dot`.
- Ppm.ToByte: a channel whose scaled value lies outside the range of C++ `int` makes `int(255.999 * c)` undefined in the program; the model returns the unbounded truncation instead. The program's own channels lie in [0, 1] (`Render.DirectionLineBytes`), so its output is not affected.
