# Figure editor core, modelled in Dafny

This project models the computational core of a small Java figure editor.

- **Polygon.** An immutable polygon is built either from side lengths or from integer vertices. Both constructors validate the sides:
  - at least three sides;
  - every side positive;
  - every side strictly shorter than the sum of the others.

  The area comes from Heron's formula for a triangle built from sides, with the sentinel `-1` for any other side count. For a polygon built from vertices it comes from the shoelace formula.
- **Styled polygon** (`ColoredPolygon`). A polygon from vertices with a display name, a line colour, a fill colour and an opacity. It checks, in this order:
  1. the geometry;
  2. the line colour (`#RRGGBB`);
  3. the fill colour;
  4. the opacity, which must lie in `[0, 1]`.

  It owns a private copy of its vertex array. `moveBy` shifts that array in place with Java `int` addition.
- **Figure file loader** (`FigureFileParser`). A two-state line scanner cuts the file into `--- FIGURE ---` blocks. Each block becomes a key/value map, and each map becomes a styled polygon.
  - A block whose class is not `ColoredPolygon` is skipped.
  - Any other defect aborts the load with the first error.
- **Coordinate codec and colour codec.** These are shared by the SQLite store and the servlet:
  - vertices are written as `[[x,y],...]` and read back;
  - colours are formatted with `"#%06X"`.
- **Console demo.** `createPolygon`, the collection demo, and its two stable sorts (by area, then by perimeter and area).
- **Figure item** (`FigureItem`). Holds a figure and a visibility flag.

The model follows the source's form:
- Value computations are functions over datatypes.
- Loops are methods with invariants, proved against those functions: the side and shoelace loops, the `props` loop, the regex matcher loop, the scan loop, the encoder's `StringBuilder` loop, the decoder's row loop and the demo loop.
- `ColoredPolygon` and `FigureItem` are classes. The vertex array is an `array<Point>` that `MoveBy` updates in place.
- Exceptions are values of a `Result` type whose `Error` says which exception and why.
- Java `int` arithmetic wraps explicitly (`Lang.Wrap`). This applies to `moveBy`, to the coordinate differences of the side lengths, and to the shoelace products in the as-written model (see Findings).
- `Math.sqrt` and `Double.parseDouble` are function parameters (`sqrt`, `parseDouble`). Where a property needs the square root to be non-negative, this is a stated precondition (`SqrtNonNegative`).

Modules, one per file:
- `Lang`: `int`, errors, `Result`.
- `Text`: `trim`, `indexOf`, `split`, `replace`, `Integer.parseInt`/`toString`, `%06X`.
- `Geometry`: `Polygon`.
- `Ordering`: `compareTo`, comparators, stable sort.
- `Styled`: `ColoredPolygon`.
- `FigureParser`: `FigureFileParser`.
- `CoordinateCodec`: the helpers of `SqliteFigureIO` and `FigureServlet`.
- `Demo`: `Main`.
- `Items`: `FigureItem`.

## Model

| member | source | states |
|---|---|---|
| Lang.Wrap | ColoredPolygon.java:57-62 | Java `int` addition: the result is congruent to the exact value modulo 2^32 and equals it whenever that value is in the `int` range |
| Geometry.TranslatedInverse | ColoredPolygon.java:57-62 | moving by `(dx, dy)` and then by `(-dx, -dy)` restores every vertex, even when a coordinate overflowed in between |
| Text.TrimStrips | figure-editor-maven/figure-editor/src/main/java/FigureFileParser.java:16 | `trim` leaves no character `<= ' '` at either end, and trims to empty only a string made entirely of such characters |
| Text.TrimIdempotent | figure-editor-maven/figure-editor/src/main/java/FigureFileParser.java:16 | trimming a trimmed line changes nothing |
| Text.IndexOf | figure-editor-maven/figure-editor/src/main/java/FigureFileParser.java:53 | `indexOf(':')` is -1 exactly when there is no colon, and otherwise the position of the first colon |
| Text.ParseInteger | figure-editor-maven/figure-editor/src/main/java/FigureFileParser.java:82-83 | the failure of `Integer.parseInt` is a `NumberFormatException` naming the rejected text itself |
| Text.ParseIntSignedDigits | figure-editor-maven/figure-editor/src/main/java/FigureFileParser.java:82-83 | every optional sign (`-`, `+` or none) followed by at least one ASCII digit parses to its signed value when that lies in the `int` range, and fails otherwise |
| Text.ParseIntAcceptsOnlySignedDigits | figure-editor-maven/figure-editor/src/main/java/FigureFileParser.java:82-83 | every accepted text is an optional sign followed by at least one ASCII digit, and the result is its signed value |
| Text.ParseIntRoundTrip | figure-editor-maven/figure-editor/src/main/java/SqliteFigureIO.java:137 | every `int`, negative ones included, parses back from its printed form |
| Text.RemoveAllKeeps | figure-editor-maven/figure-editor/src/main/java/SqliteFigureIO.java:152 | `replace("[", "")` keeps every other character and removes every `[` |
| Text.DropTrailingEmpty | figure-editor-maven/figure-editor/src/main/java/SqliteFigureIO.java:149 | `split` drops only trailing empty strings, so the result is a prefix of the pieces that ends in a non-empty one or is empty |
| Text.SplitPiecesJoin | figure-editor-maven/figure-editor/src/main/java/SqliteFigureIO.java:149 | splitting pieces joined by a separator gives the pieces back when no piece but the last holds the separator's first character and the last holds no separator |
| Text.HexDigitsValueOf | figure-editor-maven/figure-editor/src/main/java/SqliteFigureIO.java:70 | the `width` hex digits printed for `v` denote `v mod 16^width` |
| Text.HexDigitsOfValue | figure-editor-maven/figure-editor/src/main/java/SqliteFigureIO.java:70 | printing the value of a hex digit string at its own width gives the same digits in upper case |
| Geometry.SidesVerdict | figure-editor-maven/figure-web/src/main/java/Polygon.java:33-48 | the verdict of `validateSides` passes exactly when the sides are legal. It reports too few sides exactly when there are fewer than three. Otherwise it reports the first non-positive side, and failing that the first side not shorter than the sum of the others; every side before the reported one is positive, or shorter than the rest |
| Geometry.ValidateSides | figure-editor-maven/figure-web/src/main/java/Polygon.java:33-48 | the method's two loops reach exactly the verdict `SidesVerdict` |
| Geometry.HeronAreaKnownIffTriangle | figure-editor-maven/figure-web/src/main/java/Polygon.java:50-57 | for legal sides, the area from sides is the sentinel exactly when the count is not three, and is non-negative for a triangle |
| Geometry.HeronRadicandPositive | figure-editor-maven/figure-web/src/main/java/Polygon.java:52-54 | for a legal triangle Heron's radicand `s(s-a)(s-b)(s-c)` is strictly positive |
| Geometry.PolygonFromSides | figure-editor-maven/figure-web/src/main/java/Polygon.java:7-11 | construction from sides succeeds exactly when the sides are legal; it keeps a copy of the sides and Heron's area, and otherwise throws the fault `validateSides` reports |
| Geometry.NewPolygonFromSides | figure-editor-maven/figure-web/src/main/java/Polygon.java:7-11 | the constructor's steps give `PolygonFromSides` |
| Geometry.PolygonFromVertices | figure-editor-maven/figure-web/src/main/java/Polygon.java:13-31 | construction from vertices succeeds exactly when there are at least three vertices and the edge lengths are legal. Fewer than three vertices throws before any side is computed. On success the sides are the edge lengths (vertex `i` to vertex `(i+1) mod n`) and the area is the corrected shoelace area, with exact products (see Left out and Findings) |
| Geometry.NewPolygonFromVertices | figure-editor-maven/figure-web/src/main/java/Polygon.java:13-31 | the constructor's steps give `PolygonFromVertices`, with its corrected area |
| Geometry.ComputeSides | figure-editor-maven/figure-web/src/main/java/Polygon.java:18-26 | the side loop fills a fresh array with the edge lengths, wrapping around to vertex 0 |
| Geometry.NextIsModulo | figure-editor-maven/figure-web/src/main/java/Polygon.java:22 | the next vertex index is `(i + 1) % n` |
| Geometry.ComputeAreaFromCoordinates | figure-editor-maven/figure-web/src/main/java/Polygon.java:59-69 | the accumulation loop computes the shoelace area (absolute value taken once, halved), with exact products |
| Geometry.ShoelaceArea | figure-editor-maven/figure-web/src/main/java/Polygon.java:67-68 | the shoelace area, absolute value taken once and halved, is never negative |
| Geometry.ShoelaceReversal | figure-editor-maven/figure-web/src/main/java/Polygon.java:59-69 | listing the vertices in the opposite direction gives the same area |
| Geometry.WrittenShoelaceArea | figure-editor-maven/figure-web/src/main/java/Polygon.java:59-69 | the shoelace area with each product as a wrapping `int` multiplication, as the source writes it; never negative |
| Geometry.ShoelaceProductOverflow | figure-editor-maven/figure-web/src/main/java/Polygon.java:64-65 | the right triangle with legs of 65536 has area 0 as written and 2^31 by the shoelace formula |
| Geometry.RightTriangleAreas | figure-editor-maven/figure-web/src/main/java/Polygon.java:59-69 | for the right triangle with legs of `k`, the shoelace area is `k*k/2`, and the as-written area is half the wrapped product |
| Geometry.WrittenShoelaceWithoutOverflow | figure-editor-maven/figure-web/src/main/java/Polygon.java:64-65 | when every coordinate is within 46340 of zero, the as-written area equals the shoelace area |
| Geometry.EdgeLengthsTranslated | ColoredPolygon.java:57-62 | shifting every vertex by the same `int` offset leaves every edge length unchanged, also across overflow, because the differences wrap too |
| Geometry.Perimeter | figure-editor-maven/figure-web/src/main/java/Polygon.java:71-74 | the perimeter of a legal polygon is positive and more than twice any side |
| Geometry.SideCount | figure-editor-maven/figure-web/src/main/java/Polygon.java:85-87 | `getSideCount` is the length of the array `getSides` returns |
| Geometry.BuiltPolygonSides | figure-editor-maven/figure-web/src/main/java/Polygon.java:81-87 | `getSides` of a polygon built from sides returns those sides; built from vertices, it returns one edge length per vertex; `getSideCount` is then the number of sides or vertices, at least three |
| Ordering.CompareReals | figure-editor-maven/figure-web/src/main/java/Polygon.java:108 | `Double.compare` on numbers is -1, 0 or 1 exactly as the first is below, equal to or above the second |
| Ordering.CompareTo | figure-editor-maven/figure-web/src/main/java/Polygon.java:105-109 | `compareTo` compares areas, with an unknown area counted as `Double.MAX_VALUE`: two unknown areas are equal, and an unknown area sorts after every known area below `MAX_VALUE` |
| Ordering.CompareKeys | Main.java:77-80 | `comparingDouble(...).thenComparing(...)` is the lexicographic order on (major, minor), equal only on equal keys |
| Ordering.CompareByAreaIsCompareTo | Main.java:71-72 | sorting by area uses exactly `compareTo` |
| Ordering.CompareByPerimeterThenArea | Main.java:76-80 | the second order puts a shorter perimeter first, and on equal perimeters the smaller effective area |
| Ordering.CompareAntisymmetric | figure-editor-maven/figure-web/src/main/java/Polygon.java:105-109 | swapping the arguments negates the comparison |
| Ordering.CompareTransitive | figure-editor-maven/figure-web/src/main/java/Polygon.java:105-109 | both comparators are transitive |
| Ordering.InsertionSortSorted | Main.java:71-80 | the sort's output is sorted |
| Ordering.InsertionSortPermutes | Main.java:71-80 | the sort's output is a permutation of its input |
| Ordering.InsertionSortStable | Main.java:71-80 | for every pivot, the elements tied with it appear in the same order after sorting as before |
| Ordering.StableSort | Main.java:71-80 | `Collections.sort` / `List.sort` on a copy returns a sorted, stable permutation of the list |
| Ordering.InsertInto | Main.java:71-80 | one shifting step of the sort inserts the element after every element not above it |
| Styled.DisplayName | ColoredPolygon.java:14 | the stored name is the trimmed name, or `Безымянный` when the name is missing or blank; it is non-empty and already trimmed |
| Styled.DisplayNameIdempotent | ColoredPolygon.java:14 | passing a stored name back as a name keeps it |
| Styled.ValidateColor | ColoredPolygon.java:31-36 | a colour is accepted, unchanged, exactly when present and matching `^#[0-9A-Fa-f]{6}$`; otherwise the error names the field and the rejected value |
| Styled.StyledFigure | ColoredPolygon.java:10-21 | construction succeeds exactly when the geometry, both colours and the opacity range pass. The first failing check, in source order, is the error: the polygon's, then the line colour's, then the fill colour's, then `IllegalArgumentException` for an opacity outside [0, 1]. On success the figure holds the polygon, the vertices, the display name, both colours and the opacity |
| Styled.StyledFigureWellFormed | ColoredPolygon.java:10-21 | every constructed figure is well formed: legal sides that are its edge lengths, a trimmed non-empty name, valid colours, opacity in range |
| Styled.Moved | ColoredPolygon.java:57-62 | a move changes only the vertices, each shifted with `int` addition, and keeps the figure well formed |
| Styled.ColoredPolygon.Create | ColoredPolygon.java:10-21 | the constructor succeeds or fails as `StyledFigure` says; on success a fresh object with a fresh copy of the vertex array holds that figure |
| Styled.ColoredPolygon.DeepCopy | ColoredPolygon.java:23-29 | `deepCopy` returns a fresh array with the same vertices |
| Styled.ColoredPolygon.MoveBy | ColoredPolygon.java:57-62 | `moveBy` shifts every vertex of the owned array in place, changes nothing else, and keeps the object valid |
| Styled.ColoredPolygon.GetCoordinates | ColoredPolygon.java:69 | `getCoordinates` returns a fresh array equal to the vertices |
| FigureParser.RunTidy | figure-editor-maven/figure-editor/src/main/java/FigureFileParser.java:15-29 | the scanner only ever collects trimmed, non-empty lines |
| FigureParser.BlocksWellFormed | figure-editor-maven/figure-editor/src/main/java/FigureFileParser.java:15-34 | every block handed to the block parser is non-empty and made of trimmed, non-empty lines |
| FigureParser.LeadingLinesIgnored | figure-editor-maven/figure-editor/src/main/java/FigureFileParser.java:15-28 | lines before the first delimiter do not change the blocks |
| FigureParser.TrailingDelimiter | figure-editor-maven/figure-editor/src/main/java/FigureFileParser.java:17-23 | a delimiter as the last line yields the same blocks as the end of input |
| FigureParser.ClosedIsPrefix | figure-editor-maven/figure-editor/src/main/java/FigureFileParser.java:15-34 | blocks closed so far are never revised later in the scan |
| FigureParser.RunAppend | figure-editor-maven/figure-editor/src/main/java/FigureFileParser.java:15-29 | scanning two chunks of lines in turn is scanning their concatenation |
| FigureParser.KeyValue | figure-editor-maven/figure-editor/src/main/java/FigureFileParser.java:53-58 | a line yields a key/value pair exactly when its first colon is past position 0; key and value are the trimmed text before and after that colon |
| FigureParser.PropsHasKey | figure-editor-maven/figure-editor/src/main/java/FigureFileParser.java:51-59 | a key is in the map exactly when some line of the block carries it |
| FigureParser.PropsLastValue | figure-editor-maven/figure-editor/src/main/java/FigureFileParser.java:57 | a repeated key keeps the value of its last line |
| FigureParser.PropsTrimmed | figure-editor-maven/figure-editor/src/main/java/FigureFileParser.java:56 | every value in the map is trimmed |
| FigureParser.CollectProps | figure-editor-maven/figure-editor/src/main/java/FigureFileParser.java:51-59 | the `props` loop builds exactly the map `Props` describes |
| FigureParser.DigitRunEnd | figure-editor-maven/figure-editor/src/main/java/FigureFileParser.java:79 | `\d+` matches greedily: the run is all digits and is followed by a non-digit or the end |
| FigureParser.SpaceRunEnd | figure-editor-maven/figure-editor/src/main/java/FigureFileParser.java:79 | `\s*` matches greedily over regex whitespace |
| FigureParser.MatchAt | figure-editor-maven/figure-editor/src/main/java/FigureFileParser.java:79-81 | a match of `\((\d+),\s*(\d+)\)` at a position has two non-empty digit groups and ends inside the text |
| FigureParser.MatchAtComplete | figure-editor-maven/figure-editor/src/main/java/FigureFileParser.java:79-81 | whenever the pattern occurs at a position, the matcher finds it there, with exactly its two digit groups and its end |
| FigureParser.MatchAtSound | figure-editor-maven/figure-editor/src/main/java/FigureFileParser.java:79-81 | every match reported is an occurrence of the pattern: `(`, digits, `,`, regex whitespace, digits, `)` |
| FigureParser.ParseVertices | figure-editor-maven/figure-editor/src/main/java/FigureFileParser.java:81-85 | the matches become vertices, one per match, exactly when every group parses as an `int`; each vertex holds its match's values. Otherwise the first failing group's `NumberFormatException` is the error |
| FigureParser.MatchVertices | figure-editor-maven/figure-editor/src/main/java/FigureFileParser.java:78-85 | the `while (m.find())` loop gives `ParseVertices` of the left-to-right matches |
| FigureParser.ParseOpacity | figure-editor-maven/figure-editor/src/main/java/FigureFileParser.java:93-100 | the opacity is 1.0 when absent; otherwise it is `parseDouble` of the trimmed text, and a failure is an error naming the raw text |
| FigureParser.PropsFigure | figure-editor-maven/figure-editor/src/main/java/FigureFileParser.java:67-102 | missing coordinates are an error. On success the vertices are those parsed from `coordinates`, there are at least three, both colours are the map's values, and the opacity is the parsed one |
| FigureParser.CoordinateErrors | figure-editor-maven/figure-editor/src/main/java/FigureFileParser.java:73-89 | an unparseable vertex group is reported before the vertex count, and fewer than three vertices is reported with the number of matches |
| FigureParser.BlockName | figure-editor-maven/figure-editor/src/main/java/FigureFileParser.java:67 | the figure's name is the block's `name` value, or `Безымянный` when it is absent or empty |
| FigureParser.BlockFigure | figure-editor-maven/figure-editor/src/main/java/FigureFileParser.java:62-65 | a block is skipped exactly when its `class` is not `ColoredPolygon` |
| FigureParser.ParseFigureBlock | figure-editor-maven/figure-editor/src/main/java/FigureFileParser.java:50-103 | `parseFigureBlock` skips, fails or returns a fresh valid object exactly as `BlockFigure` says |
| FigureParser.FigureFromProps | figure-editor-maven/figure-editor/src/main/java/FigureFileParser.java:67-102 | the steps after the class check give `PropsFigure`, as a fresh valid object |
| FigureParser.ParseAllErrorSticks | figure-editor-maven/figure-editor/src/main/java/FigureFileParser.java:15-34 | once a block fails, later blocks do not change the outcome |
| FigureParser.SkippedBlock | figure-editor-maven/figure-editor/src/main/java/FigureFileParser.java:18-21 | a block of another class adds nothing to the result |
| FigureParser.ParseAllCount | figure-editor-maven/figure-editor/src/main/java/FigureFileParser.java:19-20 | a successful load has one figure per block of the supported class |
| FigureParser.LoadFiguresFromFile | figure-editor-maven/figure-editor/src/main/java/FigureFileParser.java:8-37 | the scan loop succeeds or fails as `Load` says; on success it returns fresh valid objects holding `Load`'s figures, in order |
| FigureParser.FlushFailed | figure-editor-maven/figure-editor/src/main/java/FigureFileParser.java:18-21 | when a block closed during the scan fails, the whole load fails with its error |
| CoordinateCodec.PointTexts | figure-editor-maven/figure-editor/src/main/java/SqliteFigureIO.java:137 | one `[x,y]` text per vertex, in order |
| CoordinateCodec.CoordinatesText | figure-editor-maven/figure-editor/src/main/java/SqliteFigureIO.java:133-141 | the encoding starts with `[` and ends with `]` |
| CoordinateCodec.CoordinatesToJson | figure-editor-maven/figure-editor/src/main/java/SqliteFigureIO.java:133-141 | the `StringBuilder` loop produces `[` + the vertex texts joined by `,` + `]` |
| CoordinateCodec.PointOfPiece | figure-editor-maven/figure-editor/src/main/java/SqliteFigureIO.java:152-155 | reading one piece fails only with an index error (fewer than two fields) or `NumberFormatException` |
| CoordinateCodec.CoordinatesOfText | figure-editor-maven/figure-editor/src/main/java/SqliteFigureIO.java:143-158 | the text is refused with `IllegalArgumentException` exactly when, once trimmed, it does not start with `[` and end with `]`. Otherwise it yields one vertex per piece of the split, or an index or number-format error |
| CoordinateCodec.JsonToCoordinates | figure-editor-maven/figure-editor/src/main/java/SqliteFigureIO.java:143-158 | the method fills a fresh array with exactly the vertices `CoordinatesOfText` gives, or fails with its error |
| CoordinateCodec.ReadPoints | figure-editor-maven/figure-editor/src/main/java/SqliteFigureIO.java:150-157 | the row loop fills a fresh array with the pieces' vertices, or stops with the first piece's error |
| CoordinateCodec.PiecesErrorSticks | figure-editor-maven/figure-editor/src/main/java/SqliteFigureIO.java:151-156 | the first failing piece decides the error |
| CoordinateCodec.PieceTolerance | figure-editor-maven/figure-editor/src/main/java/SqliteFigureIO.java:152-155 | a piece with optional brackets and blanks around each number reads as that vertex |
| CoordinateCodec.CoordinatesRoundTrip | figure-editor-maven/figure-editor/src/main/java/SqliteFigureIO.java:133-158 | every non-empty vertex list reads back unchanged from its encoding, negative and extreme `int` values included |
| CoordinateCodec.EmptyListFails | figure-editor-maven/figure-editor/src/main/java/SqliteFigureIO.java:133-158 | the empty list encodes as `[]`, which reads back as `NumberFormatException` on the empty string |
| CoordinateCodec.EmptyPiecesDropped | figure-editor-maven/figure-editor/src/main/java/SqliteFigureIO.java:148-150 | `[],[]` reads back as the empty list, because `split` drops both empty pieces |
| CoordinateCodec.TrailingEmptyPieceDropped | figure-editor-maven/figure-editor/src/main/java/SqliteFigureIO.java:148-150 | `[[x,y],[]` reads as the single vertex `(x, y)`: a trailing empty piece is dropped |
| CoordinateCodec.UnbracketedRefused | figure-editor-maven/figure-web/src/main/java/FigureServlet.java:104-107 | a text that after trimming is empty or lacks the outer brackets is refused |
| CoordinateCodec.DecodedRgb | ColoredPolygon.java:65-66 | `Color.decode(s).getRGB()` is negative (opaque alpha) and its low 24 bits are the colour's hex value |
| CoordinateCodec.ColorToHex | figure-editor-maven/figure-web/src/main/java/FigureServlet.java:120-122 | `"#%06X"` of `0xFFFFFF & rgb` is a valid colour whose hex value is the low 24 bits of `rgb` |
| CoordinateCodec.StoredColor | figure-editor-maven/figure-editor/src/main/java/SqliteFigureIO.java:70-71 | a stored colour is the figure's colour with its hex digits in upper case |
| CoordinateCodec.ColorRoundTrip | figure-editor-maven/figure-web/src/main/java/FigureServlet.java:120-122 | formatting an RGB value and decoding it again keeps its low 24 bits |
| CoordinateCodec.RowOf | figure-editor-maven/figure-editor/src/main/java/SqliteFigureIO.java:67-72 | the row saved for a figure holds valid colours |
| CoordinateCodec.FigureOfRow | figure-editor-maven/figure-editor/src/main/java/SqliteFigureIO.java:100-107 | a row whose coordinates do not read back fails with the reader's error; a row that loads gives a well-formed figure with the row's vertices, display name, colours and opacity |
| CoordinateCodec.StoredFigureReloads | figure-editor-maven/figure-editor/src/main/java/SqliteFigureIO.java:99-107 | every well-formed figure saved as a row loads back. It keeps the same vertices, name, opacity and sides, and the same colours with upper-case digits |
| Demo.CreatePolygon | Main.java:124-126 | `createPolygon` succeeds exactly when the sides are legal, with Heron's area |
| Demo.SuccessesValid | Main.java:58-66 | every polygon the demo keeps is legal, carries its Heron area, and comes from a row of the table |
| Demo.SuccessesAllLegal | Main.java:58-66 | when every row is legal, polygon `i` is built from row `i` and none is skipped |
| Demo.SuccessesSkipRejected | Main.java:63-65 | a rejected row adds nothing |
| Demo.CollectPolygons | Main.java:58-66 | the demo loop collects exactly the polygons `Successes` describes |
| Demo.TestDataAccepted | Main.java:49-55 | all five rows of the table are kept in order, and only the quadrilateral has unknown area |
| Demo.DemonstratePolygonsCollection | Main.java:46-83 | both sorted copies are sorted, stable permutations of the collected list |
| Items.FigureItem.constructor | figure-editor-maven/figure-editor/src/main/java/FigureItem.java:5-8 | a new item holds the given figure and is visible |
| Items.FigureItem.GetFigure | figure-editor-maven/figure-editor/src/main/java/FigureItem.java:10-12 | `getFigure` returns the object given at construction |
| Items.FigureItem.IsVisible | figure-editor-maven/figure-editor/src/main/java/FigureItem.java:14-16 | `isVisible` returns the flag |
| Items.FigureItem.SetVisible | figure-editor-maven/figure-editor/src/main/java/FigureItem.java:18-20 | `setVisible(b)` sets the flag to `b` and changes nothing else, not even the held figure's state |
| Items.VisibilityRoundTrip | figure-editor-maven/figure-editor/src/main/java/FigureItem.java:5-20 | a new item is visible, after `setVisible(b)` it reports `b`, and it still returns the figure it was made with |

## Left out

- `Math.sqrt` and `Double.parseDouble` are parameters; their results are taken as given. Properties that need a non-negative square root require `SqrtNonNegative`.
- Floating point is modelled with exact reals: no rounding in sums, Heron's formula or the shoelace halving, and no NaN, infinities or signed zero (`Double.compare` is modelled on ordinary numbers).
- Null arrays, null rows and rows shorter than two entries cannot be represented: sequences and `Point` values are never null or short.
- `Integer.parseInt` accepts ASCII digits only; other Unicode decimal digits are not modelled.
- `Collections.sort` and `List.sort` (TimSort) are modelled by a stable insertion sort. Any stable sort with the same comparator gives the same result, which is what the sort lemmas pin down.
- `toString` of `Polygon` and `FigureItem` (`%.2f` formatting), the console output and `System.err` warnings are not modelled.
- Reading the file (`readAllLines`) and its `IOException` are left out: the loader takes the file's lines.
- AWT is not modelled: `contains`, `getAWTPolygon`, and `Color` beyond decoding a `#RRGGBB` string to its RGB value.
- JDBC, HTTP, serialization, the GUI (`MainGUI`) and `JsonFigureIO` are not part of this model. Only the pure helpers of `SqliteFigureIO` and `FigureServlet` are modelled.
- Two classes of the source are not modelled: the `Shape` interface (no logic) and the exception classes (folded into `Error`).
- The two copies of `jsonToCoordinates` throw different messages (`SqliteFigureIO` and `FigureServlet`). The model keeps only the exception kind, so it stands for both.
- PolygonFromVertices, NewPolygonFromVertices, ComputeAreaFromCoordinates: the constructor from vertices carries the corrected shoelace area, with exact products, where the source multiplies `int`s that wrap (see Findings). The two agree whenever every coordinate lies within ±46340 (`WrittenShoelaceWithoutOverflow`) and differ beyond that; every figure built from vertices (`StyledFigure`, `ColoredPolygon.Create`, the loader, `FigureOfRow`) inherits the corrected area.
- StoredFigureReloads: the reloaded polygon's area is recomputed by the constructor from the same vertices. The lemma states equality of vertices and sides but does not restate the area.
- ColorRoundTrip: only the low 24 bits survive; the alpha byte of an arbitrary `int` is not kept by `"#%06X"`.
- The scanner compares the trimmed line with `--- FIGURE ---`, as the code does (`line = line.trim()` comes first), so an indented delimiter also opens a block. A reading that wants the raw line to equal the delimiter does not match the code; the model follows the code.
- A block line whose colon is at position 0 is ignored, like a line without a colon, as the code's `colon > 0` says.
- The number of vertices read back is not always the number of `],[` separators plus one: trailing empty pieces are dropped by `split` (`TrailingEmptyPieceDropped`, `EmptyPiecesDropped`). The empty list does not round-trip (`EmptyListFails`). A figure always has at least three vertices, so stored figures are not affected.
- Side lengths from vertices use `int` subtraction for the coordinate differences, which wraps for coordinates more than 2^31 apart. This is modelled as written. `moveBy` wraps the same way, so the stored sides stay equal to the edge lengths after any move (`EdgeLengthsTranslated`).
- `MainGUI`'s pick-and-raise list logic depends on AWT hit testing and is not modelled.

## Findings

| source | as written | input that shows it | evidently intended | confidence | as-written member | corrected member |
|---|---|---|---|---|---|---|
| figure-editor-maven/figure-web/src/main/java/Polygon.java:64-65 | the shoelace products `coords[i][0] * coords[j][1]` are `int` multiplications, so each wraps modulo 2^32 before it is added to the `double` sum | the right triangle `(0,0) (65536,0) (0,65536)`: each leg product is 2^32, which wraps to 0, so the area is 0 instead of 2^31 | the exact shoelace area, with products taken in a wider type | high for the arithmetic, not executed; that the triangle passes `validateSides` assumes a correct `Math.sqrt` | Geometry.ShoelaceProductOverflow | Geometry.ShoelaceArea |
