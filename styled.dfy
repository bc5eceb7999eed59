/**
  The styled polygon: a polygon built from vertices, with a display name, a
  line colour, a fill colour and an opacity. Construction checks, in this
  order, the geometry, the line colour, the fill colour and the opacity, and
  the first failure is the one reported. The object owns a private copy of its
  vertex array; `moveBy` shifts that array in place and is the only change of
  state the object ever sees; everything else is fixed at construction.
 */
module Styled {
  import opened Lang
  import opened Text
  import opened Geometry

  /** The name a figure gets when none, or only blanks, is given. */
  const DefaultName: string := "Безымянный"

  /** The stored name: the trimmed input, or the default when the input is
      missing or trims to nothing. */
  function DisplayName(name: Option<string>): (r: string)
    ensures r != [] && Trim(r) == r
    ensures name.Some? && Trim(name.value) != [] ==> r == Trim(name.value)
    ensures name.None? || Trim(name.value) == [] ==> r == DefaultName
  {
    if name.None? || Trim(name.value) == [] then
      TrimOfTrimmed(DefaultName);
      DefaultName
    else
      TrimIdempotent(name.value);
      Trim(name.value)
  }

  /** A stored name is kept as it is when it is given back as a name. */
  lemma DisplayNameIdempotent(name: Option<string>)
    ensures DisplayName(Some(DisplayName(name))) == DisplayName(name)
  {
  }

  /** The colour pattern `^#[0-9A-Fa-f]{6}$`, matched against the whole string. */
  predicate IsColor(s: string) {
    |s| == 7 && s[0] == '#' && AllHexDigits(s[1..])
  }

  /** `validateColor`: a colour is returned unchanged when it is present and
      matches the pattern; otherwise an `IllegalArgumentException` naming the
      field and the rejected value. */
  function ValidateColor(color: Option<string>, field: string): (r: Result<string>)
    ensures r.Ok? <==> color.Some? && IsColor(color.value)
    ensures r.Ok? ==> r.value == color.value
    ensures r.Err? ==> r.error == IllegalArgument(MalformedColor(field, color))
  {
    if color.None? || !IsColor(color.value) then Err(IllegalArgument(MalformedColor(field, color)))
    else Ok(color.value)
  }

  /** The abstract value of a styled polygon. */
  datatype Figure = Figure(
    shape: Polygon,
    coordinates: seq<Point>,
    name: string,
    lineColor: string,
    fillColor: string,
    opacity: real)

  /** What the constructor makes of its arguments, or the first exception it throws. */
  function StyledFigure(
    coordinates: seq<Point>, name: Option<string>, lineColor: Option<string>,
    fillColor: Option<string>, opacity: real, sqrt: real -> real): (r: Result<Figure>)
    ensures r.Ok? <==>
              && PolygonFromVertices(coordinates, sqrt).Ok?
              && ValidateColor(lineColor, "lineColor").Ok?
              && ValidateColor(fillColor, "fillColor").Ok?
              && 0.0 <= opacity <= 1.0
    ensures PolygonFromVertices(coordinates, sqrt).Err? ==>
              r.Err? && r.error == PolygonFromVertices(coordinates, sqrt).error
    ensures PolygonFromVertices(coordinates, sqrt).Ok? && ValidateColor(lineColor, "lineColor").Err? ==>
              r.Err? && r.error == IllegalArgument(MalformedColor("lineColor", lineColor))
    ensures PolygonFromVertices(coordinates, sqrt).Ok? && ValidateColor(lineColor, "lineColor").Ok?
            && ValidateColor(fillColor, "fillColor").Err? ==>
              r.Err? && r.error == IllegalArgument(MalformedColor("fillColor", fillColor))
    ensures PolygonFromVertices(coordinates, sqrt).Ok? && ValidateColor(lineColor, "lineColor").Ok?
            && ValidateColor(fillColor, "fillColor").Ok? && !(0.0 <= opacity <= 1.0) ==>
              r == Err(IllegalArgument(OpacityOutOfRange(opacity)))
    ensures r.Err? && r.error.IllegalArgument? && r.error.argumentFault.OpacityOutOfRange? ==>
              (opacity < 0.0 || 1.0 < opacity) && r.error.argumentFault.opacity == opacity
    ensures r.Ok? ==>
              && r.value.shape == PolygonFromVertices(coordinates, sqrt).value
              && r.value.coordinates == coordinates
              && r.value.name == DisplayName(name)
              && r.value.lineColor == lineColor.value && r.value.fillColor == fillColor.value
              && r.value.opacity == opacity
  {
    var shape :- PolygonFromVertices(coordinates, sqrt);
    var line :- ValidateColor(lineColor, "lineColor");
    var fill :- ValidateColor(fillColor, "fillColor");
    if opacity < 0.0 || opacity > 1.0 then Err(IllegalArgument(OpacityOutOfRange(opacity)))
    else Ok(Figure(shape, coordinates, DisplayName(name), line, fill, opacity))
  }

  /** What holds of every figure the constructor accepts, and what `moveBy`
      keeps: legal sides that are still the edge lengths of the vertices. */
  ghost predicate WellFormed(f: Figure, sqrt: real -> real) {
    && |f.coordinates| >= 3
    && ValidSides(f.shape.sides)
    && f.shape.sides == EdgeLengths(f.coordinates, sqrt)
    && f.name != [] && Trim(f.name) == f.name
    && IsColor(f.lineColor) && IsColor(f.fillColor)
    && 0.0 <= f.opacity <= 1.0
  }

  lemma StyledFigureWellFormed(
    coordinates: seq<Point>, name: Option<string>, lineColor: Option<string>,
    fillColor: Option<string>, opacity: real, sqrt: real -> real)
    requires StyledFigure(coordinates, name, lineColor, fillColor, opacity, sqrt).Ok?
    ensures WellFormed(StyledFigure(coordinates, name, lineColor, fillColor, opacity, sqrt).value, sqrt)
  {
  }

  /** Moving a figure changes its vertices and nothing else, and it stays well formed:
      the stored sides still describe the moved vertices. */
  function Moved(f: Figure, dx: Int32, dy: Int32): (r: Figure)
    ensures r.coordinates == Translated(f.coordinates, dx, dy)
    ensures r.(coordinates := f.coordinates) == f
    ensures forall sqrt :: WellFormed(f, sqrt) ==> WellFormed(r, sqrt)
  {
    forall sqrt | WellFormed(f, sqrt)
      ensures EdgeLengths(Translated(f.coordinates, dx, dy), sqrt) == f.shape.sides
    {
      EdgeLengthsTranslated(f.coordinates, dx, dy, sqrt);
    }
    f.(coordinates := Translated(f.coordinates, dx, dy))
  }

  class ColoredPolygon {
    const shape: Polygon
    const name: string
    const lineColor: string
    const fillColor: string
    const opacity: real
    /** The privately owned vertex array; its rows change, the array does not. */
    const coordinates: array<Point>
    /** The square root the sides were computed with. */
    ghost const sqrt: real -> real

    ghost function Value(): Figure
      reads this, coordinates
    {
      Figure(shape, coordinates[..], name, lineColor, fillColor, opacity)
    }

    ghost predicate Valid()
      reads this, coordinates
    {
      WellFormed(Value(), sqrt)
    }

    constructor Init(f: Figure, coordinates: array<Point>, ghost sqrt: real -> real)
      requires coordinates[..] == f.coordinates
      requires WellFormed(f, sqrt)
      ensures this.coordinates == coordinates && this.sqrt == sqrt
      ensures Value() == f && Valid()
    {
      this.shape := f.shape;
      this.name := f.name;
      this.lineColor := f.lineColor;
      this.fillColor := f.fillColor;
      this.opacity := f.opacity;
      this.coordinates := coordinates;
      this.sqrt := sqrt;
    }

    /** `new ColoredPolygon(coordinates, name, lineColor, fillColor, opacity)`:
        the figure `StyledFigure` describes, holding a fresh copy of the
        caller's array, or the first exception. */
    static method Create(
      src: array<Point>, name: Option<string>, lineColor: Option<string>,
      fillColor: Option<string>, opacity: real, sqrt: real -> real)
      returns (r: Result<ColoredPolygon>)
      ensures r.Ok? <==> StyledFigure(src[..], name, lineColor, fillColor, opacity, sqrt).Ok?
      ensures r.Err? ==> r.error == StyledFigure(src[..], name, lineColor, fillColor, opacity, sqrt).error
      ensures r.Ok? ==> && fresh(r.value) && fresh(r.value.coordinates)
                        && r.value.Valid() && r.value.sqrt == sqrt
                        && r.value.Value() == StyledFigure(src[..], name, lineColor, fillColor, opacity, sqrt).value
    {
      var shape := NewPolygonFromVertices(src[..], sqrt);
      if shape.Err? {
        return Err(shape.error);
      }
      var copy := DeepCopy(src);
      var displayName := DisplayName(name);
      var line := ValidateColor(lineColor, "lineColor");
      if line.Err? {
        return Err(line.error);
      }
      var fill := ValidateColor(fillColor, "fillColor");
      if fill.Err? {
        return Err(fill.error);
      }
      if opacity < 0.0 || opacity > 1.0 {
        return Err(IllegalArgument(OpacityOutOfRange(opacity)));
      }
      var f := Figure(shape.value, copy[..], displayName, line.value, fill.value, opacity);
      var p := new ColoredPolygon.Init(f, copy, sqrt);
      r := Ok(p);
    }

    /** `deepCopy`: a new array holding the same vertices. */
    static method DeepCopy(src: array<Point>) returns (copy: array<Point>)
      ensures fresh(copy) && copy[..] == src[..]
    {
      copy := new Point[src.Length];
      for i := 0 to src.Length
        invariant copy[..i] == src[..i]
      {
        copy[i] := src[i];
        assert copy[..i + 1] == copy[..i] + [copy[i]];
        assert src[..i + 1] == src[..i] + [src[i]];
      }
      assert copy[..] == copy[..src.Length];
    }

    /** `moveBy`: every vertex shifted in place by `(dx, dy)` with `int` addition. */
    method MoveBy(dx: Int32, dy: Int32)
      requires Valid()
      modifies coordinates
      ensures coordinates[..] == Translated(old(coordinates[..]), dx, dy)
      ensures Value() == Moved(old(Value()), dx, dy)
      ensures Valid()
    {
      ghost var before := coordinates[..];
      for i := 0 to coordinates.Length
        invariant coordinates[..i] == Translated(before, dx, dy)[..i]
        invariant coordinates[i..] == before[i..]
      {
        var point := coordinates[i];
        coordinates[i] := Point(Wrap(point.x + dx), Wrap(point.y + dy));
        assert coordinates[..i + 1] == coordinates[..i] + [coordinates[i]];
        assert Translated(before, dx, dy)[..i + 1] == Translated(before, dx, dy)[..i] + [Translated(before, dx, dy)[i]];
        assert coordinates[i + 1..] == coordinates[i..][1..];
      }
      assert coordinates[..] == coordinates[..coordinates.Length];
    }

    /** `getCoordinates`: a fresh copy, so writes to it never reach the figure. */
    method GetCoordinates() returns (copy: array<Point>)
      ensures fresh(copy) && copy[..] == coordinates[..]
    {
      copy := DeepCopy(coordinates);
    }
  }
}
