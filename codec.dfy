/**
  The text form in which a figure's vertices are stored, `[[x,y],[x,y],...]`,
  and the `#RRGGBB` form of its colours. The desktop store and the web servlet
  carry identical copies of these helpers, so one model serves both.

  The encoder writes a JSON array of two-element arrays (RFC 8259, section 5);
  the decoder does not parse JSON but cuts the text apart: it trims it,
  requires an outer `[` and `]`, splits what is between them at `],[`,
  deletes any remaining brackets from each piece, splits the piece at commas
  and parses the first two fields as trimmed `int`s.
 */
module CoordinateCodec {
  import opened Lang
  import opened Text
  import opened Geometry
  import opened Styled

  // ---------------------------------------------------------------- encoding

  /** One vertex as the encoder writes it: `[x,y]`. */
  function PointText(p: Point): string {
    "[" + IntToString(p.x) + "," + IntToString(p.y) + "]"
  }

  function PointTexts(c: seq<Point>): (r: seq<string>)
    ensures |r| == |c|
    ensures forall i :: 0 <= i < |c| ==> r[i] == PointText(c[i])
  {
    seq(|c|, i requires 0 <= i < |c| => PointText(c[i]))
  }

  /** `coordinatesToJson` / `coordsToJson`: the vertices' `[x,y]` forms,
      comma separated, inside one outer pair of brackets. */
  function CoordinatesText(c: seq<Point>): (r: string)
    ensures |r| >= 2 && r[0] == '[' && r[|r| - 1] == ']'
  {
    "[" + Join(PointTexts(c), ",") + "]"
  }

  /** The encoder's `StringBuilder` loop. */
  method CoordinatesToJson(coords: array<Point>) returns (json: string)
    ensures json == CoordinatesText(coords[..])
  {
    var sb := "[";
    for i := 0 to coords.Length
      invariant sb == "[" + Join(PointTexts(coords[..i]), ",")
    {
      EncodeStep(coords[..], i, sb);
      if i > 0 {
        sb := sb + ",";
      }
      sb := sb + "[" + IntToString(coords[i].x) + "," + IntToString(coords[i].y) + "]";
      assert coords[..i + 1] == coords[..][..i + 1];
    }
    assert coords[..coords.Length] == coords[..];
    json := sb + "]";
  }

  /** Appending one more vertex, after a comma unless it is the first,
      extends the text by that vertex's `[x,y]`. */
  lemma EncodeStep(c: seq<Point>, i: nat, sb: string)
    requires i < |c| && sb == "[" + Join(PointTexts(c[..i]), ",")
    ensures (if i > 0 then sb + "," else sb) + "[" + IntToString(c[i].x) + "," + IntToString(c[i].y) + "]"
            == "[" + Join(PointTexts(c[..i + 1]), ",")
  {
    var p := PointText(c[i]);
    var x, y := IntToString(c[i].x), IntToString(c[i].y);
    var front := if i > 0 then sb + "," else sb;
    AppendFive(front, "[", x, ",", y, "]");
    PointTextsSnoc(c, i);
    var j := Join(PointTexts(c[..i]), ",");
    if i > 0 {
      JoinSnoc(PointTexts(c[..i]), p, ",");
      AppendFour("[", j, ",", p);
    } else {
      assert PointTexts(c[..i + 1]) == [p];
      assert PointTexts(c[..i]) == [];
      assert sb == "[";
    }
  }

  lemma PointTextsSnoc(c: seq<Point>, i: nat)
    requires i < |c|
    ensures PointTexts(c[..i + 1]) == PointTexts(c[..i]) + [PointText(c[i])]
  {
    var l, r := PointTexts(c[..i + 1]), PointTexts(c[..i]) + [PointText(c[i])];
    forall k | 0 <= k < |l|
      ensures l[k] == r[k]
    {
      if k < i {
        assert c[..i + 1][k] == c[..i][k];
      }
    }
  }

  lemma AppendFive(f: string, a: string, b: string, c: string, d: string, e: string)
    ensures f + a + b + c + d + e == f + (a + b + c + d + e)
  {
  }

  lemma AppendFour(a: string, b: string, c: string, d: string)
    ensures a + b + c + d == a + (b + c + d)
  {
  }

  // ---------------------------------------------------------------- decoding

  /** `startsWith("[") && endsWith("]")`. */
  predicate Bracketed(t: string) {
    |t| > 0 && t[0] == '[' && t[|t| - 1] == ']'
  }

  /** The pieces the decoder cuts a bracketed text into: what lies between
      the outer brackets, split at `],[`. */
  function Pieces(t: string): seq<string>
    requires Bracketed(t)
  {
    Split(t[1..|t| - 1], "],[")
  }

  /** One piece read as a vertex: brackets deleted, split at commas, the
      first two fields trimmed and parsed. A missing field is an array index
      out of bounds, met after the first field has been parsed; fields after
      the second are ignored. */
  function PointOfPiece(piece: string): (r: Result<Point>)
    ensures r.Err? ==> r.error == IndexOutOfBounds || r.error.NumberFormat?
  {
    var xy := Split(RemoveAll(RemoveAll(piece, '['), ']'), ",");
    if |xy| < 1 then Err(IndexOutOfBounds)
    else
      var x :- ParseInteger(Trim(xy[0]));
      if |xy| < 2 then Err(IndexOutOfBounds)
      else
        var y :- ParseInteger(Trim(xy[1]));
        Ok(Point(x, y))
  }

  /** The pieces read in order; the first piece that fails decides the error. */
  function PointsOfPieces(ps: seq<string>): (r: Result<seq<Point>>)
    ensures r.Ok? ==> |r.value| == |ps|
    ensures r.Err? ==> r.error == IndexOutOfBounds || r.error.NumberFormat?
    decreases |ps|
  {
    if |ps| == 0 then Ok([])
    else
      var prefix :- PointsOfPieces(ps[..|ps| - 1]);
      var p :- PointOfPiece(ps[|ps| - 1]);
      Ok(prefix + [p])
  }

  /** `jsonToCoordinates` / `jsonToCoords`. */
  function CoordinatesOfText(json: string): (r: Result<seq<Point>>)
    ensures !Bracketed(Trim(json)) <==> r == Err(IllegalArgument(MalformedCoordinates))
    ensures r.Ok? ==> |r.value| == |Pieces(Trim(json))|
    ensures r.Err? && Bracketed(Trim(json)) ==> r.error == IndexOutOfBounds || r.error.NumberFormat?
  {
    var t := Trim(json);
    if !Bracketed(t) then Err(IllegalArgument(MalformedCoordinates))
    else PointsOfPieces(Pieces(t))
  }

  /** `jsonToCoordinates` / `jsonToCoords` as written: trim, check the outer
      brackets, split, and fill the result array row by row. */
  method JsonToCoordinates(json: string) returns (r: Result<array<Point>>)
    ensures r.Ok? <==> CoordinatesOfText(json).Ok?
    ensures r.Err? ==> r.error == CoordinatesOfText(json).error
    ensures r.Ok? ==> fresh(r.value) && r.value[..] == CoordinatesOfText(json).value
  {
    var t := Trim(json);
    if !(|t| > 0 && t[0] == '[') || !(|t| > 0 && t[|t| - 1] == ']') {
      return Err(IllegalArgument(MalformedCoordinates));
    }
    var points := Split(t[1..|t| - 1], "],[");
    r := ReadPoints(points);
  }

  /** The decoder's loop over the pieces. */
  method ReadPoints(points: seq<string>) returns (r: Result<array<Point>>)
    ensures r.Ok? <==> PointsOfPieces(points).Ok?
    ensures r.Err? ==> r.error == PointsOfPieces(points).error
    ensures r.Ok? ==> fresh(r.value) && r.value[..] == PointsOfPieces(points).value
  {
    var coords := new Point[|points|];
    for i := 0 to |points|
      invariant PointsOfPieces(points[..i]) == Ok(coords[..i])
    {
      var point := ReadPoint(points[i]);
      if point.Err? {
        PieceFails(points, i);
        return Err(point.error);
      }
      PieceReads(points, i, coords[..i]);
      coords[i] := point.value;
      assert coords[..i + 1] == coords[..i] + [coords[i]];
    }
    assert points[..|points|] == points && coords[..|points|] == coords[..];
    return Ok(coords);
  }

  /** The body of the decoder's loop: one row of the result, or the exception
      its piece raises. */
  method ReadPoint(piece: string) returns (r: Result<Point>)
    ensures r == PointOfPiece(piece)
  {
    var p := RemoveAll(RemoveAll(piece, '['), ']');
    var xy := Split(p, ",");
    if |xy| < 1 {
      return Err(IndexOutOfBounds);
    }
    var x := ParseInteger(Trim(xy[0]));
    if x.Err? {
      return Err(x.error);
    }
    if |xy| < 2 {
      return Err(IndexOutOfBounds);
    }
    var y := ParseInteger(Trim(xy[1]));
    if y.Err? {
      return Err(y.error);
    }
    return Ok(Point(x.value, y.value));
  }

  lemma PieceReads(ps: seq<string>, i: nat, prefix: seq<Point>)
    requires i < |ps| && PointsOfPieces(ps[..i]) == Ok(prefix) && PointOfPiece(ps[i]).Ok?
    ensures PointsOfPieces(ps[..i + 1]) == Ok(prefix + [PointOfPiece(ps[i]).value])
  {
    assert ps[..i + 1][..i] == ps[..i];
  }

  /** Pieces that each read as their vertex read as the list of them. */
  lemma {:induction false} PiecesRead(ps: seq<string>, c: seq<Point>)
    requires |ps| == |c|
    requires forall i {:trigger PointOfPiece(ps[i])} :: 0 <= i < |ps| ==> PointOfPiece(ps[i]) == Ok(c[i])
    ensures PointsOfPieces(ps) == Ok(c)
    decreases |ps|
  {
    if |ps| > 0 {
      var n := |ps| - 1;
      assert c == c[..n] + [c[n]];
      assert PointOfPiece(ps[n]) == Ok(c[n]);
      PiecesRead(ps[..n], c[..n]);
    }
  }

  /** Once a piece fails, the pieces after it are never read. */
  lemma PieceFails(ps: seq<string>, i: nat)
    requires i < |ps| && PointsOfPieces(ps[..i]).Ok? && PointOfPiece(ps[i]).Err?
    ensures PointsOfPieces(ps) == Err(PointOfPiece(ps[i]).error)
  {
    PieceFailsFirst(ps, i);
    PiecesErrorSticks(ps, i + 1);
  }

  lemma PieceFailsFirst(ps: seq<string>, i: nat)
    requires i < |ps| && PointsOfPieces(ps[..i]).Ok? && PointOfPiece(ps[i]).Err?
    ensures PointsOfPieces(ps[..i + 1]) == Err(PointOfPiece(ps[i]).error)
  {
    assert ps[..i + 1][..i] == ps[..i];
  }

  lemma {:induction false} PiecesErrorSticks(ps: seq<string>, i: nat)
    requires i <= |ps| && PointsOfPieces(ps[..i]).Err?
    ensures PointsOfPieces(ps) == PointsOfPieces(ps[..i])
    decreases |ps| - i
  {
    if i < |ps| {
      assert ps[..i + 1][..i] == ps[..i];
      PiecesErrorSticks(ps, i + 1);
    } else {
      assert ps[..i] == ps;
    }
  }

  // ------------------------------------------------------------- round trip

  /** No bracket and no comma: a field the decoder keeps whole. */
  predicate Plain(s: string) {
    Lacks(s, '[') && Lacks(s, ']') && Lacks(s, ',')
  }

  lemma PrintedPlain(i: int)
    ensures Plain(IntToString(i)) && IntToString(i) != []
    ensures Trim(IntToString(i)) == IntToString(i)
  {
    var s := IntToString(i);
    IntToStringAlphabet(i);
    TrimOfTrimmed(s);
  }

  /** Deleting the brackets of an optional leading `[` and trailing `]`
      leaves the bracket-free middle. */
  lemma StripBrackets(pre: string, m: string, post: string)
    requires pre == "" || pre == "["
    requires post == "" || post == "]"
    requires Lacks(m, '[') && Lacks(m, ']')
    ensures RemoveAll(RemoveAll(pre + m + post, '['), ']') == m
  {
    var tail := m + post;
    assert pre + m + post == pre + tail;
    RemoveAllAppend(pre, tail, '[');
    assert RemoveAll(pre, '[') == [] by {
      if pre == "[" {
        assert pre[1..] == [];
      }
    }
    assert RemoveAll(tail, '[') == tail by {
      RemoveAllAppend(m, post, '[');
      RemoveAllAbsent(m, '[');
      RemoveAllAbsent(post, '[');
    }
    assert [] + tail == tail;
    RemoveAllAppend(m, post, ']');
    RemoveAllAbsent(m, ']');
    assert RemoveAll(post, ']') == [] by {
      if post == "]" {
        assert post[1..] == [];
      }
    }
    assert m + [] == m;
  }

  /** Two comma-free fields joined by a comma split back into those two. */
  lemma SplitFields(a: string, b: string)
    requires Lacks(a, ',') && Lacks(b, ',') && b != []
    ensures Split(a + "," + b, ",") == [a, b]
  {
    assert Join([a, b], ",") == a + "," + b by {
      assert [a, b][1..] == [b];
    }
    FindAbsent(b, ",");
    SplitPiecesJoin([a, b], ",");
    DropTrailingEmptyKeeps([a, b]);
  }

  /** A piece `a,b`, possibly with the outer list's bracket at either end,
      reads as the vertex whose coordinates `a` and `b` print after trimming:
      blanks around each number are tolerated. */
  lemma PieceTolerance(pre: string, a: string, b: string, post: string, p: Point)
    requires pre == "" || pre == "["
    requires post == "" || post == "]"
    requires Plain(a) && Plain(b)
    requires Trim(a) == IntToString(p.x) && Trim(b) == IntToString(p.y)
    ensures PointOfPiece(pre + (a + "," + b) + post) == Ok(p)
  {
    var m := a + "," + b;
    assert Lacks(m, '[') && Lacks(m, ']') by {
      forall k | 0 <= k < |m|
        ensures m[k] != '[' && m[k] != ']'
      {
        if k < |a| {
          assert m[k] == a[k];
        } else if k > |a| {
          assert m[k] == b[k - |a| - 1];
        }
      }
    }
    StripBrackets(pre, m, post);
    PrintedPlain(p.x);
    PrintedPlain(p.y);
    assert b != [] by {
      assert |Trim(b)| <= |b|;
    }
    SplitFields(a, b);
    ParseIntRoundTrip(p.x);
    ParseIntRoundTrip(p.y);
  }

  /** The two printed coordinates of a vertex, as the decoder sees them once
      the `],[` separators are gone. */
  function PairText(p: Point): string {
    IntToString(p.x) + "," + IntToString(p.y)
  }

  function PairTexts(c: seq<Point>): (r: seq<string>)
    ensures |r| == |c|
    ensures forall i :: 0 <= i < |c| ==> r[i] == PairText(c[i])
  {
    seq(|c|, i requires 0 <= i < |c| => PairText(c[i]))
  }

  /** The encoder's inner text is the pairs joined by `],[`, bracketed. */
  lemma {:induction false} JoinedTexts(c: seq<Point>)
    requires |c| >= 1
    ensures Join(PointTexts(c), ",") == "[" + Join(PairTexts(c), "],[") + "]"
    decreases |c|
  {
    if |c| > 1 {
      JoinedTexts(c[1..]);
      assert PointTexts(c)[1..] == PointTexts(c[1..]);
      assert PairTexts(c)[1..] == PairTexts(c[1..]);
      var rest := Join(PairTexts(c[1..]), "],[");
      var x, y := IntToString(c[0].x), IntToString(c[0].y);
      calc {
        Join(PointTexts(c), ",");
        PointText(c[0]) + "," + Join(PointTexts(c[1..]), ",");
        ("[" + x + "," + y + "]") + "," + ("[" + rest + "]");
        { Regroup(x, y, rest); }
        "[" + ((x + "," + y) + "],[" + rest) + "]";
        "[" + Join(PairTexts(c), "],[") + "]";
      }
    }
  }

  lemma Regroup(x: string, y: string, rest: string)
    ensures ("[" + x + "," + y + "]") + "," + ("[" + rest + "]") == "[" + ((x + "," + y) + "],[" + rest) + "]"
  {
    var l := ("[" + x + "," + y + "]") + "," + ("[" + rest + "]");
    var r := "[" + ((x + "," + y) + "],[" + rest) + "]";
    assert |l| == |r|;
    forall k | 0 <= k < |l|
      ensures l[k] == r[k]
    {
    }
  }

  /** The pieces the decoder cuts an encoded list into: the pairs, the first
      still carrying the list's opening bracket and the last its closing one. */
  function EncodedPieces(c: seq<Point>): (r: seq<string>)
    requires |c| >= 1
    ensures |r| == |c|
  {
    Bracketing(PairTexts(c))
  }

  /** Texts with a `[` put before the first and a `]` after the last. */
  function Bracketing(ts: seq<string>): (r: seq<string>)
    requires |ts| >= 1
    ensures |r| == |ts|
  {
    var ps := ts[0 := "[" + ts[0]];
    ps[|ts| - 1 := ps[|ts| - 1] + "]"]
  }

  lemma EncodedPieceShape(c: seq<Point>, i: nat)
    requires i < |c|
    ensures EncodedPieces(c)[i] == Opening(i) + PairText(c[i]) + Closing(i, |c|)
  {
    BracketingAt(PairTexts(c), i);
  }

  lemma BracketingAt(ts: seq<string>, i: nat)
    requires i < |ts|
    ensures Bracketing(ts)[i] == Opening(i) + ts[i] + Closing(i, |ts|)
  {
    var q := ts[i];
    var ps := ts[0 := "[" + ts[0]];
    var head := Opening(i) + q;
    if i == 0 {
      assert ps[i] == head;
    } else {
      assert ps[i] == q;
      EmptyEnds(q);
    }
    var r := Bracketing(ts);
    if i == |ts| - 1 {
      assert r[i] == ps[i] + "]";
    } else {
      assert r[i] == ps[i];
      EmptyEnds(ps[i]);
    }
  }

  lemma EmptyEnds(q: string)
    ensures "" + q == q && q + "" == q
  {
  }

  /** The opening bracket of the whole list, which stays on the first piece. */
  function Opening(i: nat): string {
    if i == 0 then "[" else ""
  }

  /** The closing bracket of the whole list, which stays on the last piece. */
  function Closing(i: nat, n: nat): string {
    if i == n - 1 then "]" else ""
  }

  lemma EncodedPiecesSplit(c: seq<Point>)
    requires |c| >= 1
    ensures Pieces(CoordinatesText(c)) == EncodedPieces(c)
  {
    var ps := EncodedPieces(c);
    InnerText(c);
    forall i | 0 <= i < |ps|
      ensures forall k :: 0 <= k < |ps[i]| - |Closing(i, |c|)| ==> ps[i][k] != ']'
    {
      EncodedPieceShape(c, i);
      PairPlain(c[i]);
      WrappedLacks(Opening(i), PairText(c[i]), Closing(i, |c|));
    }
    assert forall i :: 0 <= i < |ps| - 1 ==> Lacks(ps[i], ']');
    FindAbsent(ps[|ps| - 1], "],[");
    SplitPiecesJoin(ps, "],[");
    if |ps| > 1 {
      EncodedPieceShape(c, |c| - 1);
      DropTrailingEmptyKeeps(ps);
    }
  }

  /** What lies between the encoder's outer brackets is the pieces joined by `],[`. */
  lemma InnerText(c: seq<Point>)
    requires |c| >= 1
    ensures var json := CoordinatesText(c); json[1..|json| - 1] == Join(EncodedPieces(c), "],[")
  {
    var json := CoordinatesText(c);
    var pairs := PairTexts(c);
    JoinedTexts(c);
    JoinPrefix("[", pairs, "],[");
    JoinSuffix(pairs[0 := "[" + pairs[0]], "]", "],[");
    assert json[1..|json| - 1] == Join(PointTexts(c), ",");
  }

  lemma PairPlain(p: Point)
    ensures Lacks(PairText(p), ']')
  {
    PrintedPlain(p.x);
    PrintedPlain(p.y);
    var x, y := IntToString(p.x), IntToString(p.y);
    forall k | 0 <= k < |PairText(p)|
      ensures PairText(p)[k] != ']'
    {
      if k < |x| {
        assert PairText(p)[k] == x[k];
      } else if k > |x| {
        assert PairText(p)[k] == y[k - |x| - 1];
      }
    }
  }

  /** Before the optional closing bracket, a bracketed piece holds no `]`. */
  lemma WrappedLacks(pre: string, q: string, post: string)
    requires pre == "" || pre == "["
    requires Lacks(q, ']')
    ensures forall k :: 0 <= k < |pre + q + post| - |post| ==> (pre + q + post)[k] != ']'
  {
    forall k | 0 <= k < |pre + q|
      ensures (pre + q + post)[k] != ']'
    {
      if k >= |pre| {
        assert (pre + q + post)[k] == q[k - |pre|];
      }
    }
  }

  /** Decoding what the encoder wrote gives the vertices back, negative
      coordinates included, for every non-empty list. */
  lemma CoordinatesRoundTrip(c: seq<Point>)
    requires |c| >= 1
    ensures CoordinatesOfText(CoordinatesText(c)) == Ok(c)
  {
    var json := CoordinatesText(c);
    TrimOfTrimmed(json);
    EncodedPiecesSplit(c);
    var ps := EncodedPieces(c);
    forall i | 0 <= i < |ps|
      ensures PointOfPiece(ps[i]) == Ok(c[i])
    {
      EncodedPieceShape(c, i);
      PrintedPlain(c[i].x);
      PrintedPlain(c[i].y);
      PieceTolerance(Opening(i), IntToString(c[i].x), IntToString(c[i].y), Closing(i, |c|), c[i]);
    }
    PiecesRead(ps, c);
  }

  /** The empty list is written as `[]`, which does not read back: the one
      empty piece fails to parse as an `int`. */
  lemma EmptyListFails()
    ensures CoordinatesText([]) == "[]"
    ensures CoordinatesOfText("[]") == Err(NumberFormat(""))
  {
    TrimOfTrimmed("[]");
    assert "[]"[1..1] == "";
    assert Find("", "],[", 0) == -1;
    assert Pieces("[]") == [""];
    assert Find("", ",", 0) == -1;
    assert Split(RemoveAll(RemoveAll("", '['), ']'), ",") == [""];
    assert Trim("") == "";
  }

  /** Yet `[],[]` reads back as the empty list: its inner text `],[` splits
      into two empty strings, and `split` drops both. */
  lemma EmptyPiecesDropped()
    ensures CoordinatesOfText("[],[]") == Ok([])
  {
    TrimOfTrimmed("[],[]");
    var inner := "[],[]"[1..4];
    assert inner == "],[" + "";
    assert Find(inner, "],[", 0) == 0;
    assert Find("", "],[", 0) == -1;
    assert SplitPieces(inner, "],[") == ["", ""];
    assert Pieces("[],[]") == [];
  }

  /** `split` drops trailing empty strings, so a one-vertex list followed by
      an empty vertex, `[[x,y],[]`, still reads, as that one vertex: the
      vertex count is not always the separator count plus one. */
  lemma TrailingEmptyPieceDropped(p: Point)
    ensures CoordinatesOfText("[" + PointText(p) + ",[]") == Ok([p])
  {
    var t := "[" + PointText(p) + ",[]";
    var piece := "[" + PairText(p);
    assert Trim(t) == t by {
      TrimOfTrimmed(t);
    }
    assert Bracketed(t) && Pieces(t) == [piece] by {
      TrailingPieces(p);
    }
    assert PointOfPiece(piece) == Ok(p) by {
      PrintedPlain(p.x);
      PrintedPlain(p.y);
      EmptyEnds(piece);
      PieceTolerance("[", IntToString(p.x), IntToString(p.y), "", p);
    }
    PiecesRead([piece], [p]);
  }

  lemma TrailingPieces(p: Point)
    ensures var t := "[" + PointText(p) + ",[]";
            Bracketed(t) && Pieces(t) == ["[" + PairText(p)]
  {
    var t := "[" + PointText(p) + ",[]";
    var piece := "[" + PairText(p);
    var inner := t[1..|t| - 1];
    assert inner == piece + "],[" + "" by {
      PointTextAsPair(p);
      TrailingInner(PairText(p));
    }
    assert Lacks(piece, ']') by {
      PairPlain(p);
      WrappedLacks("[", PairText(p), "");
      EmptyEnds(piece);
    }
    FindAfterPrefix(piece, "],[", "");
    assert inner[..|piece|] == piece && inner[|piece| + 3..] == "";
    assert SplitPieces(inner, "],[") == [piece, ""];
    assert DropTrailingEmpty([piece, ""]) == [piece] by {
      assert [piece, ""][..1] == [piece];
      DropTrailingEmptyKeeps([piece]);
    }
  }

  lemma PointTextAsPair(p: Point)
    ensures PointText(p) == "[" + PairText(p) + "]"
  {
    AppendFive("", "[", IntToString(p.x), ",", IntToString(p.y), "]");
    EmptyEnds("[" + IntToString(p.x) + "," + IntToString(p.y) + "]");
  }

  lemma TrailingInner(q: string)
    ensures var t := "[" + ("[" + q + "]") + ",[]";
            t[1..|t| - 1] == ("[" + q) + "],[" + ""
  {
  }

  /** Text with no outer brackets after trimming is refused before anything
      is parsed. */
  lemma UnbracketedRefused(json: string)
    requires Trim(json) == [] || Trim(json)[0] != '[' || Trim(json)[|Trim(json)| - 1] != ']'
    ensures CoordinatesOfText(json) == Err(IllegalArgument(MalformedCoordinates))
  {
  }

  // ----------------------------------------------------------------- colours

  /** `Color.decode(s).getRGB()` for a colour that passed validation: the
      24-bit value under an opaque alpha byte, which as an `int` is negative. */
  function DecodedRgb(s: string): (rgb: Int32)
    requires IsColor(s)
    ensures rgb < 0 && rgb % 0x100_0000 == HexDigitsValue(s[1..])
  {
    var v := HexDigitsValue(s[1..]);
    HexDigitsValueBound(s[1..]);
    SixHexDigits();
    Wrap(0xFF00_0000 + v)
  }

  /** `String.format("#%06X", 0xFFFFFF & rgb)`: `colorToHex`, and the two
      colour columns of the desktop store. The mask keeps the low 24 bits of
      the two's-complement `int`, which is its Euclidean remainder by 2^24. */
  function ColorToHex(rgb: Int32): (r: string)
    ensures IsColor(r)
    ensures HexDigitsValue(r[1..]) == rgb % 0x100_0000
  {
    var v := rgb % 0x100_0000;
    var r := "#" + HexDigits(v, 6);
    assert r[1..] == HexDigits(v, 6);
    HexDigitsValueOf(v, 6);
    SixHexDigits();
    ModOfSmall(v, 0x100_0000);
    r
  }

  /** Six hexadecimal digits span 24 bits. */
  lemma SixHexDigits()
    ensures Pow16(6) == 0x100_0000
  {
    assert Pow16(2) == 0x100;
    assert Pow16(4) == 0x1_0000 by {
      assert Pow16(3) == 0x1000;
    }
    assert Pow16(6) == 0x100_0000 by {
      assert Pow16(5) == 0x10_0000;
    }
  }

  lemma ModOfSmall(v: int, m: int)
    requires 0 <= v < m
    ensures v % m == v
  {
  }

  /** A stored colour is the validated input with its hex digits in upper case. */
  lemma StoredColor(s: string)
    requires IsColor(s)
    ensures ColorToHex(DecodedRgb(s)) == "#" + UpperHex(s[1..])
  {
    var t := ColorToHex(DecodedRgb(s));
    HexDigitsOfValue(s[1..]);
    assert t[1..] == HexDigits(HexDigitsValue(s[1..]), 6);
  }

  /** Reading a written colour back keeps its low 24 bits: only the alpha
      byte, which the written form does not carry, can change. */
  lemma ColorRoundTrip(rgb: Int32)
    ensures DecodedRgb(ColorToHex(rgb)) % 0x100_0000 == rgb % 0x100_0000
  {
  }

  // ------------------------------------------------------ a stored figure

  /** One row of the `figures` table. */
  datatype Row = Row(name: string, coordinates: string, lineColor: string, fillColor: string, opacity: real)

  /** The row the desktop store writes for a figure. */
  function RowOf(f: Figure): (r: Row)
    requires IsColor(f.lineColor) && IsColor(f.fillColor)
    ensures IsColor(r.lineColor) && IsColor(r.fillColor)
  {
    Row(f.name, CoordinatesText(f.coordinates),
        ColorToHex(DecodedRgb(f.lineColor)), ColorToHex(DecodedRgb(f.fillColor)), f.opacity)
  }

  /** The figure the desktop store rebuilds from a row, through the constructor. */
  function FigureOfRow(row: Row, sqrt: real -> real): (r: Result<Figure>)
    ensures CoordinatesOfText(row.coordinates).Err? ==> r == Err(CoordinatesOfText(row.coordinates).error)
    ensures r.Ok? ==>
              && WellFormed(r.value, sqrt)
              && r.value.coordinates == CoordinatesOfText(row.coordinates).value
              && r.value.name == DisplayName(Some(row.name))
              && r.value.lineColor == row.lineColor && r.value.fillColor == row.fillColor
              && r.value.opacity == row.opacity
  {
    var coordinates :- CoordinatesOfText(row.coordinates);
    var lineColor, fillColor := Some(row.lineColor), Some(row.fillColor);
    var r := StyledFigure(coordinates, Some(row.name), lineColor, fillColor, row.opacity, sqrt);
    if r.Ok? then
      StyledFigureWellFormed(coordinates, Some(row.name), lineColor, fillColor, row.opacity, sqrt);
      r
    else r
  }

  /** A figure the constructor accepted reads back from its row as the same
      figure with the same sides, except that its colours are now written with
      upper-case digits. */
  lemma StoredFigureReloads(f: Figure, sqrt: real -> real)
    requires WellFormed(f, sqrt)
    ensures FigureOfRow(RowOf(f), sqrt).Ok?
    ensures var g := FigureOfRow(RowOf(f), sqrt).value;
            && g.coordinates == f.coordinates && g.name == f.name && g.opacity == f.opacity
            && g.lineColor == "#" + UpperHex(f.lineColor[1..])
            && g.fillColor == "#" + UpperHex(f.fillColor[1..])
            && g.shape.sides == f.shape.sides
  {
    var row := RowOf(f);
    assert CoordinatesOfText(row.coordinates) == Ok(f.coordinates) by {
      CoordinatesRoundTrip(f.coordinates);
    }
    assert row.lineColor == "#" + UpperHex(f.lineColor[1..]) by {
      StoredColor(f.lineColor);
    }
    assert row.fillColor == "#" + UpperHex(f.fillColor[1..]) by {
      StoredColor(f.fillColor);
    }
    assert FigureOfRow(row, sqrt)
        == StyledFigure(f.coordinates, Some(f.name), Some(row.lineColor), Some(row.fillColor), f.opacity, sqrt);
    assert DisplayName(Some(f.name)) == f.name;
  }
}
