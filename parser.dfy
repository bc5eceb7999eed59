/**
  The figure file loader. The input is the file's lines (reading the file is
  not modelled). A two-state scanner collects the trimmed, non-empty lines
  that follow each `--- FIGURE ---` delimiter into blocks; each block becomes
  a key/value map split at the first colon, and the map becomes a styled
  polygon. A block whose `class` is not `ColoredPolygon` is skipped; every
  other defect aborts the whole load with the first error met.

  The specification is stated in three layers: `Blocks` (the scanner),
  `BlockFigure` (one block), and `Load` (all of them, in block order). The
  methods `ParseFigureBlock` and `LoadFiguresFromFile` do what the source
  does, step by step, and are proved to agree with them.
 */
module FigureParser {
  import opened Lang
  import opened Text
  import opened Geometry
  import opened Styled

  const Delimiter: string := "--- FIGURE ---"
  const SupportedClass: string := "ColoredPolygon"

  /* ---------------------------------------------------------------- scanner */

  /** The loop variables of `loadFiguresFromFile`, plus the blocks it has
      closed so far. */
  datatype ScanState = ScanState(inBlock: bool, current: seq<string>, closed: seq<seq<string>>)

  const Start := ScanState(false, [], [])

  /** One line of the scan: a delimiter (after trimming) closes the open
      block when it has lines and opens a new one; inside a block a non-empty
      trimmed line is kept; anything before the first delimiter is ignored. */
  function Step(st: ScanState, raw: string): ScanState {
    var line := Trim(raw);
    if line == Delimiter then
      ScanState(true, [], if st.inBlock && st.current != [] then st.closed + [st.current] else st.closed)
    else if st.inBlock && line != [] then
      st.(current := st.current + [line])
    else st
  }

  /** The scan over `lines` from state `st`, left to right. */
  function Run(st: ScanState, lines: seq<string>): ScanState
    decreases |lines|
  {
    if |lines| == 0 then st else Run(Step(st, lines[0]), lines[1..])
  }

  /** The blocks the loader parses: those closed by delimiters, then the one
      still open at the end of input if it has lines. */
  function Blocks(lines: seq<string>): seq<seq<string>> {
    FinalBlocks(Run(Start, lines))
  }

  lemma {:induction false} RunAppend(st: ScanState, a: seq<string>, b: seq<string>)
    ensures Run(st, a + b) == Run(Run(st, a), b)
    decreases |a|
  {
    if |a| > 0 {
      RunAppend(Step(st, a[0]), a[1..], b);
      assert (a + b)[0] == a[0];
      assert (a + b)[1..] == a[1..] + b;
    } else {
      assert a + b == b;
    }
  }

  lemma RunSnoc(lines: seq<string>, i: nat)
    requires i < |lines|
    ensures Run(Start, lines[..i + 1]) == Step(Run(Start, lines[..i]), lines[i])
  {
    RunAppend(Start, lines[..i], [lines[i]]);
    assert lines[..i + 1] == lines[..i] + [lines[i]];
  }

  /** Lines before the first delimiter are ignored. */
  lemma {:induction false} LeadingLinesIgnored(pre: seq<string>, rest: seq<string>)
    requires forall k :: 0 <= k < |pre| ==> Trim(pre[k]) != Delimiter
    ensures Blocks(pre + rest) == Blocks(rest)
  {
    RunOutsideBlock(pre);
    RunAppend(Start, pre, rest);
  }

  lemma {:induction false} RunOutsideBlock(pre: seq<string>)
    requires forall k :: 0 <= k < |pre| ==> Trim(pre[k]) != Delimiter
    ensures Run(Start, pre) == Start
    decreases |pre|
  {
    if |pre| > 0 {
      RunOutsideBlock(pre[1..]);
    }
  }

  /** A delimiter at the end of input flushes the open block exactly as the end
      of input does: the block is parsed once either way. */
  lemma TrailingDelimiter(lines: seq<string>)
    ensures Blocks(lines + [Delimiter]) == Blocks(lines)
  {
    RunAppend(Start, lines, [Delimiter]);
    TrimOfTrimmed(Delimiter);
  }

  /** The blocks only grow during the scan: what is closed after a prefix of
      the lines is a prefix of the final list of blocks. */
  lemma {:induction false} ClosedIsPrefix(st: ScanState, lines: seq<string>)
    ensures st.closed <= Run(st, lines).closed
    ensures st.closed <= FinalBlocks(Run(st, lines))
    decreases |lines|
  {
    if |lines| > 0 {
      ClosedIsPrefix(Step(st, lines[0]), lines[1..]);
    }
  }

  function FinalBlocks(st: ScanState): seq<seq<string>> {
    if st.inBlock && st.current != [] then st.closed + [st.current] else st.closed
  }

  /** What a scan state keeps: every line collected is trimmed, non-empty and
      not a delimiter, and only open blocks collect lines. */
  ghost predicate Tidy(st: ScanState) {
    && (!st.inBlock ==> st.current == [])
    && GoodBlock(st.current, true)
    && forall b :: b in st.closed ==> GoodBlock(b, false)
  }

  ghost predicate GoodBlock(b: seq<string>, mayBeEmpty: bool) {
    && (mayBeEmpty || b != [])
    && forall k :: 0 <= k < |b| ==> b[k] != [] && Trim(b[k]) == b[k] && b[k] != Delimiter
  }

  lemma {:induction false} RunTidy(st: ScanState, lines: seq<string>)
    requires Tidy(st)
    ensures Tidy(Run(st, lines))
    decreases |lines|
  {
    if |lines| > 0 {
      var line := Trim(lines[0]);
      TrimIdempotent(lines[0]);
      RunTidy(Step(st, lines[0]), lines[1..]);
    }
  }

  /** Every block handed to the block parser is non-empty and made of trimmed,
      non-empty lines, none of them a delimiter. */
  lemma BlocksWellFormed(lines: seq<string>)
    ensures forall b :: b in Blocks(lines) ==> GoodBlock(b, false)
  {
    RunTidy(Start, lines);
  }

  /* ------------------------------------------------------------ one block */

  /** A line's key and value, split at the first colon; no colon, or a colon
      in first position, gives nothing. */
  function KeyValue(line: string): (r: Option<(string, string)>)
    ensures r.Some? <==> 0 < IndexOf(line, ':')
    ensures r.Some? ==> var c := IndexOf(line, ':');
                        r.value == (Trim(line[..c]), Trim(line[c + 1..])) && ':' !in line[..c]
  {
    var colon := IndexOf(line, ':');
    if colon > 0 then Some((Trim(line[..colon]), Trim(line[colon + 1..]))) else None
  }

  /** The `props` map after the loop over a block: each key/value line put in
      order, so a later line overwrites an earlier one with the same key. */
  function Props(block: seq<string>): map<string, string>
    decreases |block|
  {
    if |block| == 0 then map[]
    else
      var m := Props(block[..|block| - 1]);
      match KeyValue(block[|block| - 1])
      case Some(kv) => m[kv.0 := kv.1]
      case None => m
  }

  predicate HasKey(line: string, key: string) {
    KeyValue(line).Some? && KeyValue(line).value.0 == key
  }

  /** A key is in the map exactly when some line of the block carries it. */
  lemma {:induction false} PropsHasKey(block: seq<string>, key: string)
    ensures key in Props(block) <==> exists k :: 0 <= k < |block| && HasKey(block[k], key)
    decreases |block|
  {
    if |block| > 0 {
      var init := block[..|block| - 1];
      PropsHasKey(init, key);
      if key in Props(init) {
        var k :| 0 <= k < |init| && HasKey(init[k], key);
        assert block[k] == init[k];
      }
      if exists k :: 0 <= k < |block| && HasKey(block[k], key) {
        var k :| 0 <= k < |block| && HasKey(block[k], key);
        if k < |block| - 1 {
          assert init[k] == block[k];
        }
      }
    }
  }

  /** A repeated key keeps the value of its last line. */
  lemma {:induction false} PropsLastValue(block: seq<string>, key: string, k: nat)
    requires k < |block| && HasKey(block[k], key)
    requires forall j :: k < j < |block| ==> !HasKey(block[j], key)
    ensures key in Props(block) && Props(block)[key] == KeyValue(block[k]).value.1
    decreases |block|
  {
    if k < |block| - 1 {
      var init := block[..|block| - 1];
      assert init[k] == block[k];
      assert !HasKey(block[|block| - 1], key);
      PropsLastValue(init, key, k);
    }
  }

  function Lookup(props: map<string, string>, key: string): Option<string> {
    if key in props then Some(props[key]) else None
  }

  /** The character class `\s` of `java.util.regex`. */
  predicate IsRegexSpace(c: char) {
    c == ' ' || c == '\t' || c == '\n' || c == '\U{B}' || c == '\U{C}' || c == '\r'
  }

  /** The end of the longest run of decimal digits starting at `i`. */
  function DigitRunEnd(s: string, i: nat): (e: nat)
    requires i <= |s|
    ensures i <= e <= |s| && AllDigits(s[i..e])
    ensures e < |s| ==> !IsDigit(s[e])
    decreases |s| - i
  {
    if i < |s| && IsDigit(s[i]) then
      var e := DigitRunEnd(s, i + 1);
      assert s[i..e] == [s[i]] + s[i + 1..e];
      e
    else i
  }

  /** The end of the longest run of `\s` characters starting at `i`. */
  function SpaceRunEnd(s: string, i: nat): (e: nat)
    requires i <= |s|
    ensures i <= e <= |s|
    ensures forall k :: i <= k < e ==> IsRegexSpace(s[k])
    ensures e < |s| ==> !IsRegexSpace(s[e])
    decreases |s| - i
  {
    if i < |s| && IsRegexSpace(s[i]) then SpaceRunEnd(s, i + 1) else i
  }

  /** One match of `\((\d+),\s*(\d+)\)`: the two digit groups and where the
      match ends. */
  datatype VertexMatch = VertexMatch(x: string, y: string, end: nat)

  /** The match starting exactly at `i`, if there is one. Greedy runs lose
      nothing here: a digit is never a comma or a parenthesis, and a space is
      never a digit. */
  function MatchAt(s: string, i: nat): (r: Option<VertexMatch>)
    requires i <= |s|
    ensures r.Some? ==> i < r.value.end <= |s|
    ensures r.Some? ==> |r.value.x| > 0 && AllDigits(r.value.x) && |r.value.y| > 0 && AllDigits(r.value.y)
  {
    if i < |s| && s[i] == '(' then
      var a := DigitRunEnd(s, i + 1);
      if a == i + 1 || a == |s| || s[a] != ',' then None
      else
        var b := SpaceRunEnd(s, a + 1);
        var c := DigitRunEnd(s, b);
        if c == b || c == |s| || s[c] != ')' then None
        else Some(VertexMatch(s[i + 1..a], s[b..c], c + 1))
    else None
  }

  /** A run of digits ended by a non-digit is the greedy run. */
  lemma {:induction false} DigitRunEndIs(s: string, i: nat, e: nat)
    requires i <= e < |s| && AllDigits(s[i..e]) && !IsDigit(s[e])
    ensures DigitRunEnd(s, i) == e
    decreases e - i
  {
    if i < e {
      assert IsDigit(s[i..e][0]);
      assert s[i + 1..e] == s[i..e][1..];
      DigitRunEndIs(s, i + 1, e);
    }
  }

  /** A run of `\s` characters ended by another character is the greedy run. */
  lemma {:induction false} SpaceRunEndIs(s: string, i: nat, e: nat)
    requires i <= e < |s| && !IsRegexSpace(s[e])
    requires forall k :: i <= k < e ==> IsRegexSpace(s[k])
    ensures SpaceRunEnd(s, i) == e
    decreases e - i
  {
    if i < e {
      SpaceRunEndIs(s, i + 1, e);
    }
  }

  /** Whenever `\((\d+),\s*(\d+)\)` occurs at `i`, with its groups at
      `i + 1..a` and `b..c`, the matcher finds it there with exactly those
      groups. */
  lemma MatchAtComplete(s: string, i: nat, a: nat, b: nat, c: nat)
    requires i + 1 < a < b < c < |s|
    requires s[i] == '(' && s[a] == ',' && s[c] == ')'
    requires AllDigits(s[i + 1..a]) && AllDigits(s[b..c])
    requires forall k :: a + 1 <= k < b ==> IsRegexSpace(s[k])
    ensures MatchAt(s, i) == Some(VertexMatch(s[i + 1..a], s[b..c], c + 1))
  {
    DigitRunEndIs(s, i + 1, a);
    assert IsDigit(s[b..c][0]);
    SpaceRunEndIs(s, a + 1, b);
    DigitRunEndIs(s, b, c);
  }

  /** And every match the matcher reports is such an occurrence. */
  lemma MatchAtSound(s: string, i: nat)
    requires i <= |s| && MatchAt(s, i).Some?
    ensures var m := MatchAt(s, i).value;
            var a := i + 1 + |m.x|;
            var c := m.end - 1;
            var b := c - |m.y|;
            && i + 1 < a < b < c < |s|
            && s[i] == '(' && s[a] == ',' && s[c] == ')'
            && s[i + 1..a] == m.x && s[b..c] == m.y
            && forall k :: a + 1 <= k < b ==> IsRegexSpace(s[k])
  {
  }

  /** `while (m.find())`: the matches left to right, each search resuming
      where the previous match ended, and one character further on a miss. */
  function Matches(s: string, from: nat): seq<VertexMatch>
    requires from <= |s|
    decreases |s| - from
  {
    if from == |s| then []
    else
      match MatchAt(s, from)
      case Some(m) => [m] + Matches(s, m.end)
      case None => Matches(s, from + 1)
  }

  /** The vertex list, x before y and match by match, or the first failure. */
  function ParseVertices(ms: seq<VertexMatch>): (r: Result<seq<Point>>)
    ensures r.Ok? ==> |r.value| == |ms|
    ensures r.Ok? <==> forall k :: 0 <= k < |ms| ==> ParseInt(ms[k].x).Some? && ParseInt(ms[k].y).Some?
    ensures r.Ok? ==> forall k :: 0 <= k < |ms| ==>
                        r.value[k] == Point(ParseInt(ms[k].x).value, ParseInt(ms[k].y).value)
    decreases |ms|
  {
    if |ms| == 0 then Ok([])
    else
      var x :- ParseInteger(ms[0].x);
      var y :- ParseInteger(ms[0].y);
      var rest :- ParseVertices(ms[1..]);
      assert forall k :: 1 <= k < |ms| ==> ms[1..][k - 1] == ms[k];
      Ok([Point(x, y)] + rest)
  }

  /** The opacity: 1.0 when absent; otherwise `parseDouble` of the trimmed
      text, where an unparseable text becomes an `InvalidPolygonException`. */
  function ParseOpacity(text: Option<string>, parseDouble: string -> Option<real>): (r: Result<real>)
    ensures text.None? ==> r == Ok(1.0)
    ensures text.Some? ==> (r.Ok? <==> parseDouble(Trim(text.value)).Some?)
    ensures text.Some? && r.Ok? ==> r.value == parseDouble(Trim(text.value)).value
    ensures r.Err? ==> r.error == InvalidPolygon(MalformedOpacity(text.value))
  {
    match text
    case None => Ok(1.0)
    case Some(t) =>
      match parseDouble(Trim(t))
      case Some(v) => Ok(v)
      case None => Err(InvalidPolygon(MalformedOpacity(t)))
  }

  /** `props.getOrDefault("name", ...)`. */
  function NameOf(props: map<string, string>): string {
    if "name" in props then props["name"] else DefaultName
  }

  /** What a block of the supported class makes of its properties: the
      coordinates are checked first (missing, then unparseable, then fewer
      than three), then the opacity, then the constructor's own checks. */
  function PropsFigure(props: map<string, string>, sqrt: real -> real, parseDouble: string -> Option<real>)
    : (r: Result<Figure>)
    ensures "coordinates" !in props ==> r == Err(InvalidPolygon(MissingCoordinates))
    ensures r.Ok? ==> && "coordinates" in props
                      && ParseVertices(Matches(props["coordinates"], 0)) == Ok(r.value.coordinates)
                      && |r.value.coordinates| >= 3
    ensures r.Ok? ==> && Lookup(props, "lineColor") == Some(r.value.lineColor)
                      && Lookup(props, "fillColor") == Some(r.value.fillColor)
                      && ParseOpacity(Lookup(props, "opacity"), parseDouble) == Ok(r.value.opacity)
  {
    if "coordinates" !in props then Err(InvalidPolygon(MissingCoordinates))
    else
      var coordinates :- ParseVertices(Matches(props["coordinates"], 0));
      if |coordinates| < 3 then Err(InvalidPolygon(InsufficientVertices(|coordinates|)))
      else
        var opacity :- ParseOpacity(Lookup(props, "opacity"), parseDouble);
        StyledFigure(coordinates, Some(NameOf(props)), Lookup(props, "lineColor"),
                     Lookup(props, "fillColor"), opacity, sqrt)
  }

  /** The coordinate errors, in the order the source meets them: an
      unparseable group before the vertex count, and a count below three
      reported as the number of matches. */
  lemma CoordinateErrors(props: map<string, string>, sqrt: real -> real, parseDouble: string -> Option<real>)
    requires "coordinates" in props
    ensures var v := ParseVertices(Matches(props["coordinates"], 0));
            && (v.Err? ==> PropsFigure(props, sqrt, parseDouble) == Err(v.error))
            && (v.Ok? && |v.value| < 3 ==>
                  PropsFigure(props, sqrt, parseDouble)
                  == Err(InvalidPolygon(InsufficientVertices(|Matches(props["coordinates"], 0)|))))
  {
  }

  /** Every value in the map is trimmed. */
  lemma {:induction false} PropsTrimmed(block: seq<string>)
    ensures forall key :: key in Props(block) ==> Trim(Props(block)[key]) == Props(block)[key]
    decreases |block|
  {
    if |block| > 0 {
      PropsTrimmed(block[..|block| - 1]);
      var kv := KeyValue(block[|block| - 1]);
      if kv.Some? {
        var c := IndexOf(block[|block| - 1], ':');
        TrimIdempotent(block[|block| - 1][c + 1..]);
      }
    }
  }

  /** The figure's name is the block's `name` value, or the default name when
      the block has none or it is empty. */
  lemma BlockName(block: seq<string>, sqrt: real -> real, parseDouble: string -> Option<real>)
    requires PropsFigure(Props(block), sqrt, parseDouble).Ok?
    ensures var props := Props(block);
            PropsFigure(props, sqrt, parseDouble).value.name
            == if "name" in props && props["name"] != [] then props["name"] else DefaultName
  {
    PropsTrimmed(block);
  }

  /** `parseFigureBlock`: `Ok(None)` for a block of another class (skipped),
      `Ok(Some(f))` for a figure, or the exception that aborts the load. */
  function BlockFigure(block: seq<string>, sqrt: real -> real, parseDouble: string -> Option<real>)
    : (r: Result<Option<Figure>>)
    ensures Lookup(Props(block), "class") != Some(SupportedClass) <==> r == Ok(None)
  {
    var props := Props(block);
    if Lookup(props, "class") != Some(SupportedClass) then Ok(None)
    else
      var figure :- PropsFigure(props, sqrt, parseDouble);
      Ok(Some(figure))
  }

  /** All blocks in order: the figures of the parsed blocks, or the first error. */
  function ParseAll(blocks: seq<seq<string>>, sqrt: real -> real, parseDouble: string -> Option<real>)
    : (r: Result<seq<Figure>>)
    ensures r.Ok? ==> |r.value| <= |blocks|
    decreases |blocks|
  {
    if |blocks| == 0 then Ok([])
    else
      var figures :- ParseAll(blocks[..|blocks| - 1], sqrt, parseDouble);
      var figure :- BlockFigure(blocks[|blocks| - 1], sqrt, parseDouble);
      Ok(if figure.Some? then figures + [figure.value] else figures)
  }

  /** `loadFiguresFromFile`, taking the file's lines. */
  function Load(lines: seq<string>, sqrt: real -> real, parseDouble: string -> Option<real>)
    : Result<seq<Figure>>
  {
    ParseAll(Blocks(lines), sqrt, parseDouble)
  }

  /** The first failing block decides the outcome: later blocks are never
      looked at. */
  lemma {:induction false} ParseAllErrorSticks(
    blocks: seq<seq<string>>, more: seq<seq<string>>, sqrt: real -> real, parseDouble: string -> Option<real>)
    requires ParseAll(blocks, sqrt, parseDouble).Err?
    ensures ParseAll(blocks + more, sqrt, parseDouble) == ParseAll(blocks, sqrt, parseDouble)
    decreases |more|
  {
    if |more| > 0 {
      var all := blocks + more;
      ParseAllErrorSticks(blocks, more[..|more| - 1], sqrt, parseDouble);
      assert all[..|all| - 1] == blocks + more[..|more| - 1];
      ParseAllAfterError(all, sqrt, parseDouble);
    } else {
      assert blocks + more == blocks;
    }
  }

  lemma ParseAllAfterError(blocks: seq<seq<string>>, sqrt: real -> real, parseDouble: string -> Option<real>)
    requires |blocks| > 0 && ParseAll(blocks[..|blocks| - 1], sqrt, parseDouble).Err?
    ensures ParseAll(blocks, sqrt, parseDouble) == ParseAll(blocks[..|blocks| - 1], sqrt, parseDouble)
  {
  }

  /** Skipped blocks of another class leave the result alone. */
  lemma SkippedBlock(
    blocks: seq<seq<string>>, b: seq<string>, sqrt: real -> real, parseDouble: string -> Option<real>)
    requires Lookup(Props(b), "class") != Some(SupportedClass)
    ensures ParseAll(blocks + [b], sqrt, parseDouble) == ParseAll(blocks, sqrt, parseDouble)
  {
    assert (blocks + [b])[..|blocks|] == blocks;
  }

  /** A load that succeeds returns one figure per block of the supported class,
      in block order. */
  lemma {:induction false} ParseAllCount(
    blocks: seq<seq<string>>, sqrt: real -> real, parseDouble: string -> Option<real>)
    requires ParseAll(blocks, sqrt, parseDouble).Ok?
    ensures |ParseAll(blocks, sqrt, parseDouble).value| == SupportedCount(blocks)
    decreases |blocks|
  {
    if |blocks| > 0 {
      ParseAllCount(blocks[..|blocks| - 1], sqrt, parseDouble);
    }
  }

  function SupportedCount(blocks: seq<seq<string>>): nat
    decreases |blocks|
  {
    if |blocks| == 0 then 0
    else
      SupportedCount(blocks[..|blocks| - 1])
      + (if Lookup(Props(blocks[|blocks| - 1]), "class") == Some(SupportedClass) then 1 else 0)
  }

  /* -------------------------------------------------------------- methods */

  /** `parseFigureBlock`: the `props` loop, the class check, then the figure. */
  method ParseFigureBlock(block: seq<string>, sqrt: real -> real, parseDouble: string -> Option<real>)
    returns (r: Result<Option<ColoredPolygon>>)
    ensures r.Ok? <==> BlockFigure(block, sqrt, parseDouble).Ok?
    ensures r.Err? ==> r.error == BlockFigure(block, sqrt, parseDouble).error
    ensures r.Ok? ==> (r.value.Some? <==> BlockFigure(block, sqrt, parseDouble).value.Some?)
    ensures r.Ok? && r.value.Some? ==>
              && fresh(r.value.value) && fresh(r.value.value.coordinates) && r.value.value.Valid()
              && r.value.value.Value() == BlockFigure(block, sqrt, parseDouble).value.value
  {
    var props := CollectProps(block);
    if Lookup(props, "class") != Some(SupportedClass) {
      return Ok(None);
    }
    var figure := FigureFromProps(props, sqrt, parseDouble);
    if figure.Err? {
      return Err(figure.error);
    }
    r := Ok(Some(figure.value));
  }

  /** The `props` loop: each line with a colon past its first character puts
      its trimmed key and value, overwriting an earlier value. */
  method CollectProps(block: seq<string>) returns (props: map<string, string>)
    ensures props == Props(block)
  {
    props := map[];
    for i := 0 to |block|
      invariant props == Props(block[..i])
    {
      var line := block[i];
      var colon := IndexOf(line, ':');
      assert block[..i + 1][..i] == block[..i];
      if colon > 0 {
        var key := Trim(line[..colon]);
        var value := Trim(line[colon + 1..]);
        props := props[key := value];
      }
    }
    assert block[..|block|] == block;
  }

  /** The rest of `parseFigureBlock` for a block of the supported class. */
  method FigureFromProps(props: map<string, string>, sqrt: real -> real, parseDouble: string -> Option<real>)
    returns (r: Result<ColoredPolygon>)
    ensures r.Ok? <==> PropsFigure(props, sqrt, parseDouble).Ok?
    ensures r.Err? ==> r.error == PropsFigure(props, sqrt, parseDouble).error
    ensures r.Ok? ==> && fresh(r.value) && fresh(r.value.coordinates) && r.value.Valid()
                      && r.value.Value() == PropsFigure(props, sqrt, parseDouble).value
  {
    var name := if "name" in props then props["name"] else DefaultName;
    var lineColor := Lookup(props, "lineColor");
    var fillColor := Lookup(props, "fillColor");
    var opacityStr := Lookup(props, "opacity");
    if "coordinates" !in props {
      return Err(InvalidPolygon(MissingCoordinates));
    }
    var coordsStr := props["coordinates"];

    var coordList := MatchVertices(coordsStr);
    if coordList.Err? {
      return Err(coordList.error);
    }
    if |coordList.value| < 3 {
      return Err(InvalidPolygon(InsufficientVertices(|coordList.value|)));
    }
    var coordinates := ToArray(coordList.value);

    var opacity := 1.0;
    if opacityStr.Some? {
      var parsed := parseDouble(Trim(opacityStr.value));
      if parsed.None? {
        return Err(InvalidPolygon(MalformedOpacity(opacityStr.value)));
      }
      opacity := parsed.value;
    }

    r := ColoredPolygon.Create(coordinates, Some(name), lineColor, fillColor, opacity, sqrt);
  }

  /** `coordList.toArray(...)`. */
  method ToArray(s: seq<Point>) returns (a: array<Point>)
    ensures fresh(a) && a[..] == s
  {
    a := new Point[|s|];
    for i := 0 to |s|
      invariant a[..i] == s[..i]
    {
      a[i] := s[i];
      assert a[..i + 1] == a[..i] + [a[i]];
      assert s[..i + 1] == s[..i] + [s[i]];
    }
    assert a[..] == a[..|s|];
  }

  /** The matcher loop: find the next match, parse its groups, append. */
  method MatchVertices(text: string) returns (r: Result<seq<Point>>)
    ensures r == ParseVertices(Matches(text, 0))
  {
    var coordList: seq<Point> := [];
    var pos := 0;
    PrependNothing(ParseVertices(Matches(text, 0)));
    while pos < |text|
      invariant 0 <= pos <= |text|
      invariant ParseVertices(Matches(text, 0)) == Prepend(coordList, ParseVertices(Matches(text, pos)))
      decreases |text| - pos
    {
      var m := MatchAt(text, pos);
      AdvanceMatch(text, pos, coordList);
      if m.Some? {
        var x := ParseInteger(m.value.x);
        if x.Err? {
          return Err(x.error);
        }
        var y := ParseInteger(m.value.y);
        if y.Err? {
          return Err(y.error);
        }
        coordList := coordList + [Point(x.value, y.value)];
        pos := m.value.end;
      } else {
        pos := pos + 1;
      }
    }
    assert Matches(text, pos) == [];
    assert coordList + [] == coordList;
    r := Ok(coordList);
  }

  /** One turn of the matcher's loop, told against the whole text: what has
      been collected before `pos`, in front of the rest, is what the whole text
      gives; a group that does not parse is the whole text's error. */
  lemma AdvanceMatch(text: string, pos: nat, done: seq<Point>)
    requires pos < |text|
    requires ParseVertices(Matches(text, 0)) == Prepend(done, ParseVertices(Matches(text, pos)))
    ensures MatchAt(text, pos).None? ==>
              ParseVertices(Matches(text, 0)) == Prepend(done, ParseVertices(Matches(text, pos + 1)))
    ensures MatchAt(text, pos).Some? ==>
              var m := MatchAt(text, pos).value;
              && (ParseInteger(m.x).Err? ==> ParseVertices(Matches(text, 0)) == Err(ParseInteger(m.x).error))
              && (ParseInteger(m.x).Ok? && ParseInteger(m.y).Err? ==>
                    ParseVertices(Matches(text, 0)) == Err(ParseInteger(m.y).error))
              && (ParseInteger(m.x).Ok? && ParseInteger(m.y).Ok? ==>
                    ParseVertices(Matches(text, 0))
                    == Prepend(done + [Point(ParseInteger(m.x).value, ParseInteger(m.y).value)],
                               ParseVertices(Matches(text, m.end))))
  {
    MatchStep(text, pos);
    var m := MatchAt(text, pos);
    if m.Some? && ParseInteger(m.value.x).Ok? && ParseInteger(m.value.y).Ok? {
      var p := Point(ParseInteger(m.value.x).value, ParseInteger(m.value.y).value);
      PrependStep(done, p, ParseVertices(Matches(text, m.value.end)));
    }
  }

  /** The vertices found so far, put in front of what the rest of the text gives. */
  function Prepend(done: seq<Point>, rest: Result<seq<Point>>): Result<seq<Point>> {
    match rest
    case Ok(ps) => Ok(done + ps)
    case Err(e) => Err(e)
  }

  lemma PrependNothing(rest: Result<seq<Point>>)
    ensures Prepend([], rest) == rest
  {
    if rest.Ok? {
      assert [] + rest.value == rest.value;
    }
  }

  lemma PrependStep(done: seq<Point>, p: Point, rest: Result<seq<Point>>)
    ensures Prepend(done, Prepend([p], rest)) == Prepend(done + [p], rest)
  {
    if rest.Ok? {
      assert done + ([p] + rest.value) == done + [p] + rest.value;
    }
  }

  /** The matcher's step at `pos`: a miss moves on by one character; a match
      has its groups parsed, x first, before the rest of the text. */
  lemma MatchStep(text: string, pos: nat)
    requires pos < |text|
    ensures MatchAt(text, pos).None? ==>
              ParseVertices(Matches(text, pos)) == ParseVertices(Matches(text, pos + 1))
    ensures MatchAt(text, pos).Some? ==>
              var m := MatchAt(text, pos).value;
              && (ParseInteger(m.x).Err? ==> ParseVertices(Matches(text, pos)) == Err(ParseInteger(m.x).error))
              && (ParseInteger(m.x).Ok? && ParseInteger(m.y).Err? ==>
                    ParseVertices(Matches(text, pos)) == Err(ParseInteger(m.y).error))
              && (ParseInteger(m.x).Ok? && ParseInteger(m.y).Ok? ==>
                    ParseVertices(Matches(text, pos))
                    == Prepend([Point(ParseInteger(m.x).value, ParseInteger(m.y).value)],
                               ParseVertices(Matches(text, m.end))))
  {
    if MatchAt(text, pos).Some? {
      var m := MatchAt(text, pos).value;
      assert Matches(text, pos) == [m] + Matches(text, m.end);
      ParseVerticesCons(m, Matches(text, m.end));
    }
  }

  /** One match in front: its groups are parsed before the rest. */
  lemma ParseVerticesCons(m: VertexMatch, rest: seq<VertexMatch>)
    ensures ParseInteger(m.x).Err? ==> ParseVertices([m] + rest) == Err(ParseInteger(m.x).error)
    ensures ParseInteger(m.x).Ok? && ParseInteger(m.y).Err? ==>
              ParseVertices([m] + rest) == Err(ParseInteger(m.y).error)
    ensures ParseInteger(m.x).Ok? && ParseInteger(m.y).Ok? ==>
              ParseVertices([m] + rest)
              == Prepend([Point(ParseInteger(m.x).value, ParseInteger(m.y).value)], ParseVertices(rest))
  {
    assert ([m] + rest)[0] == m;
    assert ([m] + rest)[1..] == rest;
  }

  /** `loadFiguresFromFile`: the scan loop over the lines, parsing each block
      as it is closed, and the open block once more at the end. The list holds
      new objects whose values are the figures of `Load`, in order. */
  method LoadFiguresFromFile(lines: seq<string>, sqrt: real -> real, parseDouble: string -> Option<real>)
    returns (r: Result<seq<ColoredPolygon>>)
    ensures r.Ok? <==> Load(lines, sqrt, parseDouble).Ok?
    ensures r.Err? ==> r.error == Load(lines, sqrt, parseDouble).error
    ensures r.Ok? ==> |r.value| == |Load(lines, sqrt, parseDouble).value|
    ensures r.Ok? ==> forall k :: 0 <= k < |r.value| ==>
              && fresh(r.value[k]) && r.value[k].Valid()
              && r.value[k].Value() == Load(lines, sqrt, parseDouble).value[k]
  {
    var figures: seq<ColoredPolygon> := [];
    var currentBlock: seq<string> := [];
    var inBlock := false;
    ghost var closed: seq<seq<string>> := [];
    ghost var values: seq<Figure> := [];

    for i := 0 to |lines|
      invariant ScanState(inBlock, currentBlock, closed) == Run(Start, lines[..i])
      invariant ParseAll(closed, sqrt, parseDouble) == Ok(values) && Loaded(figures, values, sqrt)
      invariant forall k :: 0 <= k < |figures| ==> fresh(figures[k])
    {
      RunSnoc(lines, i);
      var line := Trim(lines[i]);
      if line == Delimiter {
        if inBlock && currentBlock != [] {
          var flushed, more := Flush(currentBlock, figures, closed, values, sqrt, parseDouble);
          if flushed.Err? {
            FlushFailed(closed + [currentBlock], lines, i, sqrt, parseDouble);
            return Err(flushed.error);
          }
          figures, values := flushed.value, more;
          closed := closed + [currentBlock];
        }
        currentBlock := [];
        inBlock := true;
      } else if inBlock {
        if line != [] {
          currentBlock := currentBlock + [line];
        }
      }
    }
    assert lines[..|lines|] == lines;

    if inBlock && currentBlock != [] {
      var flushed, more := Flush(currentBlock, figures, closed, values, sqrt, parseDouble);
      if flushed.Err? {
        return Err(flushed.error);
      }
      figures, values := flushed.value, more;
    }
    r := Ok(figures);
  }

  /** The loaded objects are valid and hold the given figures, in order. */
  ghost predicate Loaded(figures: seq<ColoredPolygon>, values: seq<Figure>, sqrt: real -> real)
    reads set k | 0 <= k < |figures| :: figures[k]
    reads set k | 0 <= k < |figures| :: figures[k].coordinates
  {
    && |figures| == |values|
    && forall k :: 0 <= k < |figures| ==> figures[k].Valid() && figures[k].Value() == values[k]
  }

  lemma LoadedSnoc(figures: seq<ColoredPolygon>, values: seq<Figure>, p: ColoredPolygon, sqrt: real -> real)
    requires Loaded(figures, values, sqrt) && p.Valid()
    ensures Loaded(figures + [p], values + [p.Value()], sqrt)
  {
    var fs, vs := figures + [p], values + [p.Value()];
    forall k | 0 <= k < |fs|
      ensures fs[k].Valid() && fs[k].Value() == vs[k]
    {
      if k < |figures| {
        assert fs[k] == figures[k] && vs[k] == values[k];
      }
    }
  }

  /** `parseFigureBlock` on a closed block, and `figures.add` when it gives a figure. */
  method Flush(
    block: seq<string>, figures: seq<ColoredPolygon>, ghost closed: seq<seq<string>>,
    ghost values: seq<Figure>, sqrt: real -> real, parseDouble: string -> Option<real>)
    returns (r: Result<seq<ColoredPolygon>>, ghost more: seq<Figure>)
    requires ParseAll(closed, sqrt, parseDouble) == Ok(values) && Loaded(figures, values, sqrt)
    ensures r.Err? ==> ParseAll(closed + [block], sqrt, parseDouble) == Err(r.error)
    ensures r.Ok? ==> ParseAll(closed + [block], sqrt, parseDouble) == Ok(more)
    ensures r.Ok? ==> Loaded(r.value, more, sqrt)
    ensures r.Ok? ==> |figures| <= |r.value| && forall k :: 0 <= k < |figures| ==> r.value[k] == figures[k]
    ensures r.Ok? ==> forall k :: |figures| <= k < |r.value| ==> fresh(r.value[k])
  {
    var poly := ParseFigureBlock(block, sqrt, parseDouble);
    ParseAllSnoc(closed, block, sqrt, parseDouble);
    more := values;
    if poly.Err? {
      return Err(poly.error), more;
    }
    if poly.value.Some? {
      assert Loaded(figures, values, sqrt);
      LoadedSnoc(figures, values, poly.value.value, sqrt);
      r := Ok(figures + [poly.value.value]);
      more := values + [poly.value.value.Value()];
    } else {
      r := Ok(figures);
    }
  }

  /** One more block: its error ends the load, a skipped block adds nothing,
      and a figure is added at the end. */
  lemma ParseAllSnoc(
    blocks: seq<seq<string>>, b: seq<string>, sqrt: real -> real, parseDouble: string -> Option<real>)
    requires ParseAll(blocks, sqrt, parseDouble).Ok?
    ensures ParseAll(blocks + [b], sqrt, parseDouble)
            == match BlockFigure(b, sqrt, parseDouble)
               case Err(e) => Err(e)
               case Ok(None) => ParseAll(blocks, sqrt, parseDouble)
               case Ok(Some(f)) => Ok(ParseAll(blocks, sqrt, parseDouble).value + [f])
  {
    assert (blocks + [b])[..|blocks|] == blocks;
  }

  /** When the block closed at line `i` fails, the whole load fails with its error. */
  lemma FlushFailed(
    flushed: seq<seq<string>>, lines: seq<string>, i: nat,
    sqrt: real -> real, parseDouble: string -> Option<real>)
    requires i < |lines|
    requires Run(Start, lines[..i + 1]).closed == flushed
    requires ParseAll(flushed, sqrt, parseDouble).Err?
    ensures Load(lines, sqrt, parseDouble) == ParseAll(flushed, sqrt, parseDouble)
  {
    ClosedPrefixOfBlocks(lines, i);
    ParseAllErrorPrefix(flushed, Blocks(lines), sqrt, parseDouble);
  }

  /** A failing prefix of the blocks decides the outcome of all of them. */
  lemma ParseAllErrorPrefix(
    prefix: seq<seq<string>>, all: seq<seq<string>>, sqrt: real -> real, parseDouble: string -> Option<real>)
    requires prefix <= all
    requires ParseAll(prefix, sqrt, parseDouble).Err?
    ensures ParseAll(all, sqrt, parseDouble) == ParseAll(prefix, sqrt, parseDouble)
  {
    ParseAllErrorSticks(prefix, all[|prefix|..], sqrt, parseDouble);
    assert prefix + all[|prefix|..] == all;
  }

  /** The blocks closed after line `i` begin the final list of blocks. */
  lemma ClosedPrefixOfBlocks(lines: seq<string>, i: nat)
    requires i < |lines|
    ensures Run(Start, lines[..i + 1]).closed <= Blocks(lines)
  {
    var st := Run(Start, lines[..i + 1]);
    RunAppend(Start, lines[..i + 1], lines[i + 1..]);
    assert lines[..i + 1] + lines[i + 1..] == lines;
    ClosedIsPrefix(st, lines[i + 1..]);
  }
}
