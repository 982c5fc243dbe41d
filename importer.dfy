/** The plain-text curve importer of Scripts/main.js (the `reader.onload` handler):
    a curve count, then per curve a header line with a point count followed by that
    many "x y" lines. Each point becomes the flat triple 50x, -50y, 0 of the curve's
    control points, and every finished curve is appended to the editor at once, so an
    import that stops half-way keeps the curves read before it. */
module CurveImport {
  import opened JsString
  import opened JsNumber
  import opened LineCleaner

  /** A curve as the importer leaves it: its flat control-point list x0, y0, z0, x1, ... */
  datatype Curve = Curve(controlPoints: seq<Number>)

  /** Why an import stops. */
  datatype Abort =
    | BadCurveCount   // assert(numCurves >= 0) fails
    | MissingHeader   // no line left for a curve header: lines[0] is undefined
    | MissingPoint    // no line left for a point: lines[0] is undefined
    | BadPointArity   // assert(strArray.length == 2) fails

  /** How an import ends: completed (with the lines nobody read), or aborted. */
  datatype Outcome = Completed(leftover: seq<string>) | Aborted(reason: Abort)

  /** The effect of an import: the curves it appends to the editor, and how it ends. */
  datatype Loaded = Loaded(curves: seq<Curve>, outcome: Outcome)

  /** Reading the points of one curve: its control points and the lines after them, or failure. */
  datatype PointsRead = PointsOk(points: seq<Number>, rest: seq<string>) | PointsFailed(reason: Abort)

  /** Reading one curve: the curve and the lines after it, or failure. */
  datatype CurveRead = CurveOk(curve: Curve, rest: seq<string>) | CurveFailed(reason: Abort)

  /** The editor state the importer changes: its list of curves. */
  class CurveEditor {
    var curves: seq<Curve>

    constructor ()
      ensures curves == []
    {
      curves := [];
    }
  }

  /** The lines of the uploaded text as the importer works on them: split at '\n', cleaned. */
  function FileLines(text: string): seq<string> {
    Cleaned(Split(text, {'\n'}))
  }

  /** `lines.splice(1)`: everything after the first line (nothing left of an empty list). */
  function DropFirst(lines: seq<string>): seq<string> {
    if |lines| == 0 then [] else lines[1..]
  }

  /** `parseInt(lines[0], 10)`; a missing first line is `undefined`, read as the string "undefined". */
  function CurveCount(lines: seq<string>): ParsedInt {
    ParseInt(if |lines| > 0 then lines[0] else "undefined", Ten)
  }

  /** The point count of a header line: its first character dropped (whatever it is),
      the rest trimmed and given to parseInt with no radix. */
  function PointCount(header: string): ParsedInt {
    ParseInt(Trim(Substring(header, 1, |header|)), Unspecified)
  }

  /** How often `for (j = 0; j < numPoints; ++j)` runs: never for NaN or a count below 1. */
  function Iterations(count: ParsedInt): nat {
    match count
    case NotANumber => 0
    case Integer(n) => if n > 0 then n else 0
  }

  /** JavaScript's `j < count`, which is false whenever count is NaN. */
  predicate LessThan(j: int, count: ParsedInt) {
    count.Integer? && j < count.value
  }

  /** The tokens of a point line: split at every space or tab, then cleaned like the lines. */
  function PointTokens(line: string): seq<string> {
    Cleaned(Split(line, {' ', '\t'}))
  }

  /** The control-point entries `x * 50.0, -y * 50.0, 0.0` of a point line's two tokens. */
  function PointTriple(tokens: seq<string>): seq<Number>
    requires |tokens| == 2
  {
    [Times50(ParseFloat(tokens[0])), Times50(Negate(ParseFloat(tokens[1]))), Finite(0.0)]
  }

  /** Puts already-read control points in front of the result of reading the rest. */
  function PrependPoints(points: seq<Number>, r: PointsRead): PointsRead {
    match r
    case PointsOk(more, rest) => PointsOk(points + more, rest)
    case PointsFailed(e) => r
  }

  /** The inner loop: k point lines read from the front of lines. */
  function ReadPoints(lines: seq<string>, k: nat): PointsRead {
    if k == 0 then PointsOk([], lines)
    else if |lines| == 0 then PointsFailed(MissingPoint)
    else
      var tokens := PointTokens(lines[0]);
      if |tokens| != 2 then PointsFailed(BadPointArity)
      else PrependPoints(PointTriple(tokens), ReadPoints(lines[1..], k - 1))
  }

  /** One iteration of the outer loop: a header line, then its points. */
  function ReadCurve(lines: seq<string>): CurveRead {
    if |lines| == 0 then CurveFailed(MissingHeader)
    else
      match ReadPoints(lines[1..], Iterations(PointCount(lines[0])))
      case PointsOk(points, rest) => CurveOk(Curve(points), rest)
      case PointsFailed(e) => CurveFailed(e)
  }

  /** Puts already-appended curves in front of the effect of reading the rest. */
  function PrependCurves(curves: seq<Curve>, r: Loaded): Loaded {
    Loaded(curves + r.curves, r.outcome)
  }

  /** The outer loop: k curves read from the front of lines. */
  function ReadCurves(lines: seq<string>, k: nat): Loaded
    decreases k
  {
    if k == 0 then Loaded([], Completed(lines))
    else
      match ReadCurve(lines)
      case CurveFailed(e) => Loaded([], Aborted(e))
      case CurveOk(c, rest) => PrependCurves([c], ReadCurves(rest, k - 1))
  }

  /** The whole handler on the text of a file: the count check, then the curves. */
  function ImportText(text: string): Loaded {
    var lines := FileLines(text);
    match CurveCount(lines)
    case NotANumber => Loaded([], Aborted(BadCurveCount))
    case Integer(n) => if n < 0 then Loaded([], Aborted(BadCurveCount)) else ReadCurves(DropFirst(lines), n)
  }

  lemma ReadPointsStep(lines: seq<string>, k: nat)
    requires |lines| > 0 && |PointTokens(lines[0])| == 2
    ensures ReadPoints(lines, k + 1) == PrependPoints(PointTriple(PointTokens(lines[0])), ReadPoints(lines[1..], k))
  {
  }

  lemma ReadCurvesStep(lines: seq<string>, k: nat, c: Curve, rest: seq<string>)
    requires ReadCurve(lines) == CurveOk(c, rest)
    ensures ReadCurves(lines, k + 1) == PrependCurves([c], ReadCurves(rest, k))
  {
  }

  /** One pass of the inner loop: a point line with two tokens adds its triple. */
  lemma ReadPointsNext(lines: seq<string>, left: nat, left': nat, points: seq<Number>, spec: PointsRead)
    requires left == left' + 1 && |lines| > 0 && |PointTokens(lines[0])| == 2
    requires spec == PrependPoints(points, ReadPoints(lines, left))
    ensures spec == PrependPoints(points + PointTriple(PointTokens(lines[0])), ReadPoints(lines[1..], left'))
  {
    ReadPointsStep(lines, left');
    PrependPointsTwice(points, PointTriple(PointTokens(lines[0])), ReadPoints(lines[1..], left'));
  }

  /** One pass of the outer loop: a header and its points make one more curve. */
  lemma ReadCurvesNext(lines: seq<string>, left: nat, left': nat, curves: seq<Curve>, spec: Loaded, read: PointsRead)
    requires left == left' + 1 && |lines| > 0
    requires read == ReadPoints(lines[1..], Iterations(PointCount(lines[0]))) && read.PointsOk?
    requires spec == PrependCurves(curves, ReadCurves(lines, left))
    ensures spec == PrependCurves(curves + [Curve(read.points)], ReadCurves(read.rest, left'))
  {
    ReadCurvesStep(lines, left', Curve(read.points), read.rest);
    PrependCurvesTwice(curves, [Curve(read.points)], ReadCurves(read.rest, left'));
  }

  /** An inner pass without a line, or on a line without two tokens, fails the curve. */
  lemma ReadPointsFail(lines: seq<string>, left: nat, points: seq<Number>, spec: PointsRead, e: Abort)
    requires left > 0 && spec == PrependPoints(points, ReadPoints(lines, left))
    requires if |lines| == 0 then e == MissingPoint else |PointTokens(lines[0])| != 2 && e == BadPointArity
    ensures spec == PointsFailed(e)
  {
  }

  lemma ReadPointsDone(points: seq<Number>, lines: seq<string>)
    ensures PrependPoints(points, ReadPoints(lines, 0)) == PointsOk(points, lines)
  {
    assert points + [] == points;
  }

  lemma ConcatAssoc<T>(a: seq<T>, b: seq<T>, c: seq<T>)
    ensures a + (b + c) == (a + b) + c
  {
  }

  lemma PrependPointsNone(r: PointsRead)
    ensures PrependPoints([], r) == r
  {
    if r.PointsOk? {
      assert [] + r.points == r.points;
    }
  }

  lemma PrependCurvesNone(r: Loaded)
    ensures PrependCurves([], r) == r
  {
    assert [] + r.curves == r.curves;
  }

  lemma PrependPointsTwice(a: seq<Number>, b: seq<Number>, r: PointsRead)
    ensures PrependPoints(a, PrependPoints(b, r)) == PrependPoints(a + b, r)
  {
    if r.PointsOk? {
      assert a + (b + r.points) == (a + b) + r.points;
    }
  }

  lemma PrependCurvesTwice(a: seq<Curve>, b: seq<Curve>, r: Loaded)
    ensures PrependCurves(a, PrependCurves(b, r)) == PrependCurves(a + b, r)
  {
    assert a + (b + r.curves) == (a + b) + r.curves;
  }

  /** `reader.onload` of Scripts/main.js: the text is split into lines and cleaned, the
      curve count is read and checked, and the curves are read and appended. */
  method OnLoad(editor: CurveEditor, text: string) returns (outcome: Outcome)
    modifies editor
    ensures editor.curves == old(editor.curves) + ImportText(text).curves
    ensures outcome == ImportText(text).outcome
  {
    var lines := Split(text, {'\n'});
    lines := CleanArray(lines);
    var numCurves := ParseInt(if |lines| > 0 then lines[0] else "undefined", Ten);
    if !(numCurves.Integer? && numCurves.value >= 0) {
      return Aborted(BadCurveCount);
    }
    lines := DropFirst(lines);
    outcome := AppendCurves(editor, lines, numCurves.value);
  }

  /** The outer loop of `reader.onload`: numCurves curves read from lines, each appended
      to the editor as soon as it is finished, so an abort leaves the finished ones in place. */
  method AppendCurves(editor: CurveEditor, lines: seq<string>, numCurves: nat) returns (outcome: Outcome)
    modifies editor
    ensures editor.curves == old(editor.curves) + ReadCurves(lines, numCurves).curves
    ensures outcome == ReadCurves(lines, numCurves).outcome
  {
    ghost var spec := ReadCurves(lines, numCurves);
    ghost var added: seq<Curve> := [];
    ghost var curvesLeft := numCurves;
    PrependCurvesNone(spec);
    var lines := lines;
    var i := 0;
    while i < numCurves
      invariant 0 <= i <= numCurves && curvesLeft == numCurves - i
      invariant editor.curves == old(editor.curves) + added
      invariant spec == PrependCurves(added, ReadCurves(lines, curvesLeft))
    {
      if |lines| == 0 {
        return Aborted(MissingHeader);
      }
      ghost var atHeader := lines;
      // lines[0] is rewritten in place and removed right after, so a local stands for it
      var header := Substring(lines[0], 1, |lines[0]|);
      header := Trim(header);
      var numPoints := ParseInt(header, Unspecified);
      lines := lines[1..];
      var read := ReadControlPoints(lines, numPoints);
      if read.PointsFailed? {
        return Aborted(read.reason);
      }
      var controlPoints := read.points;
      lines := read.rest;
      ghost var leftBefore, addedBefore := curvesLeft, added;
      ConcatAssoc(old(editor.curves), added, [Curve(controlPoints)]);
      editor.curves := editor.curves + [Curve(controlPoints)];
      added := added + [Curve(controlPoints)];
      i := i + 1;
      curvesLeft := curvesLeft - 1;
      ReadCurvesNext(atHeader, leftBefore, curvesLeft, addedBefore, spec, read);
    }
    outcome := Completed(lines);
  }

  /** The inner loop of `reader.onload`: numPoints point lines read from the front of
      lines into control points. A missing line or a line without exactly two tokens
      ends the import; here that is a failed result. */
  method ReadControlPoints(lines: seq<string>, numPoints: ParsedInt) returns (read: PointsRead)
    ensures read == ReadPoints(lines, Iterations(numPoints))
  {
    ghost var points := ReadPoints(lines, Iterations(numPoints));
    ghost var pointsLeft := Iterations(numPoints);
    PrependPointsNone(points);
    var lines := lines;
    var controlPoints: seq<Number> := [];
    var j := 0;
    while LessThan(j, numPoints)
      invariant 0 <= j <= Iterations(numPoints) && pointsLeft == Iterations(numPoints) - j
      invariant points == PrependPoints(controlPoints, ReadPoints(lines, pointsLeft))
      decreases pointsLeft
    {
      if |lines| == 0 {
        ReadPointsFail(lines, pointsLeft, controlPoints, points, MissingPoint);
        return PointsFailed(MissingPoint);
      }
      var strArray := Split(lines[0], {' ', '\t'});
      strArray := CleanArray(strArray);
      if |strArray| != 2 {
        ReadPointsFail(lines, pointsLeft, controlPoints, points, BadPointArity);
        return PointsFailed(BadPointArity);
      }
      var x := ParseFloat(strArray[0]);
      var y := ParseFloat(strArray[1]);
      ghost var before, leftBefore, pointsBefore := lines, pointsLeft, controlPoints;
      lines := lines[1..];
      controlPoints := controlPoints + [Times50(x), Times50(Negate(y)), Finite(0.0)];
      j := j + 1;
      pointsLeft := pointsLeft - 1;
      ReadPointsNext(before, leftBefore, pointsLeft, pointsBefore, points);
    }
    ReadPointsDone(controlPoints, lines);
    return PointsOk(controlPoints, lines);
  }
}
