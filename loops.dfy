/** The two loops of the importer with the reading of a single line left open: `point`
    turns a point line into its three control-point entries (or rejects it), `count`
    turns a header line into the number of times the inner loop runs. Everything here
    holds whatever those two do; ImportProperties instantiates them with the readers
    of Scripts/main.js. */
module LoopLaws {
  import opened JsNumber
  import opened CurveImport

  /** A point line as the inner loop sees it: three entries, or not two tokens. */
  datatype PointLine = Triple(x: Number, y: Number, z: Number) | Malformed

  function Entries(p: PointLine): seq<Number>
    requires p.Triple?
  {
    [p.x, p.y, p.z]
  }

  /** The inner loop: k point lines read from the front of lines. */
  function Points(point: string -> PointLine, lines: seq<string>, k: nat): PointsRead {
    if k == 0 then PointsOk([], lines)
    else if |lines| == 0 then PointsFailed(MissingPoint)
    else
      var p := point(lines[0]);
      if p.Malformed? then PointsFailed(BadPointArity)
      else PrependPoints(Entries(p), Points(point, lines[1..], k - 1))
  }

  lemma PointsStep(point: string -> PointLine, lines: seq<string>, k: nat)
    requires |lines| > 0 && point(lines[0]).Triple?
    ensures Points(point, lines, k + 1) == PrependPoints(Entries(point(lines[0])), Points(point, lines[1..], k))
  {
  }

  /** One pass of the outer loop: a header, then as many points as it says. */
  function OneCurve(count: string -> nat, point: string -> PointLine, lines: seq<string>): CurveRead {
    if |lines| == 0 then CurveFailed(MissingHeader)
    else
      match Points(point, lines[1..], count(lines[0]))
      case PointsOk(points, rest) => CurveOk(Curve(points), rest)
      case PointsFailed(e) => CurveFailed(e)
  }

  /** The outer loop: k curves read from the front of lines. */
  function Curves(count: string -> nat, point: string -> PointLine, lines: seq<string>, k: nat): Loaded
    decreases k
  {
    if k == 0 then Loaded([], Completed(lines))
    else
      match OneCurve(count, point, lines)
      case CurveFailed(e) => Loaded([], Aborted(e))
      case CurveOk(c, rest) => PrependCurves([c], Curves(count, point, rest, k - 1))
  }

  /** The first m lines exist and each is a point line. */
  predicate LinesOk(point: string -> PointLine, lines: seq<string>, m: nat) {
    m <= |lines| && forall i :: 0 <= i < m ==> point(lines[i]).Triple?
  }

  lemma LinesOkTail(point: string -> PointLine, lines: seq<string>, m: nat)
    requires |lines| > 0
    ensures LinesOk(point, lines, m + 1) <==> point(lines[0]).Triple? && LinesOk(point, lines[1..], m)
  {
    if point(lines[0]).Triple? && LinesOk(point, lines[1..], m) {
      forall i | 0 <= i < m + 1 ensures point(lines[i]).Triple? {
        if i > 0 {
          assert lines[i] == lines[1..][i - 1];
        }
      }
    }
    if LinesOk(point, lines, m + 1) {
      forall i | 0 <= i < m ensures point(lines[1..][i]).Triple? {
        assert lines[1..][i] == lines[i + 1];
      }
    }
  }

  /** Reading k good point lines yields their entries in order and leaves the rest. */
  lemma {:induction false} PointsContents(point: string -> PointLine, lines: seq<string>, k: nat)
    requires LinesOk(point, lines, k)
    ensures Points(point, lines, k).PointsOk?
    ensures |Points(point, lines, k).points| == 3 * k
    ensures Points(point, lines, k).rest == lines[k..]
    ensures forall i :: 0 <= i < k ==>
      Points(point, lines, k).points[3 * i..3 * i + 3] == Entries(point(lines[i]))
  {
    if k > 0 {
      LinesOkTail(point, lines, k - 1);
      PointsContents(point, lines[1..], k - 1);
      var first := Entries(point(lines[0]));
      var more := Points(point, lines[1..], k - 1).points;
      var points := Points(point, lines, k).points;
      assert points == first + more;
      assert lines[1..][k - 1..] == lines[k..];
      forall i | 0 <= i < k ensures points[3 * i..3 * i + 3] == Entries(point(lines[i])) {
        if i > 0 {
          assert points[3 * i..3 * i + 3] == more[3 * (i - 1)..3 * (i - 1) + 3];
          assert lines[i] == lines[1..][i - 1];
        }
      }
    }
  }

  /** When every point line has the same third entry, so has every triple read. */
  lemma PointsFlat(point: string -> PointLine, lines: seq<string>, k: nat, z: Number)
    requires LinesOk(point, lines, k)
    requires forall line :: point(line).Triple? ==> point(line).z == z
    ensures Points(point, lines, k).PointsOk? && |Points(point, lines, k).points| == 3 * k
    ensures forall i :: 0 <= i < k ==> Points(point, lines, k).points[3 * i + 2] == z
  {
    PointsContents(point, lines, k);
    var points := Points(point, lines, k).points;
    forall i | 0 <= i < k ensures points[3 * i + 2] == z {
      assert points[3 * i..3 * i + 3] == Entries(point(lines[i]));
      assert points[3 * i + 2] == points[3 * i..3 * i + 3][2];
    }
  }

  /** When the k lines read as the point lines ts, the points read are their entries. */
  lemma PointsValues(point: string -> PointLine, lines: seq<string>, k: nat, ts: seq<PointLine>)
    requires |ts| == k <= |lines|
    requires forall i :: 0 <= i < k ==> ts[i].Triple? && point(lines[i]) == ts[i]
    ensures Points(point, lines, k).PointsOk? && |Points(point, lines, k).points| == 3 * k
    ensures forall i :: 0 <= i < k ==> Points(point, lines, k).points[3 * i..3 * i + 3] == Entries(ts[i])
  {
    assert LinesOk(point, lines, k);
    PointsContents(point, lines, k);
  }

  /** The inner loop fails exactly when one of the k lines is missing or not a point
      line, and the reason names the first such line m. */
  lemma {:induction false} PointsFailure(point: string -> PointLine, lines: seq<string>, k: nat)
    ensures Points(point, lines, k).PointsFailed? <==> !LinesOk(point, lines, k)
    ensures Points(point, lines, k).PointsFailed? ==> exists m :: (0 <= m < k && LinesOk(point, lines, m) &&
      if m == |lines| then Points(point, lines, k).reason == MissingPoint
      else point(lines[m]).Malformed? && Points(point, lines, k).reason == BadPointArity)
  {
    if k > 0 {
      if |lines| == 0 {
        assert LinesOk(point, lines, 0);
      } else {
        LinesOkTail(point, lines, k - 1);
        if point(lines[0]).Malformed? {
          assert LinesOk(point, lines, 0);
        } else {
          PointsFailure(point, lines[1..], k - 1);
          var r := Points(point, lines, k);
          if r.PointsFailed? {
            var m :| 0 <= m < k - 1 && LinesOk(point, lines[1..], m) &&
              if m == |lines[1..]| then r.reason == MissingPoint
              else point(lines[1..][m]).Malformed? && r.reason == BadPointArity;
            LinesOkTail(point, lines, m);
            assert m + 1 < |lines| ==> lines[1..][m] == lines[m + 1];
            assert LinesOk(point, lines, m + 1);
          }
        }
      }
    }
  }

  /** A curve is read exactly when its header is there and the lines it asks for are
      point lines; it holds their entries and reading goes on after the last of them. */
  lemma OneCurveContents(count: string -> nat, point: string -> PointLine, lines: seq<string>)
    ensures |lines| == 0 ==> OneCurve(count, point, lines) == CurveFailed(MissingHeader)
    ensures |lines| > 0 ==> var n := count(lines[0]);
      (OneCurve(count, point, lines).CurveOk? <==> LinesOk(point, lines[1..], n))
      && (OneCurve(count, point, lines).CurveOk? ==>
            OneCurve(count, point, lines).curve.controlPoints == Points(point, lines[1..], n).points
            && |OneCurve(count, point, lines).curve.controlPoints| == 3 * n
            && OneCurve(count, point, lines).rest == lines[1 + n..])
      && (OneCurve(count, point, lines).CurveFailed? ==> OneCurve(count, point, lines).reason != BadCurveCount)
  {
    if |lines| > 0 {
      var n := count(lines[0]);
      PointsFailure(point, lines[1..], n);
      if LinesOk(point, lines[1..], n) {
        PointsContents(point, lines[1..], n);
        assert lines[1..][n..] == lines[1 + n..];
      }
    }
  }

  lemma CurvesStep(count: string -> nat, point: string -> PointLine, lines: seq<string>, k: nat, c: Curve, rest: seq<string>)
    requires OneCurve(count, point, lines) == CurveOk(c, rest)
    ensures Curves(count, point, lines, k + 1) == PrependCurves([c], Curves(count, point, rest, k))
  {
  }

  /** No more curves than asked for, exactly as many when the loop completes, and the
      loop never stops for the curve count. */
  lemma {:induction false} CurvesCount(count: string -> nat, point: string -> PointLine, lines: seq<string>, k: nat)
    ensures Curves(count, point, lines, k).outcome.Completed? ==> |Curves(count, point, lines, k).curves| == k
    ensures Curves(count, point, lines, k).outcome.Aborted? ==> |Curves(count, point, lines, k).curves| < k
    ensures Curves(count, point, lines, k).outcome != Aborted(BadCurveCount)
    decreases k
  {
    if k > 0 {
      var c := OneCurve(count, point, lines);
      OneCurveContents(count, point, lines);
      if c.CurveOk? {
        CurvesCount(count, point, c.rest, k - 1);
        CurvesStep(count, point, lines, k - 1, c.curve, c.rest);
      }
    }
  }

  /** Reading a + b curves is reading a, then b more from where they stopped. */
  lemma {:induction false} CurvesCompose(count: string -> nat, point: string -> PointLine, lines: seq<string>, a: nat, b: nat)
    ensures var first := Curves(count, point, lines, a);
      Curves(count, point, lines, a + b) ==
        if first.outcome.Completed? then PrependCurves(first.curves, Curves(count, point, first.outcome.leftover, b))
        else first
    decreases a
  {
    if a == 0 {
      PrependCurvesNone(Curves(count, point, lines, b));
    } else {
      var c := OneCurve(count, point, lines);
      if c.CurveOk? {
        CurvesCompose(count, point, c.rest, a - 1, b);
        CurvesStep(count, point, lines, a - 1, c.curve, c.rest);
        CurvesStep(count, point, lines, a - 1 + b, c.curve, c.rest);
        var tail := Curves(count, point, c.rest, a - 1);
        if tail.outcome.Completed? {
          PrependCurvesTwice([c.curve], tail.curves, Curves(count, point, tail.outcome.leftover, b));
        }
      }
    }
  }

  /** CurvesCompose with the total count named n. */
  lemma CurvesComposeAt(count: string -> nat, point: string -> PointLine, lines: seq<string>, a: nat, b: nat, n: nat)
    requires n == a + b
    ensures var first := Curves(count, point, lines, a);
      Curves(count, point, lines, n) ==
        if first.outcome.Completed? then PrependCurves(first.curves, Curves(count, point, first.outcome.leftover, b))
        else first
  {
    CurvesCompose(count, point, lines, a, b);
  }

  /** A loop that stops keeps the curves finished before it: they are what reading that
      many curves yields, and the next curve fails for the reason the loop gives. */
  lemma {:induction false} AbortAfter(count: string -> nat, point: string -> PointLine, lines: seq<string>, k: nat)
    requires Curves(count, point, lines, k).outcome.Aborted?
    ensures var r := Curves(count, point, lines, k); var m := |r.curves|;
      m < k
      && Curves(count, point, lines, m).curves == r.curves
      && Curves(count, point, lines, m).outcome.Completed?
      && OneCurve(count, point, Curves(count, point, lines, m).outcome.leftover) == CurveFailed(r.outcome.reason)
    decreases k
  {
    var c := OneCurve(count, point, lines);
    if c.CurveOk? {
      AbortAfter(count, point, c.rest, k - 1);
      var m := |Curves(count, point, c.rest, k - 1).curves|;
      CurvesStep(count, point, lines, m, c.curve, c.rest);
      CurvesStep(count, point, lines, k - 1, c.curve, c.rest);
    }
  }

  /** Lines after those the inner loop reads change only what is left over. */
  lemma {:induction false} PointsExtra(point: string -> PointLine, lines: seq<string>, extra: seq<string>, k: nat)
    requires Points(point, lines, k).PointsOk?
    ensures Points(point, lines + extra, k) ==
      PointsOk(Points(point, lines, k).points, Points(point, lines, k).rest + extra)
  {
    if k > 0 {
      assert (lines + extra)[0] == lines[0];
      assert (lines + extra)[1..] == lines[1..] + extra;
      PointsExtra(point, lines[1..], extra, k - 1);
    }
  }

  lemma OneCurveExtra(count: string -> nat, point: string -> PointLine, lines: seq<string>, extra: seq<string>)
    requires OneCurve(count, point, lines).CurveOk?
    ensures OneCurve(count, point, lines + extra) ==
      CurveOk(OneCurve(count, point, lines).curve, OneCurve(count, point, lines).rest + extra)
  {
    assert (lines + extra)[0] == lines[0];
    assert (lines + extra)[1..] == lines[1..] + extra;
    PointsExtra(point, lines[1..], extra, count(lines[0]));
  }

  /** Lines after the last curve are never read. */
  lemma {:induction false} CurvesExtra(count: string -> nat, point: string -> PointLine, lines: seq<string>, extra: seq<string>, k: nat)
    requires Curves(count, point, lines, k).outcome.Completed?
    ensures Curves(count, point, lines + extra, k) ==
      Loaded(Curves(count, point, lines, k).curves, Completed(Curves(count, point, lines, k).outcome.leftover + extra))
    decreases k
  {
    if k > 0 {
      var c := OneCurve(count, point, lines);
      OneCurveExtra(count, point, lines, extra);
      CurvesExtra(count, point, c.rest, extra, k - 1);
      CurvesStep(count, point, lines, k - 1, c.curve, c.rest);
      CurvesStep(count, point, lines + extra, k - 1, c.curve, c.rest + extra);
    }
  }
}
