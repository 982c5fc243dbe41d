/** What the importer makes of a well-formed file: a curve count, then for each curve a
    header "P<n>" and n lines "x y" of integer coordinates, joined by newlines. Every such
    file is read completely, each curve in file order with each point x, y as the control
    points 50x, -50y, 0. */
module WellFormedImport {
  import opened JsString
  import opened JsNumber
  import opened LineCleaner
  import opened CurveImport
  import opened ImportProperties

  /** An integer point as a point line writes it: "x y". */
  function PointText(p: (int, int)): string {
    Decimal(p.0) + " " + Decimal(p.1)
  }

  /** The point lines of a curve, one per point. */
  function PointTexts(c: seq<(int, int)>): seq<string> {
    if |c| == 0 then [] else [PointText(c[0])] + PointTexts(c[1..])
  }

  /** The lines of one curve: the header "P<n>", then its n point lines. */
  function CurveText(c: seq<(int, int)>): seq<string> {
    ["P" + Decimal(|c|)] + PointTexts(c)
  }

  /** The lines of the curves, one block after the other. */
  function CurvesText(cs: seq<seq<(int, int)>>): seq<string> {
    if |cs| == 0 then [] else CurveText(cs[0]) + CurvesText(cs[1..])
  }

  /** The whole file: the curve count, then the curves, joined by newlines. */
  function FileText(cs: seq<seq<(int, int)>>): string {
    Join([Decimal(|cs|)] + CurvesText(cs), '\n')
  }

  /** The control points the importer is meant to make of the points: 50x, -50y, 0 each. */
  function ControlPoints(c: seq<(int, int)>): seq<Number> {
    if |c| == 0 then []
    else [Finite(50.0 * c[0].0 as real), Finite(-50.0 * c[0].1 as real), Finite(0.0)] + ControlPoints(c[1..])
  }

  /** The curves the importer is meant to append for the file of cs. */
  function Imported(cs: seq<seq<(int, int)>>): seq<Curve> {
    if |cs| == 0 then [] else [Curve(ControlPoints(cs[0]))] + Imported(cs[1..])
  }

  /** A header "P<n>" (any first character would do) counts n points. */
  lemma IntegerHeader(n: nat, h: string)
    requires h == "P" + Decimal(n)
    ensures PointCount(h) == Integer(n)
    ensures Iterations(PointCount(h)) == n
  {
    var d := Decimal(n);
    assert Substring(h, 1, |h|) == d;
    DecimalIsNumeral(n, d);
    NumeralTidy(d);
    TrimKeepsTrimmed(d);
    assert d + "" == d;
    ParseIntDecimal(n, "", Unspecified);
  }

  /** The point lines of c are read as the control points of c, and nothing after them. */
  lemma ReadIntegerPoints(c: seq<(int, int)>, rest: seq<string>)
    ensures ReadPoints(PointTexts(c) + rest, |c|) == PointsOk(ControlPoints(c), rest)
  {
    ReadIntegerPointsAt(c, rest, |c|);
  }

  lemma {:induction false} ReadIntegerPointsAt(c: seq<(int, int)>, rest: seq<string>, k: nat)
    requires k == |c|
    ensures ReadPoints(PointTexts(c) + rest, k) == PointsOk(ControlPoints(c), rest)
  {
    if k > 0 {
      var j := k - 1;
      var t := [Finite(50.0 * c[0].0 as real), Finite(-50.0 * c[0].1 as real), Finite(0.0)];
      PointTextsFront(c, rest, PointTexts(c) + rest, PointTexts(c[1..]) + rest);
      IntegerPointStep(c[0], PointTexts(c) + rest, PointTexts(c[1..]) + rest, k, j, t);
      ReadIntegerPointsAt(c[1..], rest, j);
      PrependRead(PointTexts(c) + rest, PointTexts(c[1..]) + rest, k, j, t, ControlPoints(c[1..]), rest, ControlPoints(c));
    }
  }

  /** The point lines of a non-empty curve start with the line of its first point. */
  lemma PointTextsFront(c: seq<(int, int)>, rest: seq<string>, lines: seq<string>, later: seq<string>)
    requires |c| > 0 && lines == PointTexts(c) + rest && later == PointTexts(c[1..]) + rest
    ensures lines == [PointText(c[0])] + later
  {
    Regroup(PointTexts(c), [PointText(c[0])], PointTexts(c[1..]), rest, lines, later);
  }

  /** A triple in front of a successful read of the later lines gives one successful read. */
  lemma PrependRead(lines: seq<string>, later: seq<string>, k: nat, j: nat, t: seq<Number>,
                    more: seq<Number>, rest: seq<string>, whole: seq<Number>)
    requires ReadPoints(lines, k) == PrependPoints(t, ReadPoints(later, j))
    requires ReadPoints(later, j) == PointsOk(more, rest)
    requires whole == t + more
    ensures ReadPoints(lines, k) == PointsOk(whole, rest)
  {
  }

  /** One point line "x y" in front adds the control points 50x, -50y, 0. */
  lemma IntegerPointStep(p: (int, int), lines: seq<string>, later: seq<string>, k: nat, j: nat, t: seq<Number>)
    requires lines == [PointText(p)] + later && k == j + 1
    requires t == [Finite(50.0 * p.0 as real), Finite(-50.0 * p.1 as real), Finite(0.0)]
    ensures ReadPoints(lines, k) == PrependPoints(t, ReadPoints(later, j))
  {
    assert lines[0] == PointText(p) && lines[1..] == later;
    TripleOfPointText(p, lines[0], t);
    PointLineStep(lines, later, k, j, t);
  }

  /** The line of an integer point reads as its triple 50x, -50y, 0. */
  lemma TripleOfPointText(p: (int, int), line: string, t: seq<Number>)
    requires line == PointText(p)
    requires t == [Finite(50.0 * p.0 as real), Finite(-50.0 * p.1 as real), Finite(0.0)]
    ensures |PointTokens(line)| == 2 && PointTriple(PointTokens(line)) == t
  {
    IntegerPoint(p.0, p.1, line);
  }

  /** A point line in front of later lines reads its triple, then the later lines. */
  lemma PointLineStep(lines: seq<string>, later: seq<string>, k: nat, j: nat, t: seq<Number>)
    requires |lines| > 0 && lines[1..] == later && k == j + 1
    requires |PointTokens(lines[0])| == 2 && PointTriple(PointTokens(lines[0])) == t
    ensures ReadPoints(lines, k) == PrependPoints(t, ReadPoints(later, j))
  {
    ReadPointsStep(lines, j);
  }

  /** The lines of one curve are read as that curve, and reading goes on after them. */
  lemma ReadIntegerCurve(c: seq<(int, int)>, rest: seq<string>)
    ensures ReadCurve(CurveText(c) + rest) == CurveOk(Curve(ControlPoints(c)), rest)
  {
    CurveTextParts(c, rest, CurveText(c) + rest);
    IntegerHeader(|c|, (CurveText(c) + rest)[0]);
    ReadIntegerPoints(c, rest);
    CurveOfPoints(CurveText(c) + rest, PointTexts(c) + rest, |c|, ControlPoints(c), rest);
  }

  /** The lines of a curve are its header, then its point lines. */
  lemma CurveTextParts(c: seq<(int, int)>, rest: seq<string>, lines: seq<string>)
    requires lines == CurveText(c) + rest
    ensures |lines| > 0 && lines[0] == "P" + Decimal(|c|) && lines[1..] == PointTexts(c) + rest
  {
    FrontAndBack("P" + Decimal(|c|), PointTexts(c), rest, lines);
  }

  /** The first line of [h] + body + rest is h, and the others are body + rest. */
  lemma FrontAndBack<T>(h: T, body: seq<T>, rest: seq<T>, lines: seq<T>)
    requires lines == [h] + body + rest
    ensures |lines| > 0 && lines[0] == h && lines[1..] == body + rest
  {
    assert lines == [h] + (body + rest);
  }

  /** A header counting n, then n point lines read as points, make the curve of points. */
  lemma CurveOfPoints(lines: seq<string>, later: seq<string>, n: nat, points: seq<Number>, rest: seq<string>)
    requires |lines| > 0 && lines[1..] == later && Iterations(PointCount(lines[0])) == n
    requires ReadPoints(later, n) == PointsOk(points, rest)
    ensures ReadCurve(lines) == CurveOk(Curve(points), rest)
  {
  }

  /** The blocks of the curves cs are read as the curves of cs, in order. */
  lemma ReadIntegerCurves(cs: seq<seq<(int, int)>>, rest: seq<string>)
    ensures ReadCurves(CurvesText(cs) + rest, |cs|) == Loaded(Imported(cs), Completed(rest))
  {
    ReadIntegerCurvesAt(cs, rest, |cs|);
  }

  lemma {:induction false} ReadIntegerCurvesAt(cs: seq<seq<(int, int)>>, rest: seq<string>, k: nat)
    requires k == |cs|
    ensures ReadCurves(CurvesText(cs) + rest, k) == Loaded(Imported(cs), Completed(rest))
  {
    if k > 0 {
      var j := k - 1;
      var c := Curve(ControlPoints(cs[0]));
      CurvesTextFront(cs, rest, CurvesText(cs) + rest, CurvesText(cs[1..]) + rest);
      IntegerCurveStep(cs[0], CurvesText(cs) + rest, CurvesText(cs[1..]) + rest, k, j, c);
      ReadIntegerCurvesAt(cs[1..], rest, j);
      PrependLoaded(CurvesText(cs) + rest, CurvesText(cs[1..]) + rest, k, j, c, Imported(cs[1..]), rest, Imported(cs));
    } else {
      assert CurvesText(cs) + rest == rest;
    }
  }

  /** The lines of a non-empty curve list start with the lines of its first curve. */
  lemma CurvesTextFront(cs: seq<seq<(int, int)>>, rest: seq<string>, lines: seq<string>, later: seq<string>)
    requires |cs| > 0 && lines == CurvesText(cs) + rest && later == CurvesText(cs[1..]) + rest
    ensures lines == CurveText(cs[0]) + later
  {
    Regroup(CurvesText(cs), CurveText(cs[0]), CurvesText(cs[1..]), rest, lines, later);
  }

  /** Lines a + b + rest are a followed by the lines after a. */
  lemma Regroup<T>(x: seq<T>, a: seq<T>, b: seq<T>, rest: seq<T>, lines: seq<T>, later: seq<T>)
    requires x == a + b && lines == x + rest && later == b + rest
    ensures lines == a + later
  {
    assert (a + b) + rest == a + (b + rest);
  }

  /** The lines of one curve in front add that curve. */
  lemma IntegerCurveStep(p: seq<(int, int)>, lines: seq<string>, later: seq<string>, k: nat, j: nat, c: Curve)
    requires lines == CurveText(p) + later && k == j + 1 && c == Curve(ControlPoints(p))
    ensures ReadCurves(lines, k) == PrependCurves([c], ReadCurves(later, j))
  {
    ReadIntegerCurve(p, later);
    ReadCurvesStep(lines, j, c, later);
  }

  /** A curve in front of a completed read of the later curves gives one completed read. */
  lemma PrependLoaded(lines: seq<string>, later: seq<string>, k: nat, j: nat, c: Curve,
                      more: seq<Curve>, rest: seq<string>, whole: seq<Curve>)
    requires ReadCurves(lines, k) == PrependCurves([c], ReadCurves(later, j))
    requires ReadCurves(later, j) == Loaded(more, Completed(rest))
    requires whole == [c] + more
    ensures ReadCurves(lines, k) == Loaded(whole, Completed(rest))
  {
  }

  /** A line the cleaning leaves as it is, and that holds no newline. */
  predicate Tidy(l: string) {
    |l| > 0 && !IsWhite(l[0]) && !IsWhite(l[|l| - 1]) && '#' !in l && '\n' !in l
  }

  /** A tidy line is its own cleaned form. */
  lemma TidyLine(l: string)
    requires Tidy(l)
    ensures CleanLine(l) == l && Kept(l)
  {
    TrimKeepsTrimmed(l);
    IndexOfSpec(l, '#');
    CleanLineWhole(l);
  }

  /** Cleaning keeps tidy lines as they are. */
  lemma {:induction false} CleanedTidy(lines: seq<string>)
    requires forall k :: 0 <= k < |lines| ==> Tidy(lines[k])
    ensures Cleaned(lines) == lines
  {
    if |lines| > 0 {
      assert lines == [lines[0]] + lines[1..];
      CleanedAppend([lines[0]], lines[1..]);
      TidyLine(lines[0]);
      CleanedSingle(lines[0]);
      CleanedTidy(lines[1..]);
    }
  }

  /** The text of tidy lines joined by newlines has exactly those lines. */
  lemma TidyFileLines(lines: seq<string>)
    requires |lines| >= 1 && forall k :: 0 <= k < |lines| ==> Tidy(lines[k])
    ensures FileLines(Join(lines, '\n')) == lines
  {
    SplitJoin(lines, '\n');
    CleanedTidy(lines);
  }

  /** A numeral is tidy. */
  lemma NumeralTidy(s: string)
    requires Numeral(s)
    ensures Tidy(s)
  {
    forall k | 0 <= k < |s| ensures s[k] != '#' && s[k] != '\n' {
    }
  }

  /** A header "P<n>" is tidy. */
  lemma HeaderTidy(n: nat, h: string)
    requires h == "P" + Decimal(n)
    ensures Tidy(h)
  {
    var d := Decimal(n);
    DecimalIsNumeral(n, d);
    forall k | 0 <= k < |h| ensures h[k] != '#' && h[k] != '\n' {
      if k > 0 {
        assert h[k] == d[k - 1];
      }
    }
    assert h[|h| - 1] == d[|d| - 1];
  }

  /** A point line "x y" is tidy. */
  lemma PointTidy(p: (int, int), l: string)
    requires l == PointText(p)
    ensures Tidy(l)
  {
    var a, b := Decimal(p.0), Decimal(p.1);
    DecimalIsNumeral(p.0, a);
    DecimalIsNumeral(p.1, b);
    forall k | 0 <= k < |l| ensures l[k] != '#' && l[k] != '\n' {
      if k < |a| {
        assert l[k] == a[k];
      } else if k > |a| {
        assert l[k] == b[k - |a| - 1];
      }
    }
    assert l[0] == a[0];
    assert l[|l| - 1] == b[|b| - 1];
  }

  lemma {:induction false} PointTextsTidy(c: seq<(int, int)>)
    ensures forall k :: 0 <= k < |PointTexts(c)| ==> Tidy(PointTexts(c)[k])
  {
    if |c| > 0 {
      PointTidy(c[0], PointText(c[0]));
      PointTextsTidy(c[1..]);
    }
  }

  lemma CurveTextTidy(c: seq<(int, int)>)
    ensures forall k :: 0 <= k < |CurveText(c)| ==> Tidy(CurveText(c)[k])
  {
    HeaderTidy(|c|, "P" + Decimal(|c|));
    PointTextsTidy(c);
  }

  lemma {:induction false} CurvesTextTidy(cs: seq<seq<(int, int)>>)
    ensures forall k :: 0 <= k < |CurvesText(cs)| ==> Tidy(CurvesText(cs)[k])
  {
    if |cs| > 0 {
      CurveTextTidy(cs[0]);
      CurvesTextTidy(cs[1..]);
    }
  }

  /** Every well-formed file is read completely: exactly its curves are appended, in
      file order, and no line is left over. */
  lemma IntegerFile(cs: seq<seq<(int, int)>>)
    ensures ImportText(FileText(cs)) == Loaded(Imported(cs), Completed([]))
  {
    var count := Decimal(|cs|);
    var body := CurvesText(cs);
    var lines := [count] + body;
    DecimalIsNumeral(|cs|, count);
    NumeralTidy(count);
    CurvesTextTidy(cs);
    TidyFileLines(lines);
    assert count + "" == count;
    ParseIntDecimal(|cs|, "", Ten);
    assert DropFirst(lines) == body + [];
    ReadIntegerCurves(cs, []);
  }

  /** The same file with the newline an editor puts after its last line. */
  lemma IntegerFileNewline(cs: seq<seq<(int, int)>>)
    ensures ImportText(FileText(cs) + "\n") == Loaded(Imported(cs), Completed([]))
  {
    IntegerFile(cs);
    assert FileText(cs) + "\n" == FileText(cs) + "\n" + "";
    TrailingTextIgnored(FileText(cs), "");
    assert Split("", {'\n'}) == [""];
    CleanedSingle("");
    assert FileLines("") == [];
  }

  /** A file with one triangle: three points, each scaled by 50 with y flipped. */
  lemma TriangleFile(text: string)
    requires text == "1\nP3\n0 0\n1 1\n2 0\n"
    ensures ImportText(text) == Loaded([Curve([
      Finite(0.0), Finite(0.0), Finite(0.0),
      Finite(50.0), Finite(-50.0), Finite(0.0),
      Finite(100.0), Finite(0.0), Finite(0.0)])], Completed([]))
  {
    var c := [(0, 0), (1, 1), (2, 0)];
    var curves := [Curve([
      Finite(0.0), Finite(0.0), Finite(0.0),
      Finite(50.0), Finite(-50.0), Finite(0.0),
      Finite(100.0), Finite(0.0), Finite(0.0)])];
    TriangleText(c, text);
    IntegerFileNewline([c]);
    TriangleCurves(c, curves);
  }

  lemma TriangleText(c: seq<(int, int)>, text: string)
    requires c == [(0, 0), (1, 1), (2, 0)] && text == "1\nP3\n0 0\n1 1\n2 0\n"
    ensures text == FileText([c]) + "\n"
  {
    var lines := ["1", "P3", "0 0", "1 1", "2 0"];
    TriangleLines(c, lines);
    TriangleJoin(lines, FileText([c]));
  }

  lemma TriangleCurves(c: seq<(int, int)>, curves: seq<Curve>)
    requires c == [(0, 0), (1, 1), (2, 0)]
    requires curves == [Curve([
      Finite(0.0), Finite(0.0), Finite(0.0),
      Finite(50.0), Finite(-50.0), Finite(0.0),
      Finite(100.0), Finite(0.0), Finite(0.0)])]
    ensures Imported([c]) == curves
  {
    TrianglePoints(c);
    assert Imported([c]) == [Curve(ControlPoints(c))] + Imported([]);
  }

  lemma TriangleLines(c: seq<(int, int)>, lines: seq<string>)
    requires c == [(0, 0), (1, 1), (2, 0)] && lines == ["1", "P3", "0 0", "1 1", "2 0"]
    ensures [Decimal(|[c]|)] + CurvesText([c]) == lines
  {
    assert Decimal(0) == "0" && Decimal(1) == "1" && Decimal(2) == "2" && Decimal(3) == "3";
    assert PointText(c[0]) == "0 0" && PointText(c[1]) == "1 1" && PointText(c[2]) == "2 0";
    assert c[1..][1..][1..] == [];
    assert PointTexts(c[1..][1..]) == ["2 0"];
    assert PointTexts(c[1..]) == ["1 1", "2 0"];
    assert PointTexts(c) == ["0 0", "1 1", "2 0"];
    assert |c| == 3 && "P" + Decimal(|c|) == "P3";
    assert CurveText(c) == ["P3", "0 0", "1 1", "2 0"];
    assert CurvesText([c]) == CurveText(c) + CurvesText([]);
  }

  lemma TriangleJoin(lines: seq<string>, text: string)
    requires lines == ["1", "P3", "0 0", "1 1", "2 0"] && text == Join(lines, '\n')
    ensures text == "1\nP3\n0 0\n1 1\n2 0"
  {
    assert lines[1..][1..][1..][1..] == ["2 0"];
    assert Join(lines[1..][1..][1..], '\n') == "1 1\n2 0";
    assert Join(lines[1..][1..], '\n') == "0 0\n1 1\n2 0";
    assert Join(lines[1..], '\n') == "P3\n0 0\n1 1\n2 0";
  }

  lemma TrianglePoints(c: seq<(int, int)>)
    requires c == [(0, 0), (1, 1), (2, 0)]
    ensures ControlPoints(c) == [
      Finite(0.0), Finite(0.0), Finite(0.0),
      Finite(50.0), Finite(-50.0), Finite(0.0),
      Finite(100.0), Finite(0.0), Finite(0.0)]
  {
    assert c[1..][1..][1..] == [];
    assert ControlPoints(c[1..][1..]) == [Finite(100.0), Finite(0.0), Finite(0.0)];
    assert ControlPoints(c[1..]) == [Finite(50.0), Finite(-50.0), Finite(0.0), Finite(100.0), Finite(0.0), Finite(0.0)];
  }
}
