/** What the plain-text importer promises, stated over the functions of CurveImport:
    when the points of a curve are read and what they become, which abort ends an
    import and what it keeps, how curves compose, and that unread lines do not matter.
    Each loop property is the LoopLaws one for the readers of Scripts/main.js. */
module ImportProperties {
  import opened JsString
  import opened JsNumber
  import opened LineCleaner
  import opened CurveImport
  import opened LoopLaws

  /** The point line reader of the inner loop: two tokens make a triple. */
  function PointOf(line: string): (p: PointLine)
    ensures p.Triple? <==> |PointTokens(line)| == 2
    ensures p.Triple? ==> Entries(p) == PointTriple(PointTokens(line))
  {
    var tokens := PointTokens(line);
    if |tokens| == 2 then
      var t := PointTriple(tokens);
      Triple(t[0], t[1], t[2])
    else Malformed
  }

  /** The header reader of the outer loop: how often the inner loop runs for it. */
  function HeaderCount(header: string): nat {
    Iterations(PointCount(header))
  }

  lemma {:induction false} ReadPointsIsPoints(lines: seq<string>, k: nat)
    ensures ReadPoints(lines, k) == Points(PointOf, lines, k)
  {
    if k > 0 && |lines| > 0 {
      var j := k - 1;
      ReadPointsIsPoints(lines[1..], j);
      if |PointTokens(lines[0])| == 2 {
        ReadPointsStep(lines, j);
        PointsStep(PointOf, lines, j);
      }
    }
  }

  lemma ReadCurveIsOneCurve(lines: seq<string>)
    ensures ReadCurve(lines) == OneCurve(HeaderCount, PointOf, lines)
  {
    if |lines| > 0 {
      ReadPointsIsPoints(lines[1..], HeaderCount(lines[0]));
    }
  }

  lemma {:induction false} ReadCurvesIsCurves(lines: seq<string>, k: nat)
    ensures ReadCurves(lines, k) == Curves(HeaderCount, PointOf, lines, k)
    decreases k
  {
    if k > 0 {
      var j := k - 1;
      ReadCurveIsOneCurve(lines);
      var c := ReadCurve(lines);
      if c.CurveOk? {
        ReadCurvesIsCurves(c.rest, j);
        ReadCurvesStep(lines, j, c.curve, c.rest);
        CurvesStep(HeaderCount, PointOf, lines, j, c.curve, c.rest);
      }
    }
  }

  /** The first m lines exist and each holds exactly two tokens. */
  predicate PointLinesOk(lines: seq<string>, m: nat) {
    m <= |lines| && forall i :: 0 <= i < m ==> |PointTokens(lines[i])| == 2
  }

  lemma PointLinesOkIsLinesOk(lines: seq<string>, m: nat)
    ensures PointLinesOk(lines, m) <==> LinesOk(PointOf, lines, m)
  {
  }

  /** The inner loop runs to its end when k lines are left and each of them holds two
      tokens; it then yields one triple per line, in order, and leaves the lines after
      the k-th. */
  lemma ReadPointsContents(lines: seq<string>, k: nat)
    requires PointLinesOk(lines, k)
    ensures ReadPoints(lines, k).PointsOk?
    ensures |ReadPoints(lines, k).points| == 3 * k
    ensures ReadPoints(lines, k).rest == lines[k..]
    ensures forall i :: 0 <= i < k ==>
      ReadPoints(lines, k).points[3 * i..3 * i + 3] == PointTriple(PointTokens(lines[i]))
  {
    ReadPointsIsPoints(lines, k);
    PointLinesOkIsLinesOk(lines, k);
    PointsContents(PointOf, lines, k);
  }

  lemma PointOfFlat()
    ensures forall line :: PointOf(line).Triple? ==> PointOf(line).z == Finite(0.0)
  {
  }

  /** Every third control point, the z coordinate, is 0. */
  lemma ReadPointsFlat(lines: seq<string>, k: nat)
    requires PointLinesOk(lines, k)
    ensures ReadPoints(lines, k).PointsOk? && |ReadPoints(lines, k).points| == 3 * k
    ensures forall i :: 0 <= i < k ==> ReadPoints(lines, k).points[3 * i + 2] == Finite(0.0)
  {
    ReadPointsIsPoints(lines, k);
    PointLinesOkIsLinesOk(lines, k);
    PointOfFlat();
    PointsFlat(PointOf, lines, k, Finite(0.0));
  }

  /** The inner loop fails exactly when a line it needs is missing or malformed. The
      reason names the first such line m: no line left there, or one without two tokens. */
  lemma ReadPointsFailure(lines: seq<string>, k: nat)
    ensures ReadPoints(lines, k).PointsFailed? <==> !PointLinesOk(lines, k)
    ensures ReadPoints(lines, k).PointsFailed? ==> exists m :: (0 <= m < k && PointLinesOk(lines, m) &&
      if m == |lines| then ReadPoints(lines, k).reason == MissingPoint
      else |PointTokens(lines[m])| != 2 && ReadPoints(lines, k).reason == BadPointArity)
  {
    ReadPointsIsPoints(lines, k);
    PointLinesOkIsLinesOk(lines, k);
    PointsFailure(PointOf, lines, k);
    var r := ReadPoints(lines, k);
    if r.PointsFailed? {
      var m :| 0 <= m < k && LinesOk(PointOf, lines, m) &&
        if m == |lines| then r.reason == MissingPoint
        else PointOf(lines[m]).Malformed? && r.reason == BadPointArity;
      PointLinesOkIsLinesOk(lines, m);
    }
  }

  /** A curve is read when its header is there and its points can be read; it has the
      points of the lines after the header, and reading goes on after its last point. */
  lemma ReadCurveContents(lines: seq<string>)
    ensures |lines| == 0 ==> ReadCurve(lines) == CurveFailed(MissingHeader)
    ensures |lines| > 0 ==> var n := Iterations(PointCount(lines[0]));
      (ReadCurve(lines).CurveOk? <==> PointLinesOk(lines[1..], n))
      && (ReadCurve(lines).CurveOk? ==>
            ReadCurve(lines).curve.controlPoints == ReadPoints(lines[1..], n).points
            && |ReadCurve(lines).curve.controlPoints| == 3 * n
            && ReadCurve(lines).rest == lines[1 + n..])
  {
    if |lines| > 0 {
      var n := Iterations(PointCount(lines[0]));
      var read := ReadPoints(lines[1..], n);
      ReadCurveOfPoints(lines);
      ReadPointsFailure(lines[1..], n);
      if read.PointsOk? {
        ReadPointsContents(lines[1..], n);
        assert lines[1..][n..] == lines[1 + n..];
      }
    }
  }

  /** ReadCurve turns what the inner loop reads for the header into a curve. */
  lemma ReadCurveOfPoints(lines: seq<string>)
    requires |lines| > 0
    ensures var read := ReadPoints(lines[1..], Iterations(PointCount(lines[0])));
      ReadCurve(lines) == if read.PointsOk? then CurveOk(Curve(read.points), read.rest) else CurveFailed(read.reason)
  {
  }

  /** The first character of a header is dropped unseen: headers that differ only there
      read the same curve. */
  lemma HeaderFirstCharIgnored(h: string, h': string, rest: seq<string>)
    requires |h| > 0 && |h'| > 0 && h[1..] == h'[1..]
    ensures ReadCurve([h] + rest) == ReadCurve([h'] + rest)
  {
    assert Substring(h, 1, |h|) == h[1..];
    assert Substring(h', 1, |h'|) == h'[1..];
    assert ([h] + rest)[1..] == rest == ([h'] + rest)[1..];
  }

  /** A header whose count is NaN or below 1 gives a curve with no points, and nothing
      after the header is read for it. */
  lemma EmptyCurve(lines: seq<string>)
    requires |lines| > 0 && Iterations(PointCount(lines[0])) == 0
    ensures ReadCurve(lines) == CurveOk(Curve([]), lines[1..])
  {
  }

  /** No more curves than asked for; exactly as many when the loop completes. */
  lemma ReadCurvesCount(lines: seq<string>, k: nat)
    ensures ReadCurves(lines, k).outcome.Completed? ==> |ReadCurves(lines, k).curves| == k
    ensures ReadCurves(lines, k).outcome.Aborted? ==> |ReadCurves(lines, k).curves| < k
    ensures ReadCurves(lines, k).outcome != Aborted(BadCurveCount)
  {
    ReadCurvesIsCurves(lines, k);
    CurvesCount(HeaderCount, PointOf, lines, k);
  }

  /** Reading n = a + b curves is reading a curves, then b more from where they
      stopped; an import that stops within the first a stops there. */
  lemma ReadCurvesCompose(lines: seq<string>, a: nat, b: nat, n: nat)
    requires n == a + b
    ensures var first := ReadCurves(lines, a);
      ReadCurves(lines, n) ==
        if first.outcome.Completed? then PrependCurves(first.curves, ReadCurves(first.outcome.leftover, b))
        else first
  {
    var first := ReadCurves(lines, a);
    if first.outcome.Completed? {
      ComposeCompleted(lines, a, b, n, first.curves, first.outcome.leftover);
    } else {
      ComposeAborted(lines, a, b, n);
    }
  }

  lemma ComposeCompleted(lines: seq<string>, a: nat, b: nat, n: nat, curves: seq<Curve>, rest: seq<string>)
    requires n == a + b && ReadCurves(lines, a) == Loaded(curves, Completed(rest))
    ensures ReadCurves(lines, n) == PrependCurves(curves, ReadCurves(rest, b))
  {
    ReadCurvesIsCurves(lines, a);
    ReadCurvesIsCurves(lines, n);
    ReadCurvesIsCurves(rest, b);
    CurvesComposeAt(HeaderCount, PointOf, lines, a, b, n);
  }

  lemma ComposeAborted(lines: seq<string>, a: nat, b: nat, n: nat)
    requires n == a + b && ReadCurves(lines, a).outcome.Aborted?
    ensures ReadCurves(lines, n) == ReadCurves(lines, a)
  {
    ReadCurvesIsCurves(lines, a);
    ReadCurvesIsCurves(lines, n);
    CurvesComposeAt(HeaderCount, PointOf, lines, a, b, n);
  }

  /** An import that stops keeps the curves finished before it: they are what reading
      that many curves yields, and the next curve is the one that fails, for the reason
      the import gives. */
  lemma AbortKeepsFinishedCurves(lines: seq<string>, k: nat)
    requires ReadCurves(lines, k).outcome.Aborted?
    ensures var r := ReadCurves(lines, k); var m := |r.curves|;
      m < k
      && ReadCurves(lines, m).curves == r.curves
      && ReadCurves(lines, m).outcome.Completed?
      && ReadCurve(ReadCurves(lines, m).outcome.leftover) == CurveFailed(r.outcome.reason)
  {
    ReadCurvesIsCurves(lines, k);
    AbortAfter(HeaderCount, PointOf, lines, k);
    var m := |ReadCurves(lines, k).curves|;
    ReadCurvesIsCurves(lines, m);
    ReadCurveIsOneCurve(ReadCurves(lines, m).outcome.leftover);
  }

  /** Lines after the ones the inner loop reads change nothing but what is left over. */
  lemma ReadPointsExtra(lines: seq<string>, extra: seq<string>, k: nat)
    requires ReadPoints(lines, k).PointsOk?
    ensures ReadPoints(lines + extra, k) == PointsOk(ReadPoints(lines, k).points, ReadPoints(lines, k).rest + extra)
  {
    ReadPointsIsPoints(lines, k);
    ReadPointsIsPoints(lines + extra, k);
    PointsExtra(PointOf, lines, extra, k);
  }

  /** Lines after the last curve are never read: appending to them only lengthens what
      is left over. */
  lemma ReadCurvesExtra(lines: seq<string>, extra: seq<string>, k: nat)
    requires ReadCurves(lines, k).outcome.Completed?
    ensures ReadCurves(lines + extra, k) ==
      Loaded(ReadCurves(lines, k).curves, Completed(ReadCurves(lines, k).outcome.leftover + extra))
  {
    ReadCurvesIsCurves(lines, k);
    ReadCurvesIsCurves(lines + extra, k);
    CurvesExtra(HeaderCount, PointOf, lines, extra, k);
  }

  /** parseInt(undefined, 10) is NaN: a file without lines has no curve count. */
  lemma UndefinedIsNaN()
    ensures ParseInt("undefined", Ten) == NotANumber
  {
    var s := "undefined";
    assert !IsWhite(s[0]) && s[0] != '+' && s[0] != '-';
    TrimStartNonWhite(s);
    assert DigitOf(s[0]) >= 10;
  }

  /** The count check at the start: the import stops with BadCurveCount exactly when the
      first line does not parse to a number at least 0, and then nothing is added. */
  lemma CurveCountCheck(text: string)
    ensures ImportText(text).outcome == Aborted(BadCurveCount) <==>
      !(CurveCount(FileLines(text)).Integer? && CurveCount(FileLines(text)).value >= 0)
    ensures ImportText(text).outcome == Aborted(BadCurveCount) ==> ImportText(text).curves == []
  {
    var count := CurveCount(FileLines(text));
    if count.Integer? && count.value >= 0 {
      ReadCurvesCount(DropFirst(FileLines(text)), count.value);
    }
  }

  /** Splitting at a separator between two texts splits each of them. */
  lemma {:induction false} SplitAround(a: string, c: char, b: string, seps: set<char>)
    requires c in seps
    ensures Split(a + [c] + b, seps) == Split(a, seps) + Split(b, seps)
    decreases |a|
  {
    var s := a + [c] + b;
    var i := FirstOf(a, seps);
    FirstOfPrefix(a, c, b, seps);
    var q := Split(b, seps);
    if i == |a| {
      assert s[..|a|] == a && s[|a| + 1..] == b;
      assert Split(s, seps) == [a] + q;
      assert Split(a, seps) == [a];
    } else {
      var a' := a[i + 1..];
      assert s[..i] == a[..i];
      assert s[i + 1..] == a' + [c] + b;
      SplitAround(a', c, b, seps);
      var r := Split(a', seps);
      assert Split(s, seps) == [a[..i]] + (r + q);
      assert Split(a, seps) == [a[..i]] + r;
      ConcatAssoc([a[..i]], r, q);
    }
  }

  lemma {:induction false} FirstOfPrefix(a: string, c: char, b: string, seps: set<char>)
    requires c in seps
    ensures FirstOf(a + [c] + b, seps) == FirstOf(a, seps)
  {
    if |a| > 0 {
      assert (a + [c] + b)[1..] == a[1..] + [c] + b;
      FirstOfPrefix(a[1..], c, b, seps);
    }
  }

  /** The lines of two texts joined by a newline are the lines of each. */
  lemma FileLinesAppend(a: string, b: string)
    ensures FileLines(a + "\n" + b) == FileLines(a) + FileLines(b)
  {
    SplitAround(a, '\n', b, {'\n'});
    assert a + "\n" + b == a + ['\n'] + b;
    CleanedAppend(Split(a, {'\n'}), Split(b, {'\n'}));
  }

  /** Lines after a file that imports completely are never read. */
  lemma ImportLinesExtra(la: seq<string>, lb: seq<string>, n: nat)
    requires |la| > 0 && CurveCount(la) == Integer(n)
    requires ReadCurves(DropFirst(la), n).outcome.Completed?
    ensures CurveCount(la + lb) == Integer(n)
    ensures ReadCurves(DropFirst(la + lb), n) ==
      Loaded(ReadCurves(DropFirst(la), n).curves, Completed(ReadCurves(DropFirst(la), n).outcome.leftover + lb))
  {
    assert (la + lb)[0] == la[0];
    assert DropFirst(la + lb) == DropFirst(la) + lb;
    ReadCurvesExtra(DropFirst(la), lb, n);
  }

  /** Text after a file that imports completely is never read: it adds no curve and
      only lengthens what is left over. */
  lemma TrailingTextIgnored(a: string, b: string)
    requires ImportText(a).outcome.Completed?
    ensures ImportText(a + "\n" + b) ==
      Loaded(ImportText(a).curves, Completed(ImportText(a).outcome.leftover + FileLines(b)))
  {
    var la, lb := FileLines(a), FileLines(b);
    FileLinesAppend(a, b);
    if |la| == 0 {
      UndefinedIsNaN();
      assert false;
    }
    ImportLinesExtra(la, lb, CurveCount(la).value);
  }

  /** A decimal numeral as Decimal writes one: digits, and possibly a '-'. */
  predicate Numeral(s: string) {
    |s| >= 1 && forall k :: 0 <= k < |s| ==> s[k] == '-' || '0' <= s[k] <= '9'
  }

  lemma DecimalIsNumeral(n: int, s: string)
    requires s == Decimal(n)
    ensures Numeral(s)
  {
    var m: nat := if n < 0 then -n else n;
    var d := NatDigits(m);
    NatDigitsAreDigits(m);
    if n < 0 {
      assert s == "-" + d;
      forall k | 0 < k < |s| ensures '0' <= s[k] <= '9' {
        assert s[k] == d[k - 1];
      }
    }
  }

  /** A numeral is a token on its own: no space, tab or '#' in it, no white ends. */
  lemma NumeralToken(s: string)
    requires Numeral(s)
    ensures Split(s, {' ', '\t'}) == [s]
    ensures CleanLine(s) == s
  {
    assert FirstOf(s, {' ', '\t'}) == |s|;
    TrimKeepsTrimmed(s);
    IndexOfSpec(s, '#');
    CleanLineWhole(s);
  }

  /** A point line of two integer numerals has exactly those two tokens. */
  lemma IntegerPointTokens(x: int, y: int, line: string)
    requires line == Decimal(x) + " " + Decimal(y)
    ensures PointTokens(line) == [Decimal(x), Decimal(y)]
  {
    var dx, dy := Decimal(x), Decimal(y);
    DecimalIsNumeral(x, dx);
    DecimalIsNumeral(y, dy);
    NumeralsSplit(dx, dy, line);
    NumeralsCleaned(dx, dy);
  }

  lemma NumeralsSplit(a: string, b: string, line: string)
    requires Numeral(a) && Numeral(b) && line == a + " " + b
    ensures Split(line, {' ', '\t'}) == [a, b]
  {
    NumeralToken(a);
    NumeralToken(b);
    assert line == a + [' '] + b;
    SplitAround(a, ' ', b, {' ', '\t'});
    assert [a] + [b] == [a, b];
  }

  lemma NumeralsCleaned(a: string, b: string)
    requires Numeral(a) && Numeral(b)
    ensures Cleaned([a, b]) == [a, b]
  {
    NumeralToken(a);
    NumeralToken(b);
    assert [a, b] == [a] + [b];
    CleanedAppend([a], [b]);
    CleanedSingle(a);
    CleanedSingle(b);
  }

  /** The point "x y" becomes the control-point entries 50x, -50y, 0. */
  lemma IntegerPoint(x: int, y: int, line: string)
    requires line == Decimal(x) + " " + Decimal(y)
    ensures PointOf(line) == Triple(Finite(50.0 * x as real), Finite(-50.0 * y as real), Finite(0.0))
  {
    var dx, dy := Decimal(x), Decimal(y);
    IntegerPointTokens(x, y, line);
    PointOfTokens(line, dx, dy);
    NumeralPoint(x, y, dx, dy);
  }

  lemma NumeralPoint(x: int, y: int, dx: string, dy: string)
    requires dx == Decimal(x) && dy == Decimal(y)
    ensures Times50(ParseFloat(dx)) == Finite(50.0 * x as real)
    ensures Times50(Negate(ParseFloat(dy))) == Finite(-50.0 * y as real)
  {
    ParseFloatOf(x, dx);
    ParseFloatOf(y, dy);
  }

  lemma PointOfTokens(line: string, a: string, b: string)
    requires PointTokens(line) == [a, b]
    ensures PointOf(line) == Triple(Times50(ParseFloat(a)), Times50(Negate(ParseFloat(b))), Finite(0.0))
  {
  }

  /** parseFloat of a decimal numeral on its own. */
  lemma ParseFloatOf(n: int, s: string)
    requires s == Decimal(n)
    ensures ParseFloat(s) == Finite(n as real)
  {
    assert s == Decimal(n) + "";
    ParseFloatDecimal(n, "");
  }

  /** Point lines of integer numerals are read in file order, each "x y" as the
      control points 50x, -50y, 0. */
  lemma IntegerPoints(lines: seq<string>, xs: seq<int>, ys: seq<int>)
    requires |xs| == |ys| <= |lines|
    requires forall i :: 0 <= i < |xs| ==> lines[i] == Decimal(xs[i]) + " " + Decimal(ys[i])
    ensures ReadPoints(lines, |xs|).PointsOk?
    ensures |ReadPoints(lines, |xs|).points| == 3 * |xs|
    ensures forall i :: 0 <= i < |xs| ==>
      ReadPoints(lines, |xs|).points[3 * i..3 * i + 3] ==
        [Finite(50.0 * xs[i] as real), Finite(-50.0 * ys[i] as real), Finite(0.0)]
  {
    var ts := seq(|xs|, i requires 0 <= i < |xs| =>
      Triple(Finite(50.0 * xs[i] as real), Finite(-50.0 * ys[i] as real), Finite(0.0)));
    IntegerLines(lines, xs, ys, ts);
    ReadPointsOfLines(lines, |xs|, ts);
  }

  lemma IntegerLines(lines: seq<string>, xs: seq<int>, ys: seq<int>, ts: seq<PointLine>)
    requires |xs| == |ys| == |ts| <= |lines|
    requires forall i :: 0 <= i < |xs| ==> lines[i] == Decimal(xs[i]) + " " + Decimal(ys[i])
    requires forall i :: 0 <= i < |xs| ==>
      ts[i] == Triple(Finite(50.0 * xs[i] as real), Finite(-50.0 * ys[i] as real), Finite(0.0))
    ensures forall i :: 0 <= i < |xs| ==> ts[i].Triple? && PointOf(lines[i]) == ts[i]
  {
    forall i | 0 <= i < |xs| ensures PointOf(lines[i]) == ts[i] {
      IntegerLineAt(lines[i], xs[i], ys[i], ts[i]);
    }
  }

  lemma IntegerLineAt(line: string, x: int, y: int, t: PointLine)
    requires line == Decimal(x) + " " + Decimal(y)
    requires t == Triple(Finite(50.0 * x as real), Finite(-50.0 * y as real), Finite(0.0))
    ensures PointOf(line) == t
  {
    IntegerPoint(x, y, line);
  }

  /** ReadPoints on lines that read as the point lines ts. */
  lemma ReadPointsOfLines(lines: seq<string>, k: nat, ts: seq<PointLine>)
    requires |ts| == k <= |lines|
    requires forall i :: 0 <= i < k ==> ts[i].Triple? && PointOf(lines[i]) == ts[i]
    ensures ReadPoints(lines, k).PointsOk? && |ReadPoints(lines, k).points| == 3 * k
    ensures forall i :: 0 <= i < k ==> ReadPoints(lines, k).points[3 * i..3 * i + 3] == Entries(ts[i])
  {
    ReadPointsIsPoints(lines, k);
    PointsValues(PointOf, lines, k, ts);
  }
}
