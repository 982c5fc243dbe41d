# Plain-text curve import of the Bezier Curve Editor

The editor can load curves from a plain-text file. The upload handler in
`Scripts/main.js` reads the file as follows:

- It splits the text at `'\n'` and cleans the lines with `cleanArray`. Cleaning
  trims each line, cuts it before its first `#` and drops what is then empty.
- The first line is the curve count, read with `parseInt(_, 10)`. It must be a
  number of at least 0; otherwise `assert` throws and the import stops.
- Each curve starts with a header line. Its first character is dropped unseen,
  and the rest is trimmed and read with `parseInt` to give the point count.
- Then come that many point lines. Each one, split at spaces and tabs and cleaned,
  must hold exactly two tokens `x y`.
- A point becomes the three control-point entries `50x`, `-50y` and `0`.
- Each finished curve is pushed onto the editor's curve list at once. An import
  that stops half-way therefore keeps the curves finished before it.
- Lines after the last curve are never read.

The model has seven modules:

- `JsString` (jsstring.dfy) holds the string built-ins the handler uses: `trim`,
  `indexOf`, `substring`, and `split` on a set of one-character separators.
  `Join` is the inverse of `split`.
- `JsNumber` (jsnumber.dfy) holds `parseInt` and `parseFloat` as sections 19.2.5
  and 19.2.4 of ECMA-262 define them: leading white space is skipped, an optional
  sign is read, then the longest numeric prefix. `NaN` and `Infinity` are results
  like any finite value. Finite values are exact reals. A `parseInt` without a
  radix honours a `0x` prefix.
- `LineCleaner` (clean.dfy) holds `cleanArray`. It is the method `CleanArray`, with
  the same loop as the source, proved equal to the function `Cleaned`. Lemmas
  state what `Cleaned` keeps and in what order.
- `CurveImport` (importer.dfy) holds the editor, as class `CurveEditor` with its
  `curves` list, and the handler. `OnLoad` splits, cleans and checks the count.
  `AppendCurves` is the outer loop and appends each curve to the editor.
  `ReadControlPoints` is the inner loop. Each method is proved against the
  function that specifies it: `ImportText`, `ReadCurves` and `ReadPoints`. A
  failed `assert`, and a `TypeError` on a missing line (`lines[0]` is
  `undefined`), both end the import with `Aborted(reason)`.
- `LoopLaws` (loops.dfy) states the two loops with the reading of a single line
  left as a parameter (`point`, `count`). Its lemmas hold whatever those readers
  do.
- `ImportProperties` (properties.dfy) instantiates `LoopLaws` with the readers of
  `main.js`: `PointOf` is the point reader and `HeaderCount` the header reader
  handed to `LoopLaws`. Its lemmas state the importer's promises: which lines a
  curve consumes, what the points become, when and why an import stops, what an
  abort keeps, how reading composes, and that trailing text is ignored.
- `WellFormedImport` (wellformed.dfy) writes files out: `FileText(cs)` is the text
  of a list of curves of integer points, in the layout the handler reads. Its
  lemmas read such a text back end to end, through `ImportText`, and give the
  curves of `50x, -50y, 0` triples that the points describe.

The loops are non-transactional. The model keeps this: `OnLoad` leaves
`editor.curves` as the old list followed by `ImportText(text).curves`, even when
the outcome is `Aborted`. `AbortKeepsFinishedCurves` then says those are exactly
the curves read before the one that fails.

## Model

| member | source | states |
|---|---|---|
| LineCleaner.CleanArray | Scripts/main.js:33-45 | the loop returns exactly `Cleaned(actual)`: the lines, each trimmed and cut before its first `#`, with the empty results dropped, in input order |
| LineCleaner.CleanLineSpec | Scripts/main.js:36-39 | a cleaned line is a prefix of the trimmed line and holds no `#`; when the trimmed line has a `#`, the cleaned line ends just before the first one, otherwise it is the whole trimmed line; it never starts with white space |
| LineCleaner.CleanLinesAt | Scripts/main.js:35-39 | every element is cleaned in its own place: element i of `CleanLines(lines)` is `CleanLine(lines[i])` |
| LineCleaner.Cleaned | Scripts/main.js:33-45 | cleanArray's output is never longer than its input |
| LineCleaner.CleanedElements | Scripts/main.js:40-42 | every element of the output is non-empty, contains no `#` and does not start with white space |
| LineCleaner.NonEmptyFrom | Scripts/main.js:40-42 | the filter `temp && temp.length >= 1` keeps only non-empty strings, and only strings it was given |
| LineCleaner.KeptPositionsExactly | Scripts/main.js:40-42 | a position is kept if and only if its cleaned line is non-empty |
| LineCleaner.CleanedKeepsOrder | Scripts/main.js:35-43 | the k-th output element is the cleaned form of the k-th kept input line, at increasing input positions, and the kept positions are exactly those whose cleaned line is non-empty |
| LineCleaner.KeptPositionsPick | Scripts/main.js:40-42 | the filter keeps one position per output element, and element k is the input string at the k-th kept position |
| LineCleaner.KeptPositionsIncrease | Scripts/main.js:35-41 | kept positions increase: the filter never reorders |
| LineCleaner.CleanedAppend | Scripts/main.js:33-45 | cleaning works line by line: cleaning a + b is cleaning a, then cleaning b |
| LineCleaner.CommentCutKeepsSpace | Scripts/main.js:36-42 | there is no re-trim after the cut: `"  0 0 # origin"` cleans to `"0 0 "` with its trailing space, and cleaning that again gives `"0 0"` |
| LineCleaner.CleanLineWithComment | Scripts/main.js:36-39 | `"  0 0 # origin"` is trimmed, then cut before the `#`, leaving `"0 0 "` |
| LineCleaner.CleanLineTrailingSpace | Scripts/main.js:36-39 | a line without `#` is only trimmed: `"0 0 "` becomes `"0 0"` |
| CurveImport.CurveEditor.constructor | Scripts/CurveEditor.js:2 | the editor's curve list starts empty |
| CurveImport.OnLoad | Scripts/main.js:59-97 | the editor's curves become the old list followed by the curves `ImportText(text)` reads, and the returned outcome is the outcome `ImportText(text)` gives, aborted ones included |
| CurveImport.AppendCurves | Scripts/main.js:66-94 | the outer loop appends exactly the curves `ReadCurves(lines, numCurves)` reads, each as soon as it is finished, and ends the way `ReadCurves` does |
| CurveImport.ReadControlPoints | Scripts/main.js:79-89 | the inner loop yields exactly `ReadPoints(lines, Iterations(numPoints))`: it runs zero times for a NaN or non-positive count, and otherwise fails on a missing line or a line without exactly two tokens |
| CurveImport.ReadPointsNext | Scripts/main.js:79-89 | one pass of the inner loop keeps its invariant: the points so far followed by what the remaining lines give stay equal to the full read |
| CurveImport.ReadCurvesNext | Scripts/main.js:68-94 | one pass of the outer loop keeps its invariant: the curves so far followed by what the remaining lines give stay equal to the full read |
| LoopLaws.PointsContents | Scripts/main.js:79-89 | for any line reader: k good lines give 3k entries, the triples of those lines in order, and leave exactly the lines after the k-th |
| LoopLaws.PointsValues | Scripts/main.js:79-89 | for any line reader: when the k lines read as the point lines ts, the entries read are those of ts, in order |
| LoopLaws.PointsFlat | Scripts/main.js:88 | for any line reader whose triples all have the same third entry z, every third entry read is z |
| LoopLaws.PointsFailure | Scripts/main.js:79-89 | for any line reader: the inner loop fails if and only if one of its k lines is missing or malformed, and the reason names the first such line |
| LoopLaws.OneCurveContents | Scripts/main.js:72-89 | for any readers: a curve is read exactly when its header exists and the lines it asks for are good; it then holds their entries and consumes 1 + n lines; it never fails with BadCurveCount |
| LoopLaws.CurvesCount | Scripts/main.js:68-94 | for any readers: a completed loop yields exactly k curves, an aborted one fewer than k, and the outer loop never gives BadCurveCount |
| LoopLaws.CurvesCompose | Scripts/main.js:68-94 | for any readers: reading a + b curves is reading a curves, then b more from where they stopped; an abort within the first a ends everything |
| LoopLaws.AbortAfter | Scripts/main.js:68-94 | for any readers: an aborted loop keeps exactly the m curves that reading m curves completes with, and the next curve fails for the reason given |
| LoopLaws.PointsExtra | Scripts/main.js:79-89 | for any line reader: lines after those the inner loop reads only lengthen what is left over |
| LoopLaws.CurvesExtra | Scripts/main.js:68-96 | for any readers: lines after the last curve only lengthen what is left over |
| LoopLaws.LinesOkTail | Scripts/main.js:79-89 | the first m + 1 lines are good exactly when the first line is good and the m lines after it are |
| ImportProperties.ReadPointsIsPoints | Scripts/main.js:79-89 | the importer's inner loop is the generic one with the reader `PointOf` |
| ImportProperties.ReadCurveIsOneCurve | Scripts/main.js:72-89 | one iteration of the outer loop is the generic one with the readers `HeaderCount` and `PointOf` |
| ImportProperties.ReadCurvesIsCurves | Scripts/main.js:68-94 | the importer's outer loop is the generic one with the readers `HeaderCount` and `PointOf` |
| ImportProperties.ReadPointsContents | Scripts/main.js:78-89 | k lines of two tokens each give 3k control points, the triple `50x, -50y, 0` of each line in file order, and leave exactly the lines after the k-th |
| ImportProperties.PointOfFlat | Scripts/main.js:88 | every triple has 0 as its third entry |
| ImportProperties.ReadPointsFlat | Scripts/main.js:88 | every third control point of a completed curve is 0 |
| ImportProperties.ReadPointsFailure | Scripts/main.js:79-83 | the inner loop fails if and only if one of its k lines is missing or does not have two tokens; the reason is MissingPoint or BadPointArity for the first such line |
| ImportProperties.ReadCurveContents | Scripts/main.js:72-89 | no header line gives MissingHeader; otherwise the curve is read exactly when the n lines after the header have two tokens each; its control points are the points of those lines, 3n entries, and it consumes 1 + n lines |
| ImportProperties.HeaderFirstCharIgnored | Scripts/main.js:72 | the first character of a header is dropped unchecked: headers differing only there read the same curve |
| ImportProperties.EmptyCurve | Scripts/main.js:74-79 | a header whose count is NaN or below 1 gives a curve without points and consumes only the header line |
| ImportProperties.ReadCurvesCount | Scripts/main.js:68-94 | a completed import adds exactly numCurves curves and an aborted one fewer; the count failure cannot happen inside the loop |
| ImportProperties.ReadCurvesCompose | Scripts/main.js:68-94 | reading n = a + b curves is reading a, then b more from where they stopped; an abort within the first a ends the import there |
| ImportProperties.ComposeCompleted | Scripts/main.js:68-94 | after a completed read of a curves, the curves of n = a + b are those a followed by b more from the leftover |
| ImportProperties.ComposeAborted | Scripts/main.js:68-94 | an abort within the first a curves is the abort of all n = a + b |
| ImportProperties.AbortKeepsFinishedCurves | Scripts/main.js:68-94 | an aborted import keeps exactly the curves finished before the failing one; they are what reading that many curves gives, and the next curve fails for the reason reported |
| ImportProperties.ReadPointsExtra | Scripts/main.js:79-89 | lines after a curve's points change nothing but what is left over |
| ImportProperties.ReadCurvesExtra | Scripts/main.js:68-96 | lines after the last curve are never read: they only lengthen what is left over |
| ImportProperties.UndefinedIsNaN | Scripts/main.js:62 | with no line left, `parseInt(undefined, 10)` is NaN |
| ImportProperties.CurveCountCheck | Scripts/main.js:62-63 | the import stops with BadCurveCount if and only if the first line is not a number at least 0, and then adds no curve |
| ImportProperties.SplitAround | Scripts/main.js:60 | splitting at a separator placed between two texts splits each text on its own |
| ImportProperties.FirstOfPrefix | Scripts/main.js:60 | in `a + [c] + b` with c a separator, the first separator is where a's first one is, or the added c when a has none |
| ImportProperties.FileLinesAppend | Scripts/main.js:60-61 | the lines of two texts joined by a newline are the lines of the first followed by those of the second |
| ImportProperties.ImportLinesExtra | Scripts/main.js:62-96 | appending lines to a line list that imports completely changes neither the count nor the curves, only the leftover |
| ImportProperties.TrailingTextIgnored | Scripts/main.js:59-97 | text after a file that imports completely is never read: it adds no curve and only lengthens what is left over |
| ImportProperties.NumeralToken | Scripts/main.js:80-82 | a numeral is a token on its own: splitting and cleaning leave it unchanged |
| ImportProperties.NumeralsSplit | Scripts/main.js:81 | `"a b"` of two numerals splits at spaces and tabs into exactly `[a, b]` |
| ImportProperties.NumeralsCleaned | Scripts/main.js:82 | cleaning two numerals keeps both |
| ImportProperties.IntegerPointTokens | Scripts/main.js:80-83 | the point line `"x y"` of two integer numerals has exactly the two tokens x and y |
| ImportProperties.IntegerPoint | Scripts/main.js:84-88 | the point line `"x y"` becomes the entries `50x`, `-50y`, `0` |
| ImportProperties.IntegerPoints | Scripts/main.js:78-89 | point lines of integer numerals are read in file order, each `"x y"` as the control points `50x, -50y, 0`, 3 entries per line |
| ImportProperties.NumeralPoint | Scripts/main.js:84-88 | `x * 50.0` and `-y * 50.0` of two parsed numerals are 50x and -50y |
| ImportProperties.ParseFloatOf | Scripts/main.js:84-85 | `parseFloat` of the decimal numeral of n is n |
| ImportProperties.ReadPointsOfLines | Scripts/main.js:79-89 | lines that read as the point lines ts give the entries of ts in order |
| JsString.TrimSpec | Scripts/main.js:36 | `trim` keeps the slice of the string between its white ends: everything removed is white, and the result neither starts nor ends with white space |
| JsString.TrimStartSpec | Scripts/main.js:74 | the white-space skip at the start of `parseInt` leaves a suffix, removes only white space, and leaves no leading white space |
| JsString.TrimKeepsTrimmed | Scripts/main.js:36 | a string that neither starts nor ends with white space is left alone by `trim` |
| JsString.TrimPadded | Scripts/main.js:36 | `trim` removes exactly the white padding around a string whose ends are not white |
| JsString.LeadingWhiteSpan | Scripts/main.js:36 | the leading white run is counted in full: all of it is white, and the character after it is not |
| JsString.TrailingCutSpan | Scripts/main.js:36 | the trailing white run is cut in full: all of it is white, and the character before it is not |
| JsString.IndexOfSpec | Scripts/main.js:37 | `indexOf` is -1 if and only if the character does not occur, and otherwise it is the position of the first occurrence |
| JsString.IndexOfAt | Scripts/main.js:38 | a character at position i that does not occur before i is found at i |
| JsString.Substring | Scripts/main.js:38 | `substring(start, end)` is the slice when both ends lie in the string, runs to the end when end is past it, and is empty when both lie past it |
| JsString.SplitCount | Scripts/main.js:60 | `split` gives one more piece than there are separators |
| JsString.SplitPieces | Scripts/main.js:81 | no piece of a split holds a separator |
| JsString.JoinSplit | Scripts/main.js:60 | joining the pieces of a split with the separator gives back the text |
| JsString.SplitJoin | Scripts/main.js:60 | splitting a join of separator-free pieces gives back the pieces |
| JsNumber.DigitOf | Scripts/main.js:62 | a character's digit value is below 10 exactly for `'0'`-`'9'` |
| JsNumber.DigitRunDigits | Scripts/main.js:62 | everything in the run of digits `parseInt` reads is a digit of the radix |
| JsNumber.DigitsValueOfNatDigits | Scripts/main.js:62 | the value of the decimal numeral of n is n |
| JsNumber.ParseIntDecimal | Scripts/main.js:62 | `parseInt` reads back the decimal numeral of any integer, whatever non-digit text follows it (without a radix, a `0` must not be followed by `x`) |
| JsNumber.ParseFloatDecimal | Scripts/main.js:84-85 | `parseFloat` reads back the decimal numeral of any integer, whatever follows it that does not continue a number |
| JsNumber.UnsignedDecimalDigits | Scripts/main.js:84-85 | a numeral followed by anything that does not continue a decimal literal has its own value |
| JsNumber.ParseFloatFraction | Scripts/main.js:84-85 | `parseFloat` of a signed numeral with a fraction `m.f` and any exponent part or other text after it is `m + f / 10^|f|`, scaled by the exponent, with the sign applied |
| JsNumber.ExponentOf | Scripts/main.js:84-85 | an exponent part `e`/`E`, an optional sign and the digits of k scales by 10^k, or by 10^-k after a `-` |
| JsNumber.ParseFloatOneAndAHalf | Scripts/main.js:84-85 | `parseFloat("1.5")` is 1.5 |
| JsNumber.ParseFloatNegativeExponent | Scripts/main.js:84-85 | `parseFloat("-2.5e-1")` is -0.25: a sign, a fraction and a negative exponent |
| JsNumber.ParseIntHex | Scripts/main.js:74 | without a radix, `parseInt("0x1F")` reads hexadecimal and is 31; with radix 10 it reads only the `0` |
| WellFormedImport.IntegerHeader | Scripts/main.js:72-74 | a header `"P"` followed by the numeral of n has point count n, and the inner loop runs n times |
| WellFormedImport.ReadIntegerPoints | Scripts/main.js:79-89 | the point lines written for the integer points of a curve read back as the triples `50x, -50y, 0` of those points, in order, leaving the lines after them |
| WellFormedImport.ReadIntegerCurve | Scripts/main.js:72-89 | a header for the number of points followed by their point lines reads back as one curve of those points and leaves the lines after them |
| WellFormedImport.ReadIntegerCurves | Scripts/main.js:68-94 | the lines written for a list of curves read back as exactly those curves and complete with the lines after them left over |
| WellFormedImport.TidyFileLines | Scripts/main.js:60-61 | splitting the join of lines that are non-empty, free of `#` and newlines and without white ends, then cleaning, gives back the lines |
| WellFormedImport.IntegerFile | Scripts/main.js:59-97 | the file text written for any list of curves of integer points imports completely as exactly those curves, with nothing left over |
| WellFormedImport.IntegerFileNewline | Scripts/main.js:59-97 | the same file text ending in a newline imports the same way |
| WellFormedImport.TriangleFile | Scripts/main.js:59-97 | the text `"1\nP3\n0 0\n1 1\n2 0\n"` imports as one curve with the control points `0,0,0, 50,-50,0, 100,0,0` |

## Left out

- The DOM and browser wiring of `Scripts/main.js`: the `DOMContentLoaded`,
  button and resize listeners, the animation loop, `FileReader`, the `change`
  event and `console.log`. `OnLoad` takes the file's text as a parameter.
- `assert`'s choice between throwing an `Error` and throwing the bare message
  string. Either way the handler stops, so both are `Aborted(reason)`, with a
  reason naming the failed check.
- IEEE-754 details of `parseFloat`, `parseInt` and `* 50.0`: rounding, `-0`,
  overflow to `Infinity` and the 2^53 limit of exact integers. Finite numbers are
  exact reals. The model does not represent `-0`, so `-y * 50.0` for `y = 0` is 0.
- `parseInt` radices other than 10 and hexadecimal, which the handler never uses.
  The radix-less call honours only the `0x`/`0X` prefix.
- UTF-16: JavaScript strings are sequences of UTF-16 code units, while the
  model's strings are sequences of code points. White space is the ECMAScript
  WhiteSpace and LineTerminator set. The difference shows in `substring(1)` on a
  header (main.js:72) whose first character lies outside the Basic Multilingual
  Plane: JavaScript leaves a lone low surrogate in front of the count, so
  `parseInt` gives NaN and the curve gets no points, while `PointCount` drops the
  whole code point and reads the count after it.
- `split` with a general regular expression: the handler only splits on `"\n"`
  and on the class `[ \t]`, which are modelled as sets of single characters.
- The editor class in Scripts/CurveEditor.js declares no `curves` field, so as
  shipped, `curveEditor.curves.push` at main.js:91 would throw on the first
  curve. The model gives `CurveEditor` the list that main.js uses. Everything
  else in CurveEditor.js is WebGL drawing.
- Scripts/Curve.js: `new Curve()` sets `numControlPoints` and `points`, which the
  importer never reads. A model `Curve` holds only `controlPoints`.
- The local `curves` array of the handler only holds the same objects that are
  pushed onto the editor, so it is not modelled separately.
- The in-place rewrite of `lines[lineIdx]` (main.js:72-73) is a local variable,
  `header`, because the rewritten element is removed right after by
  `splice(1)`.
- The handler is modelled as three methods (`OnLoad`, `AppendCurves`,
  `ReadControlPoints`) instead of one body with nested loops, with the same
  statements in the same order.
- Non-numeric coordinates are not rejected: `parseFloat` gives NaN for a token
  that does not start a number, nothing at main.js:84-88 checks for it, and the
  NaN entries are stored. `PointTriple` does the same: `Times50(NaN)` is NaN.
