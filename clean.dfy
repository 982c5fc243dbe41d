/** cleanArray of Scripts/main.js: every line trimmed, cut before its first '#',
    and kept only when something is left. */
module LineCleaner {
  import opened JsString

  /** One line as cleanArray leaves it (CleanLineSpec). */
  function CleanLine(line: string): string {
    var temp := Trim(line);
    if IndexOf(temp, '#') != -1 then Substring(temp, 0, IndexOf(temp, '#')) else temp
  }

  /** A cleaned line is the trimmed line up to, not including, its first '#'; it does
      not start white. Nothing is trimmed after the cut, so white space before a
      comment stays. */
  lemma CleanLineSpec(line: string)
    ensures CleanLine(line) <= Trim(line)
    ensures '#' !in CleanLine(line)
    ensures '#' in Trim(line) ==> Trim(line)[|CleanLine(line)|] == '#'
    ensures '#' !in Trim(line) ==> CleanLine(line) == Trim(line)
    ensures |CleanLine(line)| > 0 ==> !IsWhite(CleanLine(line)[0])
  {
    var temp := Trim(line);
    IndexOfSpec(temp, '#');
    TrimSpec(line);
    var r := CleanLine(line);
    if |r| > 0 {
      assert r[0] == temp[0];
    }
  }

  /** True when cleanArray keeps a cleaned line (`temp && temp.length >= 1`). */
  predicate Kept(c: string) {
    |c| >= 1
  }

  /** Every line in its cleaned form, kept or not. */
  function CleanLines(lines: seq<string>): (r: seq<string>)
    ensures |r| == |lines|
  {
    if |lines| == 0 then [] else CleanLines(lines[..|lines| - 1]) + [CleanLine(lines[|lines| - 1])]
  }

  /** CleanLines cleans each line in its place. */
  lemma {:induction false} CleanLinesAt(lines: seq<string>)
    ensures forall i :: 0 <= i < |lines| ==> CleanLines(lines)[i] == CleanLine(lines[i])
  {
    if |lines| > 0 {
      var init := lines[..|lines| - 1];
      CleanLinesAt(init);
      forall i | 0 <= i < |lines| - 1 ensures CleanLines(lines)[i] == CleanLine(lines[i]) {
        assert lines[i] == init[i];
      }
    }
  }

  /** The strings of xs that are kept, in order. */
  function NonEmpty(xs: seq<string>): (r: seq<string>)
    ensures |r| <= |xs|
  {
    if |xs| == 0 then []
    else NonEmpty(xs[..|xs| - 1]) + (if Kept(xs[|xs| - 1]) then [xs[|xs| - 1]] else [])
  }

  /** What cleanArray returns: the cleaned lines that are not empty, in input order
      (CleanedElements, CleanedKeepsOrder). */
  function Cleaned(lines: seq<string>): (r: seq<string>)
    ensures |r| <= |lines|
  {
    NonEmpty(CleanLines(lines))
  }

  /** Each element of a cleaned list is non-empty, holds no '#' and does not start white. */
  lemma CleanedElements(lines: seq<string>)
    ensures forall k :: 0 <= k < |Cleaned(lines)| ==>
      |Cleaned(lines)[k]| >= 1 && '#' !in Cleaned(lines)[k] && !IsWhite(Cleaned(lines)[k][0])
  {
    var xs := CleanLines(lines);
    CleanLinesAt(lines);
    forall i | 0 <= i < |xs| ensures Stripped(xs[i]) {
      CleanLineSpec(lines[i]);
    }
    NonEmptyFrom(xs);
  }

  /** No comment marker and no leading white space: what CleanLine leaves. */
  predicate Stripped(c: string) {
    '#' !in c && (|c| > 0 ==> !IsWhite(c[0]))
  }

  /** NonEmpty keeps only non-empty strings, and only strings it was given. */
  lemma {:induction false} NonEmptyFrom(xs: seq<string>)
    requires forall i :: 0 <= i < |xs| ==> Stripped(xs[i])
    ensures forall k :: 0 <= k < |NonEmpty(xs)| ==> Kept(NonEmpty(xs)[k]) && Stripped(NonEmpty(xs)[k])
    ensures forall k :: 0 <= k < |NonEmpty(xs)| ==> NonEmpty(xs)[k] in xs
  {
    if |xs| > 0 {
      var n := |xs| - 1;
      NonEmptyFrom(xs[..n]);
      forall y | y in xs[..n] ensures y in xs {
        var j :| 0 <= j < n && xs[..n][j] == y;
        assert xs[j] == y;
      }
    }
  }

  /** cleanArray(actual), the loop of Scripts/main.js:33-45. */
  method CleanArray(actual: seq<string>) returns (newArray: seq<string>)
    ensures newArray == Cleaned(actual)
  {
    newArray := [];
    for i := 0 to |actual|
      invariant newArray == NonEmpty(CleanLines(actual[..i]))
    {
      var temp := Trim(actual[i]);
      if IndexOf(temp, '#') != -1 {
        temp := Substring(temp, 0, IndexOf(temp, '#'));
      }
      if |temp| >= 1 {
        newArray := newArray + [temp];
      }
      assert actual[..i + 1][..i] == actual[..i];
      assert CleanLines(actual[..i + 1]) == CleanLines(actual[..i]) + [temp];
    }
    assert actual[..|actual|] == actual;
  }

  /** Cleaning works line by line: cleaning two blocks of lines one after the other
      is cleaning them together. */
  lemma {:induction false} CleanedAppend(a: seq<string>, b: seq<string>)
    ensures Cleaned(a + b) == Cleaned(a) + Cleaned(b)
  {
    CleanLinesAppend(a, b);
    NonEmptyAppend(CleanLines(a), CleanLines(b));
  }

  lemma {:induction false} CleanLinesAppend(a: seq<string>, b: seq<string>)
    ensures CleanLines(a + b) == CleanLines(a) + CleanLines(b)
    decreases |b|
  {
    if |b| == 0 {
      assert a + b == a;
    } else {
      var init, x := b[..|b| - 1], b[|b| - 1];
      assert (a + b)[..|a + b| - 1] == a + init;
      assert (a + b)[|a + b| - 1] == x;
      CleanLinesAppend(a, init);
      var y := CleanLine(x);
      assert CleanLines(a) + (CleanLines(init) + [y]) == (CleanLines(a) + CleanLines(init)) + [y];
    }
  }

  lemma {:induction false} NonEmptyAppend(a: seq<string>, b: seq<string>)
    ensures NonEmpty(a + b) == NonEmpty(a) + NonEmpty(b)
    decreases |b|
  {
    if |b| > 0 {
      var b' := b[..|b| - 1];
      assert (a + b)[..|a + b| - 1] == a + b';
      NonEmptyAppend(a, b');
    } else {
      assert a + b == a;
    }
  }

  /** The positions of the strings of xs that are kept, in increasing order. */
  function KeptPositions(xs: seq<string>): seq<nat> {
    if |xs| == 0 then []
    else KeptPositions(xs[..|xs| - 1]) + (if Kept(xs[|xs| - 1]) then [|xs| - 1] else [])
  }

  lemma {:induction false} KeptPositionsBelow(xs: seq<string>)
    ensures forall k :: 0 <= k < |KeptPositions(xs)| ==> KeptPositions(xs)[k] < |xs|
  {
    if |xs| > 0 {
      KeptPositionsBelow(xs[..|xs| - 1]);
    }
  }

  lemma {:induction false} KeptPositionsIncrease(xs: seq<string>)
    ensures forall k, l :: 0 <= k < l < |KeptPositions(xs)| ==> KeptPositions(xs)[k] < KeptPositions(xs)[l]
  {
    if |xs| > 0 {
      var init := xs[..|xs| - 1];
      KeptPositionsIncrease(init);
      KeptPositionsBelow(init);
    }
  }

  lemma {:induction false} KeptPositionsPick(xs: seq<string>)
    ensures |KeptPositions(xs)| == |NonEmpty(xs)|
    ensures forall k :: 0 <= k < |KeptPositions(xs)| ==>
      KeptPositions(xs)[k] < |xs| && NonEmpty(xs)[k] == xs[KeptPositions(xs)[k]]
  {
    KeptPositionsBelow(xs);
    if |xs| > 0 {
      var init := xs[..|xs| - 1];
      KeptPositionsPick(init);
      KeptPositionsBelow(init);
      var p, p0 := KeptPositions(xs), KeptPositions(init);
      var r, r0 := NonEmpty(xs), NonEmpty(init);
      forall k | 0 <= k < |p| ensures r[k] == xs[p[k]] {
        if k < |p0| {
          assert p[k] == p0[k] && r[k] == r0[k] && init[p0[k]] == xs[p0[k]];
        }
      }
    }
  }

  lemma {:induction false} KeptPositionsExactly(xs: seq<string>)
    ensures forall i :: 0 <= i < |xs| ==> (i in KeptPositions(xs) <==> Kept(xs[i]))
  {
    if |xs| > 0 {
      var last := |xs| - 1;
      var init := xs[..last];
      KeptPositionsExactly(init);
      KeptPositionsBelow(init);
      var p, p0 := KeptPositions(xs), KeptPositions(init);
      forall i | 0 <= i < |xs| ensures i in p <==> Kept(xs[i]) {
        if i < last {
          assert init[i] == xs[i];
          assert i in p <==> i in p0;
        } else {
          assert last !in p0;
        }
      }
    }
  }

  /** cleanArray keeps exactly the lines whose cleaned form is not empty, each one in
      its cleaned form, in the order of the input: with p the kept positions, the
      k-th element of the result is the cleaned line p[k], and p increases. */
  lemma CleanedKeepsOrder(lines: seq<string>)
    ensures var p := KeptPositions(CleanLines(lines));
      |p| == |Cleaned(lines)|
      && (forall k :: 0 <= k < |p| ==> p[k] < |lines| && Cleaned(lines)[k] == CleanLine(lines[p[k]]))
      && (forall k, l :: 0 <= k < l < |p| ==> p[k] < p[l])
      && (forall i :: 0 <= i < |lines| ==> (i in p <==> Kept(CleanLine(lines[i]))))
  {
    var xs := CleanLines(lines);
    CleanLinesAt(lines);
    KeptPositionsPick(xs);
    KeptPositionsIncrease(xs);
    KeptPositionsExactly(xs);
  }

  lemma CleanedSingle(line: string)
    ensures Cleaned([line]) == if Kept(CleanLine(line)) then [CleanLine(line)] else []
  {
    var lines: seq<string> := [line];
    assert lines[..0] == [];
  }

  lemma CleanLineWithComment(line: string)
    requires line == "  0 0 # origin"
    ensures CleanLine(line) == "0 0 "
  {
    var trimmed := "0 0 # origin";
    CommentLineTrim(line, trimmed);
    CommentLineHash(trimmed);
    CleanLineCut(line, trimmed, 4);
    assert trimmed[..4] == "0 0 ";
  }

  lemma CommentLineTrim(line: string, trimmed: string)
    requires line == "  0 0 # origin" && trimmed == "0 0 # origin"
    ensures Trim(line) == trimmed
  {
    assert line == "  " + trimmed + "";
    TrimPadded("  ", trimmed, "");
  }

  lemma CommentLineHash(trimmed: string)
    requires trimmed == "0 0 # origin"
    ensures IndexOf(trimmed, '#') == 4
  {
    assert trimmed[..4] == "0 0 ";
    IndexOfAt(trimmed, '#', 4);
  }

  lemma CleanLineCut(line: string, trimmed: string, i: int)
    requires Trim(line) == trimmed && IndexOf(trimmed, '#') == i >= 0
    ensures CleanLine(line) == trimmed[..i]
  {
  }

  lemma CleanLineTrailingSpace(line: string)
    requires line == "0 0 "
    ensures CleanLine(line) == "0 0"
  {
    var trimmed := "0 0";
    assert Trim(line) == trimmed by {
      assert line == "" + trimmed + " ";
      TrimPadded("", trimmed, " ");
    }
    assert IndexOf(trimmed, '#') == -1 by {
      assert trimmed[0] != '#' && trimmed[1] != '#' && trimmed[2] != '#';
      IndexOfSpec(trimmed, '#');
    }
    CleanLineWhole(line);
  }

  lemma CleanLineWhole(line: string)
    requires IndexOf(Trim(line), '#') == -1
    ensures CleanLine(line) == Trim(line)
  {
  }

  /** White space before a comment survives the cut, and a second cleaning would
      trim it: cleanArray is not idempotent. */
  lemma CommentCutKeepsSpace(line: string)
    requires line == "  0 0 # origin"
    ensures CleanLine(line) == "0 0 "
    ensures Cleaned([line]) == ["0 0 "]
    ensures Cleaned(Cleaned([line])) == ["0 0"]
  {
    CleanLineWithComment(line);
    CleanedSingle(line);
    var cut := "0 0 ";
    CleanLineTrailingSpace(cut);
    CleanedSingle(cut);
  }
}
