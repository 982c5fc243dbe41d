/** The JavaScript String built-ins the curve importer relies on: trim, indexOf,
    substring and split. A string is a sequence of code points. */
module JsString {

  /** The code points ECMAScript counts as WhiteSpace or LineTerminator:
      exactly what String.prototype.trim removes from either end. */
  predicate IsWhite(c: char) {
    c == '\t' || c == '\U{000B}' || c == '\U{000C}' || c == ' ' || c == '\U{00A0}'
    || c == '\U{FEFF}' || c == '\U{1680}' || ('\U{2000}' <= c <= '\U{200A}')
    || c == '\U{202F}' || c == '\U{205F}' || c == '\U{3000}'
    || c == '\n' || c == '\r' || c == '\U{2028}' || c == '\U{2029}'
  }

  /** The number of white code points at the start of s (LeadingWhiteSpan). */
  function LeadingWhite(s: string): (n: nat)
    ensures n <= |s|
  {
    if |s| == 0 || !IsWhite(s[0]) then 0 else 1 + LeadingWhite(s[1..])
  }

  /** LeadingWhite counts the whole white run: all before it is white, the code point
      after it is not. */
  lemma {:induction false} LeadingWhiteSpan(s: string)
    ensures forall k :: 0 <= k < LeadingWhite(s) ==> IsWhite(s[k])
    ensures LeadingWhite(s) < |s| ==> !IsWhite(s[LeadingWhite(s)])
  {
    if |s| > 0 && IsWhite(s[0]) {
      LeadingWhiteSpan(s[1..]);
      forall k | 1 <= k < LeadingWhite(s) ensures IsWhite(s[k]) {
        assert s[k] == s[1..][k - 1];
      }
    }
  }

  /** The length of s once its trailing white code points are cut off (TrailingCutSpan). */
  function TrailingCut(s: string): (n: nat)
    ensures n <= |s|
  {
    if |s| == 0 || !IsWhite(s[|s| - 1]) then |s| else TrailingCut(s[..|s| - 1])
  }

  /** TrailingCut removes the whole white tail: all after the cut is white, the code
      point before it is not. */
  lemma {:induction false} TrailingCutSpan(s: string)
    ensures forall k :: TrailingCut(s) <= k < |s| ==> IsWhite(s[k])
    ensures 0 < TrailingCut(s) ==> !IsWhite(s[TrailingCut(s) - 1])
  {
    if |s| > 0 && IsWhite(s[|s| - 1]) {
      var init := s[..|s| - 1];
      TrailingCutSpan(init);
      forall k | TrailingCut(s) <= k < |s| - 1 ensures IsWhite(s[k]) {
        assert s[k] == init[k];
      }
      if 0 < TrailingCut(s) {
        assert s[TrailingCut(s) - 1] == init[TrailingCut(s) - 1];
      }
    }
  }

  /** String.prototype.trimStart, the first step of parseInt and parseFloat (TrimStartSpec). */
  function TrimStart(s: string): string {
    s[LeadingWhite(s)..]
  }

  /** TrimStart leaves a suffix of s; everything it removes is white and what it leaves
      does not start white. */
  lemma TrimStartSpec(s: string)
    ensures |TrimStart(s)| <= |s| && TrimStart(s) == s[|s| - |TrimStart(s)|..]
    ensures forall k :: 0 <= k < |s| - |TrimStart(s)| ==> IsWhite(s[k])
    ensures |TrimStart(s)| > 0 ==> !IsWhite(TrimStart(s)[0])
  {
    LeadingWhiteSpan(s);
    var n := LeadingWhite(s);
    if n < |s| {
      assert TrimStart(s)[0] == s[n];
    }
  }

  /** String.prototype.trim (TrimSpec). */
  function Trim(s: string): string {
    var u := TrimStart(s);
    u[..TrailingCut(u)]
  }

  /** Trim leaves the slice of s between its white ends: all that is removed is white
      and neither end of the result is. */
  lemma TrimSpec(s: string)
    ensures LeadingWhite(s) + |Trim(s)| <= |s|
    ensures Trim(s) == s[LeadingWhite(s)..LeadingWhite(s) + |Trim(s)|]
    ensures forall k :: 0 <= k < LeadingWhite(s) ==> IsWhite(s[k])
    ensures forall k :: LeadingWhite(s) + |Trim(s)| <= k < |s| ==> IsWhite(s[k])
    ensures |Trim(s)| > 0 ==> !IsWhite(Trim(s)[0]) && !IsWhite(Trim(s)[|Trim(s)| - 1])
  {
    var n, u := LeadingWhite(s), TrimStart(s);
    var m := TrailingCut(u);
    LeadingWhiteSpan(s);
    TrailingCutSpan(u);
    var t := Trim(s);
    assert t == u[..m] == s[n..n + m];
    forall k | n + m <= k < |s| ensures IsWhite(s[k]) {
      assert s[k] == u[k - n];
    }
    if m > 0 {
      assert t[0] == u[0] == s[n];
      assert t[m - 1] == u[m - 1];
    }
  }

  /** A string that neither starts nor ends white is left alone by Trim. */
  lemma TrimKeepsTrimmed(s: string)
    requires |s| > 0 ==> !IsWhite(s[0]) && !IsWhite(s[|s| - 1])
    ensures Trim(s) == s
  {
    assert LeadingWhite(s) == 0;
    assert TrimStart(s) == s;
  }

  /** True when every code point of s is white. */
  predicate AllWhite(s: string) {
    forall k :: 0 <= k < |s| ==> IsWhite(s[k])
  }

  lemma {:induction false} LeadingWhitePadded(pre: string, t: string)
    requires AllWhite(pre)
    requires |t| > 0 ==> !IsWhite(t[0])
    ensures LeadingWhite(pre + t) == |pre|
  {
    if |pre| > 0 {
      LeadingWhitePadded(pre[1..], t);
      assert (pre + t)[1..] == pre[1..] + t;
    }
  }

  lemma {:induction false} TrailingCutPadded(t: string, post: string)
    requires AllWhite(post)
    requires |t| > 0 ==> !IsWhite(t[|t| - 1])
    ensures TrailingCut(t + post) == |t|
  {
    if |post| > 0 {
      TrailingCutPadded(t, post[..|post| - 1]);
      assert (t + post)[..|t + post| - 1] == t + post[..|post| - 1];
    }
  }

  /** Trim takes off exactly the white padding around a string whose ends are not white. */
  lemma TrimPadded(pre: string, t: string, post: string)
    requires AllWhite(pre) && AllWhite(post)
    requires |t| > 0 ==> !IsWhite(t[0]) && !IsWhite(t[|t| - 1])
    ensures Trim(pre + t + post) == t
  {
    var s := pre + t + post;
    if |t| > 0 {
      assert s == pre + (t + post);
      LeadingWhitePadded(pre, t + post);
      assert TrimStart(s) == t + post;
      TrailingCutPadded(t, post);
      assert (t + post)[..|t|] == t;
    } else {
      assert s == (pre + post) + t;
      LeadingWhitePadded(pre + post, t);
    }
  }

  /** String.prototype.indexOf for one code point; IndexOfSpec states what it finds. */
  function IndexOf(s: string, c: char): (i: int)
    ensures -1 <= i < |s|
  {
    if |s| == 0 then -1
    else if s[0] == c then 0
    else
      var j := IndexOf(s[1..], c);
      if j == -1 then -1 else j + 1
  }

  /** IndexOf is -1 exactly when c does not occur, and otherwise the position of its
      first occurrence. */
  lemma {:induction false} IndexOfSpec(s: string, c: char)
    ensures IndexOf(s, c) == -1 <==> c !in s
    ensures 0 <= IndexOf(s, c) ==> s[IndexOf(s, c)] == c && c !in s[..IndexOf(s, c)]
  {
    if |s| > 0 && s[0] != c {
      IndexOfSpec(s[1..], c);
      var j := IndexOf(s[1..], c);
      assert s == [s[0]] + s[1..];
      if j != -1 {
        assert s[..j + 1] == [s[0]] + s[1..][..j];
      }
    }
  }

  /** IndexOf finds the first occurrence. */
  lemma IndexOfAt(s: string, c: char, i: nat)
    requires i < |s| && s[i] == c && c !in s[..i]
    ensures IndexOf(s, c) == i
  {
    if i > 0 {
      assert s[0] in s[..i];
      assert s[1..][..i - 1] == s[1..i];
      IndexOfAt(s[1..], c, i - 1);
    }
  }

  /** An index clamped into [0, n], as substring treats its arguments. */
  function Clamp(i: int, n: nat): (r: nat)
    ensures r <= n
    ensures 0 <= i <= n ==> r == i
  {
    if i < 0 then 0 else if i > n then n else i
  }

  /** String.prototype.substring: both ends clamped to the string, swapped when
      the start lies after the end. */
  function Substring(s: string, start: int, end: int): (t: string)
    ensures |t| <= |s|
    ensures 0 <= start <= end <= |s| ==> t == s[start..end]
    ensures 0 <= start <= |s| <= end ==> t == s[start..]
    ensures |s| < start && |s| <= end ==> t == []
  {
    var a := Clamp(start, |s|);
    var b := Clamp(end, |s|);
    if a <= b then s[a..b] else s[b..a]
  }

  /** The position of the first code point of s that is in seps, or |s| when none is. */
  function FirstOf(s: string, seps: set<char>): (i: nat)
    ensures i <= |s|
    ensures i < |s| ==> s[i] in seps
  {
    if |s| == 0 || s[0] in seps then 0 else 1 + FirstOf(s[1..], seps)
  }

  /** Nothing before FirstOf is a separator. */
  lemma {:induction false} FirstOfSpan(s: string, seps: set<char>)
    ensures forall k :: 0 <= k < FirstOf(s, seps) ==> s[k] !in seps
  {
    if |s| > 0 && s[0] !in seps {
      FirstOfSpan(s[1..], seps);
      forall k | 1 <= k < FirstOf(s, seps) ensures s[k] !in seps {
        assert s[k] == s[1..][k - 1];
      }
    }
  }

  /** How many code points of s are in seps. */
  function Occurrences(s: string, seps: set<char>): nat {
    if |s| == 0 then 0 else (if s[0] in seps then 1 else 0) + Occurrences(s[1..], seps)
  }

  lemma {:induction false} OccurrencesAroundFirst(s: string, seps: set<char>)
    requires FirstOf(s, seps) < |s|
    ensures Occurrences(s, seps) == 1 + Occurrences(s[FirstOf(s, seps) + 1..], seps)
  {
    if s[0] !in seps {
      OccurrencesAroundFirst(s[1..], seps);
      assert s[1..][FirstOf(s[1..], seps) + 1..] == s[FirstOf(s, seps) + 1..];
    }
  }

  lemma {:induction false} OccurrencesNone(s: string, seps: set<char>)
    requires FirstOf(s, seps) == |s|
    ensures Occurrences(s, seps) == 0
  {
    if |s| > 0 {
      OccurrencesNone(s[1..], seps);
    }
  }

  /** String.prototype.split with a separator matching any single code point of seps
      (the string "\n", or the character class [ \t]): the pieces between separators
      (SplitCount, SplitPieces, JoinSplit). */
  function Split(s: string, seps: set<char>): seq<string>
    decreases |s|
  {
    var i := FirstOf(s, seps);
    if i == |s| then [s] else [s[..i]] + Split(s[i + 1..], seps)
  }

  /** Split gives one more piece than there are separators. */
  lemma {:induction false} SplitCount(s: string, seps: set<char>)
    ensures |Split(s, seps)| == Occurrences(s, seps) + 1
    decreases |s|
  {
    var i := FirstOf(s, seps);
    if i == |s| {
      OccurrencesNone(s, seps);
    } else {
      OccurrencesAroundFirst(s, seps);
      SplitCount(s[i + 1..], seps);
    }
  }

  /** No piece of a split holds a separator. */
  lemma {:induction false} SplitPieces(s: string, seps: set<char>)
    ensures forall k, j :: 0 <= k < |Split(s, seps)| && 0 <= j < |Split(s, seps)[k]| ==> Split(s, seps)[k][j] !in seps
    decreases |s|
  {
    var i := FirstOf(s, seps);
    FirstOfSpan(s, seps);
    var parts := Split(s, seps);
    if i < |s| {
      SplitPieces(s[i + 1..], seps);
      var rest := Split(s[i + 1..], seps);
      forall k, j | 0 <= k < |parts| && 0 <= j < |parts[k]| ensures parts[k][j] !in seps {
        if k > 0 {
          assert parts[k] == rest[k - 1];
        } else {
          assert parts[0][j] == s[j];
        }
      }
    }
  }

  /** Array.prototype.join with a one-code-point separator; the inverse of Split. */
  function Join(parts: seq<string>, sep: char): string {
    if |parts| == 0 then ""
    else if |parts| == 1 then parts[0]
    else parts[0] + [sep] + Join(parts[1..], sep)
  }

  /** Joining the pieces of a split gives back the string. */
  lemma {:induction false} JoinSplit(s: string, sep: char)
    ensures Join(Split(s, {sep}), sep) == s
    decreases |s|
  {
    var i := FirstOf(s, {sep});
    if i < |s| {
      JoinSplit(s[i + 1..], sep);
      assert s == s[..i] + [sep] + s[i + 1..];
    }
  }

  lemma {:induction false} FirstOfJoined(a: string, sep: char, b: string)
    requires sep !in a
    ensures FirstOf(a + [sep] + b, {sep}) == |a|
  {
    if |a| > 0 {
      FirstOfJoined(a[1..], sep, b);
      assert (a + [sep] + b)[1..] == a[1..] + [sep] + b;
    }
  }

  /** Splitting a join of separator-free pieces gives back the pieces. */
  lemma {:induction false} SplitJoin(parts: seq<string>, sep: char)
    requires |parts| >= 1
    requires forall k :: 0 <= k < |parts| ==> sep !in parts[k]
    ensures Split(Join(parts, sep), {sep}) == parts
  {
    if |parts| > 1 {
      var a, rest := parts[0], Join(parts[1..], sep);
      var s := a + [sep] + rest;
      FirstOfJoined(a, sep, rest);
      assert s[..|a|] == a;
      assert s[|a| + 1..] == rest;
      SplitJoin(parts[1..], sep);
      assert parts == [parts[0]] + parts[1..];
    }
  }
}
