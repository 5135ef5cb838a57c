/** The JavaScript string operations the application relies on, defined on
    `seq<char>`: `trim` and the `\s` character class, `toLowerCase`, `indexOf`,
    `split` on one character, `join`, and `replace(/\s+/g, c)`. */
module Text {

  /** JavaScript white space and line terminators: what `trim` removes and
      what `\s` matches. */
  predicate IsWhitespace(c: char) {
    || c == ' ' || c == '\t' || c == '\n' || c == '\r' || c == '\U{000B}' || c == '\U{000C}'
    || c == '\U{00A0}' || c == '\U{1680}' || ('\U{2000}' <= c <= '\U{200A}')
    || c == '\U{2028}' || c == '\U{2029}' || c == '\U{202F}' || c == '\U{205F}'
    || c == '\U{3000}' || c == '\U{FEFF}'
  }

  predicate IsBlank(s: string) {
    forall i :: 0 <= i < |s| ==> IsWhitespace(s[i])
  }

  // ---------------------------------------------------------------- trim

  function TrimStart(s: string): (r: string)
    ensures |r| <= |s| && r == s[|s| - |r|..]
    ensures r == [] || !IsWhitespace(r[0])
    ensures IsBlank(s[..|s| - |r|])
  {
    if s != [] && IsWhitespace(s[0]) then
      var r := TrimStart(s[1..]);
      assert s[1..][..|s[1..]| - |r|] == s[1..|s| - |r|];
      assert forall i :: 1 <= i < |s| - |r| ==> IsWhitespace(s[i]);
      r
    else s
  }

  function TrimEnd(s: string): (r: string)
    ensures |r| <= |s| && r == s[..|r|]
    ensures r == [] || !IsWhitespace(r[|r| - 1])
    ensures IsBlank(s[|r|..])
  {
    if s != [] && IsWhitespace(s[|s| - 1]) then
      var r := TrimEnd(s[..|s| - 1]);
      assert s[..|s| - 1][|r|..] == s[|r|..|s| - 1];
      assert forall i :: |r| <= i < |s| - 1 ==> IsWhitespace(s[i]);
      r
    else s
  }

  /** `String.prototype.trim`. */
  function Trim(s: string): (r: string)
    ensures |r| <= |s|
    ensures r == [] || (!IsWhitespace(r[0]) && !IsWhitespace(r[|r| - 1]))
  {
    TrimEnd(TrimStart(s))
  }

  /** What `trim` returns is the text with a blank start and a blank end cut
      off. */
  lemma TrimCutsBlankEnds(s: string)
    ensures var r := Trim(s);
      exists k :: 0 <= k && k + |r| <= |s| && r == s[k..k + |r|] && IsBlank(s[..k]) && IsBlank(s[k + |r|..])
  {
    var t := TrimStart(s);
    var k := |s| - |t|;
    var r := TrimEnd(t);
    assert Trim(s) == r;
    TrimCut(s, t, r, k);
  }

  /** The blank start cut off by `TrimStart` and the blank end cut off by
      `TrimEnd` lie either side of the trimmed text within `s`. */
  lemma TrimCut(s: string, t: string, r: string, k: nat)
    requires |t| <= |s| && t == s[|s| - |t|..] && IsBlank(s[..|s| - |t|]) && k == |s| - |t|
    requires |r| <= |t| && r == t[..|r|] && IsBlank(t[|r|..])
    ensures k + |r| <= |s| && r == s[k..k + |r|] && IsBlank(s[..k]) && IsBlank(s[k + |r|..])
  {
    assert s[k..k + |r|] == t[..|r|];
    assert s[k + |r|..] == t[|r|..];
  }

  lemma {:induction false} TrimStartOfBlank(s: string)
    requires IsBlank(s)
    ensures TrimStart(s) == ""
  {
    if s != [] {
      TrimStartOfBlank(s[1..]);
    }
  }

  /** `!s.trim()` holds exactly when every character of `s` is white space. */
  lemma TrimEmptyIffBlank(s: string)
    ensures Trim(s) == "" <==> IsBlank(s)
  {
    if IsBlank(s) {
      TrimStartOfBlank(s);
    }
    if Trim(s) == "" {
      var t := TrimStart(s);
      var n := |s| - |t|;
      assert IsBlank(t[0..]);
      forall i | 0 <= i < |s| ensures IsWhitespace(s[i]) {
        if i < n {
          assert s[..n][i] == s[i];
        } else {
          assert s[n..][i - n] == s[i];
        }
      }
    }
  }

  // ---------------------------------------------------------- lower case

  /** A length-preserving lower-case mapping of one character: the ASCII
      capitals and the Latin-1 capitals (U+00C0 to U+00DE, except U+00D7). */
  function LowerChar(c: char): (r: char)
    ensures 'A' <= c <= 'Z' ==> r as int == c as int + 32
    ensures 'a' <= r <= 'z' ==> 'a' <= c <= 'z' || 'A' <= c <= 'Z'
    ensures '\U{00C0}' <= c <= '\U{00DE}' && c != '\U{00D7}' ==> r as int == c as int + 32
    ensures !('A' <= c <= 'Z' || ('\U{00C0}' <= c <= '\U{00DE}' && c != '\U{00D7}')) ==> r == c
  {
    if 'A' <= c <= 'Z' || ('\U{00C0}' <= c <= '\U{00DE}' && c != '\U{00D7}') then
      (c as int + 32) as char
    else c
  }

  /** `String.prototype.toLowerCase`, one character at a time. */
  function Lower(s: string): (r: string)
    ensures |r| == |s|
    ensures forall i :: 0 <= i < |s| ==> r[i] == LowerChar(s[i])
  {
    seq(|s|, i requires 0 <= i < |s| => LowerChar(s[i]))
  }

  lemma LowerSlice(s: string, i: nat, j: nat)
    requires i <= j <= |s|
    ensures Lower(s[i..j]) == Lower(s)[i..j]
  {
  }

  // --------------------------------------------------------------- indexOf

  predicate OccursAt(s: string, needle: string, i: int) {
    0 <= i && i + |needle| <= |s| && s[i..i + |needle|] == needle
  }

  lemma MatchAt(s: string, needle: string, j: nat)
    requires j + |needle| <= |s| && forall i :: 0 <= i < |needle| ==> s[j + i] == needle[i]
    ensures OccursAt(s, needle, j)
  {
    assert s[j..j + |needle|] == needle;
  }

  lemma MismatchAt(s: string, needle: string, j: nat)
    requires |needle| > 0 && (j + |needle| > |s| || s[j] != needle[0])
    ensures !OccursAt(s, needle, j)
  {
    if j + |needle| <= |s| {
      assert s[j..j + |needle|][0] == s[j];
    }
  }

  /** The search loop of `indexOf`, starting at position `from`. */
  function IndexFrom(s: string, needle: string, from: nat): (r: int)
    requires from <= |s|
    ensures r == -1 || (from <= r && OccursAt(s, needle, r))
    ensures forall j :: from <= j && (r == -1 || j < r) ==> !OccursAt(s, needle, j)
    decreases |s| - from
  {
    if from + |needle| > |s| then -1
    else if s[from..from + |needle|] == needle then from
    else if from == |s| then -1
    else IndexFrom(s, needle, from + 1)
  }

  /** `s.indexOf(needle)`: the first position at which `needle` occurs, or -1.
      An empty needle occurs at position 0. */
  function IndexOf(s: string, needle: string): (r: int)
    ensures r == -1 <==> forall j :: !OccursAt(s, needle, j)
    ensures r != -1 ==> OccursAt(s, needle, r) && forall j :: 0 <= j < r ==> !OccursAt(s, needle, j)
  {
    IndexFrom(s, needle, 0)
  }

  /** `indexOf` is the first occurrence. */
  lemma IndexOfIs(s: string, needle: string, i: nat)
    requires OccursAt(s, needle, i)
    requires forall j :: 0 <= j < i ==> !OccursAt(s, needle, j)
    ensures IndexOf(s, needle) == i
  {
  }

  // ------------------------------------------------------------ split/join

  /** `s.split(sep)` for a one-character separator: the pieces between
      separators, in order; there is always at least one piece. */
  function Split(s: string, sep: char): (r: seq<string>)
    ensures |r| >= 1
    decreases |s|
  {
    if s == [] then [""]
    else
      var rest := Split(s[1..], sep);
      if s[0] == sep then [""] + rest else [[s[0]] + rest[0]] + rest[1..]
  }

  /** `parts.join(sep)`. */
  function Join(parts: seq<string>, sep: string): (r: string)
    ensures parts == [] ==> r == ""
    ensures |parts| == 1 ==> r == parts[0]
    ensures |parts| >= 1 ==> |r| >= |parts[0]| && r[..|parts[0]|] == parts[0]
    decreases |parts|
  {
    if |parts| == 0 then ""
    else if |parts| == 1 then parts[0]
    else parts[0] + sep + Join(parts[1..], sep)
  }

  /** Joining one more piece appends the separator and that piece. */
  lemma {:induction false} JoinAppend(parts: seq<string>, x: string, sep: string)
    requires |parts| >= 1
    ensures Join(parts + [x], sep) == Join(parts, sep) + sep + x
    decreases |parts|
  {
    if |parts| > 1 {
      JoinAppend(parts[1..], x, sep);
      assert (parts + [x])[1..] == parts[1..] + [x];
    } else {
      assert (parts + [x])[1..] == [x];
    }
  }

  /** Joining the pieces of a split with the separator gives back the string. */
  lemma {:induction false} JoinSplit(s: string, sep: char)
    ensures Join(Split(s, sep), [sep]) == s
    decreases |s|
  {
    if s != [] {
      JoinSplit(s[1..], sep);
      var rest := Split(s[1..], sep);
      if s[0] == sep {
        assert Split(s, sep) == [""] + rest;
        assert Join([""] + rest, [sep]) == "" + [sep] + Join(rest, [sep]) by {
          assert ([""] + rest)[1..] == rest;
        }
        assert s == [s[0]] + s[1..];
      } else {
        var first := [s[0]] + rest[0];
        assert Split(s, sep) == [first] + rest[1..];
        if |rest| == 1 {
          assert s == [s[0]] + s[1..];
        } else {
          assert ([first] + rest[1..])[1..] == rest[1..];
          assert Join(rest, [sep]) == rest[0] + [sep] + Join(rest[1..], [sep]);
          assert s == [s[0]] + s[1..];
        }
      }
    }
  }

  /** No piece of a split contains the separator. */
  lemma {:induction false} SplitPiecesLackSeparator(s: string, sep: char)
    ensures forall k :: 0 <= k < |Split(s, sep)| ==> sep !in Split(s, sep)[k]
    decreases |s|
  {
    if s != [] {
      SplitPiecesLackSeparator(s[1..], sep);
      var rest := Split(s[1..], sep);
      if s[0] != sep {
        assert sep !in rest[0];
        assert sep !in [s[0]] + rest[0];
      }
    }
  }

  /** Splitting after a separator-free head peels that head off. */
  lemma {:induction false} SplitAfterHead(t: string, sep: char, u: string)
    requires sep !in t
    ensures Split(t + [sep] + u, sep) == [t] + Split(u, sep)
    decreases |t|
  {
    if t == [] {
      assert t + [sep] + u == [sep] + u;
      assert ([sep] + u)[1..] == u;
    } else {
      SplitAfterHead(t[1..], sep, u);
      var s := t + [sep] + u;
      assert s[0] == t[0] && s[1..] == t[1..] + [sep] + u;
      assert [t[0]] + t[1..] == t;
    }
  }

  /** Splitting a join of separator-free pieces gives back the pieces. */
  lemma {:induction false} SplitJoin(parts: seq<string>, sep: char)
    requires |parts| >= 1
    requires forall k :: 0 <= k < |parts| ==> sep !in parts[k]
    ensures Split(Join(parts, [sep]), sep) == parts
    decreases |parts|
  {
    if |parts| == 1 {
      SplitOfSeparatorFree(parts[0], sep);
    } else {
      SplitJoin(parts[1..], sep);
      SplitAfterHead(parts[0], sep, Join(parts[1..], [sep]));
      assert [parts[0]] + parts[1..] == parts;
    }
  }

  lemma {:induction false} SplitOfSeparatorFree(s: string, sep: char)
    requires sep !in s
    ensures Split(s, sep) == [s]
    decreases |s|
  {
    if s != [] {
      SplitOfSeparatorFree(s[1..], sep);
      assert [s[0]] + s[1..] == s;
    }
  }

  // ------------------------------------------------- replace(/\s+/g, rep)

  /** `s.replace(/\s+/g, [rep])`: every maximal run of white space becomes one `rep`. */
  function ReplaceWhitespaceRuns(s: string, rep: char): string
    decreases |s|
  {
    if s == [] then []
    else if IsWhitespace(s[0]) then [rep] + ReplaceWhitespaceRuns(TrimStart(s[1..]), rep)
    else [s[0]] + ReplaceWhitespaceRuns(s[1..], rep)
  }

  /** The characters of `s` that are neither white space nor `rep`. */
  function Visible(s: string, rep: char): string
    decreases |s|
  {
    if s == [] then []
    else if IsWhitespace(s[0]) || s[0] == rep then Visible(s[1..], rep)
    else [s[0]] + Visible(s[1..], rep)
  }

  lemma {:induction false} VisibleSkipsWhitespace(s: string, rep: char)
    ensures Visible(TrimStart(s), rep) == Visible(s, rep)
    decreases |s|
  {
    if s != [] && IsWhitespace(s[0]) {
      VisibleSkipsWhitespace(s[1..], rep);
    }
  }

  /** The replacement leaves no white space behind, when `rep` is not white
      space itself, and keeps the characters that are neither white space
      nor `rep` in order. `ReplaceWhitespaceRun` and
      `ReplaceWhitespaceRunsIdentity` cover the rest. */
  lemma {:induction false} ReplaceWhitespaceRunsSpec(s: string, rep: char)
    requires !IsWhitespace(rep)
    ensures forall i :: 0 <= i < |ReplaceWhitespaceRuns(s, rep)| ==> !IsWhitespace(ReplaceWhitespaceRuns(s, rep)[i])
    ensures Visible(ReplaceWhitespaceRuns(s, rep), rep) == Visible(s, rep)
    ensures |ReplaceWhitespaceRuns(s, rep)| <= |s|
    decreases |s|
  {
    if s != [] {
      if IsWhitespace(s[0]) {
        var d := TrimStart(s[1..]);
        ReplaceWhitespaceRunsSpec(d, rep);
        VisibleSkipsWhitespace(s[1..], rep);
        var tail := ReplaceWhitespaceRuns(d, rep);
        assert ReplaceWhitespaceRuns(s, rep) == [rep] + tail;
        assert Visible([rep] + tail, rep) == Visible(tail, rep) by {
          assert ([rep] + tail)[1..] == tail;
        }
      } else {
        ReplaceWhitespaceRunsSpec(s[1..], rep);
        var tail := ReplaceWhitespaceRuns(s[1..], rep);
        assert ReplaceWhitespaceRuns(s, rep) == [s[0]] + tail;
        assert ([s[0]] + tail)[1..] == tail;
      }
    }
  }

  /** Trimming the start of blank text followed by `y` gives `y`, when `y`
      does not start with white space. */
  lemma {:induction false} TrimStartOfBlankPrefix(b: string, y: string)
    requires IsBlank(b)
    requires y == [] || !IsWhitespace(y[0])
    ensures TrimStart(b + y) == y
    decreases |b|
  {
    if b != [] {
      assert (b + y)[1..] == b[1..] + y;
      TrimStartOfBlankPrefix(b[1..], y);
    } else {
      assert b + y == y;
    }
  }

  /** Once the white space at the start of `a` ends inside `a`, what follows
      `a` is kept as it is. */
  lemma {:induction false} TrimStartAppend(a: string, b: string)
    requires TrimStart(a) != []
    ensures TrimStart(a + b) == TrimStart(a) + b
    decreases |a|
  {
    assert a != [];
    assert (a + b)[0] == a[0];
    if IsWhitespace(a[0]) {
      assert (a + b)[1..] == a[1..] + b;
      TrimStartAppend(a[1..], b);
      assert TrimStart(a) == TrimStart(a[1..]);
    } else {
      assert TrimStart(a) == a;
    }
  }

  lemma RegroupFront(a: string, b: string, c: string, d: string)
    ensures a + (b + c + d) == (a + b) + c + d
  {
  }

  lemma RegroupTail(x: string, w: string, y: string)
    requires x != []
    ensures x + w + y == x + (w + y)
    ensures x[1..] + (w + y) == x[1..] + w + y
    ensures x[1..] == [] || x[1..][|x[1..]| - 1] == x[|x| - 1]
  {
  }

  /** A replacement begins with a blank run as one `rep`. */
  lemma ReplaceRunAtStart(w: string, y: string, rep: char)
    requires w != [] && IsBlank(w)
    requires y == [] || !IsWhitespace(y[0])
    ensures ReplaceWhitespaceRuns(w + y, rep) == [rep] + ReplaceWhitespaceRuns(y, rep)
  {
    assert (w + y)[0] == w[0] && (w + y)[1..] == w[1..] + y;
    TrimStartOfBlankPrefix(w[1..], y);
  }

  /** A replacement copies a first character that is not white space,
      whatever follows it. */
  lemma ReplaceKeepsHead(x: string, rest: string, rep: char)
    requires x != [] && !IsWhitespace(x[0])
    ensures ReplaceWhitespaceRuns(x + rest, rep) == [x[0]] + ReplaceWhitespaceRuns(x[1..] + rest, rep)
    ensures ReplaceWhitespaceRuns(x, rep) == [x[0]] + ReplaceWhitespaceRuns(x[1..], rep)
  {
    HeadOfAppend(x, rest);
  }

  /** A replacement turns a run at the start of `x` that ends inside `x` into
      one `rep`, whatever follows `x`. */
  lemma ReplaceRunInHead(x: string, rest: string, rep: char)
    requires x != [] && IsWhitespace(x[0]) && TrimStart(x[1..]) != []
    ensures ReplaceWhitespaceRuns(x + rest, rep) == [rep] + ReplaceWhitespaceRuns(TrimStart(x[1..]) + rest, rep)
    ensures ReplaceWhitespaceRuns(x, rep) == [rep] + ReplaceWhitespaceRuns(TrimStart(x[1..]), rep)
  {
    HeadOfAppend(x, rest);
    TrimStartAppend(x[1..], rest);
    ReplaceUnfoldRun(x + rest, rep);
  }

  lemma HeadOfAppend(x: string, rest: string)
    requires x != []
    ensures x + rest != [] && (x + rest)[0] == x[0] && (x + rest)[1..] == x[1..] + rest
  {
  }

  lemma ReplaceUnfoldRun(s: string, rep: char)
    requires s != [] && IsWhitespace(s[0])
    ensures ReplaceWhitespaceRuns(s, rep) == [rep] + ReplaceWhitespaceRuns(TrimStart(s[1..]), rep)
  {
  }

  /** Trimming the start of text that does not end in white space keeps its
      last character. */
  lemma TrimStartKeepsLast(a: string)
    requires a != [] && !IsWhitespace(a[|a| - 1])
    ensures TrimStart(a) != [] && TrimStart(a)[|TrimStart(a)| - 1] == a[|a| - 1]
  {
    var t := TrimStart(a);
    assert a[..|a|] == a;
    assert !IsBlank(a[..|a|]);
    assert |t| != 0;
    assert t == a[|a| - |t|..];
    assert a[|a| - |t|..][|t| - 1] == a[|a| - 1];
  }

  /** One maximal run of white space, between text that does not end in
      white space and text that does not start with it, becomes exactly one
      `rep` in its place. */
  lemma {:induction false} ReplaceWhitespaceRun(x: string, w: string, y: string, rep: char)
    requires w != [] && IsBlank(w)
    requires x == [] || !IsWhitespace(x[|x| - 1])
    requires y == [] || !IsWhitespace(y[0])
    ensures ReplaceWhitespaceRuns(x + w + y, rep) == ReplaceWhitespaceRuns(x, rep) + [rep] + ReplaceWhitespaceRuns(y, rep)
    decreases |x|, 1
  {
    if x == [] {
      assert x + w + y == w + y;
      ReplaceRunAtStart(w, y, rep);
    } else if IsWhitespace(x[0]) {
      ReplaceWhitespaceRunAfterRun(x, w, y, rep);
    } else {
      ReplaceWhitespaceRunAfterText(x, w, y, rep);
    }
  }

  /** The same, with a suffix `t` after the replacement. */
  lemma ReplaceWhitespaceRunThen(x: string, w: string, y: string, rep: char, t: string)
    requires w != [] && IsBlank(w)
    requires x == [] || !IsWhitespace(x[|x| - 1])
    requires y == [] || !IsWhitespace(y[0])
    ensures ReplaceWhitespaceRuns(x + w + y, rep) + t == ReplaceWhitespaceRuns(x, rep) + [rep] + (ReplaceWhitespaceRuns(y, rep) + t)
  {
    ReplaceWhitespaceRun(x, w, y, rep);
  }

  lemma {:induction false} ReplaceWhitespaceRunAfterRun(x: string, w: string, y: string, rep: char)
    requires w != [] && IsBlank(w)
    requires x != [] && IsWhitespace(x[0]) && !IsWhitespace(x[|x| - 1])
    requires y == [] || !IsWhitespace(y[0])
    ensures ReplaceWhitespaceRuns(x + w + y, rep) == ReplaceWhitespaceRuns(x, rep) + [rep] + ReplaceWhitespaceRuns(y, rep)
    decreases |x|, 0
  {
    RegroupTail(x, w, y);
    TrimStartKeepsLast(x[1..]);
    var t := TrimStart(x[1..]);
    ReplaceRunInHead(x, w + y, rep);
    RegroupTail([rep] + t, w, y);
    assert ([rep] + t)[1..] == t;
    ReplaceWhitespaceRun(t, w, y, rep);
    RegroupFront([rep], ReplaceWhitespaceRuns(t, rep), [rep], ReplaceWhitespaceRuns(y, rep));
  }

  lemma {:induction false} ReplaceWhitespaceRunAfterText(x: string, w: string, y: string, rep: char)
    requires w != [] && IsBlank(w)
    requires x != [] && !IsWhitespace(x[0]) && !IsWhitespace(x[|x| - 1])
    requires y == [] || !IsWhitespace(y[0])
    ensures ReplaceWhitespaceRuns(x + w + y, rep) == ReplaceWhitespaceRuns(x, rep) + [rep] + ReplaceWhitespaceRuns(y, rep)
    decreases |x|, 0
  {
    RegroupTail(x, w, y);
    ReplaceKeepsHead(x, w + y, rep);
    ReplaceWhitespaceRun(x[1..], w, y, rep);
    RegroupFront([x[0]], ReplaceWhitespaceRuns(x[1..], rep), [rep], ReplaceWhitespaceRuns(y, rep));
  }

  /** A string without white space is left as it is. */
  lemma {:induction false} ReplaceWhitespaceRunsIdentity(s: string, rep: char)
    requires forall i :: 0 <= i < |s| ==> !IsWhitespace(s[i])
    ensures ReplaceWhitespaceRuns(s, rep) == s
    decreases |s|
  {
    if s != [] {
      ReplaceWhitespaceRunsIdentity(s[1..], rep);
      assert [s[0]] + s[1..] == s;
    }
  }
}
