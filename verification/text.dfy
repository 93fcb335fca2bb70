/** Character-level helpers shared by the segmenter, the prompt builder and the
    JSON normaliser: Python's whitespace test, `str.strip`, `str.split('\n')`
    and `sep.join(parts)`. */
module Text {

  /** The characters for which Python's `str.isspace()` holds; a `\s` in a
      `str` regular expression matches exactly these. */
  predicate IsSpace(c: char) {
    || c == ' '
    || ('\t' <= c <= '\r')
    || ('\U{1C}' <= c <= '\U{1F}')
    || c == '\U{85}' || c == '\U{A0}' || c == '\U{1680}'
    || ('\U{2000}' <= c <= '\U{200A}')
    || c == '\U{2028}' || c == '\U{2029}' || c == '\U{202F}' || c == '\U{205F}'
    || c == '\U{3000}'
  }

  predicate AllSpace(s: string) {
    forall i :: 0 <= i < |s| ==> IsSpace(s[i])
  }

  /** Neither end of `s` is whitespace: what `str.strip()` leaves. */
  predicate IsStripped(s: string) {
    s == [] || (!IsSpace(s[0]) && !IsSpace(s[|s| - 1]))
  }

  /** Length of the longest prefix of `s` whose characters all satisfy `p`. */
  function RunLength(s: string, p: char -> bool): (n: nat)
    ensures n <= |s|
    ensures forall i :: 0 <= i < n ==> p(s[i])
    ensures n < |s| ==> !p(s[n])
  {
    if |s| > 0 && p(s[0]) then 1 + RunLength(s[1..], p) else 0
  }

  /** Length of the longest whitespace suffix of `s`. */
  function TrailingSpaces(s: string): (n: nat)
    ensures n <= |s|
    ensures forall i :: |s| - n <= i < |s| ==> IsSpace(s[i])
    ensures n < |s| ==> !IsSpace(s[|s| - 1 - n])
  {
    if |s| > 0 && IsSpace(s[|s| - 1]) then
      var n := TrailingSpaces(s[..|s| - 1]);
      assert forall i :: |s| - 1 - n <= i < |s| - 1 ==> s[..|s| - 1][i] == s[i];
      1 + n
    else 0
  }

  /** `s.strip()`: `s` without its leading and trailing whitespace. */
  function Strip(s: string): (r: string)
    ensures IsStripped(r)
    ensures |r| <= |s|
    ensures r == [] <==> AllSpace(s)
    ensures IsStripped(s) ==> r == s
  {
    var a := RunLength(s, IsSpace);
    if a == |s| then []
    else
      var z := TrailingSpaces(s);
      assert !IsSpace(s[a]);
      assert z < |s| - a;
      s[a..|s| - z]
  }

  /** `r` is `s` with some whitespace cut from its front and its back. */
  ghost predicate TrimmedFrom(r: string, s: string) {
    exists a :: 0 <= a <= |s| - |r| && r == s[a..a + |r|]
                && AllSpace(s[..a]) && AllSpace(s[a + |r|..])
  }

  /** Stripping cuts only whitespace, and only from the two ends. Together
      with `IsStripped(Strip(s))` this fixes the result, as
      `TrimmedStrippedIsStrip` shows. */
  lemma StripCutsEnds(s: string)
    ensures TrimmedFrom(Strip(s), s)
  {
    var a := RunLength(s, IsSpace);
    if a == |s| {
      assert s[..a] == s && s[a..a] == [] && s[a..] == [];
      assert Strip(s) == s[a..a];
    } else {
      var z := TrailingSpaces(s);
      assert !IsSpace(s[a]);
      var r := Strip(s);
      assert r == s[a..|s| - z];
      var front, back := s[..a], s[|s| - z..];
      assert AllSpace(front) by {
        forall i | 0 <= i < |front| ensures IsSpace(front[i]) {
          assert front[i] == s[i];
        }
      }
      assert AllSpace(back) by {
        forall i | 0 <= i < |back| ensures IsSpace(back[i]) {
          assert back[i] == s[|s| - z + i];
        }
      }
      assert a + |r| == |s| - z;
    }
  }

  /** Conversely, a stripped text cut from `s` that way is `Strip(s)`. */
  lemma TrimmedStrippedIsStrip(r: string, s: string)
    requires TrimmedFrom(r, s) && IsStripped(r)
    ensures r == Strip(s)
  {
    var t := Strip(s);
    StripCutsEnds(s);
    var a := StrippedPiece(r, s);
    var b := StrippedPiece(t, s);
    if |r| > 0 {
      assert a == b && |r| == |t|;
    }
  }

  /** Where a piece trimmed from `s` starts, with the whitespace around it
      read off `s` itself. */
  lemma TrimStart(r: string, s: string) returns (a: nat)
    requires TrimmedFrom(r, s)
    ensures a + |r| <= |s| && r == s[a..a + |r|]
    ensures forall i :: 0 <= i < a ==> IsSpace(s[i])
    ensures forall i :: a + |r| <= i < |s| ==> IsSpace(s[i])
  {
    a :| 0 <= a <= |s| - |r| && r == s[a..a + |r|]
         && AllSpace(s[..a]) && AllSpace(s[a + |r|..]);
    var front, back := s[..a], s[a + |r|..];
    forall i | 0 <= i < a ensures IsSpace(s[i]) {
      assert s[i] == front[i];
    }
    forall i | a + |r| <= i < |s| ensures IsSpace(s[i]) {
      assert s[i] == back[i - a - |r|];
    }
  }

  /** A stripped piece trimmed from `s` is empty exactly when `s` is all
      whitespace, and otherwise sits between the longest whitespace prefix
      and the longest whitespace suffix of `s`. */
  lemma StrippedPiece(r: string, s: string) returns (a: nat)
    requires TrimmedFrom(r, s) && IsStripped(r)
    ensures a + |r| <= |s| && r == s[a..a + |r|]
    ensures |r| == 0 <==> AllSpace(s)
    ensures |r| > 0 ==> a == RunLength(s, IsSpace) && a + |r| + TrailingSpaces(s) == |s|
  {
    a := TrimStart(r, s);
    if |r| == 0 {
      assert AllSpace(s);
    } else {
      assert r[0] == s[a] && r[|r| - 1] == s[a + |r| - 1];
    }
  }

  /** Stripping only removes characters. */
  lemma StripKeepsChars(s: string)
    ensures forall c :: c in Strip(s) ==> c in s
  {
    var a := RunLength(s, IsSpace);
    if a < |s| {
      var z := TrailingSpaces(s);
      assert !IsSpace(s[a]);
      var r := Strip(s);
      assert r == s[a..|s| - z];
      forall c | c in r ensures c in s {
        var i :| 0 <= i < |r| && r[i] == c;
        assert r[i] == s[a + i];
      }
    }
  }

  /** `s.split('\n')`: never empty, and no piece holds a line break. */
  function SplitLines(s: string): (lines: seq<string>)
    ensures |lines| >= 1
    ensures forall l :: l in lines ==> '\n' !in l
  {
    if |s| == 0 then [""]
    else
      var rest := SplitLines(s[1..]);
      if s[0] == '\n' then [""] + rest
      else [[s[0]] + rest[0]] + rest[1..]
  }

  /** Every line of a blank string is blank. */
  lemma {:induction false} SplitLinesBlank(s: string)
    requires AllSpace(s)
    ensures forall l :: l in SplitLines(s) ==> AllSpace(l)
  {
    if |s| > 0 {
      assert AllSpace(s[1..]) by {
        forall i | 0 <= i < |s| - 1 ensures IsSpace(s[1..][i]) {
          assert s[1..][i] == s[i + 1];
        }
      }
      SplitLinesBlank(s[1..]);
      var rest := SplitLines(s[1..]);
      assert rest[0] in rest;
      assert forall l :: l in rest[1..] ==> l in rest;
    }
  }

  /** `sep.join(parts)`. */
  function Join(parts: seq<string>, sep: string): string {
    if |parts| == 0 then ""
    else if |parts| == 1 then parts[0]
    else parts[0] + sep + Join(parts[1..], sep)
  }

  /** Joining the lines of `s` with line breaks gives `s` back. */
  lemma {:induction false} JoinSplitLines(s: string)
    ensures Join(SplitLines(s), "\n") == s
  {
    if |s| > 0 {
      var rest := SplitLines(s[1..]);
      JoinSplitLines(s[1..]);
      if s[0] == '\n' {
        assert ([""] + rest)[1..] == rest;
      } else if |rest| > 1 {
        var first := [[s[0]] + rest[0]] + rest[1..];
        assert SplitLines(s) == first;
        assert first[1..] == rest[1..];
        assert Join(first, "\n") == [s[0]] + (rest[0] + "\n" + Join(rest[1..], "\n"));
        assert Join(rest, "\n") == rest[0] + "\n" + Join(rest[1..], "\n");
        assert s == [s[0]] + s[1..];
      } else {
        assert SplitLines(s) == [[s[0]] + rest[0]];
        assert s == [s[0]] + s[1..];
      }
    }
  }

  /** Splitting `line + rest` where `line` holds no line break extends the
      first line of `rest`. */
  lemma {:induction false} SplitLinesPrefix(line: string, rest: string)
    requires '\n' !in line
    ensures SplitLines(line + rest)
         == [line + SplitLines(rest)[0]] + SplitLines(rest)[1..]
  {
    if |line| > 0 {
      assert (line + rest)[1..] == line[1..] + rest;
      assert '\n' !in line[1..] by {
        forall c | c in line[1..] ensures c != '\n' {
          assert c in line;
        }
      }
      SplitLinesPrefix(line[1..], rest);
      assert line[0] != '\n' by { assert line[0] in line; }
      var ls := SplitLines(rest);
      var inner := SplitLines(line[1..] + rest);
      assert inner == [line[1..] + ls[0]] + ls[1..];
      assert inner[1..] == ls[1..];
      assert [line[0]] + inner[0] == line + ls[0];
    } else {
      var ls := SplitLines(rest);
      assert line + rest == rest;
      assert line + ls[0] == ls[0];
      assert ls == [ls[0]] + ls[1..];
    }
  }

  /** Splitting the line-break join of break-free lines gives the lines back. */
  lemma {:induction false} SplitLinesJoin(lines: seq<string>)
    requires |lines| >= 1
    requires forall l :: l in lines ==> '\n' !in l
    ensures SplitLines(Join(lines, "\n")) == lines
  {
    assert lines[0] in lines;
    if |lines| == 1 {
      SplitLinesPrefix(lines[0], "");
      assert lines[0] + "" == lines[0];
    } else {
      var tail := lines[1..];
      assert forall l :: l in tail ==> l in lines;
      SplitLinesJoin(tail);
      SplitLinesBreak(lines[0], Join(tail, "\n"));
    }
  }

  /** A line, a break and the rest split into that line and the rest's lines. */
  lemma SplitLinesBreak(line: string, t: string)
    requires '\n' !in line
    ensures SplitLines(line + "\n" + t) == [line] + SplitLines(t)
  {
    assert line + "\n" + t == line + ("\n" + t);
    SplitLinesPrefix(line, "\n" + t);
    assert ("\n" + t)[1..] == t;
    var ls := SplitLines("\n" + t);
    assert ls == [""] + SplitLines(t);
    assert line + ls[0] == line;
    assert ls[1..] == SplitLines(t);
  }

  /** Joining a prefix of the parts never gives a longer string. */
  lemma {:induction false} JoinPrefixLength(p: seq<string>, q: seq<string>, sep: string)
    ensures |Join(p, sep)| <= |Join(p + q, sep)|
  {
    if |p| >= 2 {
      assert (p + q)[1..] == p[1..] + q;
      JoinPrefixLength(p[1..], q, sep);
    } else if |p| == 1 && |q| > 0 {
      assert (p + q)[0] == p[0];
    }
  }

  /** The first `n` elements of `s`, as Python's `s[:n]` for `n >= 0`. */
  function Take<T>(s: seq<T>, n: nat): (r: seq<T>)
    ensures |r| == if |s| < n then |s| else n
    ensures r == s[..|r|]
  {
    if |s| < n then s else s[..n]
  }
}
