/**
  The JavaScript string operations the pipeline relies on: `split` on one
  character, `split(/\s+/)`, `join`, ASCII case mapping and removal of
  characters.
 */
module Strings {

  /** Characters in the JavaScript regular-expression class `\s`. */
  predicate IsWs(c: char)
  {
    || c == ' ' || c == '\t' || c == '\n' || c == '\U{B}' || c == '\U{C}' || c == '\r'
    || c == '\U{A0}' || c == '\U{1680}' || ('\U{2000}' <= c <= '\U{200A}')
    || c == '\U{2028}' || c == '\U{2029}' || c == '\U{202F}' || c == '\U{205F}'
    || c == '\U{3000}' || c == '\U{FEFF}'
  }

  predicate NoWs(s: string)
  {
    forall i :: 0 <= i < |s| ==> !IsWs(s[i])
  }

  /** A string of ASCII letters holds no whitespace. */
  lemma LettersNoWs(s: string)
    requires forall i :: 0 <= i < |s| ==> 'a' <= s[i] <= 'z' || 'A' <= s[i] <= 'Z'
    ensures NoWs(s)
  {
  }

  /** Number of occurrences of `c` in `s`. */
  function Count(s: string, c: char): nat
  {
    if |s| == 0 then 0 else (if s[0] == c then 1 else 0) + Count(s[1..], c)
  }

  /** `xs.join(sep)`. */
  function Join(xs: seq<string>, sep: string): string
  {
    if |xs| == 0 then ""
    else if |xs| == 1 then xs[0]
    else xs[0] + sep + Join(xs[1..], sep)
  }

  /** `s.split(c)` for a one-character separator: the pieces between occurrences of `c`. */
  function Split(s: string, c: char): (r: seq<string>)
    ensures |r| == Count(s, c) + 1
    ensures forall k :: 0 <= k < |r| ==> c !in r[k]
  {
    if |s| == 0 then [""]
    else if s[0] == c then [""] + Split(s[1..], c)
    else
      var t := Split(s[1..], c);
      [[s[0]] + t[0]] + t[1..]
  }

  lemma {:induction false} SplitWithout(s: string, c: char)
    requires c !in s
    ensures Split(s, c) == [s]
  {
    if |s| > 0 {
      assert c !in s[1..];
      SplitWithout(s[1..], c);
      assert [s[0]] + s[1..] == s;
    }
  }

  lemma {:induction false} SplitAfterPiece(x: string, c: char, y: string)
    requires c !in x
    ensures Split(x + [c] + y, c) == [x] + Split(y, c)
  {
    if |x| == 0 {
      assert x + [c] + y == [c] + y;
      assert ([c] + y)[1..] == y;
    } else {
      assert (x + [c] + y)[1..] == x[1..] + [c] + y;
      assert c !in x[1..];
      SplitAfterPiece(x[1..], c, y);
      assert [x[0]] + x[1..] == x;
    }
  }

  /** Splitting a joined list gives the list back, when no piece holds the separator. */
  lemma {:induction false} SplitJoin(xs: seq<string>, c: char)
    requires |xs| >= 1
    requires forall k :: 0 <= k < |xs| ==> c !in xs[k]
    ensures Split(Join(xs, [c]), c) == xs
  {
    if |xs| == 1 {
      SplitWithout(xs[0], c);
    } else {
      SplitJoin(xs[1..], c);
      SplitAfterPiece(xs[0], c, Join(xs[1..], [c]));
      assert [xs[0]] + xs[1..] == xs;
    }
  }

  lemma {:induction false} JoinConsHead(a: char, t: seq<string>, sep: string)
    requires |t| >= 1
    ensures Join([[a] + t[0]] + t[1..], sep) == [a] + Join(t, sep)
  {
    var u := [[a] + t[0]] + t[1..];
    assert u[1..] == t[1..];
  }

  /** Joining the pieces of a split with the separator gives the text back. */
  lemma {:induction false} JoinSplit(s: string, c: char)
    ensures Join(Split(s, c), [c]) == s
  {
    if |s| > 0 {
      JoinSplit(s[1..], c);
      if s[0] == c {
        var t := Split(s[1..], c);
        assert ([""] + t)[1..] == t;
        assert [s[0]] + s[1..] == s;
      } else {
        var t := Split(s[1..], c);
        JoinConsHead(s[0], t, [c]);
        assert [s[0]] + s[1..] == s;
      }
    }
  }

  /** `s` with its leading run of whitespace removed. */
  function SkipWs(s: string): (r: string)
    ensures |r| <= |s|
    ensures |s| > 0 && IsWs(s[0]) ==> |r| < |s|
    ensures |r| > 0 ==> !IsWs(r[0])
    ensures forall i :: 0 <= i < |s| - |r| ==> IsWs(s[i])
    ensures r == s[|s| - |r|..]
  {
    if |s| > 0 && IsWs(s[0]) then SkipWs(s[1..]) else s
  }

  /**
    `s.split(/\s+/)`: the pieces between maximal runs of whitespace. A leading
    or trailing run yields an empty first or last piece, and the empty string
    yields one empty piece.
   */
  function SplitWs(s: string): (r: seq<string>)
    ensures |r| >= 1
    ensures forall k :: 0 <= k < |r| ==> NoWs(r[k])
    decreases |s|
  {
    if |s| == 0 then [""]
    else if IsWs(s[0]) then [""] + SplitWs(SkipWs(s))
    else
      var t := SplitWs(s[1..]);
      [[s[0]] + t[0]] + t[1..]
  }

  lemma {:induction false} SplitWsWithout(s: string)
    requires NoWs(s)
    ensures SplitWs(s) == [s]
  {
    if |s| > 0 {
      SplitWsWithout(s[1..]);
      assert [s[0]] + s[1..] == s;
    }
  }

  /** `s` consists of whitespace only. */
  predicate AllWs(s: string)
  {
    forall i :: 0 <= i < |s| ==> IsWs(s[i])
  }

  /** Skipping a run of whitespace stops at the first character that is not whitespace. */
  lemma {:induction false} SkipWsRun(w: string, y: string)
    requires AllWs(w)
    requires |y| == 0 || !IsWs(y[0])
    ensures SkipWs(w + y) == y
  {
    if |w| == 0 {
      assert w + y == y;
    } else {
      assert (w + y)[0] == w[0];
      assert (w + y)[1..] == w[1..] + y;
      SkipWsRun(w[1..], y);
    }
  }

  /** A leading run of whitespace, of any length and any mix of whitespace characters, yields one empty first piece. */
  lemma SplitWsLeading(w: string, y: string)
    requires |w| > 0 && AllWs(w)
    requires |y| == 0 || !IsWs(y[0])
    ensures SplitWs(w + y) == [""] + SplitWs(y)
  {
    assert (w + y)[0] == w[0];
    SkipWsRun(w, y);
  }

  /**
    A piece followed by a run of whitespace of any length and any mix of
    whitespace characters is split off as one piece; with `y` empty this is
    the trailing case, which leaves an empty last piece.
   */
  lemma {:induction false} SplitWsAfterRun(x: string, w: string, y: string)
    requires NoWs(x)
    requires |w| > 0 && AllWs(w)
    requires |y| == 0 || !IsWs(y[0])
    ensures SplitWs(x + w + y) == [x] + SplitWs(y)
  {
    if |x| == 0 {
      assert x + w + y == w + y;
      SplitWsLeading(w, y);
    } else {
      assert (x + w + y)[0] == x[0];
      assert (x + w + y)[1..] == x[1..] + w + y;
      SplitWsAfterRun(x[1..], w, y);
      assert [x[0]] + x[1..] == x;
    }
  }

  /**
    Splitting on whitespace undoes joining with single spaces, when no piece
    holds whitespace and no piece other than the first and the last is empty.
   */
  lemma {:induction false} SplitWsJoin(xs: seq<string>)
    requires |xs| >= 1
    requires forall k :: 0 <= k < |xs| ==> NoWs(xs[k])
    requires forall k :: 0 < k < |xs| - 1 ==> xs[k] != ""
    ensures SplitWs(Join(xs, " ")) == xs
  {
    if |xs| == 1 {
      SplitWsWithout(xs[0]);
    } else {
      SplitWsJoin(xs[1..]);
      var y := Join(xs[1..], " ");
      if |xs| > 2 {
        assert xs[1] != "";
        assert y == xs[1] + " " + Join(xs[2..], " ");
        assert y[0] == xs[1][0];
      }
      SplitWsAfterRun(xs[0], " ", y);
      assert [xs[0]] + xs[1..] == xs;
    }
  }

  function LowerChar(c: char): char
  {
    if 'A' <= c <= 'Z' then (c as int + 32) as char else c
  }

  function UpperChar(c: char): char
  {
    if 'a' <= c <= 'z' then (c as int - 32) as char else c
  }

  /** `s.toLowerCase()`, for the ASCII letters. */
  function ToLower(s: string): (r: string)
    ensures |r| == |s|
    ensures NoUpper(r)
    ensures forall i :: 0 <= i < |s| ==> r[i] == LowerChar(s[i])
  {
    seq(|s|, i requires 0 <= i < |s| => LowerChar(s[i]))
  }

  /** `s.toUpperCase()`, for the ASCII letters. */
  function ToUpper(s: string): (r: string)
    ensures |r| == |s|
    ensures NoLower(r)
    ensures forall i :: 0 <= i < |s| ==> r[i] == UpperChar(s[i])
  {
    seq(|s|, i requires 0 <= i < |s| => UpperChar(s[i]))
  }

  /** `s` holds no lower-case letter. */
  predicate NoLower(s: string)
  {
    forall i :: 0 <= i < |s| ==> !('a' <= s[i] <= 'z')
  }

  /** `s` holds no upper-case letter. */
  predicate NoUpper(s: string)
  {
    forall i :: 0 <= i < |s| ==> !('A' <= s[i] <= 'Z')
  }

  /** A string equals its upper-casing exactly when it holds no lower-case letter. */
  lemma UpperFixedIffNoLower(s: string)
    ensures ToUpper(s) == s <==> NoLower(s)
  {
    if NoLower(s) {
      assert forall i :: 0 <= i < |s| ==> ToUpper(s)[i] == s[i];
    }
    if ToUpper(s) == s {
      forall i | 0 <= i < |s|
        ensures !('a' <= s[i] <= 'z')
      {
        assert ToUpper(s)[i] == UpperChar(s[i]);
      }
    }
  }

  /** Lower-casing twice is lower-casing once. */
  lemma LowerIdempotent(s: string)
    ensures ToLower(ToLower(s)) == ToLower(s)
  {
  }

  /** Upper-casing twice is upper-casing once. */
  lemma UpperIdempotent(s: string)
    ensures ToUpper(ToUpper(s)) == ToUpper(s)
  {
  }

  /** Lower-casing first does not change the upper-cased text, nor upper-casing first the lower-cased one. */
  lemma CaseMapsAgree(s: string)
    ensures ToUpper(ToLower(s)) == ToUpper(s)
    ensures ToLower(ToUpper(s)) == ToLower(s)
  {
  }

  /** `s.replace(/[...]+/g, '')`: `s` with every character of `cs` deleted. */
  function RemoveAll(s: string, cs: set<char>): (r: string)
    ensures |r| <= |s|
    ensures forall c :: c in r <==> c in s && c !in cs
  {
    if |s| == 0 then ""
    else if s[0] in cs then RemoveAll(s[1..], cs)
    else
      [s[0]] + RemoveAll(s[1..], cs)
  }

  /** Removing characters from a string with none of them leaves it unchanged. */
  lemma {:induction false} RemoveAllAbsent(s: string, cs: set<char>)
    requires forall c :: c in cs ==> c !in s
    ensures RemoveAll(s, cs) == s
  {
    if |s| > 0 {
      assert s[0] in s;
      assert s[0] !in cs;
      RemoveAllAbsent(s[1..], cs);
      assert [s[0]] + s[1..] == s;
    }
  }

  /** Removal works piecewise: removing from a concatenation concatenates the removals. */
  lemma {:induction false} RemoveAllAppend(a: string, b: string, cs: set<char>)
    ensures RemoveAll(a + b, cs) == RemoveAll(a, cs) + RemoveAll(b, cs)
  {
    if |a| == 0 {
      assert a + b == b;
    } else {
      assert (a + b)[0] == a[0];
      assert (a + b)[1..] == a[1..] + b;
      RemoveAllAppend(a[1..], b, cs);
      if a[0] !in cs {
        assert [a[0]] + (RemoveAll(a[1..], cs) + RemoveAll(b, cs))
            == ([a[0]] + RemoveAll(a[1..], cs)) + RemoveAll(b, cs);
      }
    }
  }

  /** A single character is deleted when it is in `cs` and kept otherwise. */
  lemma RemoveAllChar(c: char, cs: set<char>)
    ensures RemoveAll([c], cs) == if c in cs then "" else [c]
  {
    assert [c][1..] == "";
  }

  /** Whether `s` begins with `p`. */
  predicate StartsWith(s: string, p: string)
  {
    |p| <= |s| && s[..|p|] == p
  }
}
