/**
 * The pieces of Python's `str` and slice behaviour the modelled code relies on:
 * `sep.join`, `str.split`, `str.replace`, `str.strip`, `str(int)`, `s[a:]`, `s[:b]`
 * and the `'{0:<w}'` left-aligned padding.
 */
module PyStr {

  /** `sep.join(parts)`. */
  function Join(sep: string, parts: seq<string>): string
  {
    if |parts| == 0 then ""
    else if |parts| == 1 then parts[0]
    else parts[0] + sep + Join(sep, parts[1..])
  }

  /** The index Python uses for a slice bound `i` on a sequence of length `n`. */
  function SliceIndex(i: int, n: nat): (k: nat)
    ensures k <= n
    ensures 0 <= i <= n ==> k == i
    ensures i < 0 && -i <= n ==> k == n + i
  {
    if i < 0 then (if n + i < 0 then 0 else n + i)
    else if i > n then n
    else i
  }

  /** `s[start:]` */
  function SliceFrom<T>(s: seq<T>, start: int): seq<T>
  {
    s[SliceIndex(start, |s|)..]
  }

  /** `s[:stop]` */
  function SliceTo<T>(s: seq<T>, stop: int): seq<T>
  {
    s[..SliceIndex(stop, |s|)]
  }

  /** `s[-k:]` with `k > 0` keeps the last `min(k, |s|)` elements. */
  lemma TakeLast<T>(s: seq<T>, k: int)
    requires k > 0
    ensures |SliceFrom(s, -k)| == if k < |s| then k else |s|
    ensures SliceFrom(s, -k) == s[|s| - |SliceFrom(s, -k)|..]
  {
  }

  /** Taking the last `k` twice is taking them once. */
  lemma TakeLastTwice<T>(s: seq<T>, k: int)
    requires k > 0
    ensures SliceFrom(SliceFrom(s, -k), -k) == SliceFrom(s, -k)
  {
    TakeLast(s, k);
    TakeLast(SliceFrom(s, -k), k);
  }

  function DigitChar(d: nat): char
    requires d < 10
  {
    "0123456789"[d]
  }

  predicate IsDigit(c: char)
  {
    '0' <= c <= '9'
  }

  /** `str(n)` for a natural number. */
  function NatToString(n: nat): (r: string)
    ensures |r| >= 1 && forall i :: 0 <= i < |r| ==> IsDigit(r[i])
  {
    if n < 10 then [DigitChar(n)] else NatToString(n / 10) + [DigitChar(n % 10)]
  }

  /** `str(i)` / `'%d' % i` for an integer. */
  function IntToString(i: int): string
  {
    if i < 0 then "-" + NatToString(-i) else NatToString(i)
  }

  /** Every nat has a different decimal text. */
  lemma {:induction false} NatToStringInjective(m: nat, n: nat)
    requires NatToString(m) == NatToString(n)
    ensures m == n
  {
    var a, b := NatToString(m), NatToString(n);
    if m < 10 && n < 10 {
      assert DigitChar(m) == a[0] == DigitChar(n);
    } else if m >= 10 && n >= 10 {
      assert NatToString(m / 10) == a[..|a| - 1] == b[..|b| - 1] == NatToString(n / 10);
      NatToStringInjective(m / 10, n / 10);
      assert DigitChar(m % 10) == a[|a| - 1] == DigitChar(n % 10);
      DigitCharInjective(m % 10, n % 10);
      SameDecimalDigits(m, n);
    }
  }

  lemma DigitCharInjective(d: nat, e: nat)
    requires d < 10 && e < 10 && DigitChar(d) == DigitChar(e)
    ensures d == e
  {
  }

  lemma SameDecimalDigits(m: nat, n: nat)
    requires m / 10 == n / 10 && m % 10 == n % 10
    ensures m == n
  {
    assert m == 10 * (m / 10) + m % 10;
    assert n == 10 * (n / 10) + n % 10;
  }

  /**
   * `s.replace(pat, rep)`: the leftmost occurrence is replaced first and the scan
   * continues after the replaced text, so occurrences never overlap.
   */
  function ReplaceAll(s: string, pat: string, rep: string): string
    requires |pat| > 0
    decreases |s|
  {
    if |s| < |pat| then s
    else if s[..|pat|] == pat then rep + ReplaceAll(s[|pat|..], pat, rep)
    else [s[0]] + ReplaceAll(s[1..], pat, rep)
  }

  /** A string without the pattern's first character is left as it is. */
  lemma {:induction false} ReplaceAbsent(s: string, pat: string, rep: string)
    requires |pat| > 0 && pat[0] !in s
    ensures ReplaceAll(s, pat, rep) == s
    decreases |s|
  {
    if |s| >= |pat| {
      assert s[..|pat|] != pat by { assert s[0] != pat[0]; }
      ReplaceAbsent(s[1..], pat, rep);
    }
  }

  /** A prefix free of the pattern's first character passes through untouched. */
  lemma {:induction false} ReplaceAfterClean(x: string, y: string, pat: string, rep: string)
    requires |pat| > 0 && pat[0] !in x
    ensures ReplaceAll(x + y, pat, rep) == x + ReplaceAll(y, pat, rep)
    decreases |x|
  {
    if x != [] {
      var s := x + y;
      assert s[0] == x[0] && s[1..] == x[1..] + y;
      ReplaceSkipsFirst(s, pat, rep);
      ReplaceAfterClean(x[1..], y, pat, rep);
      assert x == [x[0]] + x[1..];
    } else {
      assert x + y == y;
    }
  }

  /** A string whose first character cannot start the pattern keeps that character in front. */
  /** Where the pattern does not start, the first character is kept. */
  lemma ReplaceSkipsMismatch(s: string, pat: string, rep: string)
    requires |pat| > 0 && s != []
    requires |pat| <= |s| ==> s[..|pat|] != pat
    ensures ReplaceAll(s, pat, rep) == [s[0]] + ReplaceAll(s[1..], pat, rep)
  {
    if |s| < |pat| {
      assert |s[1..]| < |pat|;
      assert [s[0]] + s[1..] == s;
    }
  }

  lemma ReplaceSkipsFirst(s: string, pat: string, rep: string)
    requires |pat| > 0 && s != [] && s[0] != pat[0]
    ensures ReplaceAll(s, pat, rep) == [s[0]] + ReplaceAll(s[1..], pat, rep)
  {
    if |s| >= |pat| {
      assert s[..|pat|] != pat by { assert s[..|pat|][0] != pat[0]; }
    }
  }

  /** `s.split(sep)` for a non-empty separator. */
  function Split(s: string, sep: string): (r: seq<string>)
    requires |sep| > 0
    ensures |r| >= 1
    decreases |s|
  {
    if |s| < |sep| then [s]
    else if s[..|sep|] == sep then [""] + Split(s[|sep|..], sep)
    else
      var rest := Split(s[1..], sep);
      [[s[0]] + rest[0]] + rest[1..]
  }

  lemma JoinCons(sep: string, p: string, ps: seq<string>)
    requires |ps| >= 1
    ensures Join(sep, [p] + ps) == p + sep + Join(sep, ps)
  {
    assert ([p] + ps)[1..] == ps;
  }

  /** Splitting and joining back with the same separator gives the original string. */
  lemma {:induction false} JoinSplit(s: string, sep: string)
    requires |sep| > 0
    ensures Join(sep, Split(s, sep)) == s
    decreases |s|
  {
    if |s| < |sep| {
    } else if s[..|sep|] == sep {
      JoinSplit(s[|sep|..], sep);
      JoinSplitAtSep(s, sep, s[|sep|..], Split(s[|sep|..], sep));
    } else {
      JoinSplit(s[1..], sep);
      JoinPrepend(sep, s[0], Split(s[1..], sep));
      assert s == [s[0]] + s[1..];
    }
  }

  lemma JoinSplitAtSep(s: string, sep: string, tail: string, rest: seq<string>)
    requires |sep| > 0 && |rest| >= 1 && s == sep + tail && Join(sep, rest) == tail
    ensures Join(sep, [""] + rest) == s
  {
    JoinCons(sep, "", rest);
  }

  /** Prepending a character to the first piece prepends it to the joined text. */
  lemma JoinPrepend(sep: string, c: char, rest: seq<string>)
    requires |rest| >= 1
    ensures Join(sep, [[c] + rest[0]] + rest[1..]) == [c] + Join(sep, rest)
  {
    if |rest| > 1 {
      JoinCons(sep, [c] + rest[0], rest[1..]);
      JoinCons(sep, rest[0], rest[1..]);
      assert rest == [rest[0]] + rest[1..];
    }
  }

  /** Splitting on one character gives pieces that do not contain it. */
  lemma {:induction false} SplitPiecesClean(s: string, c: char)
    ensures forall i :: 0 <= i < |Split(s, [c])| ==> c !in Split(s, [c])[i]
    decreases |s|
  {
    if |s| >= 1 {
      if s[..1] == [c] {
        SplitPiecesClean(s[1..], c);
      } else {
        SplitPiecesClean(s[1..], c);
        var rest := Split(s[1..], [c]);
        assert s[0] != c;
        assert forall i :: 1 <= i < |Split(s, [c])| ==> Split(s, [c])[i] == rest[i];
      }
    }
  }

  /** A string without the separator splits into itself alone. */
  lemma {:induction false} SplitAbsent(s: string, c: char)
    requires c !in s
    ensures Split(s, [c]) == [s]
    decreases |s|
  {
    if |s| >= 1 {
      assert s[..1] != [c] by { assert s[0] != c; }
      SplitAbsent(s[1..], c);
      assert s == [s[0]] + s[1..];
    }
  }

  /** A piece free of the separator followed by the separator splits off as the first piece. */
  lemma {:induction false} SplitClean(x: string, y: string, c: char)
    requires c !in x
    ensures Split(x + [c] + y, [c]) == [x] + Split(y, [c])
    decreases |x|
  {
    var s := x + [c] + y;
    if x == [] {
      assert s[..1] == [c] && s[1..] == y;
    } else {
      assert s[..1] != [c] by { assert s[0] == x[0] != c; }
      assert s[1..] == x[1..] + [c] + y;
      SplitClean(x[1..], y, c);
      assert [s[0]] + x[1..] == x;
    }
  }

  /**
   * Joining pieces that do not contain `c` and splitting the result on `c` gives
   * the pieces back: `Split` undoes `Join`.
   */
  lemma {:induction false} SplitJoin(parts: seq<string>, c: char)
    requires |parts| >= 1 && forall i :: 0 <= i < |parts| ==> c !in parts[i]
    ensures Split(Join([c], parts), [c]) == parts
  {
    if |parts| == 1 {
      SplitAbsent(parts[0], c);
    } else {
      SplitJoin(parts[1..], c);
      SplitClean(parts[0], Join([c], parts[1..]), c);
      assert parts == [parts[0]] + parts[1..];
    }
  }

  /** Joining a concatenation joins the two halves with one more separator. */
  lemma {:induction false} JoinAppend(sep: string, a: seq<string>, b: seq<string>)
    requires |a| >= 1 && |b| >= 1
    ensures Join(sep, a + b) == Join(sep, a) + sep + Join(sep, b)
  {
    if |a| == 1 {
      JoinCons(sep, a[0], b);
      assert [a[0]] + b == a + b;
    } else {
      JoinAppend(sep, a[1..], b);
      assert (a + b)[1..] == a[1..] + b;
      assert (a + b)[0] == a[0];
    }
  }

  /** Every underscore of `r` directly follows a backslash. */
  predicate UnderscoresEscapedIn(r: string)
  {
    forall i :: 0 <= i < |r| && r[i] == '_' ==> i > 0 && r[i - 1] == '\\'
  }

  /** After `replace('_', '\_')` every underscore is escaped by a backslash just before it. */
  lemma {:induction false} UnderscoresEscaped(s: string)
    ensures UnderscoresEscapedIn(ReplaceAll(s, "_", "\\_"))
    decreases |s|
  {
    if |s| >= 1 {
      UnderscoresEscaped(s[1..]);
      var rest := ReplaceAll(s[1..], "_", "\\_");
      if s[..1] == "_" {
        var r := ReplaceAll(s, "_", "\\_");
        assert r == "\\_" + rest;
        forall i | 2 <= i < |r| && r[i] == '_' ensures r[i - 1] == '\\' {
          assert r[i] == rest[i - 2];
          assert i - 2 > 0 && r[i - 1] == rest[i - 3];
        }
      } else {
        var r := ReplaceAll(s, "_", "\\_");
        assert r == [s[0]] + rest;
        assert s[0] != '_';
        forall i | 1 <= i < |r| && r[i] == '_' ensures r[i - 1] == '\\' {
          assert r[i] == rest[i - 1];
          assert i - 1 > 0 && r[i - 1] == rest[i - 2];
        }
      }
    }
  }

  predicate IsSpace(c: char)
  {
    c == ' ' || c == '\t' || c == '\n' || c == '\r' || c == '\U{B}' || c == '\U{C}'
    || c == '\U{1C}' || c == '\U{1D}' || c == '\U{1E}' || c == '\U{1F}'
  }

  /** `s.strip()` */
  function Strip(s: string): (r: string)
    ensures r == [] || (!IsSpace(r[0]) && !IsSpace(r[|r| - 1]))
    ensures forall i :: 0 <= i < |s| && !IsSpace(s[i]) ==> s[i] in r
    decreases |s|
  {
    if s == [] then s
    else if IsSpace(s[0]) then Strip(s[1..])
    else if IsSpace(s[|s| - 1]) then Strip(s[..|s| - 1])
    else s
  }

  /** `strip()` removes only leading and trailing characters: the result is a slice of the input. */
  lemma {:induction false} StripSlice(s: string)
    ensures exists i, j :: 0 <= i <= j <= |s| && Strip(s) == s[i..j]
    decreases |s|
  {
    if s == [] {
      assert Strip(s) == s[0..0];
    } else if IsSpace(s[0]) {
      StripSlice(s[1..]);
      var i, j :| 0 <= i <= j <= |s| - 1 && Strip(s[1..]) == s[1..][i..j];
      SliceOfTail(s, i, j);
    } else if IsSpace(s[|s| - 1]) {
      StripSlice(s[..|s| - 1]);
      var i, j :| 0 <= i <= j <= |s| - 1 && Strip(s[..|s| - 1]) == s[..|s| - 1][i..j];
      SliceOfInit(s, i, j);
    } else {
      assert Strip(s) == s[0..|s|];
    }
  }

  lemma SliceOfTail(s: string, i: nat, j: nat)
    requires i <= j <= |s| - 1
    ensures s[1..][i..j] == s[i + 1..j + 1]
  {
  }

  lemma SliceOfInit(s: string, i: nat, j: nat)
    requires i <= j <= |s| - 1
    ensures s[..|s| - 1][i..j] == s[i..j]
  {
  }



  function Spaces(n: nat): (r: string)
    ensures |r| == n && forall i :: 0 <= i < n ==> r[i] == ' '
  {
    if n == 0 then "" else Spaces(n - 1) + " "
  }

  /** `'{0:<w}'.format(s)`: left-aligned, padded with spaces to at least `w` characters. */
  function PadRight(s: string, w: int): (r: string)
    ensures |r| == if |s| < w then w else |s|
    ensures r[..|s|] == s
    ensures forall i :: |s| <= i < |r| ==> r[i] == ' '
  {
    if |s| < w then s + Spaces(w - |s|) else s
  }

  /** `s.count(c)` for one character. */
  function Count(s: string, c: char): nat
  {
    if s == [] then 0 else (if s[0] == c then 1 else 0) + Count(s[1..], c)
  }
}
