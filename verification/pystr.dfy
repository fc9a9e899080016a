/**
 * Python `str` behaviour used throughout the tool: `strip`, ASCII
 * `lower`, `startswith`, `split` on one character, `join`, `str(int)`
 * and `int(str)`.
 */
module PyStr {
  import opened Base

  /** ASCII whitespace as `str.isspace` sees it, including the separators 0x1c-0x1f. */
  predicate IsSpace(c: char) {
    c == ' ' || ('\t' <= c <= '\r') || ('\U{1c}' <= c <= '\U{1f}')
  }

  predicate AllSpace(s: string) {
    forall i :: 0 <= i < |s| ==> IsSpace(s[i])
  }

  /** `s.lstrip()`: the longest suffix of `s` that does not start with whitespace. */
  function LStrip(s: string): (r: string)
    ensures |r| <= |s| && r == s[|s| - |r|..]
    ensures AllSpace(s[..|s| - |r|])
    ensures r == [] || !IsSpace(r[0])
  {
    if |s| > 0 && IsSpace(s[0]) then
      var t := s[1..];
      var r := LStrip(t);
      assert s[|s| - |r|..] == t[|t| - |r|..];
      var pre, tpre := s[..|s| - |r|], t[..|t| - |r|];
      forall i | 0 <= i < |pre|
        ensures IsSpace(pre[i])
      {
        if i > 0 {
          assert pre[i] == tpre[i - 1];
        }
      }
      r
    else s
  }

  /** `s.rstrip()`: the longest prefix of `s` that does not end with whitespace. */
  function RStrip(s: string): (r: string)
    ensures |r| <= |s| && r == s[..|r|]
    ensures AllSpace(s[|r|..])
    ensures r == [] || !IsSpace(r[|r| - 1])
  {
    if |s| > 0 && IsSpace(s[|s| - 1]) then
      var t := s[..|s| - 1];
      var r := RStrip(t);
      assert r == s[..|r|];
      var suf, tsuf := s[|r|..], t[|r|..];
      forall i | 0 <= i < |suf|
        ensures IsSpace(suf[i])
      {
        if i < |tsuf| {
          assert suf[i] == tsuf[i];
        }
      }
      r
    else s
  }

  /** `s.strip()`. */
  function Strip(s: string): (r: string)
    ensures |r| <= |s|
    ensures r == [] || (!IsSpace(r[0]) && !IsSpace(r[|r| - 1]))
  {
    RStrip(LStrip(s))
  }

  /** A string already free of outer whitespace is its own `strip()`. */
  predicate Stripped(s: string) {
    s == [] || (!IsSpace(s[0]) && !IsSpace(s[|s| - 1]))
  }

  lemma StripOfStripped(s: string)
    requires Stripped(s)
    ensures Strip(s) == s
  {
  }

  lemma StripIdempotent(s: string)
    ensures Strip(Strip(s)) == Strip(s)
  {
    StripOfStripped(Strip(s));
  }

  /** Stripping only looks past whitespace: a whitespace-only string strips to "". */
  lemma StripAllSpace(s: string)
    ensures AllSpace(s) <==> Strip(s) == []
  {
    var l := LStrip(s);
    if l != [] {
      assert l[0] == s[|s| - |l|];
      assert !AllSpace(s);
    }
    if Strip(s) == [] {
      assert AllSpace(l[0..]);
      assert l == [];
      assert s[..|s|] == s;
    }
  }

  /** Whitespace appended after a non-blank end is removed by `rstrip`. */
  lemma RStripAppendSpace(a: string, b: string)
    requires AllSpace(b)
    ensures RStrip(a + b) == RStrip(a)
    decreases |b|
  {
    if |b| > 0 {
      assert (a + b)[..|a + b| - 1] == a + b[..|b| - 1];
      RStripAppendSpace(a, b[..|b| - 1]);
    } else {
      assert a + b == a;
    }
  }

  /** A prefix in front of a non-blank string survives `rstrip` untouched. */
  lemma RStripPrefix(a: string, b: string)
    requires !AllSpace(b)
    ensures RStrip(a + b) == a + RStrip(b)
    decreases |b|
  {
    if IsSpace(b[|b| - 1]) {
      assert (a + b)[..|a + b| - 1] == a + b[..|b| - 1];
      assert !AllSpace(b[..|b| - 1]) by {
        var i :| 0 <= i < |b| && !IsSpace(b[i]);
        assert b[..|b| - 1][i] == b[i];
      }
      RStripPrefix(a, b[..|b| - 1]);
    }
  }

  lemma LStripPrefixed(a: string, b: string)
    requires |a| > 0 && !IsSpace(a[0])
    ensures LStrip(a + b) == a + b
  {
  }

  /** A whitespace-only string has nothing `rstrip` keeps. */
  lemma RStripAllSpace(s: string)
    requires AllSpace(s)
    ensures RStrip(s) == []
  {
  }

  /** Stripping the right end first does not change what `strip` gives. */
  lemma {:induction false} StripRStrip(s: string)
    ensures Strip(RStrip(s)) == Strip(s)
    decreases |s|
  {
    if AllSpace(s) {
      RStripAllSpace(s);
      StripAllSpace(s);
    } else if IsSpace(s[0]) {
      var t := s[1..];
      assert s == [s[0]] + t;
      assert !AllSpace(t) by {
        var i :| 0 <= i < |s| && !IsSpace(s[i]);
        assert t[i - 1] == s[i];
      }
      RStripPrefix([s[0]], t);
      StripRStrip(t);
    } else {
      var r := RStrip(s);
      assert r != [] && r[0] == s[0];
    }
  }

  /** Whitespace appended to any string is lost to `strip`. */
  lemma StripAppendSpace(a: string, b: string)
    requires AllSpace(b)
    ensures Strip(a + b) == Strip(a)
  {
    RStripAppendSpace(a, b);
    StripRStrip(a);
    StripRStrip(a + b);
  }

  /** Lower-casing of one character; only ASCII letters change. */
  function LowerChar(c: char): char {
    if 'A' <= c <= 'Z' then (c as int + 32) as char else c
  }

  /** `s.lower()` restricted to ASCII letters. */
  function Lower(s: string): (r: string)
    ensures |r| == |s|
    ensures forall i :: 0 <= i < |s| ==> r[i] == LowerChar(s[i])
  {
    if s == [] then [] else [LowerChar(s[0])] + Lower(s[1..])
  }

  lemma LowerConcat(a: string, b: string)
    ensures Lower(a + b) == Lower(a) + Lower(b)
  {
  }

  /** `strip()` only removes characters, so it introduces none. */
  lemma NotInStrip(s: string, c: char)
    requires c !in s
    ensures c !in Strip(s)
  {
    var l := LStrip(s);
    NotInSlice(s, |s| - |l|, |s|, c);
    NotInSlice(l, 0, |RStrip(l)|, c);
  }

  lemma NotInSlice(s: string, i: nat, j: nat, c: char)
    requires i <= j <= |s| && c !in s
    ensures c !in s[i..j]
  {
    forall k | 0 <= k < j - i
      ensures s[i..j][k] != c
    {
      assert s[i..j][k] == s[i + k];
    }
  }

  /** `s.startswith(p)`. */
  predicate StartsWith(s: string, p: string) {
    |p| <= |s| && s[..|p|] == p
  }

  /** `s.split(c)` for a one-character separator `c`. */
  function Split(s: string, c: char): (r: seq<string>)
    ensures |r| >= 1
    ensures forall k :: 0 <= k < |r| ==> c !in r[k]
  {
    if s == [] then [[]]
    else
      var rest := Split(s[1..], c);
      if s[0] == c then [[]] + rest
      else [[s[0]] + rest[0]] + rest[1..]
  }

  /** `sep.join(parts)`. */
  function Join(parts: seq<string>, sep: string): (r: string)
  {
    if |parts| == 0 then []
    else if |parts| == 1 then parts[0]
    else parts[0] + sep + Join(parts[1..], sep)
  }

  /** Splitting then re-joining on the same character gives back the string. */
  lemma {:induction false} JoinSplit(s: string, c: char)
    ensures Join(Split(s, c), [c]) == s
  {
    if s != [] {
      var rest := Split(s[1..], c);
      JoinSplit(s[1..], c);
      if s[0] == c {
        assert Split(s, c) == [[]] + rest;
        if |rest| == 1 {
          assert Join(Split(s, c), [c]) == [] + [c] + rest[0];
        } else {
          assert ([[]] + rest)[1..] == rest;
        }
      } else {
        var r := Split(s, c);
        assert r == [[s[0]] + rest[0]] + rest[1..];
        if |rest| > 1 {
          assert r[1..] == rest[1..];
          assert Join(rest, [c]) == rest[0] + [c] + Join(rest[1..], [c]);
        }
      }
    }
  }

  lemma {:induction false} SplitWithout(s: string, c: char)
    requires c !in s
    ensures Split(s, c) == [s]
  {
    if s != [] {
      assert s[0] != c && c !in s[1..];
      SplitWithout(s[1..], c);
      assert [s[0]] + s[1..] == s;
    }
  }

  /** A leading piece without the separator is split off exactly. */
  lemma {:induction false} SplitCons(a: string, b: string, c: char)
    requires c !in a
    ensures Split(a + [c] + b, c) == [a] + Split(b, c)
  {
    if a == [] {
      assert a + [c] + b == [c] + b;
      assert ([c] + b)[1..] == b;
    } else {
      var s := a + [c] + b;
      assert s[1..] == a[1..] + [c] + b;
      SplitCons(a[1..], b, c);
      assert [a[0]] + a[1..] == a;
    }
  }

  /** Joining pieces free of the separator and splitting again gives the pieces back. */
  lemma {:induction false} SplitJoin(parts: seq<string>, c: char)
    requires |parts| >= 1
    requires forall k :: 0 <= k < |parts| ==> c !in parts[k]
    ensures Split(Join(parts, [c]), c) == parts
  {
    if |parts| == 1 {
      SplitWithout(parts[0], c);
    } else {
      SplitJoin(parts[1..], c);
      SplitCons(parts[0], Join(parts[1..], [c]), c);
      assert [parts[0]] + parts[1..] == parts;
    }
  }

  lemma JoinAppend(parts: seq<string>, last: string, sep: string)
    requires |parts| >= 1
    ensures Join(parts + [last], sep) == Join(parts, sep) + sep + last
  {
    if |parts| == 1 {
    } else {
      assert (parts + [last])[1..] == parts[1..] + [last];
      JoinAppend(parts[1..], last, sep);
    }
  }

  // ---- integers ----

  predicate IsDigit(c: char) { '0' <= c <= '9' }

  predicate AllDigits(s: string) {
    forall i :: 0 <= i < |s| ==> IsDigit(s[i])
  }

  function DigitChar(d: nat): (c: char)
    requires d < 10
    ensures IsDigit(c)
  {
    ('0' as int + d) as char
  }

  /** The number a run of decimal digits denotes. */
  function DigitsValue(s: string): nat
    requires AllDigits(s)
  {
    if s == [] then 0
    else DigitsValue(s[..|s| - 1]) * 10 + (s[|s| - 1] as int - '0' as int)
  }

  /** `str(n)` for a non-negative `n`. */
  function NatToString(n: nat): (r: string)
    ensures |r| >= 1 && AllDigits(r)
  {
    if n < 10 then [DigitChar(n)] else NatToString(n / 10) + [DigitChar(n % 10)]
  }

  /** `str(i)`. */
  function IntToString(i: int): (r: string)
    ensures |r| >= 1
    ensures forall k :: 0 <= k < |r| ==> IsDigit(r[k]) || (k == 0 && r[k] == '-')
  {
    if i < 0 then "-" + NatToString(-i) else NatToString(i)
  }

  lemma {:induction false} NatToStringValue(n: nat)
    ensures DigitsValue(NatToString(n)) == n
  {
    if n >= 10 {
      NatToStringValue(n / 10);
      var s := NatToString(n);
      assert s[..|s| - 1] == NatToString(n / 10);
    }
  }

  /**
   * `int(s)`: surrounding whitespace, an optional sign and at least one
   * decimal digit; anything else is the `ValueError` path (`None`).
   */
  function ParseInt(s: string): (r: Option<int>)
    ensures r.Some? ==> |Strip(s)| >= 1
  {
    ParseStripped(Strip(s))
  }

  /** `int(s)` once the whitespace is gone. */
  function ParseStripped(t: string): (r: Option<int>)
    ensures r.Some? ==> |t| >= 1
  {
    if |t| >= 2 && (t[0] == '-' || t[0] == '+') && AllDigits(t[1..]) then
      var magnitude: int := DigitsValue(t[1..]);
      Some(if t[0] == '-' then -magnitude else magnitude)
    else if |t| >= 1 && AllDigits(t) then
      Some(DigitsValue(t))
    else
      None
  }

  lemma ParseNatString(n: nat)
    ensures ParseStripped(NatToString(n)) == Some(n)
  {
    var d := NatToString(n);
    NatToStringValue(n);
    assert !(d[0] == '-' || d[0] == '+') by {
      assert IsDigit(d[0]);
    }
  }

  lemma ParseNegativeString(n: nat)
    requires n > 0
    ensures ParseStripped("-" + NatToString(n)) == Some(-(n as int))
  {
    var d := NatToString(n);
    var s := "-" + d;
    assert s[1..] == d;
    NatToStringValue(n);
  }

  /** `int(str(i)) == i`. */
  lemma ParseIntToString(i: int)
    ensures ParseInt(IntToString(i)) == Some(i)
  {
    var s := IntToString(i);
    assert Stripped(s) by {
      assert !IsSpace(s[0]) && !IsSpace(s[|s| - 1]);
    }
    StripOfStripped(s);
    assert ParseInt(s) == ParseStripped(s);
    if i < 0 {
      assert s == "-" + NatToString(-i);
      ParseNegativeString(-i);
    } else {
      assert s == NatToString(i);
      ParseNatString(i);
    }
  }

  lemma IntToStringInjective(i: int, j: int)
    requires IntToString(i) == IntToString(j)
    ensures i == j
  {
    ParseIntToString(i);
    ParseIntToString(j);
  }
}
