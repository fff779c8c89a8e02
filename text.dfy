/**
 * The few Python string operations the core relies on, on `seq<char>`:
 * `lower`, `strip`, `startswith`, `in`, `split`, `replace` and `int`.
 * Case folding and whitespace are restricted to ASCII.
 */
module Text {
  import opened Wrappers

  /** `c.isspace()` for ASCII characters: space, tab, line feed, vertical tab,
      form feed, carriage return and the four separators 0x1C..0x1F. */
  predicate IsSpace(c: char) {
    c == ' ' || '\t' <= c <= '\r' || '\U{1C}' <= c <= '\U{1F}'
  }

  predicate IsUpper(c: char) {
    'A' <= c <= 'Z'
  }

  function LowerChar(c: char): (r: char)
    ensures !IsUpper(r)
    ensures IsSpace(r) <==> IsSpace(c)
  {
    if IsUpper(c) then (c as int + 32) as char else c
  }

  /** `s.lower()` for ASCII letters. */
  function Lower(s: string): (r: string)
    ensures |r| == |s|
    ensures forall i :: 0 <= i < |s| ==> r[i] == LowerChar(s[i])
  {
    seq(|s|, i requires 0 <= i < |s| => LowerChar(s[i]))
  }

  /** Text without upper-case letters is its own lower-case form. */
  lemma LowerFixed(s: string)
    requires forall i :: 0 <= i < |s| ==> !IsUpper(s[i])
    ensures Lower(s) == s
  {
  }

  predicate AllSpace(s: string) {
    forall i :: 0 <= i < |s| ==> IsSpace(s[i])
  }

  /** `s.lstrip()`: the suffix of `s` left after dropping its leading whitespace. */
  function LStrip(s: string): (r: string)
    ensures |r| <= |s| && r == s[|s| - |r|..]
    ensures AllSpace(s[..|s| - |r|])
    ensures r == [] || !IsSpace(r[0])
    decreases |s|
  {
    if |s| > 0 && IsSpace(s[0]) then LStrip(s[1..]) else s
  }

  /** `s.rstrip()`: the prefix of `s` left after dropping its trailing whitespace. */
  function RStrip(s: string): (r: string)
    ensures |r| <= |s| && r == s[..|r|]
    ensures AllSpace(s[|r|..])
    ensures r == [] || !IsSpace(r[|r| - 1])
    decreases |s|
  {
    if |s| > 0 && IsSpace(s[|s| - 1]) then RStrip(s[..|s| - 1]) else s
  }

  /** `s.strip()`: neither end of the result is whitespace, and the result is
      empty exactly when `s` is all whitespace. */
  function Strip(s: string): (r: string)
    ensures |r| <= |s|
    ensures r == [] || (!IsSpace(r[0]) && !IsSpace(r[|r| - 1]))
    ensures r == [] <==> AllSpace(s)
  {
    var l := LStrip(s);
    var r := RStrip(l);
    assert r == [] ==> AllSpace(s) by {
      if r == [] {
        assert s == s[..|s| - |l|] + l;
        assert AllSpace(l[|r|..]);
      }
    }
    r
  }

  /** Stripping a string that does not start or end with whitespace changes nothing. */
  lemma StripUnchanged(s: string)
    requires s == [] || (!IsSpace(s[0]) && !IsSpace(s[|s| - 1]))
    ensures Strip(s) == s
  {
  }

  lemma {:induction false} LStripSpaceAfter(s: string)
    ensures LStrip(s + " ") == if AllSpace(s) then [] else LStrip(s) + " "
    decreases |s|
  {
    if |s| > 0 {
      assert (s + " ")[1..] == s[1..] + " ";
      LStripSpaceAfter(s[1..]);
      if IsSpace(s[0]) {
        assert AllSpace(s) == AllSpace(s[1..]);
      }
    } else {
      assert s + " " == " ";
      assert LStrip(" ") == LStrip(" "[1..]);
    }
  }

  lemma RStripSpaceAfter(s: string)
    ensures RStrip(s + " ") == RStrip(s)
  {
    assert (s + " ")[..|s|] == s;
  }

  /** The padding the normaliser adds is removed again by `strip`:
      `(" " + s + " ").strip() == s.strip()`. */
  lemma {:induction false} StripPadded(s: string)
    ensures Strip(" " + s + " ") == Strip(s)
  {
    assert (" " + s + " ")[1..] == s + " ";
    assert LStrip(" " + s + " ") == LStrip(s + " ");
    LStripSpaceAfter(s);
    if !AllSpace(s) {
      RStripSpaceAfter(LStrip(s));
    }
  }

  lemma {:induction false} LStripSpaces(w: string, t: string)
    requires AllSpace(w)
    ensures LStrip(w + t) == LStrip(t)
    decreases |w|
  {
    if w != [] {
      assert (w + t)[1..] == w[1..] + t;
      LStripSpaces(w[1..], t);
    } else {
      assert w + t == t;
    }
  }

  lemma {:induction false} RStripSpaces(t: string, w: string)
    requires AllSpace(w)
    ensures RStrip(t + w) == RStrip(t)
    decreases |w|
  {
    if w != [] {
      assert (t + w)[..|t + w| - 1] == t + w[..|w| - 1];
      RStripSpaces(t, w[..|w| - 1]);
    } else {
      assert t + w == t;
    }
  }

  /** Whitespace around a string whose ends are not whitespace is exactly
      what `strip` removes. */
  lemma StripAround(w1: string, s: string, w2: string)
    requires AllSpace(w1) && AllSpace(w2)
    requires s != [] && !IsSpace(s[0]) && !IsSpace(s[|s| - 1])
    ensures Strip(w1 + s + w2) == s
  {
    assert w1 + s + w2 == w1 + (s + w2);
    LStripSpaces(w1, s + w2);
    assert LStrip(s + w2) == s + w2;
    RStripSpaces(s, w2);
  }

  /** `strip` only removes characters: every character it keeps was in `s`. */
  lemma StripChars(s: string)
    ensures forall c :: c in Strip(s) ==> c in s
  {
    var l := LStrip(s);
    assert l == s[|s| - |l|..];
    var r := RStrip(l);
    assert r == l[..|r|];
    forall c | c in r ensures c in s {
      var i :| 0 <= i < |r| && r[i] == c;
      assert l[i] == c;
      assert s[|s| - |l| + i] == c;
    }
  }

  /** Trailing whitespace is only removed from the last part, when that part
      is not all whitespace. */
  lemma {:induction false} RStripAppend(a: string, b: string)
    requires !AllSpace(b)
    ensures RStrip(a + b) == a + RStrip(b)
    decreases |b|
  {
    var s := a + b;
    if IsSpace(b[|b| - 1]) {
      assert s[..|s| - 1] == a + b[..|b| - 1];
      assert !AllSpace(b[..|b| - 1]) by {
        var i :| 0 <= i < |b| && !IsSpace(b[i]);
        assert b[..|b| - 1][i] == b[i];
      }
      RStripAppend(a, b[..|b| - 1]);
    }
  }

  /** `s.startswith(p)`. */
  predicate StartsWith(s: string, p: string) {
    |p| <= |s| && s[..|p|] == p
  }

  /** `p` occurs in `s` at offset `i`. */
  predicate OccursAt(s: string, p: string, i: nat) {
    i + |p| <= |s| && s[i..i + |p|] == p
  }

  /** Python's `p in s` for strings, searching from the left. */
  predicate Contains(s: string, p: string)
    decreases |s|
  {
    StartsWith(s, p) || (|s| > 0 && Contains(s[1..], p))
  }

  /** `Contains` holds exactly when `p` occurs at some offset of `s`. */
  lemma {:induction false} ContainsIff(s: string, p: string)
    ensures Contains(s, p) <==> exists i: nat :: OccursAt(s, p, i)
    decreases |s|
  {
    if StartsWith(s, p) {
      assert s[0..|p|] == s[..|p|];
      assert OccursAt(s, p, 0);
    }
    if |s| > 0 {
      ContainsIff(s[1..], p);
      if exists i: nat :: OccursAt(s, p, i) {
        var i: nat :| OccursAt(s, p, i);
        if i > 0 {
          assert s[1..][i - 1..i - 1 + |p|] == s[i..i + |p|];
          assert OccursAt(s[1..], p, i - 1);
        }
      }
      if exists i: nat :: OccursAt(s[1..], p, i) {
        var i: nat :| OccursAt(s[1..], p, i);
        assert s[i + 1..i + 1 + |p|] == s[1..][i..i + |p|];
        assert OccursAt(s, p, i + 1);
      }
    }
  }

  /** Whatever surrounds it, `p` is found in `a + p + b`. */
  lemma ContainsInfix(a: string, p: string, b: string)
    ensures Contains(a + p + b, p)
  {
    var s := a + p + b;
    assert s[|a|..|a| + |p|] == p;
    assert OccursAt(s, p, |a|);
    ContainsIff(s, p);
  }

  /** An occurrence in `b` is an occurrence in any `a + b`. */
  lemma {:induction false} ContainsAfter(a: string, b: string, p: string)
    requires Contains(b, p)
    ensures Contains(a + b, p)
    decreases |a|
  {
    if a != [] {
      ContainsAfter(a[1..], b, p);
      assert (a + b)[1..] == a[1..] + b;
    } else {
      assert a + b == b;
    }
  }

  /** The index of the first `c` in `s`, as `s.index(c)`. */
  function IndexOf(s: string, c: char): (i: nat)
    requires c in s
    ensures i < |s| && s[i] == c && c !in s[..i]
  {
    if s[0] == c then 0 else 1 + IndexOf(s[1..], c)
  }

  /** `s.split(sep)` for a one-character separator: the pieces between
      separators, in order, never containing the separator. */
  function Split(s: string, sep: char): (r: seq<string>)
    ensures |r| >= 1
    ensures forall k :: 0 <= k < |r| ==> sep !in r[k]
    ensures sep !in s <==> r == [s]
    decreases |s|
  {
    if sep in s then
      var i := IndexOf(s, sep);
      [s[..i]] + Split(s[i + 1..], sep)
    else
      [s]
  }

  /** `sep.join(parts)`. */
  function Join(parts: seq<string>, sep: char): string
    requires |parts| >= 1
  {
    if |parts| == 1 then parts[0] else parts[0] + [sep] + Join(parts[1..], sep)
  }

  /** Joining the pieces of a split gives back the string. */
  lemma {:induction false} JoinSplit(s: string, sep: char)
    ensures Join(Split(s, sep), sep) == s
    decreases |s|
  {
    if sep in s {
      var i := IndexOf(s, sep);
      var parts := Split(s, sep);
      assert parts == [s[..i]] + Split(s[i + 1..], sep);
      assert |parts| > 1 && parts[1..] == Split(s[i + 1..], sep);
      JoinSplit(s[i + 1..], sep);
      Around(s, i);
    }
  }

  /** A string is what lies before, at and after any of its positions. */
  lemma Around(s: string, i: nat)
    requires i < |s|
    ensures s == s[..i] + [s[i]] + s[i + 1..]
  {
  }

  /** Splitting a string at its first separator. */
  lemma SplitAt(a: string, sep: char, b: string)
    requires sep !in a
    ensures Split(a + [sep] + b, sep) == [a] + Split(b, sep)
  {
    var s := a + [sep] + b;
    assert s[..|a|] == a && s[|a|] == sep && s[|a| + 1..] == b;
    var i := IndexOf(s, sep);
    forall j | 0 <= j < |a| ensures s[j] != sep {
      assert s[j] == a[j];
    }
    forall j | 0 <= j < i ensures s[j] != sep {
      assert s[j] == s[..i][j];
    }
  }

  /** Splitting joined pieces that hold no separator gives back the pieces. */
  lemma {:induction false} SplitJoin(parts: seq<string>, sep: char)
    requires |parts| >= 1
    requires forall k :: 0 <= k < |parts| ==> sep !in parts[k]
    ensures Split(Join(parts, sep), sep) == parts
    decreases |parts|
  {
    if |parts| > 1 {
      assert forall k :: 0 <= k < |parts| - 1 ==> parts[1..][k] == parts[k + 1];
      SplitJoin(parts[1..], sep);
      assert Join(parts, sep) == parts[0] + [sep] + Join(parts[1..], sep);
      SplitAt(parts[0], sep, Join(parts[1..], sep));
    }
  }

  /** `s.replace(pat, rep)`: Python scans left to right and replaces every
      non-overlapping occurrence, resuming the search after each one. A
      replacement no longer than the pattern never lengthens the text, and
      replacing the pattern by itself changes nothing. */
  function ReplaceAll(s: string, pat: string, rep: string): (r: string)
    requires pat != []
    ensures |rep| <= |pat| ==> |r| <= |s|
    ensures rep == pat ==> r == s
    decreases |s|
  {
    if StartsWith(s, pat) then rep + ReplaceAll(s[|pat|..], pat, rep)
    else if s == [] then []
    else [s[0]] + ReplaceAll(s[1..], pat, rep)
  }

  /** A string in which `pat` does not occur is left as it is. */
  lemma {:induction false} ReplaceAllAbsent(s: string, pat: string, rep: string)
    requires pat != []
    requires !Contains(s, pat)
    ensures ReplaceAll(s, pat, rep) == s
    decreases |s|
  {
    if s != [] {
      ReplaceAllAbsent(s[1..], pat, rep);
    }
  }

  /** A prefix of length `k` in which no occurrence of `pat` starts is copied
      unchanged, and the scan resumes right after it. */
  lemma {:induction false} ReplaceAllSkip(s: string, k: nat, pat: string, rep: string)
    requires pat != [] && k <= |s|
    requires forall i: nat :: i < k ==> !OccursAt(s, pat, i)
    ensures ReplaceAll(s, pat, rep) == s[..k] + ReplaceAll(s[k..], pat, rep)
    decreases k
  {
    if k > 0 {
      NoOccurrenceShift(s, k, pat);
      ReplaceAllStep(s, pat, rep);
      ReplaceAllSkip(s[1..], k - 1, pat, rep);
      ShiftSlices(s, k);
    }
  }

  /** Past a position where `pat` does not start, one character is copied. */
  lemma ReplaceAllStep(s: string, pat: string, rep: string)
    requires pat != [] && s != [] && !StartsWith(s, pat)
    ensures ReplaceAll(s, pat, rep) == [s[0]] + ReplaceAll(s[1..], pat, rep)
  {
  }

  lemma ShiftSlices(s: string, k: nat)
    requires 0 < k <= |s|
    ensures s[1..][..k - 1] == s[1..k] && s[1..][k - 1..] == s[k..]
    ensures s[..k] == [s[0]] + s[1..k]
  {
  }

  /** No occurrence in the first `k` positions: `s` does not start with
      `pat`, and none occurs in the first `k - 1` positions of `s[1..]`. */
  lemma NoOccurrenceShift(s: string, k: nat, pat: string)
    requires 0 < k <= |s|
    requires forall i: nat :: i < k ==> !OccursAt(s, pat, i)
    ensures !StartsWith(s, pat)
    ensures forall i: nat :: i < k - 1 ==> !OccursAt(s[1..], pat, i)
  {
    assert !OccursAt(s, pat, 0);
    if |pat| <= |s| { assert s[0..|pat|] == s[..|pat|]; }
    forall i: nat | i < k - 1
      ensures !OccursAt(s[1..], pat, i)
    {
      assert !OccursAt(s, pat, i + 1);
      if i + |pat| <= |s| - 1 {
        assert s[1..][i..i + |pat|] == s[i + 1..i + 1 + |pat|];
      }
    }
  }

  /** The leftmost occurrence is the one replaced: if no occurrence of `pat`
      starts inside `a`, then in `a + pat + b` the `pat` after `a` is replaced
      and the scan continues with `b`. */
  lemma ReplaceAllLeftmost(a: string, b: string, pat: string, rep: string)
    requires pat != []
    requires forall i: nat :: i < |a| ==> !OccursAt(a + pat + b, pat, i)
    ensures ReplaceAll(a + pat + b, pat, rep) == a + rep + ReplaceAll(b, pat, rep)
  {
    var s := a + pat + b;
    ReplaceAllSkip(s, |a|, pat, rep);
    assert s[..|a|] == a && s[|a|..] == pat + b;
    assert StartsWith(pat + b, pat);
    assert (pat + b)[|pat|..] == b;
  }

  /** A pattern one of whose characters is missing from `s` does not occur in it. */
  lemma AbsentByChar(s: string, p: string, c: char)
    requires c in p && c !in s
    ensures !Contains(s, p)
  {
    forall i: nat ensures !OccursAt(s, p, i) {
      if i + |p| <= |s| {
        var window := s[i..i + |p|];
        forall k | 0 <= k < |p| ensures window[k] != c {
          assert window[k] == s[i + k];
        }
      }
    }
    ContainsIff(s, p);
  }

  /** A pattern longer than `s` does not occur in it. */
  lemma AbsentByLength(s: string, p: string)
    requires |s| < |p|
    ensures !Contains(s, p)
  {
    ContainsIff(s, p);
  }

  /** A prefix `w` that lacks the first character of `pat` is copied unchanged. */
  lemma ReplaceAllPastWord(w: string, rest: string, pat: string, rep: string)
    requires pat != [] && pat[0] !in w
    ensures ReplaceAll(w + rest, pat, rep) == w + ReplaceAll(rest, pat, rep)
  {
    var s := w + rest;
    forall i: nat | i < |w| ensures !OccursAt(s, pat, i) {
      assert s[i] == w[i];
      if i + |pat| <= |s| { assert s[i..i + |pat|][0] == s[i]; }
    }
    ReplaceAllSkip(s, |w|, pat, rep);
    assert s[..|w|] == w && s[|w|..] == rest;
  }

  /** In `a + pat + b`, the `pat` after `a` is the leftmost occurrence when
      some character `pat[j]` does not occur in `a + pat[..j]`. */
  lemma ReplaceAllFirstAt(a: string, b: string, pat: string, rep: string, j: nat)
    requires pat != [] && j < |pat| && pat[j] !in a + pat[..j]
    ensures ReplaceAll(a + pat + b, pat, rep) == a + rep + ReplaceAll(b, pat, rep)
  {
    var s := a + pat + b;
    assert s[..|a| + j] == a + pat[..j];
    forall i: nat | i < |a| ensures !OccursAt(s, pat, i) {
      if i + |pat| <= |s| {
        assert s[i + j] == s[..|a| + j][i + j];
        assert s[i..i + |pat|][j] == s[i + j] != pat[j];
      }
    }
    ReplaceAllLeftmost(a, b, pat, rep);
  }

  /** `s.replace(pat, rep, 1)`: only the leftmost occurrence is replaced. */
  function ReplaceFirst(s: string, pat: string, rep: string): (r: string)
    requires pat != []
    ensures StartsWith(s, pat) ==> r == rep + s[|pat|..]
    decreases |s|
  {
    if StartsWith(s, pat) then rep + s[|pat|..]
    else if s == [] then []
    else [s[0]] + ReplaceFirst(s[1..], pat, rep)
  }

  predicate IsDigit(c: char) {
    '0' <= c <= '9'
  }

  predicate AllDigits(s: string) {
    forall i :: 0 <= i < |s| ==> IsDigit(s[i])
  }

  /** The value of a string of decimal digits. */
  function DigitsValue(s: string): (n: nat)
    requires AllDigits(s)
    decreases |s|
  {
    if s == [] then 0 else DigitsValue(s[..|s| - 1]) * 10 + (s[|s| - 1] as int - '0' as int)
  }

  /** `int(s)` for a decimal literal: surrounding whitespace, an optional sign
      and at least one ASCII digit; anything else fails, as Python's
      `ValueError`. */
  function ParseInt(s: string): (r: Option<int>)
    ensures r.Some? ==> Strip(s) != []
  {
    ParseLiteral(Strip(s))
  }

  /** The value of a literal without surrounding whitespace. */
  function ParseLiteral(t: string): (r: Option<int>)
    ensures r.Some? ==> t != []
  {
    if |t| > 1 && (t[0] == '-' || t[0] == '+') && AllDigits(t[1..]) then
      var n: int := DigitsValue(t[1..]);
      Some(if t[0] == '-' then -n else n)
    else if t != [] && AllDigits(t) then
      Some(DigitsValue(t))
    else
      None
  }

  /** The decimal digits of `n`, as `str(n)`. */
  function DecimalString(n: nat): (r: string)
    ensures r != [] && AllDigits(r)
  {
    if n < 10 then ["0123456789"[n]] else DecimalString(n / 10) + ["0123456789"[n % 10]]
  }

  lemma {:induction false} DigitsValueDecimal(n: nat)
    ensures DigitsValue(DecimalString(n)) == n
  {
    var s := DecimalString(n);
    if n >= 10 {
      DigitsValueDecimal(n / 10);
      assert s[..|s| - 1] == DecimalString(n / 10);
    }
  }

  /** `int()` rejects any text holding, once stripped, a character that is
      neither a digit nor a sign. */
  lemma ParseIntRejects(s: string, c: char)
    requires c in Strip(s) && !IsDigit(c) && c != '+' && c != '-'
    ensures ParseInt(s).None?
  {
    var t := Strip(s);
    var i :| 0 <= i < |t| && t[i] == c;
    if i > 0 {
      assert t[1..][i - 1] == c;
    }
  }

  /** A sign alone, or a sign not followed by digits only, is rejected. */
  lemma ParseIntSignOnly(s: string)
    requires Strip(s) == "-" || Strip(s) == "+"
    ensures ParseInt(s).None?
  {
  }

  /** A signed literal: `int("-" + str(n)) == -n` and `int("+" + str(n)) == n`
      once the surrounding whitespace is gone. */
  lemma ParseSigned(n: nat)
    ensures ParseLiteral("-" + DecimalString(n)) == Some(-(n as int))
    ensures ParseLiteral("+" + DecimalString(n)) == Some(n)
  {
    var d := DecimalString(n);
    DigitsValueDecimal(n);
    var minus := "-" + d;
    var plus := "+" + d;
    assert minus[1..] == d && plus[1..] == d;
  }

  /** Whitespace around a literal does not change its value. */
  lemma ParsePadded(n: nat)
    ensures ParseInt(" " + DecimalString(n) + " ") == Some(n)
  {
    var d := DecimalString(n);
    assert IsDigit(d[0]) && IsDigit(d[|d| - 1]);
    StripAround(" ", d, " ");
    ParseDecimal(n);
  }

  /** `int(str(n)) == n`: the decimal form of a number parses back to it. */
  lemma ParseDecimal(n: nat)
    ensures ParseInt(DecimalString(n)) == Some(n)
  {
    var s := DecimalString(n);
    assert IsDigit(s[0]) && IsDigit(s[|s| - 1]);
    StripUnchanged(s);
    assert Strip(s) == s;
    DigitsValueDecimal(n);
    assert !(s[0] == '-' || s[0] == '+');
  }
}
