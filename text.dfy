/** The parts of Python's str API that the service relies on: whitespace
    stripping, substring search and replacement, line splitting, ASCII case
    mapping, decimal rendering of integers and string ordering. */
module Text {

  // ---------------------------------------------------------------------
  // Character classes
  // ---------------------------------------------------------------------

  /** Python's str.isspace() for one character. */
  predicate IsSpace(c: char) {
    ('\t' <= c <= '\r') || ('\U{1c}' <= c <= ' ') || c == '\U{85}' || c == '\U{a0}' ||
    c == '\U{1680}' || ('\U{2000}' <= c <= '\U{200a}') || c == '\U{2028}' || c == '\U{2029}' ||
    c == '\U{202f}' || c == '\U{205f}' || c == '\U{3000}'
  }

  /** The characters at which Python's str.splitlines() breaks a line
      ("\r\n" is one boundary made of two of them). */
  predicate IsLineBreak(c: char) {
    ('\n' <= c <= '\r') || ('\U{1c}' <= c <= '\U{1e}') || c == '\U{85}' ||
    c == '\U{2028}' || c == '\U{2029}'
  }

  predicate NoLineBreak(s: string) {
    forall i :: 0 <= i < |s| ==> !IsLineBreak(s[i])
  }

  /** s has no leading and no trailing whitespace. */
  predicate Stripped(s: string) {
    |s| == 0 || (!IsSpace(s[0]) && !IsSpace(s[|s| - 1]))
  }

  // ---------------------------------------------------------------------
  // Case mapping (ASCII letters only)
  // ---------------------------------------------------------------------

  function LowerChar(c: char): char {
    if 'A' <= c <= 'Z' then (c as int + 32) as char else c
  }

  function UpperChar(c: char): char {
    if 'a' <= c <= 'z' then (c as int - 32) as char else c
  }

  /** str.lower() */
  function Lower(s: string): (r: string)
    ensures |r| == |s| && forall i :: 0 <= i < |s| ==> r[i] == LowerChar(s[i])
  {
    if |s| == 0 then [] else [LowerChar(s[0])] + Lower(s[1..])
  }

  /** str.upper() */
  function Upper(s: string): (r: string)
    ensures |r| == |s| && forall i :: 0 <= i < |s| ==> r[i] == UpperChar(s[i])
  {
    if |s| == 0 then [] else [UpperChar(s[0])] + Upper(s[1..])
  }

  /** str.capitalize(): the first character upper-cased, the rest lower-cased. */
  function Capitalize(s: string): (r: string)
    ensures |r| == |s|
  {
    if |s| == 0 then [] else [UpperChar(s[0])] + Lower(s[1..])
  }

  /** Upper-casing first does not change what lower-casing gives: the
      comparisons made after str.lower() ignore case. */
  lemma LowerOfUpper(s: string)
    ensures Lower(Upper(s)) == Lower(s)
  {
  }

  /** Lower-casing leaves a string as it is exactly when it has no
      upper-case letter. */
  lemma LowerFixed(s: string)
    ensures Lower(s) == s <==> forall i :: 0 <= i < |s| ==> !('A' <= s[i] <= 'Z')
  {
    if forall i :: 0 <= i < |s| ==> !('A' <= s[i] <= 'Z') {
      assert forall i :: 0 <= i < |s| ==> Lower(s)[i] == s[i];
    }
  }

  /** Lower-casing leaves no upper-case letter, and a "." is in the result
      exactly when it was in the input. */
  lemma LowerChars(s: string)
    ensures forall i :: 0 <= i < |Lower(s)| ==> !('A' <= Lower(s)[i] <= 'Z')
    ensures '.' in Lower(s) <==> '.' in s
  {
    var r := Lower(s);
    if '.' in r {
      var i :| 0 <= i < |r| && r[i] == '.';
      assert s[i] == '.';
    }
    if '.' in s {
      var i :| 0 <= i < |s| && s[i] == '.';
      assert r[i] == '.';
    }
  }

  /** A role that lower-cases to a word is capitalised to that word with its
      first letter upper-cased, whatever its original case. */
  lemma CapitalizeOfLowerWord(s: string, w: string)
    requires Lower(s) == w && |w| > 0
    ensures Capitalize(s) == [UpperChar(w[0])] + w[1..]
  {
    assert Lower(s[1..]) == w[1..];
    assert UpperChar(w[0]) == UpperChar(LowerChar(s[0])) == UpperChar(s[0]);
  }

  // ---------------------------------------------------------------------
  // Prefixes and substrings
  // ---------------------------------------------------------------------

  /** str.startswith(p) */
  predicate StartsWith(s: string, p: string) {
    |p| <= |s| && s[..|p|] == p
  }

  /** `p in s` */
  predicate Contains(s: string, p: string)
    decreases |s|
  {
    StartsWith(s, p) || (|s| > 0 && Contains(s[1..], p))
  }

  /** A substring of a string that does not contain p does not contain it either. */
  lemma {:induction false} ContainsSlice(s: string, i: nat, j: nat, p: string)
    requires i <= j <= |s|
    requires Contains(s[i..j], p)
    ensures Contains(s, p)
    decreases j - i
  {
    if StartsWith(s[i..j], p) {
      assert s[i..j] == s[i..][..j - i];
      ContainsFrom(s, i, p);
    } else {
      assert s[i..j][1..] == s[i + 1..j];
      ContainsSlice(s, i + 1, j, p);
    }
  }

  /** An occurrence that starts at index i is an occurrence in s. */
  lemma {:induction false} ContainsFrom(s: string, i: nat, p: string)
    requires i <= |s|
    requires StartsWith(s[i..], p)
    ensures Contains(s, p)
    decreases i
  {
    if i > 0 {
      assert s[1..][i - 1..] == s[i..];
      ContainsFrom(s[1..], i - 1, p);
    }
  }

  /** A string that does not contain p has no substring that contains p. */
  lemma SliceAbsent(s: string, i: nat, j: nat, p: string)
    requires i <= j <= |s| && !Contains(s, p)
    ensures !Contains(s[i..j], p)
  {
    if Contains(s[i..j], p) {
      ContainsSlice(s, i, j, p);
    }
  }

  /** An occurrence of p + q is an occurrence of p. */
  lemma {:induction false} ContainsPrefix(s: string, p: string, q: string)
    requires Contains(s, p + q)
    ensures Contains(s, p)
    decreases |s|
  {
    if StartsWith(s, p + q) {
      assert s[..|p|] == (p + q)[..|p|] == p;
    } else {
      ContainsPrefix(s[1..], p, q);
    }
  }

  /** When p has no space, an occurrence of p in a + " " + t lies wholly in
      a or wholly in t. */
  lemma {:induction false} ContainsAroundSpace(a: string, t: string, p: string)
    requires |p| > 0 && ' ' !in p
    ensures Contains(a + " " + t, p) <==> Contains(a, p) || Contains(t, p)
    decreases |a|
  {
    var s := a + " " + t;
    if StartsWith(s, p) {
      assert s[|a|] == ' ';
      assert forall k :: 0 <= k < |p| ==> s[k] == p[k];
      assert a[..|p|] == s[..|p|];
    } else if |p| <= |a| {
      assert a[..|p|] == s[..|p|];
    }
    if |a| == 0 {
      assert s[1..] == t;
      assert !StartsWith(s, p) by { assert p[0] != ' '; }
    } else {
      assert s[1..] == a[1..] + " " + t;
      ContainsAroundSpace(a[1..], t, p);
    }
  }

  // ---------------------------------------------------------------------
  // str.strip()
  // ---------------------------------------------------------------------

  /** The first index from k on that does not hold whitespace. */
  function StripStart(s: string, k: nat): (n: nat)
    requires k <= |s|
    ensures k <= n <= |s|
    ensures n == |s| || !IsSpace(s[n])
    decreases |s| - k
  {
    if k < |s| && IsSpace(s[k]) then StripStart(s, k + 1) else k
  }

  /** Scanning down from k to lo, the first end whose last character does
      not hold whitespace. */
  function StripEnd(s: string, lo: nat, k: nat): (n: nat)
    requires lo <= k <= |s|
    ensures lo <= n <= k
    ensures n == lo || !IsSpace(s[n - 1])
    decreases k
  {
    if k > lo && IsSpace(s[k - 1]) then StripEnd(s, lo, k - 1) else k
  }

  /** str.strip(): the input without its leading and trailing whitespace;
      an already stripped input is returned as it is. */
  function Strip(s: string): (r: string)
    ensures Stripped(r) && |r| <= |s|
    ensures Stripped(s) ==> r == s
  {
    var i := StripStart(s, 0);
    var j := StripEnd(s, i, |s|);
    assert Stripped(s) && |s| > 0 ==> i == 0 && j == |s|;
    s[i..j]
  }

  /** The stripped string is a slice of the input. */
  lemma StripSlice(s: string) returns (i: nat, j: nat)
    ensures i <= j <= |s| && Strip(s) == s[i..j]
  {
    i := StripStart(s, 0);
    j := StripEnd(s, i, |s|);
  }

  /** Stripping a one-line string leaves it on one line. */
  lemma StripNoBreak(s: string)
    requires NoLineBreak(s)
    ensures NoLineBreak(Strip(s))
  {
    var i, j := StripSlice(s);
    assert forall k :: 0 <= k < j - i ==> Strip(s)[k] == s[i + k];
  }

  /** Stripping " " + t for a stripped t gives back t. */
  lemma StripAfterSpace(t: string)
    requires Stripped(t)
    ensures Strip(" " + t) == t
  {
    var s := " " + t;
    assert s[1..] == t;
    assert StripStart(s, 0) == StripStart(s, 1) == 1;
    assert StripEnd(s, 1, |s|) == |s|;
  }

  // ---------------------------------------------------------------------
  // str.replace(pat, rep)
  // ---------------------------------------------------------------------

  /** str.replace(pat, rep): scans left to right and replaces every
      non-overlapping occurrence of pat. */
  function ReplaceAll(s: string, pat: string, rep: string): string
    requires |pat| > 0
    decreases |s|
  {
    if |s| < |pat| then s
    else if s[..|pat|] == pat then rep + ReplaceAll(s[|pat|..], pat, rep)
    else [s[0]] + ReplaceAll(s[1..], pat, rep)
  }

  /** A string without pat is left unchanged. */
  lemma {:induction false} ReplaceAbsent(s: string, pat: string, rep: string)
    requires |pat| > 0 && !Contains(s, pat)
    ensures ReplaceAll(s, pat, rep) == s
    decreases |s|
  {
    if |s| >= |pat| {
      ReplaceAbsent(s[1..], pat, rep);
    }
  }

  /** Deleting every occurrence never lengthens the string, and shortens it
      by at least |pat| when there is one. */
  lemma {:induction false} RemoveShortens(s: string, pat: string)
    requires |pat| > 0
    ensures |ReplaceAll(s, pat, "")| <= |s|
    ensures Contains(s, pat) ==> |ReplaceAll(s, pat, "")| <= |s| - |pat|
    decreases |s|
  {
    if |s| >= |pat| {
      if s[..|pat|] == pat {
        RemoveShortens(s[|pat|..], pat);
      } else {
        RemoveShortens(s[1..], pat);
      }
    } else if Contains(s, pat) {
      ContainsLength(s, pat);
    }
  }

  lemma {:induction false} ContainsLength(s: string, p: string)
    requires Contains(s, p)
    ensures |p| <= |s|
    decreases |s|
  {
    if !StartsWith(s, p) {
      ContainsLength(s[1..], p);
    }
  }

  /** Two one-line strings joined are one line. */
  lemma ConcatNoBreak(a: string, b: string)
    requires NoLineBreak(a) && NoLineBreak(b)
    ensures NoLineBreak(a + b)
  {
    assert forall i :: |a| <= i < |a + b| ==> (a + b)[i] == b[i - |a|];
  }

  /** Deleting occurrences from a one-line string leaves it on one line. */
  lemma {:induction false} RemoveNoBreak(s: string, pat: string)
    requires |pat| > 0 && NoLineBreak(s)
    ensures NoLineBreak(ReplaceAll(s, pat, ""))
    decreases |s|
  {
    if |s| >= |pat| {
      if s[..|pat|] == pat {
        RemoveNoBreak(s[|pat|..], pat);
        assert ReplaceAll(s, pat, "") == ReplaceAll(s[|pat|..], pat, "");
      } else {
        RemoveNoBreak(s[1..], pat);
      }
    }
  }

  /** Replacing a one-character pattern by a one-character string maps the
      string character by character. */
  lemma {:induction false} ReplaceCharAt(s: string, a: char, b: char)
    ensures |ReplaceAll(s, [a], [b])| == |s|
    ensures forall i :: 0 <= i < |s| ==> ReplaceAll(s, [a], [b])[i] == if s[i] == a then b else s[i]
    decreases |s|
  {
    if |s| > 0 {
      ReplaceCharAt(s[1..], a, b);
    }
  }

  /** When pat has no space, a + " " + t is rewritten piecewise. */
  lemma {:induction false} ReplaceAroundSpace(a: string, t: string, pat: string, rep: string)
    requires |pat| > 0 && ' ' !in pat
    ensures ReplaceAll(a + " " + t, pat, rep) == ReplaceAll(a, pat, rep) + " " + ReplaceAll(t, pat, rep)
    decreases |a|
  {
    var s := a + " " + t;
    if |s| < |pat| {
      ShortUnchanged(a, pat, rep);
      ShortUnchanged(t, pat, rep);
    } else if s[..|pat|] == pat {
      OccurrenceBeforeSpace(a, t, pat);
      assert s[|pat|..] == a[|pat|..] + " " + t;
      ReplaceAroundSpace(a[|pat|..], t, pat, rep);
    } else if |a| == 0 {
      assert s[1..] == t;
    } else {
      assert s[1..] == a[1..] + " " + t;
      ReplaceAroundSpace(a[1..], t, pat, rep);
      ReplaceStep(a, pat, rep, s);
    }
  }

  /** An occurrence at the front of a + " " + t, for pat without a space,
      lies within a. */
  lemma OccurrenceBeforeSpace(a: string, t: string, pat: string)
    requires ' ' !in pat && StartsWith(a + " " + t, pat)
    ensures |pat| <= |a| && a[..|pat|] == pat
  {
    var s := a + " " + t;
    assert s[|a|] == ' ';
    assert forall k :: 0 <= k < |pat| ==> s[k] == pat[k];
    assert a[..|pat|] == s[..|pat|];
  }

  /** The first step of ReplaceAll on a when a + rest does not start with pat. */
  lemma ReplaceStep(a: string, pat: string, rep: string, s: string)
    requires |pat| > 0 && |a| > 0 && |s| >= |pat| && StartsWith(s, a) && s[..|pat|] != pat
    ensures ReplaceAll(a, pat, rep) == [a[0]] + ReplaceAll(a[1..], pat, rep)
  {
    if |a| >= |pat| {
      assert a[..|pat|] == s[..|pat|];
    }
  }

  lemma ShortUnchanged(s: string, pat: string, rep: string)
    requires 0 < |pat| && |s| < |pat|
    ensures ReplaceAll(s, pat, rep) == s
  {
  }

  // ---------------------------------------------------------------------
  // Deleting runs of a repeated character ("```")
  // ---------------------------------------------------------------------

  /** The number of leading occurrences of c. */
  function Lead(s: string, c: char): (n: nat)
    ensures n <= |s|
  {
    if |s| > 0 && s[0] == c then 1 + Lead(s[1..], c) else 0
  }

  /** Deleting every "ccc" leaves at the front the leading run's length
      modulo three. */
  lemma {:induction false} RemoveTripleLead(s: string, c: char)
    ensures Lead(ReplaceAll(s, [c, c, c], ""), c) == Lead(s, c) % 3
    decreases |s|
  {
    var p := [c, c, c];
    if |s| < 3 {
      assert ReplaceAll(s, p, "") == s;
    } else if s[..3] == p {
      TripleAtFront(s, c);
      RemoveTripleLead(s[3..], c);
      var n := Lead(s[3..], c);
      assert (3 + n) % 3 == n % 3;
    } else {
      NoTripleAtFront(s, c);
      if s[0] == c {
        RemoveTripleLead(s[1..], c);
        var n := Lead(s[1..], c);
        assert n % 3 == n && (1 + n) % 3 == 1 + n;
      }
    }
  }

  /** A leading "ccc" adds three to the run and is deleted whole. */
  lemma TripleAtFront(s: string, c: char)
    requires |s| >= 3 && s[..3] == [c, c, c]
    ensures Lead(s, c) == 3 + Lead(s[3..], c)
    ensures ReplaceAll(s, [c, c, c], "") == ReplaceAll(s[3..], [c, c, c], "")
  {
    assert s[0] == c && s[1] == c && s[2] == c;
    assert s[1..][1..] == s[2..];
    assert s[2..][1..] == s[3..];
    assert Lead(s[2..], c) == 1 + Lead(s[3..], c);
    assert Lead(s[1..], c) == 1 + Lead(s[2..], c);
  }

  /** Without a leading "ccc" the first character is kept, and a run that
      starts there is shorter than three. */
  lemma NoTripleAtFront(s: string, c: char)
    requires |s| >= 3 && s[..3] != [c, c, c]
    ensures ReplaceAll(s, [c, c, c], "") == [s[0]] + ReplaceAll(s[1..], [c, c, c], "")
    ensures s[0] != c ==> Lead(ReplaceAll(s, [c, c, c], ""), c) == 0 == Lead(s, c)
    ensures s[0] == c ==> Lead(s[1..], c) < 2
    ensures s[0] == c ==>
      Lead(ReplaceAll(s, [c, c, c], ""), c) == 1 + Lead(ReplaceAll(s[1..], [c, c, c], ""), c)
      && Lead(s, c) == 1 + Lead(s[1..], c)
  {
    var r := ReplaceAll(s[1..], [c, c, c], "");
    assert ([s[0]] + r)[1..] == r;
    assert s[..3] == [s[0], s[1], s[2]];
    assert s[1..][1..] == s[2..];
  }

  /** After deleting every "ccc", no "ccc" is left. */
  lemma {:induction false} RemoveTripleGone(s: string, c: char)
    ensures !Contains(ReplaceAll(s, [c, c, c], ""), [c, c, c])
    decreases |s|
  {
    var p := [c, c, c];
    var r := ReplaceAll(s, p, "");
    if |s| < 3 {
      assert r == s;
      if Contains(r, p) { ContainsLength(r, p); }
    } else if s[..3] == p {
      assert r == ReplaceAll(s[3..], p, "");
      RemoveTripleGone(s[3..], c);
    } else {
      var r' := ReplaceAll(s[1..], p, "");
      RemoveTripleGone(s[1..], c);
      assert r == [s[0]] + r';
      assert r[1..] == r';
      if s[0] == c {
        RemoveTripleLead(s[1..], c);
        assert s[..3] == [s[0], s[1], s[2]];
        assert s[1..][1..] == s[2..];
        assert Lead(s[1..], c) < 2;
      }
      assert Lead(r, c) < 3;
      LeadOfTriple(r, c);
      ContainsStep(r, p);
    }
  }

  /** A string that starts with "ccc" has a leading run of at least three. */
  lemma LeadOfTriple(s: string, c: char)
    ensures StartsWith(s, [c, c, c]) ==> Lead(s, c) >= 3
  {
    if StartsWith(s, [c, c, c]) {
      assert s[..3] == [c, c, c];
      assert s[0] == c && s[1] == c && s[2] == c;
      assert s[1..][1..] == s[2..];
      assert s[2..][0] == c;
      assert Lead(s[2..], c) >= 1;
      assert Lead(s[1..], c) >= 2;
    }
  }

  /** Unfolds Contains once at the front of s. */
  lemma ContainsStep(s: string, p: string)
    requires |s| > 0
    ensures Contains(s, p) <==> StartsWith(s, p) || Contains(s[1..], p)
  {
  }

  // ---------------------------------------------------------------------
  // str.splitlines()
  // ---------------------------------------------------------------------

  /** str.splitlines(): the lines of s, without their terminators; a final
      terminator does not start an empty line. */
  function SplitLines(s: string): (r: seq<string>)
    ensures forall l :: l in r ==> NoLineBreak(l)
  {
    SplitFrom(s, [])
  }

  /** Splits s, where cur is the part of the current line already read. */
  function SplitFrom(s: string, cur: string): (r: seq<string>)
    requires NoLineBreak(cur)
    ensures forall l :: l in r ==> NoLineBreak(l)
    decreases |s|
  {
    if |s| == 0 then (if |cur| == 0 then [] else [cur])
    else if s[0] == '\r' && |s| > 1 && s[1] == '\n' then [cur] + SplitFrom(s[2..], [])
    else if IsLineBreak(s[0]) then [cur] + SplitFrom(s[1..], [])
    else SplitFrom(s[1..], cur + [s[0]])
  }

  /** Characters without a line break are collected into the current line. */
  lemma {:induction false} SplitFromPlain(w: string, s: string, cur: string)
    requires NoLineBreak(cur) && NoLineBreak(w)
    ensures SplitFrom(w + s, cur) == SplitFrom(s, cur + w)
    decreases |w|
  {
    if |w| == 0 {
      assert w + s == s && cur + w == cur;
    } else {
      assert (w + s)[1..] == w[1..] + s;
      assert cur + w == (cur + [w[0]]) + w[1..];
      SplitFromPlain(w[1..], s, cur + [w[0]]);
    }
  }

  /** Text that ends with "\n" splits independently of what follows it. */
  lemma {:induction false} SplitFromAppend(a: string, b: string, cur: string)
    requires NoLineBreak(cur) && |a| > 0 && a[|a| - 1] == '\n'
    ensures SplitFrom(a + b, cur) == SplitFrom(a, cur) + SplitFrom(b, [])
    decreases |a|
  {
    var s := a + b;
    if s[0] == '\r' && |s| > 1 && s[1] == '\n' {
      assert |a| >= 2;
      assert s[2..] == a[2..] + b;
      if |a| > 2 { SplitFromAppend(a[2..], b, []); }
    } else if IsLineBreak(s[0]) {
      assert s[1..] == a[1..] + b;
      if |a| > 1 { SplitFromAppend(a[1..], b, []); }
    } else {
      assert s[1..] == a[1..] + b;
      SplitFromAppend(a[1..], b, cur + [s[0]]);
    }
  }

  /** Splitting a ++ b where a is empty or ends with "\n". */
  lemma SplitLinesAppend(a: string, b: string)
    requires |a| == 0 || a[|a| - 1] == '\n'
    ensures SplitLines(a + b) == SplitLines(a) + SplitLines(b)
  {
    if |a| == 0 {
      assert a + b == b;
    } else {
      SplitFromAppend(a, b, []);
    }
  }

  /** A line followed by a blank line splits into the line and "". */
  lemma SplitLinesBlock(line: string)
    requires NoLineBreak(line)
    ensures SplitLines(line + "\n\n") == [line, ""]
  {
    SplitFromPlain(line, "\n\n", []);
    assert [] + line == line;
    assert "\n\n"[1..] == "\n";
  }

  // ---------------------------------------------------------------------
  // Decimal rendering of natural numbers (str(n), f"{n}")
  // ---------------------------------------------------------------------

  function DigitChar(d: nat): char
    requires d < 10
  {
    ('0' as int + d) as char
  }

  /** The value of a string of decimal digits. */
  function DigitsValue(s: string): nat
    requires forall i :: 0 <= i < |s| ==> '0' <= s[i] <= '9'
  {
    if |s| == 0 then 0 else DigitsValue(s[..|s| - 1]) * 10 + (s[|s| - 1] as int - '0' as int)
  }

  /** str(n) for n >= 0: a non-empty string of digits whose value is n. */
  function NatToString(n: nat): (s: string)
    ensures |s| > 0 && forall i :: 0 <= i < |s| ==> '0' <= s[i] <= '9'
    ensures DigitsValue(s) == n
  {
    if n < 10 then [DigitChar(n)]
    else
      var s := NatToString(n / 10) + [DigitChar(n % 10)];
      assert s[..|s| - 1] == NatToString(n / 10);
      s
  }

  /** Different numbers are rendered differently. */
  lemma NatToStringInjective(m: nat, n: nat)
    requires NatToString(m) == NatToString(n)
    ensures m == n
  {
  }

  // ---------------------------------------------------------------------
  // ", ".join(xs)
  // ---------------------------------------------------------------------

  function JoinWith(sep: string, xs: seq<string>): string {
    if |xs| == 0 then ""
    else if |xs| == 1 then xs[0]
    else JoinWith(sep, xs[..|xs| - 1]) + sep + xs[|xs| - 1]
  }

  /** An occurrence inside the middle part is an occurrence in the whole. */
  lemma ContainsWithin(a: string, b: string, c: string, p: string)
    requires Contains(b, p)
    ensures Contains(a + b + c, p)
  {
    var s := a + b + c;
    assert s[|a|..|a| + |b|] == b;
    ContainsSlice(s, |a|, |a| + |b|, p);
  }

  /** Every joined item occurs in the joined text. */
  lemma {:induction false} JoinWithContains(sep: string, xs: seq<string>, j: nat)
    requires j < |xs|
    ensures Contains(JoinWith(sep, xs), xs[j])
    decreases |xs|
  {
    var x := xs[j];
    assert Contains(x, x) by {
      assert x[..|x|] == x;
    }
    if |xs| > 1 {
      var init := xs[..|xs| - 1];
      var a := JoinWith(sep, init);
      if j == |xs| - 1 {
        ContainsWithin(a + sep, x, "", x);
        assert a + sep + x + "" == JoinWith(sep, xs);
      } else {
        JoinWithContains(sep, init, j);
        assert init[j] == x;
        ContainsWithin("", a, sep + xs[|xs| - 1], x);
        assert "" + a + (sep + xs[|xs| - 1]) == JoinWith(sep, xs);
      }
    }
  }

  // ---------------------------------------------------------------------
  // String ordering (Python's < on str: code points, lexicographically)
  // ---------------------------------------------------------------------

  predicate Below(a: string, b: string)
    decreases |a|
  {
    if |a| == 0 then |b| > 0
    else if |b| == 0 then false
    else a[0] < b[0] || (a[0] == b[0] && Below(a[1..], b[1..]))
  }

  lemma {:induction false} BelowIrreflexive(a: string)
    ensures !Below(a, a)
    decreases |a|
  {
    if |a| > 0 { BelowIrreflexive(a[1..]); }
  }

  lemma {:induction false} BelowTransitive(a: string, b: string, c: string)
    requires Below(a, b) && Below(b, c)
    ensures Below(a, c)
    decreases |a|
  {
    if |a| > 0 && a[0] == b[0] == c[0] {
      BelowTransitive(a[1..], b[1..], c[1..]);
    }
  }

  lemma {:induction false} BelowTotal(a: string, b: string)
    requires a != b
    ensures Below(a, b) || Below(b, a)
    decreases |a|
  {
    if |a| > 0 && |b| > 0 && a[0] == b[0] {
      assert a == [a[0]] + a[1..] && b == [b[0]] + b[1..];
      BelowTotal(a[1..], b[1..]);
    }
  }

  /** m is the smallest element of s. */
  predicate IsLeast(m: string, s: set<string>) {
    m in s && forall y :: y in s && y != m ==> Below(m, y)
  }

  lemma {:induction false} LeastExists(s: set<string>)
    requires s != {}
    ensures exists m :: IsLeast(m, s)
    decreases |s|
  {
    var x :| x in s;
    if s == {x} {
      assert IsLeast(x, s);
    } else {
      LeastExists(s - {x});
      var m :| IsLeast(m, s - {x});
      if Below(x, m) {
        forall y | y in s && y != x ensures Below(x, y) {
          if y != m { BelowTransitive(x, m, y); }
        }
        assert IsLeast(x, s);
      } else {
        BelowTotal(x, m);
        assert IsLeast(m, s);
      }
    }
  }

  lemma LeastUnique(s: set<string>)
    ensures forall m1, m2 :: IsLeast(m1, s) && IsLeast(m2, s) ==> m1 == m2
  {
    forall m1, m2 | IsLeast(m1, s) && IsLeast(m2, s) ensures m1 == m2 {
      if m1 != m2 {
        BelowTransitive(m1, m2, m1);
        BelowIrreflexive(m1);
      }
    }
  }

  /** sorted(s): every element of s exactly once, in ascending order. */
  function SortedList(s: set<string>): (r: seq<string>)
    ensures |r| == |s|
    ensures forall x :: x in r <==> x in s
    ensures forall i, j :: 0 <= i < j < |r| ==> Below(r[i], r[j])
    decreases |s|
  {
    if s == {} then []
    else
      LeastExists(s);
      LeastUnique(s);
      var m :| IsLeast(m, s);
      var rest := SortedList(s - {m});
      assert forall j :: 0 <= j < |rest| ==> rest[j] in s - {m};
      [m] + rest
  }
}
