/**
 * The parts of Python's `str` that the extraction code relies on, over
 * ASCII text: whitespace and digit classes, `strip`, `split`, `join`,
 * `lower`/`upper` and substring tests.  Whitespace is the set of ASCII
 * characters for which `str.isspace()` holds, which is also what the
 * regular-expression class `\s` matches.
 */
module Text {
  import opened Base

  predicate IsSpace(c: char) {
    c == ' ' || c == '\t' || c == '\n' || c == '\r' || c == '\U{B}' || c == '\U{C}'
    || ('\U{1C}' <= c <= '\U{1F}')
  }

  predicate IsDigit(c: char) { '0' <= c <= '9' }

  predicate IsUpper(c: char) { 'A' <= c <= 'Z' }

  predicate IsLower(c: char) { 'a' <= c <= 'z' }

  /** The class `\w`: letters, digits and underscore. */
  predicate IsWordChar(c: char) { IsDigit(c) || IsUpper(c) || IsLower(c) || c == '_' }

  predicate AllDigits(s: string) { forall k :: 0 <= k < |s| ==> IsDigit(s[k]) }

  predicate AllSpace(s: string) { forall k :: 0 <= k < |s| ==> IsSpace(s[k]) }

  function LowerChar(c: char): char {
    if IsUpper(c) then (c as int + 32) as char else c
  }

  function UpperChar(c: char): char {
    if IsLower(c) then (c as int - 32) as char else c
  }

  /** `str.lower()` */
  function Lower(s: string): (r: string)
    ensures |r| == |s|
    ensures forall k :: 0 <= k < |s| ==> r[k] == LowerChar(s[k])
  {
    seq(|s|, k requires 0 <= k < |s| => LowerChar(s[k]))
  }

  /** `str.upper()` */
  function Upper(s: string): (r: string)
    ensures |r| == |s|
    ensures forall k :: 0 <= k < |s| ==> r[k] == UpperChar(s[k])
  {
    seq(|s|, k requires 0 <= k < |s| => UpperChar(s[k]))
  }

  /** Index of the first non-whitespace character at or after `i` (`|s|` if there is none). */
  function SkipSpace(s: string, i: nat): (j: nat)
    requires i <= |s|
    ensures i <= j <= |s|
    ensures forall k :: i <= k < j ==> IsSpace(s[k])
    ensures j == |s| || !IsSpace(s[j])
    decreases |s| - i
  {
    if i < |s| && IsSpace(s[i]) then SkipSpace(s, i + 1) else i
  }

  /** Index of the first whitespace character at or after `i` (`|s|` if there is none). */
  function NextSpace(s: string, i: nat): (j: nat)
    requires i <= |s|
    ensures i <= j <= |s|
    ensures forall k :: i <= k < j ==> !IsSpace(s[k])
    ensures j == |s| || IsSpace(s[j])
    decreases |s| - i
  {
    if i < |s| && !IsSpace(s[i]) then NextSpace(s, i + 1) else i
  }

  /** The end of `s[..j]` once its trailing whitespace is dropped. */
  function TrimmedEnd(s: string, j: nat): (e: nat)
    requires j <= |s|
    ensures e <= j
    ensures forall k :: e <= k < j ==> IsSpace(s[k])
    ensures e == 0 || !IsSpace(s[e - 1])
  {
    if j > 0 && IsSpace(s[j - 1]) then TrimmedEnd(s, j - 1) else j
  }

  /** `str.strip()` */
  function Strip(s: string): (r: string)
    ensures |r| <= |s|
    ensures r == [] || (!IsSpace(r[0]) && !IsSpace(r[|r| - 1]))
    ensures forall c :: c in r ==> c in s
  {
    var a := SkipSpace(s, 0);
    var b := TrimmedEnd(s, |s|);
    if a < b then s[a..b] else ""
  }

  /** `str.split(sep)` for a one-character separator: always at least one piece. */
  function Split(s: string, sep: char): (parts: seq<string>)
    ensures |parts| >= 1
    decreases |s|
  {
    if |s| == 0 then [""]
    else
      var rest := Split(s[1..], sep);
      if s[0] == sep then [""] + rest else [[s[0]] + rest[0]] + rest[1..]
  }

  /** `sep.join(parts)` */
  function Join(sep: string, parts: seq<string>): string {
    if parts == [] then ""
    else if |parts| == 1 then parts[0]
    else parts[0] + sep + Join(sep, parts[1..])
  }

  /** `str.split()` with no argument: the maximal runs of non-whitespace characters. */
  function Tokens(s: string): (ts: seq<string>)
    decreases |s|
  {
    var a := SkipSpace(s, 0);
    if a == |s| then []
    else
      var b := NextSpace(s, a);
      [s[a..b]] + Tokens(s[b..])
  }

  /** The list comprehension `[l.strip() for l in parts if l.strip()]`. */
  function StrippedNonBlank(parts: seq<string>): (lines: seq<string>)
  {
    if parts == [] then []
    else
      var t := Strip(parts[0]);
      (if t == "" then [] else [t]) + StrippedNonBlank(parts[1..])
  }

  /** `[l.strip() for l in s.split('\n') if l.strip()]`: the trimmed, non-blank lines of `s`. */
  function NonBlankLines(s: string): (lines: seq<string>)
  {
    StrippedNonBlank(Split(s, '\n'))
  }

  /** `t` occurs in `s` at index `i`. */
  predicate OccursAt(s: string, i: nat, t: string) {
    i + |t| <= |s| && s[i..i + |t|] == t
  }

  /** Python's `t in s` for strings. */
  predicate Contains(s: string, t: string)
    decreases |s|
  {
    |t| <= |s| && (s[..|t|] == t || (|s| > 0 && Contains(s[1..], t)))
  }

  /** The literal `lit` occurs at index `i` of `s` up to ASCII case (a pattern compiled with IGNORECASE). */
  predicate MatchesAtIgnoreCase(s: string, i: nat, lit: string) {
    i + |lit| <= |s| && forall k :: 0 <= k < |lit| ==> LowerChar(s[i + k]) == LowerChar(lit[k])
  }

  // ---------------------------------------------------------------------
  // Facts about the helpers above.
  // ---------------------------------------------------------------------

  /** `Contains` is the existence of an occurrence. */
  lemma {:induction false} ContainsIff(s: string, t: string)
    ensures Contains(s, t) <==> exists i :: 0 <= i && OccursAt(s, i, t)
    decreases |s|
  {
    if |t| <= |s| && s[..|t|] != t && |s| > 0 {
      ContainsIff(s[1..], t);
      if Contains(s[1..], t) {
        var i :| 0 <= i && OccursAt(s[1..], i, t);
        assert OccursAt(s, i + 1, t) by { assert s[i + 1..i + 1 + |t|] == s[1..][i..i + |t|]; }
      }
      if exists i :: 0 <= i && OccursAt(s, i, t) {
        var i :| 0 <= i && OccursAt(s, i, t);
        assert i != 0;
        assert OccursAt(s[1..], i - 1, t) by { assert s[1..][i - 1..i - 1 + |t|] == s[i..i + |t|]; }
      }
    } else if |t| <= |s| && s[..|t|] == t {
      assert OccursAt(s, 0, t);
    }
  }

  /** `Contains` from a known occurrence. */
  lemma ContainsAtIndex(s: string, i: nat, t: string)
    requires OccursAt(s, i, t)
    ensures Contains(s, t)
  {
    ContainsIff(s, t);
  }

  /** Upper-casing is unaffected by a prior lower-casing, and vice versa. */
  lemma LowerUpper(s: string)
    ensures Lower(Upper(s)) == Lower(s)
    ensures Upper(Lower(s)) == Upper(s)
  {
  }

  /** A string without whitespace at either edge is its own `strip()`. */
  lemma {:induction false} StripNoEdges(s: string)
    requires s == [] || (!IsSpace(s[0]) && !IsSpace(s[|s| - 1]))
    ensures Strip(s) == s
  {
    if s != [] {
      assert SkipSpace(s, 0) == 0;
      assert TrimmedEnd(s, |s|) == |s|;
    }
  }

  /** `strip()` keeps exactly the part between a whitespace prefix and a whitespace suffix. */
  lemma StripUnique(s: string, a: nat, b: nat)
    requires a <= b <= |s|
    requires forall k :: 0 <= k < a ==> IsSpace(s[k])
    requires forall k :: b <= k < |s| ==> IsSpace(s[k])
    requires a == b || (!IsSpace(s[a]) && !IsSpace(s[b - 1]))
    ensures Strip(s) == s[a..b]
  {
    if a < b {
      SkipSpaceUnique(s, SkipSpace(s, 0), a);
      TrimmedEndUnique(s, TrimmedEnd(s, |s|), b);
    } else {
      assert AllSpace(s) by {
        forall k | 0 <= k < |s| ensures IsSpace(s[k]) {
          if k >= a { }
        }
      }
      StripAllSpace(s);
    }
  }

  /** The bounds `strip()` cuts `s` at. */
  lemma StripBounds(s: string) returns (a: nat, b: nat)
    ensures a <= b <= |s| && Strip(s) == s[a..b]
    ensures forall k :: 0 <= k < a ==> IsSpace(s[k])
    ensures forall k :: b <= k < |s| ==> IsSpace(s[k])
  {
    a, b := SkipSpace(s, 0), TrimmedEnd(s, |s|);
    if b <= a {
      a, b := |s|, |s|;
    }
  }

  /** Whitespace added around `s` does not change `strip()`. */
  lemma StripPadded(w1: string, s: string, w2: string)
    requires AllSpace(w1) && AllSpace(w2)
    ensures Strip(w1 + s + w2) == Strip(s)
  {
    StripSpaceBefore(w1, s);
    StripSpaceAfter(w1 + s, w2);
  }

  /** Leading whitespace does not change `strip()`. */
  lemma StripSpaceBefore(w: string, s: string)
    requires AllSpace(w)
    ensures Strip(w + s) == Strip(s)
  {
    var a, b := StripBounds(s);
    ShiftedBounds(w, s, a, b);
    StripUnique(w + s, |w| + a, |w| + b);
  }

  /** Bounds that `strip()` could cut `s` at, moved past a whitespace prefix. */
  lemma ShiftedBounds(w: string, s: string, a: nat, b: nat)
    requires AllSpace(w)
    requires a <= b <= |s| && Strip(s) == s[a..b]
    requires forall k :: 0 <= k < a ==> IsSpace(s[k])
    requires forall k :: b <= k < |s| ==> IsSpace(s[k])
    ensures var u, n := w + s, |w|;
      (forall k :: 0 <= k < n + a ==> IsSpace(u[k]))
      && (forall k :: n + b <= k < |u| ==> IsSpace(u[k]))
      && (a == b || (!IsSpace(u[n + a]) && !IsSpace(u[n + b - 1])))
      && u[n + a..n + b] == s[a..b]
  {
    var u, n := w + s, |w|;
    forall k | 0 <= k < n + a ensures IsSpace(u[k]) {
      if k < n {
        assert u[k] == w[k];
      } else {
        assert u[k] == s[k - n];
      }
    }
    if a < b {
      assert Strip(s)[0] == s[a] && Strip(s)[b - a - 1] == s[b - 1];
    }
    assert u[n + a..n + b] == s[a..b];
  }

  /** Trailing whitespace does not change `strip()`. */
  lemma StripSpaceAfter(s: string, w: string)
    requires AllSpace(w)
    ensures Strip(s + w) == Strip(s)
  {
    var u := s + w;
    var a, b := StripBounds(s);
    forall k | 0 <= k < a ensures IsSpace(u[k]) {
      assert u[k] == s[k];
    }
    forall k | b <= k < |u| ensures IsSpace(u[k]) {
      if k < |s| {
        assert u[k] == s[k];
      } else {
        assert u[k] == w[k - |s|];
      }
    }
    if a < b {
      assert Strip(s)[0] == s[a] && Strip(s)[b - a - 1] == s[b - 1];
      assert u[a] == s[a] && u[b - 1] == s[b - 1];
    }
    assert u[a..b] == s[a..b];
    StripUnique(u, a, b);
  }

  /** Lower-casing and `strip()` commute: case mapping never touches whitespace. */
  lemma StripLower(s: string)
    ensures Strip(Lower(s)) == Lower(Strip(s))
  {
    LowerSpaces(s);
    var a, b := StripSameSpaces(s, Lower(s));
    LowerSlice(s, a, b);
  }

  lemma LowerSpaces(s: string)
    ensures forall k :: 0 <= k < |s| ==> (IsSpace(Lower(s)[k]) <==> IsSpace(s[k]))
  {
    forall k | 0 <= k < |s| ensures IsSpace(Lower(s)[k]) <==> IsSpace(s[k]) {
      LowerCharSpace(s[k]);
    }
  }

  lemma LowerCharSpace(c: char)
    ensures IsSpace(LowerChar(c)) <==> IsSpace(c)
  {
  }

  lemma LowerSlice(s: string, a: nat, b: nat)
    requires a <= b <= |s|
    ensures Lower(s)[a..b] == Lower(s[a..b])
  {
    assert forall k :: 0 <= k < b - a ==> Lower(s)[a..b][k] == Lower(s[a..b])[k];
  }

  /** Two strings with whitespace at the same positions are stripped at the same bounds. */
  lemma StripSameSpaces(s: string, t: string) returns (a: nat, b: nat)
    requires |s| == |t|
    requires forall k :: 0 <= k < |s| ==> (IsSpace(t[k]) <==> IsSpace(s[k]))
    ensures a <= b <= |s| && Strip(s) == s[a..b] && Strip(t) == t[a..b]
  {
    a, b := StripBounds(s);
    if a < b {
      assert Strip(s)[0] == s[a] && Strip(s)[b - a - 1] == s[b - 1];
    }
    StripUnique(t, a, b);
  }

  lemma SkipSpaceUnique(s: string, j: nat, j': nat)
    requires j <= |s| && j == SkipSpace(s, 0)
    requires j' <= |s| && (forall k :: 0 <= k < j' ==> IsSpace(s[k])) && (j' == |s| || !IsSpace(s[j']))
    ensures j == j'
  {
  }

  lemma TrimmedEndUnique(s: string, e: nat, e': nat)
    requires e == TrimmedEnd(s, |s|)
    requires e' <= |s| && (forall k :: e' <= k < |s| ==> IsSpace(s[k])) && (e' == 0 || !IsSpace(s[e' - 1]))
    ensures e == e'
  {
  }

  lemma AllSpaceSkip(s: string)
    requires AllSpace(s)
    ensures SkipSpace(s, 0) == |s|
  {
  }

  /** An all-whitespace string strips to the empty string. */
  lemma StripAllSpace(s: string)
    requires AllSpace(s)
    ensures Strip(s) == ""
  {
    AllSpaceSkip(s);
  }

  /** `strip()` is idempotent. */
  lemma StripIdempotent(s: string)
    ensures Strip(Strip(s)) == Strip(s)
  {
    StripNoEdges(Strip(s));
  }

  /** `split` never leaves the separator inside a piece. */
  lemma {:induction false} SplitPiecesFree(s: string, sep: char)
    ensures forall k :: 0 <= k < |Split(s, sep)| ==> sep !in Split(s, sep)[k]
    decreases |s|
  {
    if |s| > 0 {
      SplitPiecesFree(s[1..], sep);
    }
  }

  /** Joining the pieces of a `split` on the same separator gives back the original string. */
  lemma {:induction false} JoinSplit(s: string, sep: char)
    ensures Join([sep], Split(s, sep)) == s
    decreases |s|
  {
    if |s| > 0 {
      var rest := Split(s[1..], sep);
      JoinSplit(s[1..], sep);
      if s[0] == sep {
        assert Split(s, sep) == [""] + rest;
        assert Join([sep], [""] + rest) == "" + [sep] + Join([sep], rest);
      } else {
        assert Split(s, sep) == [[s[0]] + rest[0]] + rest[1..];
        if |rest| == 1 {
          assert Join([sep], rest) == rest[0];
        } else {
          assert Join([sep], rest) == rest[0] + [sep] + Join([sep], rest[1..]);
          assert ([[s[0]] + rest[0]] + rest[1..])[1..] == rest[1..];
        }
      }
    }
  }

  /** The first piece of a split is the text before the first separator. */
  lemma {:induction false} SplitFirst(s: string, sep: char, i: nat)
    requires i <= |s| && sep !in s[..i] && (i == |s| || s[i] == sep)
    ensures Split(s, sep)[0] == s[..i]
    ensures i < |s| ==> |Split(s, sep)| >= 2 && Split(s, sep)[1..] == Split(s[i + 1..], sep)
    ensures i == |s| ==> |Split(s, sep)| == 1
    decreases i
  {
    if i > 0 {
      assert sep !in s[1..][..i - 1] by { assert s[1..][..i - 1] == s[1..i]; }
      SplitFirst(s[1..], sep, i - 1);
      if i < |s| { assert s[1..][i..] == s[i + 1..]; }
      assert s[..i] == [s[0]] + s[1..][..i - 1];
    }
  }

  /** Every line of `NonBlankLines` is non-empty, already stripped and free of newlines. */
  lemma {:induction false} StrippedNonBlankShape(parts: seq<string>)
    requires forall k :: 0 <= k < |parts| ==> '\n' !in parts[k]
    ensures forall k :: 0 <= k < |StrippedNonBlank(parts)| ==>
      var l := StrippedNonBlank(parts)[k];
      l != "" && Strip(l) == l && '\n' !in l
  {
    if parts != [] {
      StrippedNonBlankShape(parts[1..]);
      StripIdempotent(parts[0]);
    }
  }

  lemma NonBlankLinesShape(s: string)
    ensures forall k :: 0 <= k < |NonBlankLines(s)| ==>
      var l := NonBlankLines(s)[k];
      l != "" && Strip(l) == l && '\n' !in l
  {
    SplitPiecesFree(s, '\n');
    StrippedNonBlankShape(Split(s, '\n'));
  }

  /** A string with no whitespace, followed by a space, is read by `split()` as one token. */
  lemma {:induction false} TokensLeadingSpace(s: string)
    requires |s| > 0 && IsSpace(s[0])
    ensures Tokens(s) == Tokens(s[1..])
  {
    var a := SkipSpace(s, 0);
    var a' := SkipSpace(s[1..], 0);
    SkipSpaceShift(s, 1);
    assert a == a' + 1;
    if a < |s| {
      var b := NextSpace(s, a);
      var b' := NextSpace(s[1..], a');
      NextSpaceShift(s, 1, a');
      assert b == b' + 1;
      assert s[a..b] == s[1..][a'..b'];
      assert s[b..] == s[1..][b'..];
    }
  }

  lemma {:induction false} SkipSpaceShift(s: string, d: nat)
    requires d <= |s| && forall k :: 0 <= k < d ==> IsSpace(s[k])
    ensures SkipSpace(s, 0) == d + SkipSpace(s[d..], 0)
  {
    var j := SkipSpace(s[d..], 0);
    assert forall k :: d <= k < d + j ==> IsSpace(s[k]) by {
      forall k | d <= k < d + j ensures IsSpace(s[k]) { assert s[k] == s[d..][k - d]; }
    }
    assert d + j == |s| || !IsSpace(s[d + j]) by {
      if d + j < |s| { assert s[d + j] == s[d..][j]; }
    }
    SkipSpaceUnique(s, SkipSpace(s, 0), d + j);
  }

  lemma {:induction false} NextSpaceShift(s: string, d: nat, i: nat)
    requires d + i <= |s|
    ensures NextSpace(s, d + i) == d + NextSpace(s[d..], i)
    decreases |s| - d - i
  {
    if d + i < |s| && !IsSpace(s[d + i]) {
      assert s[d..][i] == s[d + i];
      NextSpaceShift(s, d, i + 1);
    } else if d + i < |s| {
      assert s[d..][i] == s[d + i];
    }
  }

  /** `split()` undoes `' '.join(ts)` for non-empty, whitespace-free tokens. */
  lemma {:induction false} TokensOfJoin(ts: seq<string>)
    requires forall k :: 0 <= k < |ts| ==> ts[k] != "" && AllNonSpace(ts[k])
    ensures Tokens(Join(" ", ts)) == ts
  {
    if ts == [] {
      assert SkipSpace("", 0) == 0;
    } else {
      var t := ts[0];
      var rest := Join(" ", ts[1..]);
      var s := if |ts| == 1 then t else t + " " + rest;
      assert Join(" ", ts) == s;
      assert SkipSpace(s, 0) == 0;
      NextSpaceOverToken(s, t);
      assert s[..|t|] == t;
      TokensOfJoin(ts[1..]);
      if |ts| == 1 {
        assert s[|t|..] == "";
        assert SkipSpace("", 0) == 0;
        assert Tokens(s) == [t] + Tokens("");
      } else {
        assert s[|t|..] == " " + rest;
        TokensLeadingSpace(" " + rest);
        assert (" " + rest)[1..] == rest;
        assert Tokens(s) == [t] + Tokens(rest);
      }
    }
  }

  predicate AllNonSpace(s: string) { forall k :: 0 <= k < |s| ==> !IsSpace(s[k]) }

  lemma {:induction false} NextSpaceOverToken(s: string, t: string)
    requires |t| <= |s| && s[..|t|] == t && AllNonSpace(t)
    requires |t| == |s| || IsSpace(s[|t|])
    ensures NextSpace(s, 0) == |t|
  {
    assert forall k :: 0 <= k < |t| ==> s[k] == t[k];
  }

  /** `' '.join(ts)` of non-empty, whitespace-free tokens starts and ends with a token character. */
  lemma {:induction false} JoinEdges(ts: seq<string>)
    requires ts != []
    requires forall k :: 0 <= k < |ts| ==> ts[k] != "" && AllNonSpace(ts[k])
    ensures Join(" ", ts) != ""
    ensures Join(" ", ts)[0] == ts[0][0]
    ensures Join(" ", ts)[|Join(" ", ts)| - 1] == ts[|ts| - 1][|ts[|ts| - 1]| - 1]
  {
    if |ts| > 1 {
      JoinEdges(ts[1..]);
      var rest := Join(" ", ts[1..]);
      assert Join(" ", ts) == ts[0] + " " + rest;
      assert ts[1..][|ts[1..]| - 1] == ts[|ts| - 1];
    }
  }

  /** A string without the separator is one piece. */
  lemma SplitWhole(s: string, sep: char)
    requires sep !in s
    ensures Split(s, sep) == [s]
  {
    assert s[..|s|] == s;
    SplitFirst(s, sep, |s|);
  }
}
