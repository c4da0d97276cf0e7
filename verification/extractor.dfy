/**
 * The operative-report extractor (`MedicalReportExtractor`): it fills an
 * `OperativeReport` from the report text, using the capture rules of
 * `Patterns`, the ICD-10 code shape below, and the two catalog lookups.
 */
module Extractor {
  import opened Base
  import opened Text
  import opened Patterns
  import opened Lookup
  import opened DataModels

  // ---------------------------------------------------------------------
  // extract_with_pattern
  // ---------------------------------------------------------------------

  /** What a Python match object offers: the whole match, the numbered groups and the named groups. */
  datatype RegexMatch = RegexMatch(whole: string, groups: seq<Option<string>>, named: map<string, Option<string>>)

  /** The match object of one of the `RegexPatterns` rules (each has exactly one, named, group). */
  function MatchOf(p: Pattern, s: string, sp: Span): RegexMatch
    requires SpanIn(s, sp)
  {
    RegexMatch(s[sp.start..sp.end], [Some(Group(s, sp))], map[GroupName(p) := Some(Group(s, sp))])
  }

  /**
   * The group `extract_with_pattern` returns, stripped: the named group when
   * a (non-empty) name is given and exists, else the first group, else the
   * whole match.  A group that did not take part in the match makes `.strip()`
   * raise, which the method turns into `None`.
   */
  function SelectGroup(m: RegexMatch, groupName: Option<string>): Option<string> {
    if groupName.Some? && groupName.value != "" then
      if groupName.value in m.named then
        match m.named[groupName.value]
        case Some(g) => Some(Strip(g))
        case None => None
      else None
    else if |m.groups| > 0 then
      match m.groups[0]
      case Some(g) => Some(Strip(g))
      case None => None
    else Some(Strip(m.whole))
  }

  /** `extract_with_pattern(pattern, group_name)` over the report text `s`. */
  function ExtractWithPattern(s: string, p: Pattern, groupName: Option<string>): (r: Option<string>)
    ensures Search(p, s).None? ==> r.None?
    ensures Search(p, s).Some? && (groupName.None? || groupName == Some("") || groupName == Some(GroupName(p)))
      ==> r == Some(Strip(Group(s, Search(p, s).value)))
    ensures groupName.Some? && groupName.value != "" && groupName.value != GroupName(p) ==> r.None?
  {
    match Search(p, s)
    case None => None
    case Some(sp) => SelectGroup(MatchOf(p, s, sp), groupName)
  }

  /** `extract_with_pattern` as the extractor calls it: with the rule's own group name. */
  function Field(s: string, p: Pattern): Option<string> {
    ExtractWithPattern(s, p, Some(GroupName(p)))
  }

  // ---------------------------------------------------------------------
  // ICD10_CODE_PATTERN: \b([A-TV-Z][0-9][A-Z0-9](?:\.[A-Z0-9]{1,4})?)\b
  // ---------------------------------------------------------------------

  /** `[A-TV-Z]` */
  predicate CategoryLetter(c: char) { IsUpper(c) && c != 'U' }

  /** `[A-Z0-9]` */
  predicate UpperOrDigit(c: char) { IsUpper(c) || IsDigit(c) }

  /** `\b`: exactly one side of index `i` is a word character. */
  predicate Boundary(s: string, i: nat)
    requires i <= |s|
  {
    (i > 0 && IsWordChar(s[i - 1])) != (i < |s| && IsWordChar(s[i]))
  }

  /** A string of the code shape: letter (not U), digit, letter or digit, then optionally '.' and 1 to 4 letters or digits. */
  predicate IcdCodeShape(t: string) {
    (|t| == 3 || 5 <= |t| <= 8)
    && CategoryLetter(t[0]) && IsDigit(t[1]) && UpperOrDigit(t[2])
    && (|t| > 3 ==> t[3] == '.' && forall k :: 4 <= k < |t| ==> UpperOrDigit(t[k]))
  }

  /** `s[i..e]` is a code-shaped token with a word boundary on each side. */
  predicate CodeMatch(s: string, i: nat, e: nat) {
    i <= e <= |s| && IcdCodeShape(s[i..e]) && Boundary(s, i) && Boundary(s, e)
  }

  /** Number of `[A-Z0-9]` characters from `j + n` on, counting no further than 4 in all. */
  function ExtRun(s: string, j: nat, n: nat): (m: nat)
    requires n <= 4 && j + n <= |s|
    requires forall k :: j <= k < j + n ==> UpperOrDigit(s[k])
    ensures n <= m <= 4 && j + m <= |s|
    ensures forall k :: j <= k < j + m ==> UpperOrDigit(s[k])
    ensures m == 4 || j + m == |s| || !UpperOrDigit(s[j + m])
    decreases 4 - n
  {
    if n < 4 && j + n < |s| && UpperOrDigit(s[j + n]) then ExtRun(s, j, n + 1) else n
  }

  /**
   * The end of the code the pattern matches at `i`, following the engine: the
   * greedy `{1,4}` takes as many characters as it can, and the optional
   * extension is dropped when no word boundary follows it.
   */
  function CodeAt(s: string, i: nat): (e: Option<nat>)
    ensures LongestCode(s, i, e)
  {
    if CodeStarts(s, i) then
      var m := if i + 3 < |s| && s[i + 3] == '.' then ExtRun(s, i + 4, 0) else 0;
      CodeAtCases(s, i, m);
      CodeEndChoice(s, i, m)
    else
      NoCodeWithoutStart(s, i);
      None
  }

  /** `e` is the end of the longest code matching at `i`, or `None` when no code matches there. */
  ghost predicate LongestCode(s: string, i: nat, e: Option<nat>) {
    (e.Some? ==> CodeMatch(s, i, e.value) && forall e': nat :: CodeMatch(s, i, e') ==> e' <= e.value)
    && (e.None? ==> forall e': nat :: !CodeMatch(s, i, e'))
  }

  /** The engine's choice: the extended code when a boundary follows it, else the short code when a boundary follows that. */
  function CodeEndChoice(s: string, i: nat, m: nat): Option<nat> {
    if m >= 1 && i + 4 + m <= |s| && Boundary(s, i + 4 + m) then Some(i + 4 + m)
    else if i + 3 <= |s| && Boundary(s, i + 3) then Some(i + 3)
    else None
  }

  /** The three mandatory characters of a code start at `i`, after a word boundary. */
  predicate CodeStarts(s: string, i: nat) {
    i + 3 <= |s| && Boundary(s, i) && CategoryLetter(s[i]) && IsDigit(s[i + 1]) && UpperOrDigit(s[i + 2])
  }

  lemma NoCodeWithoutStart(s: string, i: nat)
    requires !CodeStarts(s, i)
    ensures LongestCode(s, i, None)
  {
    forall e: nat ensures !CodeMatch(s, i, e) {
      if i + 3 <= e <= |s| {
        assert s[i..e][0] == s[i] && s[i..e][1] == s[i + 1] && s[i..e][2] == s[i + 2];
      }
    }
  }

  /** The codes that can match at `i`, given the extension run `m` the engine measures. */
  lemma CodeAtCases(s: string, i: nat, m: nat)
    requires CodeStarts(s, i)
    requires m == if i + 3 < |s| && s[i + 3] == '.' then ExtRun(s, i + 4, 0) else 0
    ensures LongestCode(s, i, CodeEndChoice(s, i, m))
  {
    ShortCodeMatch(s, i);
    if m >= 1 {
      LongCodeMatch(s, i, m);
    }
    OnlyTwoCodes(s, i, m);
  }

  /** The three mandatory characters form a code exactly when a boundary follows them. */
  lemma ShortCodeMatch(s: string, i: nat)
    requires CodeStarts(s, i)
    ensures CodeMatch(s, i, i + 3) <==> Boundary(s, i + 3)
  {
    var t := s[i..i + 3];
    assert t[0] == s[i] && t[1] == s[i + 1] && t[2] == s[i + 2];
  }

  /** The code with the whole measured extension matches exactly when a boundary follows it. */
  lemma LongCodeMatch(s: string, i: nat, m: nat)
    requires CodeStarts(s, i)
    requires i + 3 < |s| && s[i + 3] == '.' && m == ExtRun(s, i + 4, 0) && m >= 1
    ensures i + 4 + m <= |s| && (CodeMatch(s, i, i + 4 + m) <==> Boundary(s, i + 4 + m))
  {
    var u := s[i..i + 4 + m];
    assert forall k :: 0 <= k < |u| ==> u[k] == s[i + k];
  }

  /** No other end is possible: the extension is all or nothing of the measured run. */
  lemma OnlyTwoCodes(s: string, i: nat, m: nat)
    requires CodeStarts(s, i)
    requires m == if i + 3 < |s| && s[i + 3] == '.' then ExtRun(s, i + 4, 0) else 0
    ensures forall e: nat :: CodeMatch(s, i, e) ==> e == i + 3 || (m >= 1 && e == i + 4 + m)
  {
    forall e: nat | CodeMatch(s, i, e) ensures e == i + 3 || (m >= 1 && e == i + 4 + m) {
      var u := s[i..e];
      assert forall k :: 0 <= k < |u| ==> u[k] == s[i + k];
      if e > i + 3 {
        assert s[i + 3] == '.';
        assert forall k :: i + 4 <= k < e ==> UpperOrDigit(s[k]);
      }
    }
  }

  /** The leftmost index at or after `i` where a code matches, with the end of that code. */
  function FirstCode(s: string, i: nat): (r: Option<(nat, nat)>)
    ensures r.Some? ==> i <= r.value.0 && CodeAt(s, r.value.0) == Some(r.value.1)
    ensures r.Some? ==> forall j :: i <= j < r.value.0 ==> CodeAt(s, j).None?
    ensures r.None? ==> forall j :: i <= j ==> CodeAt(s, j).None?
    decreases |s| - i
  {
    if i + 3 > |s| then None
    else
      var here := CodeAt(s, i);
      if here.Some? then Some((i, here.value)) else FirstCode(s, i + 1)
  }

  /** `re.findall(ICD10_CODE_PATTERN, s)[0]`, if there is a match (the pattern is case-sensitive). */
  function FindIcdCode(s: string): Option<string> {
    match FirstCode(s, 0)
    case None => None
    case Some((a, e)) => Some(s[a..e])
  }

  /**
   * The code found is the leftmost code-shaped token with word boundaries on
   * both sides, and of those starting there the longest; there is none
   * exactly when no such token occurs.
   */
  lemma IcdCodeFound(s: string)
    ensures FindIcdCode(s).Some? ==> exists a: nat, e: nat ::
      CodeMatch(s, a, e) && FindIcdCode(s).value == s[a..e]
      && (forall e': nat :: CodeMatch(s, a, e') ==> e' <= e)
      && (forall j: nat, e': nat :: j < a ==> !CodeMatch(s, j, e'))
    ensures FindIcdCode(s).None? ==> forall a: nat, e: nat :: !CodeMatch(s, a, e)
  {
    match FirstCode(s, 0)
    case None =>
      forall a: nat, e: nat ensures !CodeMatch(s, a, e) {
        assert CodeAt(s, a).None?;
      }
    case Some((a, e)) =>
      forall j: nat, e': nat | j < a ensures !CodeMatch(s, j, e') {
        assert CodeAt(s, j).None?;
      }
      assert CodeMatch(s, a, e);
  }

  /** A code-shaped token is already trimmed and upper-case, so it is its own ICD-10 lookup key. */
  lemma CodeIsOwnKey(t: string)
    requires IcdCodeShape(t)
    ensures IcdKey(t) == t
  {
    StripNoEdges(t);
    assert Upper(t) == t;
  }

  /** Every token `FindIcdCode` returns has the code shape. */
  lemma FoundCodeShape(s: string)
    requires FindIcdCode(s).Some?
    ensures IcdCodeShape(FindIcdCode(s).value)
  {
    IcdCodeFound(s);
  }

  // ---------------------------------------------------------------------
  // Line clean-up
  // ---------------------------------------------------------------------

  /**
   * `re.sub(r"^\s*\d+\.?\s*", "", line).strip()`: the line without a leading
   * ordinal such as "2." or "10 ", then trimmed.
   */
  function StripOrdinal(line: string): string {
    var a := SkipSpace(line, 0);
    if a < |line| && IsDigit(line[a]) then
      var b := RunEnd(line, a, Digit);
      var c := if b < |line| && line[b] == '.' then b + 1 else b;
      Strip(line[SkipSpace(line, c)..])
    else Strip(line)
  }

  /** An ordinal "n." followed by optional whitespace is removed, and the rest of the line kept. */
  lemma OrdinalRemoved(n: string, w: string, rest: string)
    requires n != "" && AllDigits(n) && AllSpace(w)
    requires rest == "" || !IsSpace(rest[0])
    ensures StripOrdinal(n + "." + w + rest) == Strip(rest)
  {
    var line := n + "." + w + rest;
    assert forall k :: 0 <= k < |n| ==> line[k] == n[k];
    assert line[|n|] == '.';
    assert forall k :: |n| + 1 <= k < |n| + 1 + |w| ==> line[k] == w[k - |n| - 1];
    assert |rest| > 0 ==> line[|n| + 1 + |w|] == rest[0];
    assert SkipSpace(line, 0) == 0;
    assert RunEnd(line, 0, Digit) == |n|;
    assert SkipSpace(line, |n| + 1) == |n| + 1 + |w|;
    assert line[|n| + 1 + |w|..] == rest;
  }

  /** A line whose first non-blank character is not a digit has no ordinal: it is only trimmed. */
  lemma NoOrdinalKept(line: string)
    requires SkipSpace(line, 0) == |line| || !IsDigit(line[SkipSpace(line, 0)])
    ensures StripOrdinal(line) == Strip(line)
  {
  }

  // ---------------------------------------------------------------------
  // Trailing CPT code: re.search(r"(.*?)\s+(\d{5})$", proc)
  // ---------------------------------------------------------------------

  /** The index just after the last newline in `s[..r]`, or 0 if there is none. */
  function LineStartBefore(s: string, r: nat): (i: nat)
    requires r <= |s|
    ensures i <= r && (i == 0 || s[i - 1] == '\n')
    ensures forall k :: i <= k < r ==> s[k] != '\n'
  {
    if r == 0 then 0 else if s[r - 1] == '\n' then r else LineStartBefore(s, r - 1)
  }

  /**
   * The trailing-code rule.  Five digits must end the text (or stand just
   * before a final newline) and follow whitespace.  The lazy name group is
   * the shortest one, so it stops where that whitespace starts, and the
   * leftmost start whose group crosses no newline is the start of its line.
   * The result is the stripped name and the code.
   */
  function CptSplit(proc: string): Option<(string, string)> {
    var n := |proc|;
    var d := if n > 0 && proc[n - 1] == '\n' then n - 6 else n - 5;
    if 1 <= d && AllDigits(proc[d..d + 5]) && IsSpace(proc[d - 1]) then
      var r := TrimmedEnd(proc, d);
      Some((Strip(proc[LineStartBefore(proc, r)..r]), proc[d..d + 5]))
    else None
  }

  /** Without newlines the line of any position starts at 0. */
  lemma LineStartNoNewline(s: string, r: nat)
    requires r <= |s| && '\n' !in s
    ensures LineStartBefore(s, r) == 0
  {
    assert forall k :: 0 <= k < |s| ==> s[k] != '\n';
  }

  /** Whitespace between the text and a cut point does not survive stripping. */
  lemma StripBeforeTrim(s: string, d: nat)
    requires d <= |s|
    ensures Strip(s[..TrimmedEnd(s, d)]) == Strip(s[..d])
  {
    var r := TrimmedEnd(s, d);
    var u, w := s[..r], s[r..d];
    assert s[..d] == u + w;
    assert AllSpace(w) by {
      forall k | 0 <= k < |w| ensures IsSpace(w[k]) {
        assert w[k] == s[r + k];
      }
    }
    StripSpaceAfter(u, w);
  }

  /**
   * On one line: a code is split off exactly when the line ends in
   * whitespace and five digits; the name is the stripped text before them.
   */
  lemma {:induction false} CptSplitLine(proc: string)
    requires '\n' !in proc
    ensures CptSplit(proc).Some? <==> |proc| >= 6 && AllDigits(proc[|proc| - 5..]) && IsSpace(proc[|proc| - 6])
    ensures CptSplit(proc).Some? ==> CptSplit(proc).value == (Strip(proc[..|proc| - 5]), proc[|proc| - 5..])
  {
    var n := |proc|;
    if n > 0 {
      assert proc[n - 1] in proc;
    }
    CptSplitUnterminated(proc);
    if n >= 6 {
      LineStartNoNewline(proc, TrimmedEnd(proc, n - 5));
      CptSplitFirstLine(proc);
    }
  }

  /** When the line of the code starts the text, the name is everything before the code, stripped. */
  lemma CptSplitFirstLine(proc: string)
    requires |proc| >= 6 && proc[|proc| - 1] != '\n'
    requires LineStartBefore(proc, TrimmedEnd(proc, |proc| - 5)) == 0
    ensures CptSplit(proc).Some? ==> CptSplit(proc).value.0 == Strip(proc[..|proc| - 5])
  {
    var n := |proc|;
    var r := TrimmedEnd(proc, n - 5);
    StripBeforeTrim(proc, n - 5);
    assert proc[0..r] == proc[..r];
  }

  /** The trailing-code rule on a text that does not end in a newline. */
  lemma CptSplitUnterminated(proc: string)
    requires proc == "" || proc[|proc| - 1] != '\n'
    ensures var n := |proc|;
      CptSplit(proc) == if n >= 6 && AllDigits(proc[n - 5..]) && IsSpace(proc[n - 6]) then
        var r := TrimmedEnd(proc, n - 5);
        Some((Strip(proc[LineStartBefore(proc, r)..r]), proc[n - 5..]))
      else None
  {
    var n := |proc|;
    if n >= 5 {
      assert proc[n - 5..n] == proc[n - 5..];
    }
  }

  /** Splitting "name, whitespace, five digits" gives back the stripped name and the digits. */
  lemma CptSplitJoin(name: string, w: string, code: string)
    requires '\n' !in name && '\n' !in w && w != "" && AllSpace(w)
    requires |code| == 5 && AllDigits(code)
    ensures CptSplit(name + w + code) == Some((Strip(name), code))
  {
    NoNewlineJoined(name, w, code);
    CptSplitLine(name + w + code);
    CptJoinPieces(name, w, code);
  }

  /** The pieces of "name, whitespace, code" as `CptSplitLine` sees them. */
  lemma CptJoinPieces(name: string, w: string, code: string)
    requires w != "" && AllSpace(w) && |code| == 5 && AllDigits(code)
    ensures var proc := name + w + code;
      |proc| >= 6 && proc[|proc| - 5..] == code && IsSpace(proc[|proc| - 6])
      && Strip(proc[..|proc| - 5]) == Strip(name)
  {
    var proc := name + w + code;
    var m := |name| + |w|;
    assert proc[m..] == code;
    assert proc[m - 1] == w[|w| - 1];
    assert proc[..m] == name + w;
    StripSpaceAfter(name, w);
  }

  /** A newline-free name and whitespace followed by digits hold no newline. */
  lemma NoNewlineJoined(name: string, w: string, code: string)
    requires '\n' !in name && '\n' !in w && AllDigits(code)
    ensures '\n' !in name + w + code
  {
    var proc := name + w + code;
    var m := |name| + |w|;
    forall k | 0 <= k < |proc| ensures proc[k] != '\n' {
      if k < |name| {
        assert proc[k] == name[k];
        assert name[k] in name;
      } else if k < m {
        assert proc[k] == w[k - |name|];
        assert w[k - |name|] in w;
      } else {
        assert proc[k] == code[k - m];
        assert IsDigit(code[k - m]);
      }
    }
  }

  // ---------------------------------------------------------------------
  // determine_side, determine_region
  // ---------------------------------------------------------------------

  /**
   * `determine_side`: a case-insensitive test for "bilateral", then "left",
   * then "right"; `None` for empty text or no keyword.
   */
  function DetermineSide(text: string): Option<string> {
    if text == "" then None
    else
      var lower := Lower(text);
      if Contains(lower, "bilateral") then Some("Bilateral")
      else if Contains(lower, "left") then Some("Left")
      else if Contains(lower, "right") then Some("Right")
      else None
  }

  /**
   * The side is "Bilateral" exactly when the lower-cased text contains
   * "bilateral"; otherwise "Left" exactly when it contains "left"; otherwise
   * "Right" exactly when it contains "right"; and `None` when it contains
   * none of the three (the empty text included).
   */
  lemma SidePriority(text: string)
    ensures DetermineSide(text) == Some("Bilateral") <==> Contains(Lower(text), "bilateral")
    ensures DetermineSide(text) == Some("Left") <==> !Contains(Lower(text), "bilateral") && Contains(Lower(text), "left")
    ensures DetermineSide(text) == Some("Right") <==>
      !Contains(Lower(text), "bilateral") && !Contains(Lower(text), "left") && Contains(Lower(text), "right")
    ensures DetermineSide(text).None? <==>
      !Contains(Lower(text), "bilateral") && !Contains(Lower(text), "left") && !Contains(Lower(text), "right")
  {
  }

  /** The side does not depend on letter case. */
  lemma SideIgnoresCase(text: string)
    ensures DetermineSide(Upper(text)) == DetermineSide(text)
    ensures DetermineSide(Lower(text)) == DetermineSide(text)
  {
    LowerUpper(text);
    assert Lower(Lower(text)) == Lower(text);
  }

  /** The keyword table of `determine_region`, in declaration order. */
  const RegionTable: seq<(string, string)> := [
    ("shoulder", "Shoulder"), ("clavicle", "Shoulder"), ("sternoclavicular", "Shoulder"),
    ("acromioclavicular", "Shoulder"), ("humerus", "Humerus"), ("elbow", "Elbow"),
    ("radius", "Forearm"), ("ulna", "Forearm"), ("forearm", "Forearm"), ("wrist", "Wrist"),
    ("carpal", "Wrist"), ("hand", "Hand"), ("hip", "Hip"), ("femur", "Femur"), ("femoral", "Femur"),
    ("knee", "Knee"), ("patella", "Knee"), ("tibia", "Tibia/Fibula"), ("tibial", "Tibia/Fibula"),
    ("fibula", "Tibia/Fibula"), ("ankle", "Ankle"), ("foot", "Foot"), ("tarsal", "Foot"),
    ("metatarsal", "Foot"), ("spine", "Spine"), ("vertebra", "Spine"), ("pelvis", "Pelvis"),
    ("skin", "Skin"), ("nerve", "Misc Nerve")]

  /**
   * The loop of `determine_region` from entry `k` on: the region of the
   * first entry whose key occurs in `lower`, else the humerus fallback.
   */
  function RegionFrom(lower: string, k: nat): Option<string>
    requires k <= |RegionTable|
    decreases |RegionTable| - k
  {
    if k == |RegionTable| then HumerusFallback(lower)
    else if Contains(lower, RegionTable[k].0) then Some(RegionTable[k].1)
    else RegionFrom(lower, k + 1)
  }

  /** The proximal/distal refinement `determine_region` applies to text mentioning "humerus". */
  function HumerusFallback(lower: string): Option<string> {
    if !Contains(lower, "humerus") then None
    else if Contains(lower, "proximal") || Contains(lower, "head") || Contains(lower, "tuberosity") then Some("Shoulder")
    else if Contains(lower, "distal") || Contains(lower, "supracondylar") then Some("Elbow")
    else Some("Humerus")
  }

  /** `determine_region` as a function of the text. */
  function RegionOf(text: string): Option<string> {
    if text == "" then None else RegionFrom(Lower(text), 0)
  }

  lemma {:induction false} RegionFromAt(lower: string, k: nat, j: nat)
    requires k <= j < |RegionTable| && Contains(lower, RegionTable[j].0)
    requires forall i :: k <= i < j ==> !Contains(lower, RegionTable[i].0)
    ensures RegionFrom(lower, k) == Some(RegionTable[j].1)
    decreases j - k
  {
    if k < j {
      RegionFromAt(lower, k + 1, j);
    }
  }

  lemma {:induction false} RegionFromNone(lower: string, k: nat)
    requires k <= |RegionTable|
    requires forall i :: k <= i < |RegionTable| ==> !Contains(lower, RegionTable[i].0)
    ensures RegionFrom(lower, k) == HumerusFallback(lower)
    decreases |RegionTable| - k
  {
    if k < |RegionTable| {
      RegionFromNone(lower, k + 1);
    }
  }

  /** The region is that of the first key, in table order, occurring in the lower-cased text. */
  lemma RegionFirstKey(text: string, j: nat)
    requires text != "" && j < |RegionTable| && Contains(Lower(text), RegionTable[j].0)
    requires forall i :: 0 <= i < j ==> !Contains(Lower(text), RegionTable[i].0)
    ensures RegionOf(text) == Some(RegionTable[j].1)
  {
    RegionFromAt(Lower(text), 0, j);
  }

  /**
   * "humerus" is itself a key, so the proximal/distal fallback never runs:
   * with no key in the text the region is `None`.
   */
  lemma RegionNoKey(text: string)
    requires forall i :: 0 <= i < |RegionTable| ==> !Contains(Lower(text), RegionTable[i].0)
    ensures RegionOf(text) == None
  {
    if text != "" {
      RegionFromNone(Lower(text), 0);
      assert RegionTable[4].0 == "humerus";
    }
  }

  /** Text mentioning "humerus" and none of the four shoulder keys before it yields "Humerus", whatever else it says. */
  lemma HumerusWins(text: string)
    requires Contains(Lower(text), "humerus")
    requires forall i :: 0 <= i < 4 ==> !Contains(Lower(text), RegionTable[i].0)
    ensures RegionOf(text) == Some("Humerus")
  {
    assert |Lower(text)| == |text|;
    RegionFirstKey(text, 4);
  }

  /** `determine_region`: the loop over the keyword table, then the humerus fallback. */
  method DetermineRegion(text: string) returns (region: Option<string>)
    ensures region == RegionOf(text)
  {
    if text == "" {
      return None;
    }
    var lower := Lower(text);
    var k := 0;
    while k < |RegionTable|
      invariant 0 <= k <= |RegionTable|
      invariant RegionFrom(lower, k) == RegionFrom(lower, 0)
    {
      if Contains(lower, RegionTable[k].0) {
        return Some(RegionTable[k].1);
      }
      k := k + 1;
    }
    region := HumerusFallback(lower);
  }

  // ---------------------------------------------------------------------
  // Patient name and venue
  // ---------------------------------------------------------------------

  /** The three name fields `extract_patient_info` fills from the captured name. */
  datatype NameParts = NameParts(lastName: Option<string>, firstName: Option<string>, middleName: Option<string>)

  /**
   * The name split: the stripped text before the first comma is the last
   * name; the whitespace tokens of the second piece give the first name and
   * the middle names joined by single spaces.
   */
  function SplitName(name: string): NameParts {
    var parts := Split(name, ',');
    var last := Some(Strip(parts[0]));
    if |parts| > 1 then
      var fm := Tokens(Strip(parts[1]));
      NameParts(last, if fm != [] then Some(fm[0]) else None, if |fm| > 1 then Some(Join(" ", fm[1..])) else None)
    else NameParts(last, None, None)
  }

  /** Tokens without whitespace or commas, as a name is written after its comma. */
  predicate NameTokens(ts: seq<string>) {
    forall k :: 0 <= k < |ts| ==> ts[k] != "" && AllNonSpace(ts[k]) && ',' !in ts[k]
  }

  lemma {:induction false} JoinNoComma(ts: seq<string>)
    requires NameTokens(ts)
    ensures ',' !in Join(" ", ts)
  {
    if |ts| > 1 {
      JoinNoComma(ts[1..]);
      assert Join(" ", ts) == ts[0] + " " + Join(" ", ts[1..]);
    }
  }

  /**
   * "Last, First Middle1 Middle2": the last name is the stripped text before
   * the comma, the first name the first token after it, and the middle name
   * the remaining tokens joined by single spaces (`None` when there are none).
   */
  lemma NameSplitParts(last: string, w: string, ts: seq<string>)
    requires ',' !in last && AllSpace(w) && ts != [] && NameTokens(ts)
    ensures SplitName(last + "," + w + Join(" ", ts))
      == NameParts(Some(Strip(last)), Some(ts[0]), if |ts| > 1 then Some(Join(" ", ts[1..])) else None)
  {
    var j := Join(" ", ts);
    var rest := w + j;
    assert last + "," + w + j == last + "," + rest;
    RestNoComma(w, ts);
    SplitTwo(last, rest);
    RestStripped(w, ts);
    TokensOfJoin(ts);
    SplitNameOfPieces(last + "," + rest, last, rest);
  }

  /** Whitespace and comma-free tokens hold no comma. */
  lemma RestNoComma(w: string, ts: seq<string>)
    requires AllSpace(w) && NameTokens(ts)
    ensures ',' !in w + Join(" ", ts)
  {
    JoinNoComma(ts);
    assert ',' !in w by {
      assert forall k :: 0 <= k < |w| ==> w[k] != ',';
    }
  }

  /** Whitespace before tokens joined by spaces is all that `strip()` removes. */
  lemma RestStripped(w: string, ts: seq<string>)
    requires AllSpace(w) && ts != [] && NameTokens(ts)
    ensures Strip(w + Join(" ", ts)) == Join(" ", ts)
  {
    var j := Join(" ", ts);
    JoinEdges(ts);
    StripNoEdges(j);
    StripSpaceBefore(w, j);
  }

  /** The name fields of a name whose comma pieces are `last` and `rest`. */
  lemma SplitNameOfPieces(name: string, last: string, rest: string)
    requires Split(name, ',') == [last, rest]
    ensures var fm := Tokens(Strip(rest));
      SplitName(name) == NameParts(Some(Strip(last)), if fm != [] then Some(fm[0]) else None,
        if |fm| > 1 then Some(Join(" ", fm[1..])) else None)
  {
  }

  /** Two comma-free pieces joined by a comma split back into those pieces. */
  lemma SplitTwo(a: string, b: string)
    requires ',' !in a && ',' !in b
    ensures Split(a + "," + b, ',') == [a, b]
  {
    var s := a + "," + b;
    assert s[..|a|] == a && s[|a|] == ',' && s[|a| + 1..] == b;
    SplitFirst(s, ',', |a|);
    SplitWhole(b, ',');
  }

  /** Only the first two comma-separated pieces of the name matter. */
  lemma NameSecondCommaIgnored(a: string, b: string, c: string)
    requires ',' !in a && ',' !in b
    ensures SplitName(a + "," + b + "," + c) == SplitName(a + "," + b)
  {
    var bc := b + "," + c;
    var long := a + "," + bc;
    assert a + "," + b + "," + c == long;
    assert long[..|a|] == a && long[|a|] == ',' && long[|a| + 1..] == bc;
    SplitFirst(long, ',', |a|);
    assert bc[..|b|] == b && bc[|b|] == ',';
    SplitFirst(bc, ',', |b|);
    SplitTwo(a, b);
  }

  /** A name without a comma is all last name. */
  lemma NameWithoutComma(name: string)
    requires ',' !in name
    ensures SplitName(name) == NameParts(Some(Strip(name)), None, None)
  {
    SplitWhole(name, ',');
  }

  /** `re.match(r"^([^\n]+)", text)`, stripped: the first line of the report when it is not empty. */
  function Venue(text: string): Option<string> {
    var e := RunEnd(text, 0, NotNewline);
    if e > 0 then Some(Strip(text[..e])) else None
  }

  /** The venue is the stripped first line, absent when the first line is empty. */
  lemma VenueFirstLine(text: string)
    ensures Venue(text) == (if Split(text, '\n')[0] == "" then None else Some(Strip(Split(text, '\n')[0])))
  {
    var e := RunEnd(text, 0, NotNewline);
    assert forall k :: 0 <= k < e ==> text[..e][k] != '\n';
    SplitFirst(text, '\n', e);
  }

  // ---------------------------------------------------------------------
  // Diagnoses
  // ---------------------------------------------------------------------

  /**
   * One line of the diagnosis block processed: the first code of the line
   * without its ordinal, checked against the ICD-10 catalog.
   */
  function DiagnosisEntry(line: string, icd: Store<IcdRow>): ProcessedDiagnosis {
    var code := FindIcdCode(StripOrdinal(line));
    var details := if code.Some? && icd.Some? then GetIcd10Details(icd, code) else None;
    match details
    case Some(dt) => ProcessedDiagnosis(line, code, true, dt.description, Some(dt.isLeafNode))
    case None => ProcessedDiagnosis(line, code, false, None, None)
  }

  /**
   * A diagnosis entry keeps its line verbatim and the code found in it; it
   * is valid exactly when a code was found and the store is healthy and holds
   * that code, and then carries the stored description and leaf flag.
   */
  lemma DiagnosisEntryValid(line: string, icd: Store<IcdRow>)
    ensures var d := DiagnosisEntry(line, icd);
      d.originalText == line
      && d.identifiedCode == FindIcdCode(StripOrdinal(line))
      && (d.isValidIcd10 <==>
        (d.identifiedCode.Some? && icd.Some? && icd.value.Healthy? && d.identifiedCode.value in icd.value.table))
      && (d.isValidIcd10 ==>
        d.icd10Description == icd.value.table[d.identifiedCode.value].description
        && d.isLeafNode == Some(icd.value.table[d.identifiedCode.value].isLeafNode != 0))
      && (!d.isValidIcd10 ==> d.icd10Description.None? && d.isLeafNode.None?)
  {
    CodeKeyed(StripOrdinal(line));
  }

  /** A code found in a line is non-empty and is its own lookup key. */
  lemma CodeKeyed(s: string)
    ensures FindIcdCode(s).Some? ==> FindIcdCode(s).value != "" && IcdKey(FindIcdCode(s).value) == FindIcdCode(s).value
  {
    if FindIcdCode(s).Some? {
      FoundCodeShape(s);
      CodeIsOwnKey(FindIcdCode(s).value);
    }
  }

  /** The trimmed, non-blank lines of the diagnosis block; none without a block. */
  function DiagnosisLines(text: string): seq<string> {
    match Search(PreDiagnosis, text)
    case None => []
    case Some(sp) => NonBlankLines(Strip(Group(text, sp)))
  }

  /** The entries of a list of diagnosis lines, one per line, in order. */
  function EntriesOf(lines: seq<string>, icd: Store<IcdRow>): (ds: seq<ProcessedDiagnosis>)
    ensures |ds| == |lines|
  {
    if lines == [] then [] else EntriesOf(lines[..|lines| - 1], icd) + [DiagnosisEntry(lines[|lines| - 1], icd)]
  }

  /** Entry `k` is the entry of line `k`. */
  lemma {:induction false} EntriesOfAt(lines: seq<string>, icd: Store<IcdRow>, k: nat)
    requires k < |lines|
    ensures EntriesOf(lines, icd)[k] == DiagnosisEntry(lines[k], icd)
  {
    if k < |lines| - 1 {
      EntriesOfAt(lines[..|lines| - 1], icd, k);
    }
  }

  /** One more line of a list processed appends its entry. */
  lemma EntriesOfPrefix(lines: seq<string>, k: nat, icd: Store<IcdRow>)
    requires k < |lines|
    ensures EntriesOf(lines[..k + 1], icd) == EntriesOf(lines[..k], icd) + [DiagnosisEntry(lines[k], icd)]
  {
    assert lines[..k + 1][..k] == lines[..k];
  }

  /** `processed_diagnoses` for a report: one entry per line of the block, in order. */
  function DiagnosesOf(text: string, icd: Store<IcdRow>): seq<ProcessedDiagnosis> {
    EntriesOf(DiagnosisLines(text), icd)
  }

  /** Without the diagnosis label anywhere there are no diagnoses. */
  lemma NoDiagnosisSection(text: string, icd: Store<IcdRow>)
    requires forall i: nat :: !MatchesAtIgnoreCase(text, i, DiagnosisLabel)
    ensures DiagnosesOf(text, icd) == []
  {
    PreDiagnosisBlock(text);
  }

  /**
   * One entry per non-blank line of the block, in order; each keeps its
   * trimmed line verbatim (ordinal included), and that line is non-empty,
   * trimmed and within one line.
   */
  lemma DiagnosisPerLine(text: string, icd: Store<IcdRow>)
    ensures |DiagnosesOf(text, icd)| == |DiagnosisLines(text)|
    ensures forall k :: 0 <= k < |DiagnosisLines(text)| ==>
      var line := DiagnosisLines(text)[k];
      DiagnosesOf(text, icd)[k] == DiagnosisEntry(line, icd)
      && DiagnosesOf(text, icd)[k].originalText == line
      && line != "" && Strip(line) == line && '\n' !in line
  {
    var lines := DiagnosisLines(text);
    if Search(PreDiagnosis, text).Some? {
      NonBlankLinesShape(Strip(Group(text, Search(PreDiagnosis, text).value)));
    }
    forall k | 0 <= k < |lines| ensures DiagnosesOf(text, icd)[k] == DiagnosisEntry(lines[k], icd) {
      EntriesOfAt(lines, icd, k);
    }
  }

  /**
   * An absent or failing ICD-10 store finds the same codes as any other
   * store and validates none of them.
   */
  lemma UnavailableIcdStore(text: string, icd: Store<IcdRow>)
    ensures DiagnosesOf(text, None) == DiagnosesOf(text, Some(Failing))
    ensures |DiagnosesOf(text, None)| == |DiagnosesOf(text, icd)|
    ensures forall k :: 0 <= k < |DiagnosesOf(text, None)| ==>
      DiagnosesOf(text, None)[k].identifiedCode == DiagnosesOf(text, icd)[k].identifiedCode
      && !DiagnosesOf(text, None)[k].isValidIcd10
  {
    var lines := DiagnosisLines(text);
    forall k | 0 <= k < |lines|
      ensures DiagnosesOf(text, None)[k] == DiagnosesOf(text, Some(Failing))[k]
      ensures DiagnosesOf(text, None)[k].identifiedCode == DiagnosesOf(text, icd)[k].identifiedCode
      ensures !DiagnosesOf(text, None)[k].isValidIcd10
    {
      EntriesOfAt(lines, None, k);
      EntriesOfAt(lines, Some(Failing), k);
      EntriesOfAt(lines, icd, k);
    }
  }

  // ---------------------------------------------------------------------
  // Procedures
  // ---------------------------------------------------------------------

  /** `Procedures performed:\s*(.*?)(?=\n\s*(?:Primary Surgeon:|...|Recommendations)|$)` */
  const ProcedureSection: Rule := LabelSection("Procedures performed:", ProcedureBlockEnd)

  /** The trimmed, non-blank lines of the procedures block; none without a block. */
  function ProcedureLines(text: string): seq<string> {
    match SearchRule(ProcedureSection, text)
    case None => []
    case Some(sp) => NonBlankLines(Strip(Group(text, sp)))
  }

  /**
   * One line of the procedures block processed: `None` when nothing is left
   * after the ordinal; otherwise the name and trailing CPT code, the name
   * replaced by the catalog description on a hit, and side and region read
   * from the final name (the cleaned line when that name is empty).
   */
  function ProcedureEntry(line: string, cpt: Store<Option<string>>): (p: Option<ProcedureInfo>)
    ensures p.None? <==> StripOrdinal(line) == ""
    ensures p.Some? ==> p.value.name.Some?
  {
    var proc := StripOrdinal(line);
    if proc == "" then None
    else
      var named := match CptSplit(proc)
        case None => (proc, None)
        case Some((extracted, code)) =>
          match GetCptDescription(cpt, Some(code))
          case Some(desc) => (desc, Some(code))
          case None => (extracted, Some(code));
      var basis := if named.0 != "" then named.0 else proc;
      Some(ProcedureInfo(name := Some(named.0), cptCode := named.1, side := DetermineSide(basis), region := RegionOf(basis)))
  }

  /** The procedure of one line as a list: empty when the line is skipped. */
  function Kept(line: string, cpt: Store<Option<string>>): seq<ProcedureInfo> {
    match ProcedureEntry(line, cpt)
    case None => []
    case Some(p) => [p]
  }

  /** The procedures of a list of lines, in order, blank ones skipped. */
  function ProceduresFrom(lines: seq<string>, cpt: Store<Option<string>>): (ps: seq<ProcedureInfo>)
    ensures |ps| <= |lines|
  {
    if lines == [] then [] else ProceduresFrom(lines[..|lines| - 1], cpt) + Kept(lines[|lines| - 1], cpt)
  }

  /** `self.report.procedures` for a report. */
  function ProceduresOf(text: string, cpt: Store<Option<string>>): seq<ProcedureInfo> {
    ProceduresFrom(ProcedureLines(text), cpt)
  }

  /** One more line of a list processed. */
  lemma ProceduresFromPrefix(lines: seq<string>, k: nat, cpt: Store<Option<string>>)
    requires k < |lines|
    ensures ProceduresFrom(lines[..k + 1], cpt) == ProceduresFrom(lines[..k], cpt) + Kept(lines[k], cpt)
  {
    assert lines[..k + 1][..k] == lines[..k];
  }

  /**
   * A line "name, whitespace, five digits" (no ordinal) yields that code and,
   * as its name, the catalog description on a hit or else the stripped name;
   * side and region come from that final name.
   */
  lemma ProcedureWithCode(name: string, w: string, code: string, cpt: Store<Option<string>>)
    requires name != "" && !IsSpace(name[0]) && !IsDigit(name[0]) && '\n' !in name
    requires '\n' !in w && w != "" && AllSpace(w)
    requires |code| == 5 && AllDigits(code)
    ensures var p := ProcedureEntry(name + w + code, cpt);
      var final := match GetCptDescription(cpt, Some(code)) case Some(d) => d case None => Strip(name);
      var basis := if final != "" then final else name + w + code;
      p == Some(ProcedureInfo(Some(final), Some(code), DetermineSide(basis), RegionOf(basis)))
  {
    var line := name + w + code;
    assert line[0] == name[0];
    assert line[|line| - 1] == code[4];
    StripNoEdges(line);
    assert StripOrdinal(line) == line;
    CptSplitJoin(name, w, code);
  }

  /**
   * A cleaned line that does not end in whitespace and five digits is the
   * name itself, with no code, whatever the catalog holds.
   */
  lemma ProcedureWithoutCode(line: string, cpt: Store<Option<string>>)
    requires StripOrdinal(line) != "" && CptSplit(StripOrdinal(line)).None?
    ensures ProcedureEntry(line, cpt)
      == Some(ProcedureInfo(Some(StripOrdinal(line)), None, DetermineSide(StripOrdinal(line)), RegionOf(StripOrdinal(line))))
  {
  }

  /** An absent or failing CPT store keeps every extracted name. */
  lemma UnavailableCptStore(line: string)
    ensures ProcedureEntry(line, None) == ProcedureEntry(line, Some(Failing))
    ensures ProcedureEntry(line, None).Some? && CptSplit(StripOrdinal(line)).Some? ==>
      ProcedureEntry(line, None).value.name == Some(CptSplit(StripOrdinal(line)).value.0)
  {
  }

  // ---------------------------------------------------------------------
  // The report sections, as functions of the text
  // ---------------------------------------------------------------------

  /** `extract_patient_info`: the name split of the captured name, and four single-field captures. */
  function PatientInfoOf(text: string): PatientInfo {
    var name := Field(text, PatientName);
    var parts := if name.Some? && name.value != "" then SplitName(name.value) else NameParts(None, None, None);
    PatientInfo(
      firstName := parts.firstName, lastName := parts.lastName, middleName := parts.middleName,
      gender := Field(text, Gender), dateOfBirth := Field(text, Dob),
      unitNumber := Field(text, UnitNumber), accountNumber := Field(text, AccountNumber))
  }

  /** The text `extract_admission_info` stores for an injury-context capture. */
  function InjuryNote(capture: string): string {
    "Inferred from context: '" + Strip(capture) + "'"
  }

  /**
   * `extract_admission_info`: two dates, the status, the venue, and the note
   * built from the injury-context capture (given, not searched for, here).
   */
  function AdmissionInfoOf(text: string, injury: Option<string>): AdmissionInfo {
    AdmissionInfo(
      dateOfAdmission := Field(text, AdmissionDate), dateOfSurgery := Field(text, SurgeryDate),
      status := Field(text, ReportStatus), surgeryVenue := Venue(text),
      dateOfInjury := if injury.Some? then Some(InjuryNote(injury.value)) else None)
  }

  /** `extract_provider_info` */
  function ProviderInfoOf(text: string): ProviderInfo {
    ProviderInfo(
      surgeon := Field(text, Surgeon), firstAssistant := Field(text, FirstAssistant),
      attendingPhysician := Field(text, Attending))
  }

  /** The implants capture, stripped (searched without MULTILINE, which this rule does not depend on). */
  function ImplantsOf(text: string): Option<string> {
    match Search(Implants, text)
    case None => None
    case Some(sp) => Some(Strip(Group(text, sp)))
  }

  /** The name fields are those of the split of a non-empty captured name. */
  lemma PatientNames(text: string, name: string)
    requires Field(text, PatientName) == Some(name) && name != ""
    ensures PatientInfoOf(text).lastName == SplitName(name).lastName
    ensures PatientInfoOf(text).firstName == SplitName(name).firstName
    ensures PatientInfoOf(text).middleName == SplitName(name).middleName
  {
  }

  /** Without a patient-name match the three name fields stay `None`. */
  lemma NoPatientName(text: string)
    requires Search(PatientName, text).None?
    ensures PatientInfoOf(text).lastName.None? && PatientInfoOf(text).firstName.None?
    ensures PatientInfoOf(text).middleName.None?
  {
  }

  /** The date-of-birth, admission-date and surgery-date fields are non-empty strings of digits and '/'. */
  lemma DateFields(text: string)
    ensures PatientInfoOf(text).dateOfBirth.Some? ==> DateLike(PatientInfoOf(text).dateOfBirth.value)
    ensures AdmissionInfoOf(text, None).dateOfAdmission.Some? ==> DateLike(AdmissionInfoOf(text, None).dateOfAdmission.value)
    ensures AdmissionInfoOf(text, None).dateOfSurgery.Some? ==> DateLike(AdmissionInfoOf(text, None).dateOfSurgery.value)
  {
    DateField(Dob, text);
    DateField(AdmissionDate, text);
    DateField(SurgeryDate, text);
  }

  /** A non-empty string of digits and '/'. */
  predicate DateLike(t: string) {
    t != "" && forall k :: 0 <= k < |t| ==> IsDigit(t[k]) || t[k] == '/'
  }

  lemma DateField(p: Pattern, text: string)
    requires p == Dob || p == AdmissionDate || p == SurgeryDate
    ensures Field(text, p).Some? ==> DateLike(Field(text, p).value) && Field(text, p).value == Group(text, Search(p, text).value)
  {
    if Search(p, text).Some? {
      var sp := Search(p, text).value;
      DateCapture(p, text);
      DateGroup(text, sp);
      assert Field(text, p) == Some(Strip(Group(text, sp)));
    }
  }

  /** A non-empty run of digits and '/' is date-like and its own `strip()`. */
  lemma DateGroup(s: string, sp: Span)
    requires SpanIn(s, sp) && sp.groupStart < sp.groupEnd
    requires forall r :: sp.groupStart <= r < sp.groupEnd ==> IsDigit(s[r]) || s[r] == '/'
    ensures DateLike(Group(s, sp)) && Strip(Group(s, sp)) == Group(s, sp)
  {
    var g := Group(s, sp);
    assert forall k :: 0 <= k < |g| ==> g[k] == s[sp.groupStart + k];
    assert !IsSpace(g[0]) && !IsSpace(g[|g| - 1]);
    StripNoEdges(g);
  }

  /** The blood-loss field is a non-empty string of decimal digits. */
  lemma BloodLossField(text: string)
    ensures Field(text, BloodLoss).Some? ==>
      Field(text, BloodLoss).value != "" && AllDigits(Field(text, BloodLoss).value)
  {
    if Search(BloodLoss, text).Some? {
      BloodLossCapture(text);
      StripNoEdges(Group(text, Search(BloodLoss, text).value));
    }
  }

  /** The surgeon, complications and implants fields lie within one line. */
  lemma OneLineFields(text: string)
    ensures Field(text, Surgeon).Some? ==> '\n' !in Field(text, Surgeon).value
    ensures Field(text, Complications).Some? ==> '\n' !in Field(text, Complications).value
    ensures ImplantsOf(text).Some? ==> '\n' !in ImplantsOf(text).value
  {
    if Search(Surgeon, text).Some? {
      var sp := Search(Surgeon, text).value;
      SurgeonCapture(text);
      GroupOneLine(text, sp);
      assert Field(text, Surgeon) == Some(Strip(Group(text, sp)));
    }
    LineRestCapture(Complications, text);
    if Search(Complications, text).Some? {
      var sp := Search(Complications, text).value;
      GroupOneLine(text, sp);
      assert Field(text, Complications) == Some(Strip(Group(text, sp)));
    }
    LineRestCapture(Implants, text);
    if Search(Implants, text).Some? {
      GroupOneLine(text, Search(Implants, text).value);
    }
  }

  /** A capture without a newline keeps none after `strip()`. */
  lemma GroupOneLine(s: string, sp: Span)
    requires SpanIn(s, sp)
    requires forall r :: sp.groupStart <= r < sp.groupEnd ==> s[r] != '\n'
    ensures '\n' !in Strip(Group(s, sp))
  {
    var g := Group(s, sp);
    var a, b := StripBounds(g);
    assert forall k :: 0 <= k < |g| ==> g[k] == s[sp.groupStart + k];
    assert forall k :: 0 <= k < b - a ==> Strip(g)[k] == g[a + k];
  }

  /** The body of the diagnosis loop: one line cleaned, searched for a code and validated. */
  method DiagnoseLine(originalText: string, icd: Store<IcdRow>) returns (entry: ProcessedDiagnosis)
    ensures entry == DiagnosisEntry(originalText, icd)
  {
    var cleaned := StripOrdinal(originalText);
    var identifiedCode: Option<string> := None;
    var isValid := false;
    var description: Option<string> := None;
    var isLeaf: Option<bool> := None;
    var potentialCode := FindIcdCode(cleaned);
    if potentialCode.Some? {
      identifiedCode := potentialCode;
      if icd.Some? {
        var details := GetIcd10Details(icd, identifiedCode);
        if details.Some? {
          isValid := true;
          description := details.value.description;
          isLeaf := Some(details.value.isLeafNode);
        }
      }
    }
    entry := ProcessedDiagnosis(originalText, identifiedCode, isValid, description, isLeaf);
  }

  /**
   * The body of the procedures loop: `None` for a line that is blank once
   * its ordinal is gone, else the procedure with its code, catalog name,
   * side and region.
   */
  method ProcessProcedureLine(procLine: string, cpt: Store<Option<string>>) returns (procObj: Option<ProcedureInfo>)
    ensures procObj == ProcedureEntry(procLine, cpt)
  {
    var proc := StripOrdinal(procLine);
    if proc == "" {
      return None;
    }
    var p := ProcedureInfo();
    var cptMatch := CptSplit(proc);
    if cptMatch.Some? {
      var extractedName := cptMatch.value.0;
      p := p.(cptCode := Some(cptMatch.value.1));
      if cpt.Some? {
        var authoritative := GetCptDescription(cpt, p.cptCode);
        if authoritative.Some? {
          p := p.(name := authoritative);
        } else {
          p := p.(name := Some(extractedName));
        }
      } else {
        p := p.(name := Some(extractedName));
      }
    } else {
      p := p.(name := Some(proc), cptCode := None);
    }
    var basis := if p.name.Some? && p.name.value != "" then p.name.value else proc;
    var region := DetermineRegion(basis);
    p := p.(side := DetermineSide(basis), region := region);
    return Some(p);
  }

  // ---------------------------------------------------------------------
  // MedicalReportExtractor
  // ---------------------------------------------------------------------

  /**
   * The extractor object: the report text it was made with and the report it
   * fills in place, one section per `Extract...` method.  The two catalog
   * connections are passed in as stores; the injury-context and
   * recommendations captures are passed in as already-searched values.
   */
  class MedicalReportExtractor {
    const reportText: string
    var report: OperativeReport

    constructor (reportText: string)
      ensures this.reportText == reportText
      ensures report == OperativeReport()
    {
      this.reportText := reportText;
      report := OperativeReport(diagnoses := DiagnosisInfo([]));
    }

    method ExtractPatientInfo()
      modifies this
      ensures report == old(report).(patient := PatientInfoOf(reportText))
    {
      var patient := PatientInfo();
      var nameMatch := Field(reportText, PatientName);
      if nameMatch.Some? && nameMatch.value != "" {
        var nameParts := Split(nameMatch.value, ',');
        patient := patient.(lastName := Some(Strip(nameParts[0])));
        if |nameParts| > 1 {
          var firstMiddle := Tokens(Strip(nameParts[1]));
          patient := patient.(firstName := if firstMiddle != [] then Some(firstMiddle[0]) else None);
          patient := patient.(middleName := if |firstMiddle| > 1 then Some(Join(" ", firstMiddle[1..])) else None);
        }
      }
      patient := patient.(gender := Field(reportText, Gender));
      patient := patient.(dateOfBirth := Field(reportText, Dob));
      patient := patient.(unitNumber := Field(reportText, UnitNumber));
      patient := patient.(accountNumber := Field(reportText, AccountNumber));
      report := report.(patient := patient);
    }

    /** Insurance extraction has no rules: the report is left as it is. */
    method ExtractInsuranceInfo()
      modifies this
      ensures report == old(report)
    {
    }

    method ExtractAdmissionInfo(injuryCapture: Option<string>)
      modifies this
      ensures report == old(report).(admission := AdmissionInfoOf(reportText, injuryCapture))
    {
      var admission := AdmissionInfo();
      admission := admission.(dateOfAdmission := Field(reportText, AdmissionDate));
      admission := admission.(dateOfSurgery := Field(reportText, SurgeryDate));
      admission := admission.(status := Field(reportText, ReportStatus));
      var venueEnd := RunEnd(reportText, 0, NotNewline);
      if venueEnd > 0 {
        admission := admission.(surgeryVenue := Some(Strip(reportText[..venueEnd])));
      }
      if injuryCapture.Some? {
        var injuryDesc := Strip(injuryCapture.value);
        admission := admission.(dateOfInjury := Some("Inferred from context: '" + injuryDesc + "'"));
      }
      report := report.(admission := admission);
    }

    method ExtractProviderInfo()
      modifies this
      ensures report == old(report).(provider := ProviderInfoOf(reportText))
    {
      var provider := ProviderInfo();
      provider := provider.(surgeon := Field(reportText, Surgeon));
      provider := provider.(firstAssistant := Field(reportText, FirstAssistant));
      provider := provider.(attendingPhysician := Field(reportText, Attending));
      report := report.(provider := provider);
    }

    /** One entry per line of the diagnosis block, each validated against the ICD-10 store. */
    method ExtractDiagnoses(icd: Store<IcdRow>)
      modifies this
      ensures report == old(report).(diagnoses := DiagnosisInfo(DiagnosesOf(reportText, icd)))
    {
      report := report.(diagnoses := DiagnosisInfo([]));
      // No diagnosis section gives no lines.
      var rawLines := DiagnosisLines(reportText);
      if rawLines == [] {
        return;
      }
      var processed: seq<ProcessedDiagnosis> := [];
      for k := 0 to |rawLines|
        invariant processed == EntriesOf(rawLines[..k], icd)
        invariant report == old(report).(diagnoses := DiagnosisInfo([]))
      {
        EntriesOfPrefix(rawLines, k, icd);
        var entry := DiagnoseLine(rawLines[k], icd);
        processed := processed + [entry];
      }
      assert rawLines[..|rawLines|] == rawLines;
      assert processed == DiagnosesOf(reportText, icd);
      report := report.(diagnoses := DiagnosisInfo(processed));
    }

    /** One procedure per non-blank line of the procedures block, in order. */
    method ExtractProcedures(cpt: Store<Option<string>>)
      modifies this
      ensures report == old(report).(procedures := ProceduresOf(reportText, cpt))
    {
      report := report.(procedures := []);
      // No procedures section gives no lines.
      var procLines := ProcedureLines(reportText);
      for k := 0 to |procLines|
        invariant report.procedures == ProceduresFrom(procLines[..k], cpt)
        invariant report == old(report).(procedures := report.procedures)
      {
        ProceduresFromPrefix(procLines, k, cpt);
        var procObj := ProcessProcedureLine(procLines[k], cpt);
        if procObj.None? {
          continue;
        }
        report := report.(procedures := report.procedures + [procObj.value]);
      }
      assert procLines[..|procLines|] == procLines;
    }

    method ExtractMiscInfo(recommendationsCapture: Option<string>)
      modifies this
      ensures report == old(report).(
        complications := Field(reportText, Complications),
        estimatedBloodLoss := Field(reportText, BloodLoss),
        implants := ImplantsOf(reportText),
        recommendations := if recommendationsCapture.Some? then Some(Strip(recommendationsCapture.value)) else None)
    {
      report := report.(complications := Field(reportText, Complications));
      report := report.(estimatedBloodLoss := Field(reportText, BloodLoss));
      var implantMatch := Search(Implants, reportText);
      report := report.(implants := if implantMatch.Some? then Some(Strip(Group(reportText, implantMatch.value))) else None);
      report := report.(recommendations :=
        if recommendationsCapture.Some? then Some(Strip(recommendationsCapture.value)) else None);
    }

    /** Every section in turn; the insurance section is left as it was. */
    method ExtractAll(cpt: Store<Option<string>>, icd: Store<IcdRow>, injuryCapture: Option<string>,
                      recommendationsCapture: Option<string>) returns (r: OperativeReport)
      modifies this
      ensures r == report
      ensures report == old(report).(
        patient := PatientInfoOf(reportText),
        admission := AdmissionInfoOf(reportText, injuryCapture),
        provider := ProviderInfoOf(reportText),
        diagnoses := DiagnosisInfo(DiagnosesOf(reportText, icd)),
        procedures := ProceduresOf(reportText, cpt),
        complications := Field(reportText, Complications),
        estimatedBloodLoss := Field(reportText, BloodLoss),
        implants := ImplantsOf(reportText),
        recommendations := if recommendationsCapture.Some? then Some(Strip(recommendationsCapture.value)) else None)
    {
      ExtractPatientInfo();
      ExtractInsuranceInfo();
      ExtractAdmissionInfo(injuryCapture);
      ExtractProviderInfo();
      ExtractDiagnoses(icd);
      ExtractProcedures(cpt);
      ExtractMiscInfo(recommendationsCapture);
      return report;
    }
  }
}
