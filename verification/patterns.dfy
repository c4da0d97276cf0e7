/**
 * The field-extraction rules of the operative-report extractor
 * (`RegexPatterns`), each written as a small recogniser over the report
 * text.  A recogniser reproduces the order in which Python's backtracking
 * regular-expression engine tries alternatives: a greedy `\s*` is tried
 * longest first, a lazy group shortest first, and `re.search` returns the
 * leftmost starting index at which a match exists.  Every rule is compiled
 * with IGNORECASE, so literal labels match up to ASCII case.
 */
module Patterns {
  import opened Base
  import opened Text

  /** A successful match: the whole match is `s[start..end]`, its one capture group `s[groupStart..groupEnd]`. */
  datatype Span = Span(start: nat, end: nat, groupStart: nat, groupEnd: nat)

  predicate SpanIn(s: string, sp: Span) {
    sp.start <= sp.groupStart <= sp.groupEnd <= sp.end <= |s|
  }

  /** The text of the capture group of a span. */
  function Group(s: string, sp: Span): string
    requires SpanIn(s, sp)
  {
    s[sp.groupStart..sp.groupEnd]
  }

  /** `^` under MULTILINE: the start of the text or just after a newline. */
  predicate LineStart(s: string, i: nat) {
    i == 0 || (0 < i <= |s| && s[i - 1] == '\n')
  }

  /** `$` under MULTILINE: the end of the text or just before a newline. */
  predicate LineEnd(s: string, i: nat) {
    i == |s| || (i < |s| && s[i] == '\n')
  }

  /** `$` without MULTILINE: the end of the text or just before a final newline. */
  predicate TextEnd(s: string, i: nat) {
    i == |s| || (i + 1 == |s| && s[i] == '\n')
  }

  /** The character classes the rules capture with. */
  datatype CharClass =
    | Word             // \w
    | DigitOrSlash     // [\d/]
    | Digit            // \d
    | NotNewlineOrTab  // [^\n\t]
    | NotNewline       // [^\n]

  predicate InClass(c: char, cls: CharClass) {
    match cls
    case Word => IsWordChar(c)
    case DigitOrSlash => IsDigit(c) || c == '/'
    case Digit => IsDigit(c)
    case NotNewlineOrTab => c != '\n' && c != '\t'
    case NotNewline => c != '\n'
  }

  /** End of the longest run of `cls` characters starting at `i`. */
  function RunEnd(s: string, i: nat, cls: CharClass): (j: nat)
    requires i <= |s|
    ensures i <= j <= |s|
    ensures forall m :: i <= m < j ==> InClass(s[m], cls)
    ensures j == |s| || !InClass(s[j], cls)
    decreases |s| - i
  {
    if i < |s| && InClass(s[i], cls) then RunEnd(s, i + 1, cls) else i
  }

  /** End of the first of `labels` that occurs (up to case) at `i`. */
  function LabelEnd(s: string, i: nat, labels: seq<string>): (e: Option<nat>)
    ensures e.Some? ==> i <= e.value <= |s|
  {
    if labels == [] then None
    else if MatchesAtIgnoreCase(s, i, labels[0]) then Some(i + |labels[0]|)
    else LabelEnd(s, i, labels[1..])
  }

  /** `LabelEnd` finds a label exactly when one of them occurs at `i`, and ends after it. */
  lemma {:induction false} LabelEndFound(s: string, i: nat, labels: seq<string>)
    ensures LabelEnd(s, i, labels).Some? ==>
      exists l :: l in labels && MatchesAtIgnoreCase(s, i, l) && LabelEnd(s, i, labels).value == i + |l|
    ensures LabelEnd(s, i, labels).None? ==> forall l :: l in labels ==> !MatchesAtIgnoreCase(s, i, l)
  {
    if labels != [] && !MatchesAtIgnoreCase(s, i, labels[0]) {
      LabelEndFound(s, i, labels[1..]);
      assert forall l :: l in labels ==> l == labels[0] || l in labels[1..];
    }
  }

  // ---------------------------------------------------------------------
  // Shape 1: LABEL\s*(?P<g>[CLASS]+)
  // ---------------------------------------------------------------------

  /**
   * Where `[CLASS]+` starts once `\s*` has greedily reached `k`: backtracking
   * gives whitespace back one character at a time, so this is the largest
   * index in `[j, k]` holding a `cls` character.
   */
  function RunStart(s: string, j: nat, k: nat, cls: CharClass): (r: Option<nat>)
    requires j <= k <= |s|
    ensures r.Some? ==> j <= r.value <= k && r.value < |s| && InClass(s[r.value], cls)
    ensures r.Some? ==> forall m :: r.value < m <= k && m < |s| ==> !InClass(s[m], cls)
    ensures r.None? ==> forall m :: j <= m <= k && m < |s| ==> !InClass(s[m], cls)
    decreases k - j
  {
    if k < |s| && InClass(s[k], cls) then Some(k)
    else if k == j then None
    else RunStart(s, j, k - 1, cls)
  }

  /** `^?LABEL\s*(?P<g>[CLASS]+)` tried at index `i`. */
  function LabelRunAt(s: string, i: nat, labels: seq<string>, anchored: bool, cls: CharClass): (m: Option<Span>)
    ensures m.Some? ==> SpanIn(s, m.value) && m.value.start == i
    ensures m.Some? ==> m.value.groupStart < m.value.groupEnd == m.value.end
    ensures m.Some? ==> forall p :: m.value.groupStart <= p < m.value.groupEnd ==> InClass(s[p], cls)
    ensures m.Some? ==> m.value.groupEnd == |s| || !InClass(s[m.value.groupEnd], cls)
    ensures m.Some? && anchored ==> LineStart(s, i)
    ensures m.Some? ==> LabelEnd(s, i, labels).Some? && LabelEnd(s, i, labels).value <= m.value.groupStart
  {
    if anchored && !LineStart(s, i) then None
    else match LabelEnd(s, i, labels)
      case None => None
      case Some(j) =>
        match RunStart(s, j, SkipSpace(s, j), cls)
        case None => None
        case Some(k) =>
          var e := RunEnd(s, k, cls);
          Some(Span(i, e, k, e))
  }

  // ---------------------------------------------------------------------
  // Shape 2: LABEL\s*(?P<g>[CLASS]+?)TAIL
  // ---------------------------------------------------------------------

  /** The tails that end a lazy capture. */
  datatype Tail =
    | UnitOrLineEnd  // \s*(?:UNIT|$)
    | MdOrLineEnd    // (?:\s+MD|$)

  /** Largest `p` in `[r, q]` at which MULTILINE `$` matches. */
  function LastLineEnd(s: string, r: nat, q: nat): (p: Option<nat>)
    requires r <= q <= |s|
    ensures p.Some? ==> r <= p.value <= q && LineEnd(s, p.value)
    ensures p.Some? <==> exists m :: r <= m <= q && LineEnd(s, m)
    decreases q - r
  {
    if LineEnd(s, q) then Some(q)
    else if q == r then None
    else LastLineEnd(s, r, q - 1)
  }

  /** Where the whole match ends if the tail matches at `r`. */
  function TailEnd(s: string, r: nat, tail: Tail): (e: Option<nat>)
    requires r <= |s|
    ensures e.Some? ==> r <= e.value <= |s|
  {
    var q := SkipSpace(s, r);
    match tail
    case UnitOrLineEnd =>
      if MatchesAtIgnoreCase(s, q, "UNIT") then Some(q + 4) else LastLineEnd(s, r, q)
    case MdOrLineEnd =>
      if q > r && MatchesAtIgnoreCase(s, q, "MD") then Some(q + 2)
      else if LineEnd(s, r) then Some(r)
      else None
  }

  /** The lazy capture that started before `r` grows one `cls` character at a time until the tail matches. */
  function LazyEnd(s: string, r: nat, cls: CharClass, tail: Tail): (e: Option<nat>)
    requires r <= |s|
    ensures e.Some? ==> r <= e.value <= |s| && TailEnd(s, e.value, tail).Some?
    ensures e.Some? ==> forall m :: r <= m < e.value ==> InClass(s[m], cls) && TailEnd(s, m, tail).None?
    decreases |s| - r
  {
    if TailEnd(s, r, tail).Some? then Some(r)
    else if r < |s| && InClass(s[r], cls) then LazyEnd(s, r + 1, cls, tail)
    else None
  }

  /** The capture `[start, end)` of a lazy group whose leading `\s*` greedily reached `k`, backtracking down to `j`. */
  function LazyCapture(s: string, j: nat, k: nat, cls: CharClass, tail: Tail): (c: Option<(nat, nat)>)
    requires j <= k <= |s|
    ensures c.Some? ==> j <= c.value.0 <= k && c.value.0 < c.value.1 <= |s|
    ensures c.Some? ==> forall m :: c.value.0 <= m < c.value.1 ==> InClass(s[m], cls)
    ensures c.Some? ==> TailEnd(s, c.value.1, tail).Some?
    ensures c.Some? ==> forall m :: c.value.0 < m < c.value.1 ==> TailEnd(s, m, tail).None?
    decreases k - j
  {
    if k < |s| && InClass(s[k], cls) && LazyEnd(s, k + 1, cls, tail).Some? then
      LazyEndFrom(s, k, cls, tail);
      Some((k, LazyEnd(s, k + 1, cls, tail).value))
    else if k == j then None
    else LazyCapture(s, j, k - 1, cls, tail)
  }

  /** A lazy capture starting with a `cls` character at `k` runs to where `LazyEnd` stops. */
  lemma LazyEndFrom(s: string, k: nat, cls: CharClass, tail: Tail)
    requires k < |s| && InClass(s[k], cls) && LazyEnd(s, k + 1, cls, tail).Some?
    ensures var e := LazyEnd(s, k + 1, cls, tail).value;
      k < e <= |s| && (forall m :: k <= m < e ==> InClass(s[m], cls))
      && TailEnd(s, e, tail).Some? && forall m :: k < m < e ==> TailEnd(s, m, tail).None?
  {
  }

  /** `^?LABEL\s*(?P<g>[CLASS]+?)TAIL` tried at index `i`. */
  function LabelLazyAt(s: string, i: nat, labels: seq<string>, anchored: bool, cls: CharClass, tail: Tail): (m: Option<Span>)
    ensures m.Some? ==> SpanIn(s, m.value) && m.value.start == i
    ensures m.Some? ==> m.value.groupStart < m.value.groupEnd
    ensures m.Some? ==> forall p :: m.value.groupStart <= p < m.value.groupEnd ==> InClass(s[p], cls)
    ensures m.Some? ==> TailEnd(s, m.value.groupEnd, tail) == Some(m.value.end)
    ensures m.Some? ==> forall p :: m.value.groupStart < p < m.value.groupEnd ==> TailEnd(s, p, tail).None?
    ensures m.Some? && anchored ==> LineStart(s, i)
    ensures m.Some? ==> LabelEnd(s, i, labels).Some? && LabelEnd(s, i, labels).value <= m.value.groupStart
  {
    if anchored && !LineStart(s, i) then None
    else match LabelEnd(s, i, labels)
      case None => None
      case Some(j) =>
        match LazyCapture(s, j, SkipSpace(s, j), cls, tail)
        case None => None
        case Some(c) => Some(Span(i, TailEnd(s, c.1, tail).value, c.0, c.1))
  }

  // ---------------------------------------------------------------------
  // Shape 3: LABEL\s*(?P<g>.*?)(?=LOOKAHEAD), `.` matching newlines too
  // ---------------------------------------------------------------------

  /** The lookaheads that end a lazy section capture. */
  datatype Lookahead =
    | DiagnosisBlockEnd  // (?=Post-procedure diagnosis:|Procedures performed:|$)
    | ProcedureBlockEnd  // (?=\n\s*(?:Primary Surgeon:|...|Recommendations)|$)
    | Newline            // (?=\n)

  /** The section labels that end the procedures block. */
  const ProcedureBlockLabels: seq<string> :=
    ["Primary Surgeon:", "Technique/Procedure:", "Complications:", "Estimated blood loss", "Implants", "Recommendations"]

  /** The lookahead holds at `r` (the two block lookaheads are searched without MULTILINE). */
  predicate LookaheadAt(s: string, r: nat, look: Lookahead)
    requires r <= |s|
  {
    match look
    case DiagnosisBlockEnd =>
      MatchesAtIgnoreCase(s, r, "Post-procedure diagnosis:") || MatchesAtIgnoreCase(s, r, "Procedures performed:")
      || TextEnd(s, r)
    case ProcedureBlockEnd =>
      (r < |s| && s[r] == '\n' && LabelEnd(s, SkipSpace(s, r + 1), ProcedureBlockLabels).Some?) || TextEnd(s, r)
    case Newline => r < |s| && s[r] == '\n'
  }

  /** The smallest `p >= r` at which the lookahead holds. */
  function FirstLookahead(s: string, r: nat, look: Lookahead): (p: Option<nat>)
    requires r <= |s|
    ensures p.Some? ==> r <= p.value <= |s| && LookaheadAt(s, p.value, look)
    ensures p.Some? ==> forall m :: r <= m < p.value ==> !LookaheadAt(s, m, look)
    ensures p.None? ==> forall m :: r <= m <= |s| ==> !LookaheadAt(s, m, look)
    decreases |s| - r
  {
    if LookaheadAt(s, r, look) then Some(r)
    else if r == |s| then None
    else FirstLookahead(s, r + 1, look)
  }

  /** The capture of a lazy `.*?` whose leading `\s*` greedily reached `k`, backtracking down to `j`. */
  function SectionCapture(s: string, j: nat, k: nat, look: Lookahead): (c: Option<(nat, nat)>)
    requires j <= k <= |s|
    ensures c.Some? ==> j <= c.value.0 <= k && c.value.0 <= c.value.1 <= |s|
    ensures c.Some? ==> LookaheadAt(s, c.value.1, look)
    ensures c.Some? ==> forall m :: c.value.0 <= m < c.value.1 ==> !LookaheadAt(s, m, look)
    ensures c.Some? ==> c.value.0 == k || forall m :: k <= m <= |s| ==> !LookaheadAt(s, m, look)
    ensures c.None? ==> forall m :: j <= m <= |s| ==> !LookaheadAt(s, m, look)
    decreases k - j
  {
    match FirstLookahead(s, k, look)
    case Some(p) => Some((k, p))
    case None => if k == j then None else SectionCapture(s, j, k - 1, look)
  }

  /** `LABEL\s*(?P<g>.*?)(?=LOOKAHEAD)` tried at index `i`. */
  function LabelSectionAt(s: string, i: nat, lab: string, look: Lookahead): (m: Option<Span>)
    ensures m.Some? ==> SpanIn(s, m.value) && m.value.start == i && m.value.groupEnd == m.value.end
    ensures m.Some? ==> MatchesAtIgnoreCase(s, i, lab) && i + |lab| <= m.value.groupStart
    ensures m.Some? ==> LookaheadAt(s, m.value.groupEnd, look)
    ensures m.Some? ==> forall p :: m.value.groupStart <= p < m.value.groupEnd ==> !LookaheadAt(s, p, look)
  {
    if MatchesAtIgnoreCase(s, i, lab) then
      var j := i + |lab|;
      match SectionCapture(s, j, SkipSpace(s, j), look)
      case None => None
      case Some(c) => Some(Span(i, c.1, c.0, c.1))
    else None
  }

  // ---------------------------------------------------------------------
  // Rules and re.search
  // ---------------------------------------------------------------------

  /** A capture rule: one of the three shapes above with its labels and classes. */
  datatype Rule =
    | LabelRun(labels: seq<string>, anchored: bool, cls: CharClass)
    | LabelLazy(labels: seq<string>, anchored: bool, cls: CharClass, tail: Tail)
    | LabelSection(lab: string, look: Lookahead)

  /** The rule tried at index `i`. */
  function RuleAt(rule: Rule, s: string, i: nat): (m: Option<Span>)
    ensures m.Some? ==> SpanIn(s, m.value) && m.value.start == i
  {
    match rule
    case LabelRun(labels, anchored, cls) => LabelRunAt(s, i, labels, anchored, cls)
    case LabelLazy(labels, anchored, cls, tail) => LabelLazyAt(s, i, labels, anchored, cls, tail)
    case LabelSection(lab, look) => LabelSectionAt(s, i, lab, look)
  }

  /** The rule tried at every index of `s`. */
  function Attempts(rule: Rule, s: string): nat -> Option<Span> {
    (k: nat) => RuleAt(rule, s, k)
  }

  /** The first index in `i..n` at which `at` matches: the scan `re.search` makes. */
  function FirstHit(at: nat -> Option<Span>, n: nat, i: nat): Option<nat>
    decreases n + 1 - i
  {
    if i > n then None
    else if at(i).Some? then Some(i)
    else FirstHit(at, n, i + 1)
  }

  /** The scan stops at a match, and nothing before it matches; without a hit nothing in `i..n` matches. */
  lemma {:induction false} FirstHitLeftmost(at: nat -> Option<Span>, n: nat, i: nat)
    ensures FirstHit(at, n, i).Some? ==>
      i <= FirstHit(at, n, i).value <= n && at(FirstHit(at, n, i).value).Some?
      && forall k :: i <= k < FirstHit(at, n, i).value ==> at(k).None?
    ensures FirstHit(at, n, i).None? ==> forall k :: i <= k <= n ==> at(k).None?
    decreases n + 1 - i
  {
    if i <= n && at(i).None? {
      FirstHitLeftmost(at, n, i + 1);
    }
  }

  /** The scan over the rule's attempts stops at the first index where the rule matches. */
  lemma AttemptsLeftmost(rule: Rule, s: string)
    ensures var j := FirstHit(Attempts(rule, s), |s|, 0);
      (j.Some? ==> j.value <= |s| && RuleAt(rule, s, j.value).Some?
                   && forall k :: 0 <= k < j.value ==> RuleAt(rule, s, k).None?)
      && (j.None? ==> forall k :: 0 <= k <= |s| ==> RuleAt(rule, s, k).None?)
  {
    var at := Attempts(rule, s);
    FirstHitLeftmost(at, |s|, 0);
    var j := FirstHit(at, |s|, 0);
    if j.Some? {
      assert at(j.value) == RuleAt(rule, s, j.value);
      forall k | 0 <= k < j.value
        ensures RuleAt(rule, s, k).None?
      {
        assert at(k) == RuleAt(rule, s, k);
      }
    } else {
      forall k | 0 <= k <= |s|
        ensures RuleAt(rule, s, k).None?
      {
        assert at(k) == RuleAt(rule, s, k);
      }
    }
  }

  /** `re.search(rule, s)` */
  function SearchRule(rule: Rule, s: string): (m: Option<Span>)
    ensures m.Some? ==> SpanIn(s, m.value) && RuleAt(rule, s, m.value.start) == m
    ensures m.Some? ==> forall k :: 0 <= k < m.value.start ==> RuleAt(rule, s, k).None?
    ensures m.None? ==> forall k :: 0 <= k <= |s| ==> RuleAt(rule, s, k).None?
  {
    AttemptsLeftmost(rule, s);
    match FirstHit(Attempts(rule, s), |s|, 0)
    case Some(j) => RuleAt(rule, s, j)
    case None => None
  }

  // ---------------------------------------------------------------------
  // The rules of `RegexPatterns`
  // ---------------------------------------------------------------------

  datatype Pattern =
    | PatientName     // ^PATIENT:\s*(?P<name>[^\n\t]+?)\s*(?:UNIT|$)
    | Gender          // SEX:\s*(?P<gender>\w+)
    | Dob             // DOB:\s*(?P<dob>[\d/]+)
    | UnitNumber      // UNIT #:\s*(?P<unit>[^\n\t]+)
    | AccountNumber   // ACCOUNT#:\s*(?P<account>[^\n\t]+)
    | AdmissionDate   // ADM DT:\s*(?P<date>[\d/]+)
    | SurgeryDate     // ^Start date:\s*(?P<date>[\d/]+)
    | ReportStatus    // REPORT STATUS:\s*(?P<status>\w+)
    | Surgeon         // ^(?:Primary Surgeon|AUTHOR):\s*(?P<surgeon>[^\n]+?)(?:\s+MD|$)
    | FirstAssistant  // Assistant\(s\):\s*(?P<assistant>[^\n]+)
    | Attending       // ATTEND:\s*(?P<attending>[^\n]+?)(?:\s+MD|$)
    | PreDiagnosis    // Pre-procedure diagnosis:\s*(?P<diagnoses>.*?)(?=Post-procedure diagnosis:|Procedures performed:|$)
    | Complications   // Complications:\s*(?P<complications>.*?)(?=\n)
    | BloodLoss       // Estimated blood loss in ml's:\s*(?P<ebl>\d+)
    | Implants        // Implant\(s\):\s*(?P<implants>.*?)(?=\n)

  /** The name of each rule's capture group. */
  function GroupName(p: Pattern): string {
    match p
    case PatientName => "name"
    case Gender => "gender"
    case Dob => "dob"
    case UnitNumber => "unit"
    case AccountNumber => "account"
    case AdmissionDate => "date"
    case SurgeryDate => "date"
    case ReportStatus => "status"
    case Surgeon => "surgeon"
    case FirstAssistant => "assistant"
    case Attending => "attending"
    case PreDiagnosis => "diagnoses"
    case Complications => "complications"
    case BloodLoss => "ebl"
    case Implants => "implants"
  }

  const SurgeonLabels: seq<string> := ["Primary Surgeon:", "AUTHOR:"]

  /** Each pattern as a rule. */
  function RuleOf(p: Pattern): Rule {
    match p
    case PatientName => LabelLazy(["PATIENT:"], true, NotNewlineOrTab, UnitOrLineEnd)
    case Gender => LabelRun(["SEX:"], false, Word)
    case Dob => LabelRun(["DOB:"], false, DigitOrSlash)
    case UnitNumber => LabelRun(["UNIT #:"], false, NotNewlineOrTab)
    case AccountNumber => LabelRun(["ACCOUNT#:"], false, NotNewlineOrTab)
    case AdmissionDate => LabelRun(["ADM DT:"], false, DigitOrSlash)
    case SurgeryDate => LabelRun(["Start date:"], true, DigitOrSlash)
    case ReportStatus => LabelRun(["REPORT STATUS:"], false, Word)
    case Surgeon => LabelLazy(SurgeonLabels, true, NotNewline, MdOrLineEnd)
    case FirstAssistant => LabelRun(["Assistant(s):"], false, NotNewline)
    case Attending => LabelLazy(["ATTEND:"], false, NotNewline, MdOrLineEnd)
    case PreDiagnosis => LabelSection("Pre-procedure diagnosis:", DiagnosisBlockEnd)
    case Complications => LabelSection("Complications:", Newline)
    case BloodLoss => LabelRun(["Estimated blood loss in ml's:"], false, Digit)
    case Implants => LabelSection("Implant(s):", Newline)
  }

  /** `re.search(p, s, ...)` for one of the patterns. */
  function Search(p: Pattern, s: string): (m: Option<Span>)
    ensures m.Some? ==> SpanIn(s, m.value)
  {
    SearchRule(RuleOf(p), s)
  }

  // ---------------------------------------------------------------------
  // What the rules capture
  // ---------------------------------------------------------------------

  const DiagnosisLabel: string := "Pre-procedure diagnosis:"

  /**
   * The diagnosis block is found exactly when its label occurs.  It is the
   * text after the first occurrence of the label and the whitespace after it,
   * up to the earliest "Post-procedure diagnosis:", "Procedures performed:"
   * or end of the text.
   */
  lemma PreDiagnosisBlock(s: string)
    ensures Search(PreDiagnosis, s).Some? <==> exists i: nat :: MatchesAtIgnoreCase(s, i, DiagnosisLabel)
    ensures Search(PreDiagnosis, s).Some? ==>
      var sp := Search(PreDiagnosis, s).value;
      MatchesAtIgnoreCase(s, sp.start, DiagnosisLabel)
      && (forall i :: 0 <= i < sp.start ==> !MatchesAtIgnoreCase(s, i, DiagnosisLabel))
      && sp.groupStart == SkipSpace(s, sp.start + |DiagnosisLabel|)
      && LookaheadAt(s, sp.groupEnd, DiagnosisBlockEnd)
      && forall r :: sp.groupStart <= r < sp.groupEnd ==> !LookaheadAt(s, r, DiagnosisBlockEnd)
  {
        assert LookaheadAt(s, |s|, DiagnosisBlockEnd);
    if i: nat :| MatchesAtIgnoreCase(s, i, DiagnosisLabel) {
      assert RuleAt(RuleOf(PreDiagnosis), s, i).Some?;
    }
    if Search(PreDiagnosis, s).Some? {
      var sp := Search(PreDiagnosis, s).value;
      forall i | 0 <= i < sp.start ensures !MatchesAtIgnoreCase(s, i, DiagnosisLabel) {
        assert RuleAt(RuleOf(PreDiagnosis), s, i).None?;
      }
    }
  }

  /** The patient-name tail `\s*(?:UNIT|$)` can match at `r`. */
  predicate NameStop(s: string, r: nat)
    requires r <= |s|
  {
    MatchesAtIgnoreCase(s, SkipSpace(s, r), "UNIT") || exists e :: r <= e <= SkipSpace(s, r) && LineEnd(s, e)
  }

  lemma NameStopTail(s: string, r: nat)
    requires r <= |s|
    ensures TailEnd(s, r, UnitOrLineEnd).Some? <==> NameStop(s, r)
  {
  }

  /** Whitespace just before a point where the name tail matches lets the tail match earlier too. */
  lemma NameStopSpace(s: string, r: nat)
    requires r < |s| && IsSpace(s[r]) && NameStop(s, r + 1)
    ensures NameStop(s, r)
  {
    assert SkipSpace(s, r) == SkipSpace(s, r + 1);
  }

  /**
   * What a patient-name match guarantees: it starts a line with "PATIENT:";
   * its capture holds no newline or tab, ends where "UNIT" (after optional
   * whitespace) or the end of a line first follows, and has no trailing
   * whitespace unless it is a single character.
   */
  predicate PatientNameSpan(s: string, sp: Span) {
    SpanIn(s, sp)
    && LineStart(s, sp.start) && MatchesAtIgnoreCase(s, sp.start, "PATIENT:")
    && sp.start + |"PATIENT:"| <= sp.groupStart < sp.groupEnd
    && (forall r :: sp.groupStart <= r < sp.groupEnd ==> s[r] != '\n' && s[r] != '\t')
    && NameStop(s, sp.groupEnd)
    && (forall r :: sp.groupStart < r < sp.groupEnd ==> !NameStop(s, r))
    && (sp.groupEnd == sp.groupStart + 1 || !IsSpace(s[sp.groupEnd - 1]))
  }

  /** The patient name, when found, is a span of that shape. */
  lemma PatientNameCapture(s: string)
    requires Search(PatientName, s).Some?
    ensures PatientNameSpan(s, Search(PatientName, s).value)
  {
    var sp := Search(PatientName, s).value;
    LazyRuleMatch(PatientName, s);
    PatientNameAt(s, sp.start, sp);
  }

  /** A match of a lazy-shaped rule is the lazy match tried at its start. */
  lemma LazyRuleMatch(p: Pattern, s: string)
    requires RuleOf(p).LabelLazy? && Search(p, s).Some?
    ensures var r := RuleOf(p);
      LabelLazyAt(s, Search(p, s).value.start, r.labels, r.anchored, r.cls, r.tail) == Search(p, s)
  {
    assert RuleAt(RuleOf(p), s, Search(p, s).value.start) == Search(p, s);
  }

  lemma PatientNameAt(s: string, i: nat, sp: Span)
    requires LabelLazyAt(s, i, ["PATIENT:"], true, NotNewlineOrTab, UnitOrLineEnd) == Some(sp)
    ensures PatientNameSpan(s, sp)
  {
    LabelEndFound(s, sp.start, ["PATIENT:"]);
    PatientNameStops(s, sp);
  }

  /** Where the name tail first matches: the name stops there and nowhere before, so it ends in a non-space. */
  lemma PatientNameStops(s: string, sp: Span)
    requires sp.groupStart < sp.groupEnd <= |s|
    requires TailEnd(s, sp.groupEnd, UnitOrLineEnd).Some?
    requires forall r :: sp.groupStart < r < sp.groupEnd ==> TailEnd(s, r, UnitOrLineEnd).None?
    ensures NameStop(s, sp.groupEnd)
    ensures forall r :: sp.groupStart < r < sp.groupEnd ==> !NameStop(s, r)
    ensures sp.groupEnd == sp.groupStart + 1 || !IsSpace(s[sp.groupEnd - 1])
  {
    NameStopTail(s, sp.groupEnd);
    forall r | sp.groupStart < r < sp.groupEnd ensures !NameStop(s, r) {
      NameStopTail(s, r);
    }
    if sp.groupEnd > sp.groupStart + 1 && IsSpace(s[sp.groupEnd - 1]) {
      NameStopSpace(s, sp.groupEnd - 1);
      assert false;
    }
  }

  /** The date-of-birth, admission-date and surgery-date captures are non-empty runs of digits and '/'. */
  lemma DateCapture(p: Pattern, s: string)
    requires p == Dob || p == AdmissionDate || p == SurgeryDate
    requires Search(p, s).Some?
    ensures var sp := Search(p, s).value;
      sp.groupStart < sp.groupEnd
      && (forall r :: sp.groupStart <= r < sp.groupEnd ==> IsDigit(s[r]) || s[r] == '/')
      && (sp.groupEnd == |s| || !(IsDigit(s[sp.groupEnd]) || s[sp.groupEnd] == '/'))
      && (p == SurgeryDate ==> LineStart(s, sp.start))
  {
  }

  /** The blood-loss capture is a non-empty, maximal run of decimal digits. */
  lemma BloodLossCapture(s: string)
    requires Search(BloodLoss, s).Some?
    ensures var sp := Search(BloodLoss, s).value;
      sp.groupStart < sp.groupEnd && AllDigits(Group(s, sp))
      && (sp.groupEnd == |s| || !IsDigit(s[sp.groupEnd]))
  {
  }

  /** The surgeon tail `(?:\s+MD|$)` can match at `r`. */
  predicate MdStop(s: string, r: nat)
    requires r <= |s|
  {
    LineEnd(s, r) || (SkipSpace(s, r) > r && MatchesAtIgnoreCase(s, SkipSpace(s, r), "MD"))
  }

  /**
   * The surgeon is matched on a line that starts with "Primary Surgeon:" or
   * "AUTHOR:".  Its capture holds no newline and stops at the first point
   * followed by whitespace and "MD" or by the end of the line, so a trailing
   * " MD" is never part of it.
   */
  lemma SurgeonCapture(s: string)
    requires Search(Surgeon, s).Some?
    ensures var sp := Search(Surgeon, s).value;
      LineStart(s, sp.start)
      && (MatchesAtIgnoreCase(s, sp.start, "Primary Surgeon:") || MatchesAtIgnoreCase(s, sp.start, "AUTHOR:"))
      && sp.groupStart < sp.groupEnd
      && (forall r :: sp.groupStart <= r < sp.groupEnd ==> s[r] != '\n')
      && MdStop(s, sp.groupEnd)
      && (forall r :: sp.groupStart < r < sp.groupEnd ==> !MdStop(s, r))
  {
    var sp := Search(Surgeon, s).value;
    LazyRuleMatch(Surgeon, s);
    SurgeonAt(s, sp.start, sp);
  }

  lemma SurgeonAt(s: string, i: nat, sp: Span)
    requires LabelLazyAt(s, i, SurgeonLabels, true, NotNewline, MdOrLineEnd) == Some(sp)
    ensures LineStart(s, sp.start)
    ensures MatchesAtIgnoreCase(s, sp.start, "Primary Surgeon:") || MatchesAtIgnoreCase(s, sp.start, "AUTHOR:")
    ensures sp.groupStart < sp.groupEnd <= |s|
    ensures forall r :: sp.groupStart <= r < sp.groupEnd ==> s[r] != '\n'
    ensures MdStop(s, sp.groupEnd)
    ensures forall r :: sp.groupStart < r < sp.groupEnd ==> !MdStop(s, r)
  {
    LabelEndFound(s, sp.start, SurgeonLabels);
    forall r | sp.groupStart < r < sp.groupEnd ensures !MdStop(s, r) {
      assert TailEnd(s, r, MdOrLineEnd).None?;
    }
  }

  /** The label of the complications and implants rules. */
  function LineRestLabel(p: Pattern): string {
    if p == Complications then "Complications:" else "Implant(s):"
  }

  /**
   * The complications and implants captures end just before a newline and
   * contain none.  The rule matches exactly when some occurrence of its label
   * is followed, somewhere later, by a newline.
   */
  lemma LineRestCapture(p: Pattern, s: string)
    requires p == Complications || p == Implants
    ensures Search(p, s).Some? ==>
      var sp := Search(p, s).value;
      sp.groupEnd < |s| && s[sp.groupEnd] == '\n'
      && forall r :: sp.groupStart <= r < sp.groupEnd ==> s[r] != '\n'
    ensures Search(p, s).Some? <==>
      exists i: nat, n: nat :: MatchesAtIgnoreCase(s, i, LineRestLabel(p)) && i + |LineRestLabel(p)| <= n < |s| && s[n] == '\n'
  {
    var lab := LineRestLabel(p);
    assert RuleOf(p) == LabelSection(lab, Newline);
    if Search(p, s).Some? {
      var sp := Search(p, s).value;
      assert LabelSectionAt(s, sp.start, lab, Newline) == Some(sp);
      forall r | sp.groupStart <= r < sp.groupEnd ensures s[r] != '\n' {
        assert !LookaheadAt(s, r, Newline);
      }
      assert MatchesAtIgnoreCase(s, sp.start, lab) && sp.start + |lab| <= sp.groupEnd < |s| && s[sp.groupEnd] == '\n';
    }
    if i: nat, n: nat :| MatchesAtIgnoreCase(s, i, lab) && i + |lab| <= n < |s| && s[n] == '\n' {
      assert LookaheadAt(s, n, Newline);
      assert LabelSectionAt(s, i, lab, Newline).Some?;
      assert RuleAt(RuleOf(p), s, i).Some?;
    }
  }
}
