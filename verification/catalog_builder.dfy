/**
 * The ICD-10-CM catalog builder (`populate_icd10cm_database.py`): a walk
 * over the tabular XML tree, chapter by section by diagnosis, inserting
 * rows into the four tables `chapters`, `sections`, `diagnoses` and
 * `notes`.
 *
 * The database is a `CatalogDatabase` object whose fields are the four
 * tables; its methods follow the script's functions statement by
 * statement.  Each method is proved against a function on table values
 * (`DiagStep`, `SectionStep`, `ChapterStep`, `Populate`), and the lemmas
 * state what the walk guarantees about those values.
 *
 * sqlite raises `IntegrityError` on a duplicate primary key or a dangling
 * foreign key (foreign keys are switched on); both are modelled.  The
 * chapter's `description[:40]` raises `TypeError` when the chapter has
 * no description, and the whole run is then rolled back.
 */
module CatalogBuilder {
  import opened Base
  import opened Text
  import opened Xml
  import opened CodeParts

  datatype ChapterRow = ChapterRow(description: Option<string>)
  datatype SectionRow = SectionRow(description: Option<string>, chapterNum: string)
  datatype DiagRow = DiagRow(
    description: Option<string>,
    sectionId: Option<string>,
    parentCode: Option<string>,
    isLeafNode: int,
    placeholder: int,
    category: string,
    firstLetter: string)
  datatype NoteRow = NoteRow(code: string, noteType: string, noteText: string)

  /** The four tables, keyed by their primary keys; notes keep insertion order. */
  datatype Tables = Tables(
    chapters: map<string, ChapterRow>,
    sections: map<string, SectionRow>,
    diagnoses: map<string, DiagRow>,
    notes: seq<NoteRow>)

  /** What `process_chapter` does: finish (with the chapter number or `None`) or raise `TypeError`. */
  datatype ChapterOutcome = Processed(chapterNum: Option<string>) | TypeError

  /** How `populate_database` ends. */
  datatype Outcome = NotParsed | NoChapters | RolledBack | Committed

  /** The note tags `process_notes` looks for, in the order it emits them. */
  const NoteTags: seq<string> := [
    "inclusionTerm", "sevenChrNote", "includes", "excludes1",
    "excludes2", "codeFirst", "useAdditionalCode", "codeAlso",
    "notes", "instruction"]

  // ---------------------------------------------------------------- notes

  /** The stored text of one nested `<note>`: its stripped text, when that is not blank. */
  function NoteText(n: Element): Option<string> {
    if n.text != "" && Strip(n.text) != "" then Some(Strip(n.text)) else None
  }

  /** Rows for the nested `<note>` elements `ns`, in order. */
  function NoteRows(code: string, noteType: string, ns: seq<Element>): seq<NoteRow> {
    if ns == [] then []
    else
      var last := ns[|ns| - 1];
      NoteRows(code, noteType, ns[..|ns| - 1])
        + (if NoteText(last).Some? then [NoteRow(code, noteType, NoteText(last).value)] else [])
  }

  /** Rows for the note elements `nes` of one note type, each contributing its `<note>` children. */
  function NotesUnder(code: string, noteType: string, nes: seq<Element>): seq<NoteRow> {
    if nes == [] then []
    else NotesUnder(code, noteType, nes[..|nes| - 1]) + NoteRows(code, noteType, FindAll(nes[|nes| - 1], "note"))
  }

  /** `notes_to_insert` after the note types `tags` have been visited. */
  function NotesFor(code: string, d: Element, tags: seq<string>): seq<NoteRow> {
    if tags == [] then []
    else NotesFor(code, d, tags[..|tags| - 1]) + NotesUnder(code, tags[|tags| - 1], FindAll(d, tags[|tags| - 1]))
  }

  lemma NoteRowsStep(code: string, noteType: string, ns: seq<Element>, m: nat)
    requires m < |ns|
    ensures NoteRows(code, noteType, ns[..m + 1]) == NoteRows(code, noteType, ns[..m])
      + (if NoteText(ns[m]).Some? then [NoteRow(code, noteType, NoteText(ns[m]).value)] else [])
  {
    assert ns[..m + 1][..m] == ns[..m];
  }

  lemma NotesUnderStep(code: string, noteType: string, nes: seq<Element>, j: nat)
    requires j < |nes|
    ensures NotesUnder(code, noteType, nes[..j + 1])
      == NotesUnder(code, noteType, nes[..j]) + NoteRows(code, noteType, FindAll(nes[j], "note"))
  {
    assert nes[..j + 1][..j] == nes[..j];
  }

  lemma NotesForStep(code: string, d: Element, tags: seq<string>, t: nat)
    requires t < |tags|
    ensures NotesFor(code, d, tags[..t + 1]) == NotesFor(code, d, tags[..t]) + NotesUnder(code, tags[t], FindAll(d, tags[t]))
  {
    assert tags[..t + 1][..t] == tags[..t];
  }

  /** Position of a note type in `NoteTags` (`|NoteTags|` if it is not one). */
  function TagRank(t: string): nat {
    RankFrom(t, 0)
  }

  function RankFrom(t: string, i: nat): (r: nat)
    requires i <= |NoteTags|
    ensures i <= r <= |NoteTags|
    ensures r < |NoteTags| ==> NoteTags[r] == t
    ensures forall k :: i <= k < r ==> NoteTags[k] != t
    decreases |NoteTags| - i
  {
    if i == |NoteTags| || NoteTags[i] == t then i else RankFrom(t, i + 1)
  }

  /** Every row of `NoteRows` carries the code and type given, and a non-blank stripped text. */
  lemma {:induction false} NoteRowsShape(code: string, noteType: string, ns: seq<Element>)
    ensures forall n :: n in NoteRows(code, noteType, ns) ==>
      n.code == code && n.noteType == noteType && n.noteText != "" && Strip(n.noteText) == n.noteText
    ensures |NoteRows(code, noteType, ns)| <= |ns|
  {
    if ns != [] {
      NoteRowsShape(code, noteType, ns[..|ns| - 1]);
      StripIdempotent(ns[|ns| - 1].text);
    }
  }

  lemma {:induction false} NotesUnderShape(code: string, noteType: string, nes: seq<Element>)
    ensures forall n :: n in NotesUnder(code, noteType, nes) ==>
      n.code == code && n.noteType == noteType && n.noteText != "" && Strip(n.noteText) == n.noteText
  {
    if nes != [] {
      NotesUnderShape(code, noteType, nes[..|nes| - 1]);
      NoteRowsShape(code, noteType, FindAll(nes[|nes| - 1], "note"));
    }
  }

  /**
   * The notes of a diagnosis after visiting the first `k` note types: each
   * row carries the diagnosis code, a non-blank stripped text and one of
   * those `k` types, and the rows come grouped in the order of the types.
   */
  lemma {:induction false} NotesInTagOrder(code: string, d: Element, k: nat)
    requires k <= |NoteTags|
    ensures forall n :: n in NotesFor(code, d, NoteTags[..k]) ==>
      n.code == code && n.noteText != "" && Strip(n.noteText) == n.noteText && TagRank(n.noteType) < k
    ensures forall i, j :: 0 <= i < j < |NotesFor(code, d, NoteTags[..k])| ==>
      TagRank(NotesFor(code, d, NoteTags[..k])[i].noteType) <= TagRank(NotesFor(code, d, NoteTags[..k])[j].noteType)
  {
    if k > 0 {
      assert NoteTags[..k][..k - 1] == NoteTags[..k - 1];
      NotesInTagOrder(code, d, k - 1);
      var t := NoteTags[k - 1];
      NotesUnderShape(code, t, FindAll(d, t));
      assert TagRank(t) == k - 1;
      var front := NotesFor(code, d, NoteTags[..k - 1]);
      var back := NotesUnder(code, t, FindAll(d, t));
      assert NotesFor(code, d, NoteTags[..k]) == front + back;
      forall i | 0 <= i < |back|
        ensures TagRank(back[i].noteType) == k - 1
      {
        assert back[i] in back;
      }
      var rows := front + back;
      forall i, j | 0 <= i < j < |rows|
        ensures TagRank(rows[i].noteType) <= TagRank(rows[j].noteType)
      {
        if j < |front| {
          assert rows[i] == front[i] && rows[j] == front[j];
        } else {
          assert rows[j] == back[j - |front|];
          if i >= |front| {
            assert rows[i] == back[i - |front|];
          } else {
            assert rows[i] == front[i] && rows[i] in front;
          }
        }
      }
    }
  }

  // ------------------------------------------------------------ diagnoses

  /** `placeholder`: 1 when the attribute is present and equals "true" ignoring case. */
  function Placeholder(attr: Option<string>): int {
    if attr.Some? && attr.value != "" && Lower(attr.value) == "true" then 1 else 0
  }

  /** The row `process_diag` inserts for a diagnosis with name `code`. */
  function DiagRowOf(d: Element, code: string, sectionId: Option<string>, parentCode: Option<string>): DiagRow
    requires code != ""
  {
    DiagRow(
      GetText(d, "desc"), sectionId, parentCode,
      if FindAll(d, "diag") == [] then 1 else 0,
      Placeholder(Attr(d, "placeholder")),
      Category(code), FirstLetter(code))
  }

  /** sqlite refuses the diagnosis insert: duplicate code, or a section or parent that is not stored. */
  predicate DiagRefused(t: Tables, code: string, sectionId: Option<string>, parentCode: Option<string>) {
    code in t.diagnoses
    || (sectionId.Some? && sectionId.value !in t.sections)
    || (parentCode.Some? && parentCode.value !in t.diagnoses)
  }

  /**
   * `process_diag(cursor, d, section_id, parent_code)`: the tables after
   * the call and the code it returns.
   */
  function DiagStep(t: Tables, d: Element, sectionId: Option<string>, parentCode: Option<string>): (Tables, Option<string>)
    decreases d, 1
  {
    var name := GetText(d, "name");
    if name.None? || name.value == "" then (t, None)
    else if DiagRefused(t, name.value, sectionId, parentCode) then (t, name)
    else
      var code := name.value;
      var t1 := t.(diagnoses := t.diagnoses[code := DiagRowOf(d, code, sectionId, parentCode)]);
      var t2 := t1.(notes := t1.notes + NotesFor(code, d, NoteTags));
      (ChildDiags(t2, d, 0, sectionId, code), name)
  }

  /** The child diagnoses of `d` from the `i`-th on, each processed with `code` as its parent. */
  function ChildDiags(t: Tables, d: Element, i: nat, sectionId: Option<string>, code: string): Tables
    requires i <= |FindAll(d, "diag")|
    decreases d, 0, |FindAll(d, "diag")| - i
  {
    var kids := FindAll(d, "diag");
    if i == |kids| then t
    else
      FindAllChild(d, "diag", i);
      ChildDiags(DiagStep(t, kids[i], sectionId, Some(code)).0, d, i + 1, sectionId, code)
  }

  /** A sequence of diagnoses processed in turn with the same section and parent. */
  function DiagsFold(t: Tables, ds: seq<Element>, sectionId: Option<string>, parentCode: Option<string>): Tables
    decreases ds
  {
    if ds == [] then t
    else DiagsFold(DiagStep(t, ds[0], sectionId, parentCode).0, ds[1..], sectionId, parentCode)
  }

  // ------------------------------------------------------------- sections

  /** sqlite refuses the section insert: duplicate id, or a chapter that is not stored. */
  predicate SectionRefused(t: Tables, sectionId: string, chapterNum: string) {
    sectionId in t.sections || chapterNum !in t.chapters
  }

  /** `process_section(cursor, s, chapter_num)`: the tables after the call and the id it returns. */
  function SectionStep(t: Tables, s: Element, chapterNum: string): (Tables, Option<string>) {
    var sid := Attr(s, "id");
    if sid.None? || sid.value == "" then (t, None)
    else
      var t1 := if SectionRefused(t, sid.value, chapterNum) then t
        else t.(sections := t.sections[sid.value := SectionRow(GetText(s, "desc"), chapterNum)]);
      (DiagsFold(t1, FindAll(s, "diag"), sid, None), sid)
  }

  function SectionsFold(t: Tables, ss: seq<Element>, chapterNum: string): Tables
    decreases ss
  {
    if ss == [] then t
    else SectionsFold(SectionStep(t, ss[0], chapterNum).0, ss[1..], chapterNum)
  }

  // ------------------------------------------------------------- chapters

  /**
   * `process_chapter(cursor, c)`.  A newly inserted chapter without a
   * description raises `TypeError` right after its insert.
   */
  function ChapterStep(t: Tables, c: Element): (Tables, ChapterOutcome) {
    var num := GetText(c, "name");
    var desc := GetText(c, "desc");
    if num.None? || num.value == "" then (t, Processed(None))
    else if num.value !in t.chapters && desc.None? then
      (t.(chapters := t.chapters[num.value := ChapterRow(desc)]), TypeError)
    else
      var t1 := if num.value in t.chapters then t else t.(chapters := t.chapters[num.value := ChapterRow(desc)]);
      var t2 := SectionsFold(t1, FindAll(c, "section"), num.value);
      (DiagsFold(t2, FindAll(c, "diag"), None, None), Processed(num))
  }

  /** The chapters processed in turn; `true` when one of them raised. */
  function ChaptersFold(t: Tables, cs: seq<Element>): (Tables, bool)
    decreases cs
  {
    if cs == [] then (t, false)
    else
      var (t1, r) := ChapterStep(t, cs[0]);
      if r.TypeError? then (t1, true) else ChaptersFold(t1, cs[1..])
  }

  /**
   * `populate_database`: `None` stands for a missing file or an XML parse
   * error.  A raised exception rolls everything back; without chapters
   * nothing is inserted.
   */
  function Populate(t: Tables, parsed: Option<Element>): (Tables, Outcome) {
    if parsed.None? then (t, NotParsed)
    else
      var chapters := FindAll(parsed.value, "chapter");
      if chapters == [] then (t, NoChapters)
      else
        var (t1, raised) := ChaptersFold(t, chapters);
        if raised then (t, RolledBack) else (t1, Committed)
  }

  // ------------------------------------------------------------ properties

  /** Referential integrity: every foreign key the schema declares points at a stored row. */
  predicate Valid(t: Tables) {
    (forall s :: s in t.sections ==> t.sections[s].chapterNum in t.chapters)
    && (forall c :: c in t.diagnoses ==>
          (t.diagnoses[c].sectionId.Some? ==> t.diagnoses[c].sectionId.value in t.sections)
          && (t.diagnoses[c].parentCode.Some? ==> t.diagnoses[c].parentCode.value in t.diagnoses))
    && (forall i :: 0 <= i < |t.notes| ==> t.notes[i].code in t.diagnoses)
  }

  /** `t2` only adds to `t`: stored rows keep their values and earlier notes stay in front. */
  predicate Extends(t: Tables, t2: Tables) {
    (forall k :: k in t.chapters ==> k in t2.chapters && t2.chapters[k] == t.chapters[k])
    && (forall k :: k in t.sections ==> k in t2.sections && t2.sections[k] == t.sections[k])
    && DiagsKept(t, t2)
    && t.notes <= t2.notes
  }

  /** Every diagnosis stored in `t` is stored in `t2` with the same row. */
  predicate DiagsKept(t: Tables, t2: Tables) {
    forall k :: k in t.diagnoses ==> k in t2.diagnoses && t2.diagnoses[k] == t.diagnoses[k]
  }

  lemma ExtendsTrans(t1: Tables, t2: Tables, t3: Tables)
    requires Extends(t1, t2) && Extends(t2, t3)
    ensures Extends(t1, t3)
  {
  }

  /**
   * A diagnosis only inserts: sections and chapters are untouched, stored
   * diagnoses keep their rows (a duplicate never overwrites) and notes are
   * only appended.
   */
  lemma {:induction false} DiagStepExtends(t: Tables, d: Element, sectionId: Option<string>, parentCode: Option<string>)
    ensures var r := DiagStep(t, d, sectionId, parentCode).0;
      Extends(t, r) && r.chapters == t.chapters && r.sections == t.sections
    decreases d, 1
  {
    var name := GetText(d, "name");
    if name.Some? && name.value != "" && !DiagRefused(t, name.value, sectionId, parentCode) {
      var code := name.value;
      var t2 := t.(diagnoses := t.diagnoses[code := DiagRowOf(d, code, sectionId, parentCode)],
                   notes := t.notes + NotesFor(code, d, NoteTags));
      InsertedDiagStep(t, d, sectionId, parentCode, t2);
      ChildDiagsExtends(t2, d, 0, sectionId, code);
      ExtendsTrans(t, t2, ChildDiags(t2, d, 0, sectionId, code));
    }
  }

  lemma {:induction false} ChildDiagsExtends(t: Tables, d: Element, i: nat, sectionId: Option<string>, code: string)
    requires i <= |FindAll(d, "diag")|
    ensures var r := ChildDiags(t, d, i, sectionId, code);
      Extends(t, r) && r.chapters == t.chapters && r.sections == t.sections
    decreases d, 0, |FindAll(d, "diag")| - i
  {
    var kids := FindAll(d, "diag");
    if i < |kids| {
      FindAllChild(d, "diag", i);
      var t1 := DiagStep(t, kids[i], sectionId, Some(code)).0;
      DiagStepExtends(t, kids[i], sectionId, Some(code));
      ChildDiagsExtends(t1, d, i + 1, sectionId, code);
      ExtendsTrans(t, t1, ChildDiags(t1, d, i + 1, sectionId, code));
      ChildDiagsUnfold(t, d, i, sectionId, code);
    }
  }

  /** A named diagnosis ends up stored, whether inserted now or already there. */
  lemma NamedDiagStored(t: Tables, d: Element, sectionId: Option<string>, parentCode: Option<string>)
    requires GetText(d, "name").Some? && GetText(d, "name").value != ""
    requires sectionId.Some? ==> sectionId.value in t.sections
    requires parentCode.Some? ==> parentCode.value in t.diagnoses
    ensures DiagStep(t, d, sectionId, parentCode).1 == GetText(d, "name")
    ensures GetText(d, "name").value in DiagStep(t, d, sectionId, parentCode).0.diagnoses
  {
    var code := GetText(d, "name").value;
    DiagStepExtends(t, d, sectionId, parentCode);
    if !DiagRefused(t, code, sectionId, parentCode) {
      var t1 := t.(diagnoses := t.diagnoses[code := DiagRowOf(d, code, sectionId, parentCode)]);
      var t2 := t1.(notes := t1.notes + NotesFor(code, d, NoteTags));
      ChildDiagsExtends(t2, d, 0, sectionId, code);
    }
  }

  /** The result of a diagnosis insert sqlite accepts: its children processed after its row and notes. */
  lemma InsertedDiagStep(t: Tables, d: Element, sectionId: Option<string>, parentCode: Option<string>, t2: Tables)
    requires GetText(d, "name").Some? && GetText(d, "name").value != ""
    requires !DiagRefused(t, GetText(d, "name").value, sectionId, parentCode)
    requires var code := GetText(d, "name").value;
      t2 == t.(diagnoses := t.diagnoses[code := DiagRowOf(d, code, sectionId, parentCode)],
               notes := t.notes + NotesFor(code, d, NoteTags))
    ensures DiagStep(t, d, sectionId, parentCode) == (ChildDiags(t2, d, 0, sectionId, GetText(d, "name").value), GetText(d, "name"))
    ensures FindAll(d, "diag") == [] ==> ChildDiags(t2, d, 0, sectionId, GetText(d, "name").value) == t2
  {
  }

  /** A diagnosis without a name (or with a blank one) changes nothing and returns `None`. */
  lemma NamelessDiagSkipped(t: Tables, d: Element, sectionId: Option<string>, parentCode: Option<string>)
    requires GetText(d, "name").None? || GetText(d, "name").value == ""
    ensures DiagStep(t, d, sectionId, parentCode) == (t, None)
  {
  }

  /** A code already stored inserts nothing (no row, no notes, no children) but is still returned. */
  lemma DuplicateDiagSkipped(t: Tables, d: Element, sectionId: Option<string>, parentCode: Option<string>)
    requires GetText(d, "name").Some? && GetText(d, "name").value != ""
    requires GetText(d, "name").value in t.diagnoses
    ensures DiagStep(t, d, sectionId, parentCode) == (t, GetText(d, "name"))
  {
  }

  /**
   * The row stored for a newly inserted diagnosis: description, links,
   * leaf flag (1 exactly when there is no child `<diag>`), placeholder
   * flag, category and first letter.  Its children never overwrite it.
   */
  lemma InsertedDiagRow(t: Tables, d: Element, sectionId: Option<string>, parentCode: Option<string>)
    requires GetText(d, "name").Some? && GetText(d, "name").value != ""
    requires !DiagRefused(t, GetText(d, "name").value, sectionId, parentCode)
    ensures var code := GetText(d, "name").value;
      var r := DiagStep(t, d, sectionId, parentCode).0;
      code in r.diagnoses
      && r.diagnoses[code].description == GetText(d, "desc")
      && r.diagnoses[code].sectionId == sectionId
      && r.diagnoses[code].parentCode == parentCode
      && (r.diagnoses[code].isLeafNode == 1 <==> FindAll(d, "diag") == [])
      && (r.diagnoses[code].placeholder == 1 <==>
            "placeholder" in d.attrs && Lower(d.attrs["placeholder"]) == "true")
      && r.diagnoses[code].category == (if |code| >= 3 then code[..3] else code)
      && r.diagnoses[code].firstLetter == [code[0]]
  {
    var code := GetText(d, "name").value;
    var t1 := t.(diagnoses := t.diagnoses[code := DiagRowOf(d, code, sectionId, parentCode)]);
    var t2 := t1.(notes := t1.notes + NotesFor(code, d, NoteTags));
    ChildDiagsExtends(t2, d, 0, sectionId, code);
    var attr := Attr(d, "placeholder");
    if attr.Some? && attr.value == "" {
      assert Lower(attr.value) == "";
    }
  }

  /** The new rows of `r` compared with `t` all carry `sectionId`; each parent is `parentCode` or a new row. */
  predicate NewRowsLinked(t: Tables, r: Tables, sectionId: Option<string>, parentCode: Option<string>) {
    forall k :: k in r.diagnoses && k !in t.diagnoses ==>
      r.diagnoses[k].sectionId == sectionId
      && (r.diagnoses[k].parentCode == parentCode
          || (r.diagnoses[k].parentCode.Some?
              && r.diagnoses[k].parentCode.value in r.diagnoses
              && r.diagnoses[k].parentCode.value !in t.diagnoses))
  }

  /**
   * Parent and section links: every diagnosis a call inserts carries the
   * section it was given, and its parent is either the parent the call was
   * given (the diagnosis itself) or another diagnosis inserted by the same
   * call (an enclosing one).
   */
  lemma {:induction false} DiagStepLinks(t: Tables, d: Element, sectionId: Option<string>, parentCode: Option<string>)
    ensures NewRowsLinked(t, DiagStep(t, d, sectionId, parentCode).0, sectionId, parentCode)
    decreases d, 1
  {
    var name := GetText(d, "name");
    if name.Some? && name.value != "" && !DiagRefused(t, name.value, sectionId, parentCode) {
      var code := name.value;
      var t2 := t.(diagnoses := t.diagnoses[code := DiagRowOf(d, code, sectionId, parentCode)],
                   notes := t.notes + NotesFor(code, d, NoteTags));
      ChildDiagsLinks(t2, d, 0, sectionId, code);
      ChildDiagsKeeps(t2, d, 0, sectionId, code);
      InsertLinked(t, t2, ChildDiags(t2, d, 0, sectionId, code), code, sectionId, parentCode);
      InsertedDiagStep(t, d, sectionId, parentCode, t2);
    }
  }

  /** A new diagnosis with the given links, followed by rows linked to it, links all new rows. */
  lemma InsertLinked(t: Tables, t2: Tables, r: Tables, code: string, sectionId: Option<string>, parentCode: Option<string>)
    requires code !in t.diagnoses && code in t2.diagnoses
    requires t2.diagnoses[code].sectionId == sectionId && t2.diagnoses[code].parentCode == parentCode
    requires t2.diagnoses.Keys == t.diagnoses.Keys + {code}
    requires NewRowsLinked(t2, r, sectionId, Some(code)) && DiagsKept(t2, r)
    ensures NewRowsLinked(t, r, sectionId, parentCode)
  {
    forall k | k in r.diagnoses && k !in t.diagnoses
      ensures r.diagnoses[k].sectionId == sectionId
      ensures r.diagnoses[k].parentCode == parentCode
        || (r.diagnoses[k].parentCode.Some?
            && r.diagnoses[k].parentCode.value in r.diagnoses
            && r.diagnoses[k].parentCode.value !in t.diagnoses)
    {
      if k != code {
        assert k !in t2.diagnoses;
      }
    }
  }

  lemma {:induction false} ChildDiagsLinks(t: Tables, d: Element, i: nat, sectionId: Option<string>, code: string)
    requires i <= |FindAll(d, "diag")|
    ensures NewRowsLinked(t, ChildDiags(t, d, i, sectionId, code), sectionId, Some(code))
    decreases d, 0, |FindAll(d, "diag")| - i
  {
    var kids := FindAll(d, "diag");
    if i < |kids| {
      FindAllChild(d, "diag", i);
      var t1 := DiagStep(t, kids[i], sectionId, Some(code)).0;
      var r := ChildDiags(t1, d, i + 1, sectionId, code);
      DiagStepLinks(t, kids[i], sectionId, Some(code));
      DiagStepKeepsRows(t, kids[i], sectionId, Some(code));
      ChildDiagsLinks(t1, d, i + 1, sectionId, code);
      ChildDiagsKeeps(t1, d, i + 1, sectionId, code);
      LinkedTrans(t, t1, r, sectionId, Some(code));
      ChildDiagsUnfold(t, d, i, sectionId, code);
    }
  }

  /** Two runs with the same section and parent link their new rows as one run does. */
  lemma LinkedTrans(t: Tables, t1: Tables, r: Tables, sectionId: Option<string>, parentCode: Option<string>)
    requires NewRowsLinked(t, t1, sectionId, parentCode) && NewRowsLinked(t1, r, sectionId, parentCode)
    requires DiagsKept(t, t1) && DiagsKept(t1, r)
    ensures NewRowsLinked(t, r, sectionId, parentCode)
  {
    forall k | k in r.diagnoses && k !in t.diagnoses
      ensures r.diagnoses[k].sectionId == sectionId
      ensures r.diagnoses[k].parentCode == parentCode
        || (r.diagnoses[k].parentCode.Some?
            && r.diagnoses[k].parentCode.value in r.diagnoses
            && r.diagnoses[k].parentCode.value !in t.diagnoses)
    {
      if k in t1.diagnoses {
        assert r.diagnoses[k] == t1.diagnoses[k];
      }
    }
  }

  /** Inserting diagnoses keeps referential integrity, given a stored section and parent. */
  lemma {:induction false} DiagStepValid(t: Tables, d: Element, sectionId: Option<string>, parentCode: Option<string>)
    requires Valid(t)
    requires sectionId.Some? ==> sectionId.value in t.sections
    requires parentCode.Some? ==> parentCode.value in t.diagnoses
    ensures Valid(DiagStep(t, d, sectionId, parentCode).0)
    decreases d, 1
  {
    var name := GetText(d, "name");
    if name.Some? && name.value != "" && !DiagRefused(t, name.value, sectionId, parentCode) {
      var code := name.value;
      var rows := NotesFor(code, d, NoteTags);
      var t2 := t.(diagnoses := t.diagnoses[code := DiagRowOf(d, code, sectionId, parentCode)], notes := t.notes + rows);
      NotesCarryCode(code, d);
      InsertKeepsValid(t, code, DiagRowOf(d, code, sectionId, parentCode), rows);
      InsertedDiagStep(t, d, sectionId, parentCode, t2);
      ChildDiagsValid(t2, d, 0, sectionId, code);
    }
  }

  /** Every note row of a diagnosis carries its code. */
  lemma NotesCarryCode(code: string, d: Element)
    ensures forall n :: n in NotesFor(code, d, NoteTags) ==> n.code == code
  {
    NotesInTagOrder(code, d, |NoteTags|);
    assert NoteTags[..|NoteTags|] == NoteTags;
  }

  /** Inserting a diagnosis whose links are stored, with notes on that diagnosis, keeps integrity. */
  lemma InsertKeepsValid(t: Tables, code: string, row: DiagRow, rows: seq<NoteRow>)
    requires Valid(t)
    requires row.sectionId.Some? ==> row.sectionId.value in t.sections
    requires row.parentCode.Some? ==> row.parentCode.value in t.diagnoses
    requires forall n :: n in rows ==> n.code == code
    ensures Valid(t.(diagnoses := t.diagnoses[code := row], notes := t.notes + rows))
  {
    var t2 := t.(diagnoses := t.diagnoses[code := row], notes := t.notes + rows);
    forall i | 0 <= i < |t2.notes|
      ensures t2.notes[i].code in t2.diagnoses
    {
      if i >= |t.notes| {
        assert t2.notes[i] == rows[i - |t.notes|];
        assert rows[i - |t.notes|] in rows;
      }
    }
  }

  lemma {:induction false} ChildDiagsValid(t: Tables, d: Element, i: nat, sectionId: Option<string>, code: string)
    requires i <= |FindAll(d, "diag")|
    requires Valid(t)
    requires sectionId.Some? ==> sectionId.value in t.sections
    requires code in t.diagnoses
    ensures Valid(ChildDiags(t, d, i, sectionId, code))
    decreases d, 0, |FindAll(d, "diag")| - i
  {
    var kids := FindAll(d, "diag");
    if i < |kids| {
      FindAllChild(d, "diag", i);
      var t1 := DiagStep(t, kids[i], sectionId, Some(code)).0;
      DiagStepValid(t, kids[i], sectionId, Some(code));
      DiagStepKeeps(t, kids[i], sectionId, Some(code), code);
      ChildDiagsValid(t1, d, i + 1, sectionId, code);
      ChildDiagsUnfold(t, d, i, sectionId, code);
    }
  }

  /** A diagnosis step keeps the sections and every stored code. */
  lemma DiagStepKeeps(t: Tables, d: Element, sectionId: Option<string>, parentCode: Option<string>, code: string)
    ensures DiagStep(t, d, sectionId, parentCode).0.sections == t.sections
    ensures code in t.diagnoses ==> code in DiagStep(t, d, sectionId, parentCode).0.diagnoses
  {
    DiagStepExtends(t, d, sectionId, parentCode);
  }

  /** A diagnosis step keeps every stored diagnosis row. */
  lemma DiagStepKeepsRows(t: Tables, d: Element, sectionId: Option<string>, parentCode: Option<string>)
    ensures DiagsKept(t, DiagStep(t, d, sectionId, parentCode).0)
  {
    DiagStepExtends(t, d, sectionId, parentCode);
  }

  /** Processing children keeps every stored diagnosis row. */
  lemma ChildDiagsKeeps(t: Tables, d: Element, i: nat, sectionId: Option<string>, code: string)
    requires i <= |FindAll(d, "diag")|
    ensures DiagsKept(t, ChildDiags(t, d, i, sectionId, code))
  {
    ChildDiagsExtends(t, d, i, sectionId, code);
  }

  /** The children from the `i`-th on: the `i`-th child, then the rest. */
  lemma ChildDiagsUnfold(t: Tables, d: Element, i: nat, sectionId: Option<string>, code: string)
    requires i < |FindAll(d, "diag")|
    ensures ChildDiags(t, d, i, sectionId, code)
      == ChildDiags(DiagStep(t, FindAll(d, "diag")[i], sectionId, Some(code)).0, d, i + 1, sectionId, code)
  {
  }

  /** With referential integrity in place, the only reason a diagnosis insert is refused is a duplicate code. */
  lemma OnlyDuplicatesRefused(t: Tables, code: string, sectionId: Option<string>, parentCode: Option<string>)
    requires sectionId.Some? ==> sectionId.value in t.sections
    requires parentCode.Some? ==> parentCode.value in t.diagnoses
    ensures DiagRefused(t, code, sectionId, parentCode) <==> code in t.diagnoses
  {
  }

  lemma {:induction false} DiagsFoldFacts(t: Tables, ds: seq<Element>, sectionId: Option<string>, parentCode: Option<string>)
    requires Valid(t)
    requires sectionId.Some? ==> sectionId.value in t.sections
    requires parentCode.Some? ==> parentCode.value in t.diagnoses
    ensures var r := DiagsFold(t, ds, sectionId, parentCode);
      Valid(r) && Extends(t, r) && r.chapters == t.chapters && r.sections == t.sections
      && NewRowsLinked(t, r, sectionId, parentCode)
    decreases ds
  {
    if ds != [] {
      var t1 := DiagStep(t, ds[0], sectionId, parentCode).0;
      var r := DiagsFold(t1, ds[1..], sectionId, parentCode);
      DiagStepValid(t, ds[0], sectionId, parentCode);
      DiagStepExtends(t, ds[0], sectionId, parentCode);
      DiagStepLinks(t, ds[0], sectionId, parentCode);
      DiagsFoldFacts(t1, ds[1..], sectionId, parentCode);
      ExtendsTrans(t, t1, r);
      LinkedTrans(t, t1, r, sectionId, parentCode);
      assert DiagsFold(t, ds, sectionId, parentCode) == r;
    }
  }

  /**
   * A section's diagnoses are stored under that section with no parent,
   * or under a parent inserted in the same section; integrity is kept.
   */
  lemma SectionStepFacts(t: Tables, s: Element, chapterNum: string)
    requires Valid(t)
    requires chapterNum in t.chapters
    ensures var (r, sid) := SectionStep(t, s, chapterNum);
      Valid(r) && Extends(t, r) && r.chapters == t.chapters
      && (sid.Some? ==> sid.value in r.sections && NewRowsLinked(t, r, sid, None))
      && (sid.None? ==> r == t)
  {
    var sid := Attr(s, "id");
    if sid.Some? && sid.value != "" {
      var t1 := if SectionRefused(t, sid.value, chapterNum) then t
        else t.(sections := t.sections[sid.value := SectionRow(GetText(s, "desc"), chapterNum)]);
      assert Valid(t1);
      DiagsFoldFacts(t1, FindAll(s, "diag"), sid, None);
    }
  }

  lemma {:induction false} SectionsFoldFacts(t: Tables, ss: seq<Element>, chapterNum: string)
    requires Valid(t)
    requires chapterNum in t.chapters
    ensures var r := SectionsFold(t, ss, chapterNum);
      Valid(r) && Extends(t, r) && r.chapters == t.chapters
    decreases ss
  {
    if ss != [] {
      var t1 := SectionStep(t, ss[0], chapterNum).0;
      SectionStepFacts(t, ss[0], chapterNum);
      SectionsFoldFacts(t1, ss[1..], chapterNum);
    }
  }

  /** A chapter keeps referential integrity, only adds rows, and a processed chapter is stored. */
  lemma ChapterStepFacts(t: Tables, c: Element)
    requires Valid(t)
    ensures var (r, out) := ChapterStep(t, c);
      Valid(r) && Extends(t, r)
      && (out.Processed? && out.chapterNum.Some? ==> out.chapterNum.value in r.chapters)
  {
    var num := GetText(c, "name");
    var desc := GetText(c, "desc");
    if num.Some? && num.value != "" {
      ChapterAdded(t, num.value, desc);
      var t1 := if num.value in t.chapters then t else t.(chapters := t.chapters[num.value := ChapterRow(desc)]);
      if num.value in t.chapters || desc.Some? {
        var t2 := SectionsFold(t1, FindAll(c, "section"), num.value);
        SectionsFoldFacts(t1, FindAll(c, "section"), num.value);
        DiagsFoldFacts(t2, FindAll(c, "diag"), None, None);
        ExtendsTrans(t, t1, t2);
        ExtendsTrans(t, t2, DiagsFold(t2, FindAll(c, "diag"), None, None));
        ChapterStepProcessed(t, c, t2);
      }
    }
  }

  /**
   * The chapter's direct diagnoses are processed with neither section nor
   * parent: every row inserted after its sections has no section, and its
   * parent is absent (a direct diagnosis) or a row inserted by that same
   * pass (a child of one).
   */
  lemma ChapterDiagsUnsectioned(t: Tables, c: Element)
    requires Valid(t)
    requires GetText(c, "name").Some? && GetText(c, "name").value != ""
    requires GetText(c, "name").value in t.chapters || GetText(c, "desc").Some?
    ensures var num := GetText(c, "name").value;
      var t1 := if num in t.chapters then t else t.(chapters := t.chapters[num := ChapterRow(GetText(c, "desc"))]);
      var t2 := SectionsFold(t1, FindAll(c, "section"), num);
      NewRowsLinked(t2, ChapterStep(t, c).0, None, None)
  {
    var num := GetText(c, "name").value;
    var desc := GetText(c, "desc");
    ChapterAdded(t, num, desc);
    var t1 := if num in t.chapters then t else t.(chapters := t.chapters[num := ChapterRow(desc)]);
    var t2 := SectionsFold(t1, FindAll(c, "section"), num);
    SectionsFoldFacts(t1, FindAll(c, "section"), num);
    DiagsFoldFacts(t2, FindAll(c, "diag"), None, None);
    ChapterStepProcessed(t, c, t2);
  }

  /** A chapter that does not raise: its sections, then its direct diagnoses. */
  lemma ChapterStepProcessed(t: Tables, c: Element, t2: Tables)
    requires GetText(c, "name").Some? && GetText(c, "name").value != ""
    requires GetText(c, "name").value in t.chapters || GetText(c, "desc").Some?
    requires var num := GetText(c, "name").value;
      var t1 := if num in t.chapters then t else t.(chapters := t.chapters[num := ChapterRow(GetText(c, "desc"))]);
      t2 == SectionsFold(t1, FindAll(c, "section"), num)
    ensures ChapterStep(t, c) == (DiagsFold(t2, FindAll(c, "diag"), None, None), Processed(GetText(c, "name")))
  {
  }

  /** Inserting a chapter unless it is stored keeps integrity, only adds, and leaves the chapter stored. */
  lemma ChapterAdded(t: Tables, num: string, desc: Option<string>)
    requires Valid(t)
    ensures var t1 := if num in t.chapters then t else t.(chapters := t.chapters[num := ChapterRow(desc)]);
      Valid(t1) && Extends(t, t1) && num in t1.chapters
  {
  }

  lemma {:induction false} ChaptersFoldFacts(t: Tables, cs: seq<Element>)
    requires Valid(t)
    ensures Valid(ChaptersFold(t, cs).0) && Extends(t, ChaptersFold(t, cs).0)
    decreases cs
  {
    if cs != [] {
      var t1 := ChapterStep(t, cs[0]).0;
      ChapterStepFacts(t, cs[0]);
      ChaptersFoldFacts(t1, cs[1..]);
    }
  }

  /**
   * `populate_database` as a whole: every outcome but `Committed` leaves
   * the tables exactly as they were (a raised error is rolled back), and a
   * committed run keeps referential integrity and only adds rows.
   */
  lemma PopulateFacts(t: Tables, parsed: Option<Element>)
    requires Valid(t)
    ensures var (r, out) := Populate(t, parsed);
      (out != Committed ==> r == t)
      && Valid(r) && Extends(t, r)
      && (out == NotParsed <==> parsed.None?)
      && (out == NoChapters <==> parsed.Some? && FindAll(parsed.value, "chapter") == [])
  {
    if parsed.Some? && FindAll(parsed.value, "chapter") != [] {
      ChaptersFoldFacts(t, FindAll(parsed.value, "chapter"));
    }
  }

  /**
   * The note rows of `process_notes`, gathered in nested loops: note types
   * in `NoteTags` order, then each element of that type, then each nested
   * `<note>` with a non-blank text.
   */
  method CollectNotes(diagCode: string, diagElement: Element) returns (notesToInsert: seq<NoteRow>)
    ensures notesToInsert == NotesFor(diagCode, diagElement, NoteTags)
  {
    notesToInsert := [];
    for t := 0 to |NoteTags|
      invariant notesToInsert == NotesFor(diagCode, diagElement, NoteTags[..t])
    {
      var noteType := NoteTags[t];
      var noteElements := FindAll(diagElement, noteType);
      var found := CollectTypeNotes(diagCode, noteType, noteElements);
      NotesForStep(diagCode, diagElement, NoteTags, t);
      notesToInsert := notesToInsert + found;
    }
    assert NoteTags[..|NoteTags|] == NoteTags;
  }

  /** The middle loop of `process_notes`: the rows of the note elements of one type. */
  method CollectTypeNotes(diagCode: string, noteType: string, noteElements: seq<Element>) returns (rows: seq<NoteRow>)
    ensures rows == NotesUnder(diagCode, noteType, noteElements)
  {
    rows := [];
    for j := 0 to |noteElements|
      invariant rows == NotesUnder(diagCode, noteType, noteElements[..j])
    {
      var found := CollectNoteRows(diagCode, noteType, FindAll(noteElements[j], "note"));
      NotesUnderStep(diagCode, noteType, noteElements, j);
      rows := rows + found;
    }
    assert noteElements[..|noteElements|] == noteElements;
  }

  /** The inner loop of `process_notes`: a row for each nested `<note>` with a non-blank text. */
  method CollectNoteRows(diagCode: string, noteType: string, actualNotes: seq<Element>) returns (rows: seq<NoteRow>)
    ensures rows == NoteRows(diagCode, noteType, actualNotes)
  {
    rows := [];
    for m := 0 to |actualNotes|
      invariant rows == NoteRows(diagCode, noteType, actualNotes[..m])
    {
      var actualNote := actualNotes[m];
      NoteRowsStep(diagCode, noteType, actualNotes, m);
      if actualNote.text != "" {
        var noteText := Strip(actualNote.text);
        if noteText != "" {
          rows := rows + [NoteRow(diagCode, noteType, noteText)];
        }
      }
    }
    assert actualNotes[..|actualNotes|] == actualNotes;
  }

  // ------------------------------------------------------------- database

  /** The database the cursor writes to: one field per table. */
  class CatalogDatabase {
    var chapters: map<string, ChapterRow>
    var sections: map<string, SectionRow>
    var diagnoses: map<string, DiagRow>
    var notes: seq<NoteRow>

    function Snapshot(): Tables
      reads this
    {
      Tables(chapters, sections, diagnoses, notes)
    }

    constructor (t: Tables)
      ensures Snapshot() == t
    {
      chapters := t.chapters;
      sections := t.sections;
      diagnoses := t.diagnoses;
      notes := t.notes;
    }

    /** Roll the tables back to `t`. */
    method Restore(t: Tables)
      modifies this
      ensures Snapshot() == t
    {
      chapters := t.chapters;
      sections := t.sections;
      diagnoses := t.diagnoses;
      notes := t.notes;
    }

    /**
     * `process_notes`: collect the rows, then insert them in one batch,
     * which the notes' foreign key refuses when the code is not a stored
     * diagnosis.
     */
    method ProcessNotes(diagCode: string, diagElement: Element)
      modifies this
      ensures chapters == old(chapters) && sections == old(sections) && diagnoses == old(diagnoses)
      ensures notes == old(notes) + (if diagCode in diagnoses then NotesFor(diagCode, diagElement, NoteTags) else [])
    {
      var notesToInsert := CollectNotes(diagCode, diagElement);
      if notesToInsert != [] {
        if diagCode in diagnoses {
          notes := notes + notesToInsert;
        }
      }
    }

    /** `process_diag`: insert the diagnosis, its notes, then its children with it as parent. */
    method ProcessDiag(diagElement: Element, sectionId: Option<string>, parentCode: Option<string>)
      returns (code: Option<string>)
      modifies this
      ensures (Snapshot(), code) == DiagStep(old(Snapshot()), diagElement, sectionId, parentCode)
      decreases diagElement, 1
    {
      var name := GetText(diagElement, "name");
      var description := GetText(diagElement, "desc");
      if name.None? || name.value == "" {
        return None;
      }
      var c := name.value;
      var firstLetter := c[..1];
      var category := if |c| >= 3 then c[..3] else c;
      var placeholderAttr := Attr(diagElement, "placeholder");
      var placeholder := if placeholderAttr.Some? && placeholderAttr.value != "" && Lower(placeholderAttr.value) == "true" then 1 else 0;
      var childDiags := FindAll(diagElement, "diag");
      var isLeafNode := if childDiags != [] then 0 else 1;
      if DiagRefused(Snapshot(), c, sectionId, parentCode) {
        // IntegrityError: the insert is skipped, and so are the notes and children.
        return name;
      }
      ghost var t0 := Snapshot();
      assert DiagRow(description, sectionId, parentCode, isLeafNode, placeholder, category, firstLetter)
        == DiagRowOf(diagElement, c, sectionId, parentCode);
      diagnoses := diagnoses[c := DiagRow(description, sectionId, parentCode, isLeafNode, placeholder, category, firstLetter)];
      ProcessNotes(c, diagElement);
      InsertedDiagStep(t0, diagElement, sectionId, parentCode, Snapshot());
      if isLeafNode == 0 {
        ProcessChildDiags(diagElement, sectionId, c);
      }
      code := name;
    }

    /** The loop over the child `<diag>` elements of `process_diag`, each with `code` as its parent. */
    method ProcessChildDiags(diagElement: Element, sectionId: Option<string>, code: string)
      modifies this
      ensures Snapshot() == ChildDiags(old(Snapshot()), diagElement, 0, sectionId, code)
      decreases diagElement, 0
    {
      var childDiags := FindAll(diagElement, "diag");
      ghost var final := ChildDiags(Snapshot(), diagElement, 0, sectionId, code);
      for i := 0 to |childDiags|
        invariant ChildDiags(Snapshot(), diagElement, i, sectionId, code) == final
      {
        FindAllChild(diagElement, "diag", i);
        var _ := ProcessDiag(childDiags[i], sectionId, Some(code));
      }
    }

    /** `process_section`: insert the section (a refused insert still visits its diagnoses), then its diagnoses. */
    method ProcessSection(sectionElement: Element, chapterNum: string) returns (sectionId: Option<string>)
      modifies this
      ensures (Snapshot(), sectionId) == SectionStep(old(Snapshot()), sectionElement, chapterNum)
    {
      sectionId := Attr(sectionElement, "id");
      var description := GetText(sectionElement, "desc");
      if sectionId.None? || sectionId.value == "" {
        return None;
      }
      if !SectionRefused(Snapshot(), sectionId.value, chapterNum) {
        sections := sections[sectionId.value := SectionRow(description, chapterNum)];
      }
      var diags := FindAll(sectionElement, "diag");
      ghost var final := DiagsFold(Snapshot(), diags, sectionId, None);
      for i := 0 to |diags|
        invariant DiagsFold(Snapshot(), diags[i..], sectionId, None) == final
      {
        assert diags[i..][1..] == diags[i + 1..];
        var _ := ProcessDiag(diags[i], sectionId, None);
      }
    }

    /**
     * `process_chapter`: insert the chapter, then its sections, then any
     * diagnoses placed directly under it (with neither section nor parent).
     */
    method ProcessChapter(chapterElement: Element) returns (r: ChapterOutcome)
      modifies this
      ensures (Snapshot(), r) == ChapterStep(old(Snapshot()), chapterElement)
    {
      var chapterNum := GetText(chapterElement, "name");
      var description := GetText(chapterElement, "desc");
      if chapterNum.None? || chapterNum.value == "" {
        return Processed(None);
      }
      var num := chapterNum.value;
      if num !in chapters {
        chapters := chapters[num := ChapterRow(description)];
        if description.None? {
          // Slicing the missing description for the progress message.
          return TypeError;
        }
      }
      var sectionElements := FindAll(chapterElement, "section");
      ghost var afterSections := SectionsFold(Snapshot(), sectionElements, num);
      for i := 0 to |sectionElements|
        invariant SectionsFold(Snapshot(), sectionElements[i..], num) == afterSections
      {
        assert sectionElements[i..][1..] == sectionElements[i + 1..];
        var _ := ProcessSection(sectionElements[i], num);
      }
      var diags := FindAll(chapterElement, "diag");
      ghost var final := DiagsFold(Snapshot(), diags, None, None);
      for i := 0 to |diags|
        invariant DiagsFold(Snapshot(), diags[i..], None, None) == final
      {
        assert diags[i..][1..] == diags[i + 1..];
        var _ := ProcessDiag(diags[i], None, None);
      }
      r := Processed(chapterNum);
    }

    /**
     * `populate_database`: process every top-level chapter and commit, or
     * roll back to the state before the run when a chapter raises.
     * `None` stands for an XML file that is missing or does not parse.
     */
    method PopulateDatabase(parsed: Option<Element>) returns (outcome: Outcome)
      modifies this
      ensures (Snapshot(), outcome) == Populate(old(Snapshot()), parsed)
    {
      if parsed.None? {
        return NotParsed;
      }
      var chapterElements := FindAll(parsed.value, "chapter");
      if chapterElements == [] {
        return NoChapters;
      }
      var saved := Snapshot();
      for i := 0 to |chapterElements|
        invariant ChaptersFold(saved, chapterElements) == ChaptersFold(Snapshot(), chapterElements[i..])
      {
        assert chapterElements[i..][1..] == chapterElements[i + 1..];
        var r := ProcessChapter(chapterElements[i]);
        if r.TypeError? {
          Restore(saved);
          return RolledBack;
        }
      }
      outcome := Committed;
    }
  }
}
