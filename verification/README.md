# bonestractor core, modelled in Dafny

bonestractor reads a free-text orthopaedic operative report and fills a
structured `OperativeReport`. It covers:

- patient demographics, admission data and providers;
- the pre-procedure diagnoses, each checked against an ICD-10-CM catalog;
- the procedures performed, each with an optional CPT code checked against
  a CPT catalog, plus the side and anatomical region read from its name;
- complications, blood loss and implants.

Two scripts build the ICD-10-CM material from the official tabular XML:

- `populate_icd10cm_database.py` walks the chapter, section and diagnosis
  tree and fills four tables: chapters, sections, diagnoses and notes. The
  copies in `src/db_setup/` and `scripts/` are identical, so one model
  serves both.
- `process_icd.py` flattens every `<diag>` into a table of code,
  description, first letter and category.

The project is organised as follows:

- `base.dfy` (`Base`): the `Option` type and one sequence lemma.
- `text.dfy` (`Text`): Python's `strip`, `split`, `split()`, `join`,
  `lower`/`upper` and substring tests over ASCII text.
- `patterns.dfy` (`Patterns`): the `RegexPatterns` capture rules. Each is a
  recogniser written out by hand that follows the order in which the
  backtracking engine tries alternatives. `re.search` returns the leftmost
  match.
- `lookup.dfy` (`Lookup`): the two catalog lookups. A catalog is a finite
  map behind a connection that may be missing (`None`) or may fail on every
  query (`Failing`).
- `data_models.dfy` (`DataModels`): the report records and `to_dict`.
- `extractor.dfy` (`Extractor`): the ICD-10 code shape, the line-by-line
  diagnosis and procedure pipelines, the side and region classifiers, and
  the `MedicalReportExtractor` class. The class holds the report it fills
  in place.
- `xml.dfy` (`Xml`): the parsed XML tree, with `find`, `findall`, `get`,
  `get_text` and `.//tag`.
- `code_parts.dfy` (`CodeParts`): the first letter and the category of a
  code.
- `catalog_builder.dfy` (`CatalogBuilder`): the tables as values. The
  recursive walk is written as functions on those values. The
  `CatalogDatabase` class has methods that follow the script and are proved
  equal to those functions.
- `icd_table.dfy` (`IcdTable`): the flat row table and the loop that
  builds it.

## Model

| member | source | states |
|---|---|---|
| Patterns.SearchRule | src/op_report_tooling/patterns.py:6-34 | `re.search` semantics: the match returned starts at the leftmost index where the rule matches; no index matches when there is none |
| Patterns.PreDiagnosisBlock | src/op_report_tooling/patterns.py:24 | the diagnosis block is found iff "Pre-procedure diagnosis:" occurs (any case); it runs from after the first label and its whitespace up to the earliest "Post-procedure diagnosis:", "Procedures performed:" or the end of the text |
| Patterns.PatientNameCapture | src/op_report_tooling/patterns.py:6 | the name match starts a line with "PATIENT:"; the capture has no newline or tab, ends at the first point where "UNIT" or a line end follows (after optional whitespace), and has no trailing whitespace unless it is one character |
| Patterns.DateCapture | src/op_report_tooling/patterns.py:8-14 | the DOB, admission-date and surgery-date captures are non-empty runs of digits and '/' |
| Patterns.BloodLossCapture | src/op_report_tooling/patterns.py:32 | the blood-loss capture is a non-empty, maximal run of decimal digits |
| Patterns.SurgeonCapture | src/op_report_tooling/patterns.py:19 | the surgeon line starts with "Primary Surgeon:" or "AUTHOR:"; the capture has no newline and stops at the first point followed by whitespace+"MD" or the line end, so " MD" is never captured |
| Patterns.LineRestCapture | src/op_report_tooling/patterns.py:31-33 | complications/implants captures end just before a newline and contain none; the rule matches iff some occurrence of the label is followed later by a newline |
| Lookup.GetCptDescription | src/op_report_tooling/utils.py:31-64 | the result is the stored description of the trimmed code exactly when the connection is healthy, the code is given, non-blank after trimming and stored; otherwise `None` |
| Lookup.GetIcd10Details | src/op_report_tooling/utils.py:67-106 | a hit iff the connection is healthy and the trimmed, upper-cased non-blank code is stored; a hit returns that key, the description and leaf flag as `flag != 0` |
| Lookup.FailingIsAbsent | src/op_report_tooling/utils.py:58-59 | a query error yields `None` for both lookups, exactly as a missing connection does |
| Lookup.BlankCodeMisses | src/op_report_tooling/utils.py:35-42 | a code that is blank after trimming is never found, whatever the catalog |
| Lookup.CptPaddingIrrelevant | src/op_report_tooling/utils.py:39-50 | surrounding whitespace does not change a CPT lookup |
| Lookup.IcdNormalisationIrrelevant | src/op_report_tooling/utils.py:73-80 | surrounding whitespace and letter case do not change an ICD-10 lookup |
| Lookup.IcdHitOnStoredKey | src/op_report_tooling/utils.py:89-98 | a stored, already trimmed upper-case key is found with its row, leaf flag read as a boolean |
| DataModels.ToDictInjective | src/op_report_tooling/data_models.py:77-81 | `to_dict` loses nothing: equal mappings come from equal reports |
| DataModels.FieldNames | src/op_report_tooling/data_models.py:8-81 | the mapping's keys are the dataclass field names in declaration order at every level, the five `ProcessedDiagnosis` keys included |
| DataModels.FreshReport | src/op_report_tooling/data_models.py:53-75 | a fresh report maps to fresh nested records, empty procedures and diagnoses lists and `None` for all four misc fields; every scalar of the patient, insurance, admission, provider and procedure records is `None` |
| Extractor.ExtractWithPattern | src/op_report_tooling/extractor.py:87-102 | no match gives `None`; with no group name, an empty one or the rule's own group the stripped capture is returned; an unknown group name gives `None` |
| Extractor.FirstCode | src/op_report_tooling/extractor.py:29 | the leftmost index at which a code matches, with the end the engine picks there; none before it |
| Extractor.IcdCodeFound | src/op_report_tooling/extractor.py:29 | the code found is a code-shaped token with word boundaries on both sides, leftmost and, from there, longest; none is found iff no such token occurs |
| Extractor.FoundCodeShape | src/op_report_tooling/extractor.py:29 | a found code has the shape letter (not U), digit, letter/digit, optional '.' and 1-4 letters/digits |
| Extractor.CodeIsOwnKey | src/op_report_tooling/extractor.py:29 | a code-shaped token is its own ICD-10 lookup key (already trimmed and upper-case) |
| Extractor.OrdinalRemoved | src/op_report_tooling/extractor.py:191 | a leading "n." ordinal and the whitespace after it are removed and the rest stripped |
| Extractor.NoOrdinalKept | src/op_report_tooling/extractor.py:191 | a line not starting with a digit is only trimmed |
| Extractor.CptSplitLine | src/op_report_tooling/extractor.py:263-268 | on one line a CPT code is split off iff the line ends in whitespace and five digits; the name is the stripped text before them |
| Extractor.CptSplitJoin | src/op_report_tooling/extractor.py:263-268 | "name, whitespace, five digits" splits back into the stripped name and the digits |
| Extractor.SidePriority | src/op_report_tooling/extractor.py:303-311 | "Bilateral" iff the lower-cased text contains "bilateral"; else "Left" iff it contains "left"; else "Right" iff "right"; `None` iff none of them (empty text included) |
| Extractor.SideIgnoresCase | src/op_report_tooling/extractor.py:307 | upper- or lower-casing the text does not change the side |
| Extractor.RegionFirstKey | src/op_report_tooling/extractor.py:316-321 | the region is that of the first table key, in declaration order, occurring in the lower-cased text |
| Extractor.RegionNoKey | src/op_report_tooling/extractor.py:318-326 | with no key in the text the region is `None`: the humerus fallback is unreachable |
| Extractor.HumerusWins | src/op_report_tooling/extractor.py:318-325 | text containing "humerus" and none of the four earlier keys gives "Humerus", whatever else it says |
| Extractor.DetermineRegion | src/op_report_tooling/extractor.py:313-326 | the loop over the key table and the fallback compute `RegionOf` |
| Extractor.NameSplitParts | src/op_report_tooling/extractor.py:110-117 | for "Last, First M1 M2": last name is the stripped text before the comma, first name the first token, middle the rest joined by single spaces or `None` |
| Extractor.NameSecondCommaIgnored | src/op_report_tooling/extractor.py:112-117 | text after a second comma does not change the name fields |
| Extractor.NameWithoutComma | src/op_report_tooling/extractor.py:112-113 | a name without a comma is all last name, with no first or middle name |
| Extractor.PatientNames | src/op_report_tooling/extractor.py:109-117 | the report's name fields are the split of the captured name |
| Extractor.NoPatientName | src/op_report_tooling/extractor.py:109-111 | without a name match the three name fields stay `None` |
| Extractor.VenueFirstLine | src/op_report_tooling/extractor.py:137-139 | the venue is the stripped first line, absent when the first line is empty |
| Extractor.DateFields | src/op_report_tooling/extractor.py:119-135 | date of birth, admission and surgery fields are non-empty strings of digits and '/' |
| Extractor.BloodLossField | src/op_report_tooling/extractor.py:333 | the blood-loss field is a non-empty string of digits |
| Extractor.OneLineFields | src/op_report_tooling/patterns.py:19-33 | surgeon, complications and implants fields contain no newline |
| Extractor.DiagnosisEntryValid | src/op_report_tooling/extractor.py:188-232 | an entry keeps its line verbatim and the first code of the cleaned line; valid iff a code was found and the store is healthy and holds it; a valid entry copies description and leaf flag; otherwise both are `None` |
| Extractor.CodeKeyed | src/op_report_tooling/extractor.py:200-210 | a found code is non-empty and is looked up under itself |
| Extractor.NoDiagnosisSection | src/op_report_tooling/extractor.py:164-174 | without the diagnosis label there are no diagnoses |
| Extractor.DiagnosisPerLine | src/op_report_tooling/extractor.py:176-235 | exactly one entry per non-blank trimmed line of the block, in order; each keeps that line verbatim |
| Extractor.UnavailableIcdStore | src/op_report_tooling/extractor.py:209-219 | a missing or failing ICD-10 store finds the same codes and validates none |
| Extractor.ProcedureEntry | src/op_report_tooling/extractor.py:258-294 | a line is skipped iff nothing is left after removing the ordinal; a kept procedure always has a name |
| Extractor.ProcedureWithCode | src/op_report_tooling/extractor.py:263-294 | "name, whitespace, five digits" gives that code and, as the name, the catalog description on a hit or else the stripped name; side and region come from that name |
| Extractor.ProcedureWithoutCode | src/op_report_tooling/extractor.py:286-294 | a cleaned line without a trailing code is the name itself with no code, whatever the catalog |
| Extractor.UnavailableCptStore | src/op_report_tooling/extractor.py:272-282 | a missing or failing CPT store keeps the extracted name |
| Extractor.DiagnoseLine | src/op_report_tooling/extractor.py:188-232 | the body of the diagnosis loop computes `DiagnosisEntry` |
| Extractor.ProcessProcedureLine | src/op_report_tooling/extractor.py:258-294 | the body of the procedures loop computes `ProcedureEntry` |
| Extractor.MedicalReportExtractor.constructor | src/op_report_tooling/extractor.py:35-39 | keeps the text and starts from an empty report |
| Extractor.MedicalReportExtractor.ExtractPatientInfo | src/op_report_tooling/extractor.py:105-121 | replaces only the patient record, with `PatientInfoOf(text)` |
| Extractor.MedicalReportExtractor.ExtractInsuranceInfo | src/op_report_tooling/extractor.py:124-127 | leaves the report unchanged |
| Extractor.MedicalReportExtractor.ExtractAdmissionInfo | src/op_report_tooling/extractor.py:129-143 | replaces only the admission record |
| Extractor.MedicalReportExtractor.ExtractProviderInfo | src/op_report_tooling/extractor.py:146-153 | replaces only the provider record |
| Extractor.MedicalReportExtractor.ExtractDiagnoses | src/op_report_tooling/extractor.py:157-236 | replaces only the diagnoses, with one entry per line of the block (`DiagnosesOf`) |
| Extractor.MedicalReportExtractor.ExtractProcedures | src/op_report_tooling/extractor.py:240-300 | replaces only the procedures, with those of the non-blank lines of the block in order (`ProceduresOf`) |
| Extractor.MedicalReportExtractor.ExtractMiscInfo | src/op_report_tooling/extractor.py:328-337 | sets complications, blood loss, implants and recommendations; nothing else changes |
| Extractor.MedicalReportExtractor.ExtractAll | src/op_report_tooling/extractor.py:42-73 | runs every section and returns the report; only insurance is left as it was |
| Xml.FindAllMembers | src/db_setup/populate_icd10cm_database.py:79 | `findall` returns exactly the direct children with the tag |
| Xml.FindIsFirst | src/db_setup/populate_icd10cm_database.py:22 | `find` is the first element of `findall`, or `None` |
| Xml.GetTextFound | src/db_setup/populate_icd10cm_database.py:20-25 | `get_text` is present iff a child with that tag exists and its text is non-empty; it is then that text stripped |
| Xml.DescendantsTagged | scripts/process_icd.py:39 | every element `.//tag` returns carries the tag |
| Xml.DescendantsReach | scripts/process_icd.py:39 | `.//tag` reaches every depth: a tagged child and everything found below any child are found |
| CodeParts.CategoryIsPrefix | src/db_setup/populate_icd10cm_database.py:73-74 | the category is the code's prefix of length min(3, length), and the first letter is a prefix of it |
| CatalogBuilder.NotesInTagOrder | src/db_setup/populate_icd10cm_database.py:31-47 | every note row has the diagnosis code, one of the note types and a non-blank stripped text; rows are grouped in the fixed note-type order |
| CatalogBuilder.CollectNotes | src/db_setup/populate_icd10cm_database.py:36-47 | the loop over the note types builds exactly `NotesFor(code, d, NoteTags)`, the rows whose properties `NotesInTagOrder` states |
| CatalogBuilder.CollectTypeNotes | src/db_setup/populate_icd10cm_database.py:39-47 | the loop over the elements of one note type builds exactly `NotesUnder` of them |
| CatalogBuilder.CollectNoteRows | src/db_setup/populate_icd10cm_database.py:43-47 | the loop over the `<note>` children keeps, in order, one row per non-blank stripped text (`NoteRows`) |
| CatalogBuilder.NamelessDiagSkipped | src/db_setup/populate_icd10cm_database.py:65-70 | a diag without a name, or with a blank one, changes nothing, visits no child and returns `None` |
| CatalogBuilder.DuplicateDiagSkipped | scripts/populate_icd10cm_database.py:90-93 | a code already stored inserts no row, no notes and no children, and is still returned |
| CatalogBuilder.NamedDiagStored | src/db_setup/populate_icd10cm_database.py:82-106 | with its section and parent stored, a named diag is returned and ends up stored |
| CatalogBuilder.InsertedDiagRow | src/db_setup/populate_icd10cm_database.py:72-88 | the inserted row has the description, section, parent, leaf = 1 iff no child `<diag>`, placeholder = 1 iff the attribute is "true" in any case, the 3-character category and `code[0]` |
| CatalogBuilder.OnlyDuplicatesRefused | src/db_setup/populate_icd10cm_database.py:90-93 | with section and parent stored, the insert is refused iff the code is a duplicate |
| CatalogBuilder.DiagStepExtends | src/db_setup/populate_icd10cm_database.py:60-106 | a diag only adds rows: chapters and sections are untouched, stored rows keep their values, notes are only appended |
| CatalogBuilder.DiagStepLinks | src/db_setup/populate_icd10cm_database.py:102-104 | every diagnosis the call inserts has the section it was given; its parent is the parent it was given or another diagnosis inserted by the same call |
| CatalogBuilder.DiagStepValid | src/db_setup/populate_icd10cm_database.py:60-106 | given a stored section and parent, every foreign key still points at a stored row afterwards |
| CatalogBuilder.DiagsFoldFacts | src/db_setup/populate_icd10cm_database.py:129-130 | a list of diags keeps integrity, only adds rows, and links each new row to the given section and parent or to a new row |
| CatalogBuilder.SectionStepFacts | src/db_setup/populate_icd10cm_database.py:108-132 | a section keeps integrity; when it has an id it is stored and its top-level diags have no parent; without an id nothing changes |
| CatalogBuilder.SectionsFoldFacts | src/db_setup/populate_icd10cm_database.py:155-156 | the sections of a stored chapter keep integrity and leave the chapters table alone |
| CatalogBuilder.ChapterStepFacts | src/db_setup/populate_icd10cm_database.py:134-164 | a chapter keeps integrity and only adds rows; a processed chapter number is stored |
| CatalogBuilder.ChapterDiagsUnsectioned | src/db_setup/populate_icd10cm_database.py:158-162 | every row added after the chapter's sections has no section, and its parent is absent (a direct diag) or a row added in that same pass |
| CatalogBuilder.ChaptersFoldFacts | src/db_setup/populate_icd10cm_database.py:202-203 | processing the chapters in turn keeps integrity and only adds rows |
| CatalogBuilder.PopulateFacts | src/db_setup/populate_icd10cm_database.py:167-221 | any outcome but commit leaves the tables exactly as they were; a commit keeps integrity and only adds rows; no tree iff `NotParsed`; no chapter iff `NoChapters` |
| CatalogBuilder.CatalogDatabase.constructor | src/db_setup/populate_icd10cm_database.py:179 | the database holds the given tables |
| CatalogBuilder.CatalogDatabase.Restore | src/db_setup/populate_icd10cm_database.py:218-221 | rolls the tables back to a saved state |
| CatalogBuilder.CatalogDatabase.ProcessNotes | src/db_setup/populate_icd10cm_database.py:29-57 | appends the collected rows when the code is stored (the foreign key refuses them otherwise); the other tables are unchanged |
| CatalogBuilder.CatalogDatabase.ProcessDiag | src/db_setup/populate_icd10cm_database.py:60-106 | the new tables and returned code are those of `DiagStep` |
| CatalogBuilder.CatalogDatabase.ProcessChildDiags | src/db_setup/populate_icd10cm_database.py:102-104 | the loop over the child `<diag>` elements, each with the current code as parent, gives the tables of `ChildDiags` |
| CatalogBuilder.CatalogDatabase.ProcessSection | src/db_setup/populate_icd10cm_database.py:108-132 | the new tables and returned id are those of `SectionStep` |
| CatalogBuilder.CatalogDatabase.ProcessChapter | src/db_setup/populate_icd10cm_database.py:134-164 | the new tables and outcome (`TypeError` included) are those of `ChapterStep` |
| CatalogBuilder.CatalogDatabase.PopulateDatabase | src/db_setup/populate_icd10cm_database.py:167-225 | the new tables and outcome are those of `Populate`, rollback included |
| IcdTable.ExtractIcdDataToDataframe | scripts/process_icd.py:19-81 | returns `IcdData(parsed)`; the count is the number of rows appended |
| IcdTable.RowsOfAppend | scripts/process_icd.py:43-63 | rows follow document order: the rows of `a + b` are those of `a` then those of `b` |
| IcdTable.RowsOfMembers | scripts/process_icd.py:51-63 | a row exists exactly for the diags whose name text is non-blank; never more rows than diags |
| IcdTable.RowShape | scripts/process_icd.py:45-62 | a row's code is non-blank and stripped, the first letter is `code[0]`, the category is the 3-character prefix or the whole code, and the description is `None` iff `<desc>` is missing or empty |
| IcdTable.NoRowsNoTable | scripts/process_icd.py:75-81 | the result is `None` iff no `<diag>` at any depth has a code |
| IcdTable.RowAtAnyDepth | scripts/process_icd.py:39-63 | a coded `<diag>` at any depth below the root has its row in the table |
| IcdTable.FlatRowMatchesCatalog | scripts/process_icd.py:53-62 | a diagnosis the catalog builder inserts has the description, category and first letter of its flat row |

## Left out

- The tkinter interface, the XML viewers, the run script and `config.py`
  are display, file dialogs and paths.
- `create_connection` and the opening and closing of connections in
  `extract_all` are left out. Each catalog is an optional map behind a
  connection that is healthy or failing, passed as a parameter. The
  re-raise in `extract_all` is not modelled, because no modelled step raises.
- `validate_date` is not used by the extraction pipeline.
- Logging is left out.
- Python's general regular-expression engine, Unicode `\d`/`\s` and
  Unicode case folding are left out. Text is ASCII: IGNORECASE is ASCII
  case folding and whitespace is the ASCII set `str.isspace` accepts.
- The injury-context and recommendations searches (`extractor.py:140-143`
  and `336-337`) are lazy matches across lines. Their captures are passed
  to `ExtractAdmissionInfo`, `ExtractMiscInfo` and `ExtractAll` as
  parameters. The rules `GENDER`, `UNIT_NUMBER`, `ACCOUNT_NUMBER`,
  `REPORT_STATUS`, `FIRST_ASSISTANT` and `ATTENDING` are modelled as
  recognisers but have no property of their own.
- The generic `sqlite3.Error` branches of the catalog builder
  (`populate_icd10cm_database.py:56-57, 94-96, 124-126, 150-152`) are left
  out. The cursor lifecycle and `commit` are left out too. The model raises
  IntegrityError only for a duplicate key or a dangling foreign key.
- lxml parsing and the checks that the XML file exists are left out. A
  parsed tree is passed in, and `None` stands for a missing file or a parse
  error. lxml's `None` text is the empty text, because both scripts only
  test that text for truthiness.
- The database-file existence check in `populate_database`
  (`populate_icd10cm_database.py:172-174`) is left out. It is a filesystem
  test, and it returns before anything is inserted.
- The pandas DataFrame is a sequence of rows. `pandasgui` display is left
  out.
- The SQL schema in `setup_icd10_database.py` is not part of this model.
  The primary keys and foreign keys it declares are assumed by
  `CatalogBuilder.DiagRefused` and `CatalogBuilder.SectionRefused`.
- Nothing is left out of the region rule. A procedure whose catalog
  description replaced its name takes its region from that description,
  as the code does. The forearm keys are "radius", "ulna" and "forearm",
  so a description that only says "radial" gets the region `None`.
