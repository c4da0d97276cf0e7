/**
 * The two reference-catalog lookups of the extractor (`get_cpt_description`
 * and `get_icd10_details`).  A catalog is a finite map from code to row; the
 * connection may be absent (`None`) or fail on every query (`Failing`, the
 * `sqlite3.Error` branch), and both lookups then answer `None` instead of
 * raising.
 */
module Lookup {
  import opened Base
  import opened Text

  /** An open connection to a catalog: either it answers queries from `table`, or every query fails. */
  datatype Connection<R> = Healthy(table: map<string, R>) | Failing

  /** A connection that may be missing altogether. */
  type Store<R> = Option<Connection<R>>

  /** The `Description` column of a CPT row; SQL NULL is `None`. */
  type CptTable = map<string, Option<string>>

  /** The `description` and `is_leaf_node` columns of a `diagnoses` row. */
  datatype IcdRow = IcdRow(description: Option<string>, isLeafNode: int)

  /** The dictionary `get_icd10_details` returns on a hit. */
  datatype IcdDetails = IcdDetails(code: string, description: Option<string>, isLeafNode: bool)

  /** Python truthiness of an optional string argument: present and non-empty. */
  predicate Given(code: Option<string>) {
    code.Some? && code.value != ""
  }

  /** The key a CPT code is looked up under: the code with surrounding whitespace removed. */
  function CptKey(code: string): string {
    Strip(code)
  }

  /** The key an ICD-10 code is looked up under: trimmed and upper-cased. */
  function IcdKey(code: string): string {
    Upper(Strip(code))
  }

  /**
   * `get_cpt_description`: the stored description of the trimmed code, or
   * `None` when there is no connection, no code, a blank code, a failing
   * query, a miss, or a NULL description.
   */
  function GetCptDescription(conn: Store<Option<string>>, code: Option<string>): (d: Option<string>)
    ensures d.Some? ==> (conn.Some? && conn.value.Healthy? && code.Some? && CptKey(code.value) != ""
      && CptKey(code.value) in conn.value.table && conn.value.table[CptKey(code.value)] == d)
    ensures (conn.Some? && conn.value.Healthy? && code.Some? && CptKey(code.value) != ""
      && CptKey(code.value) in conn.value.table) ==> d == conn.value.table[CptKey(code.value)]
  {
    if conn.None? || !Given(code) then None
    else
      var key := CptKey(code.value);
      if key == "" then None
      else match conn.value
        case Failing => None
        case Healthy(table) => if key in table then table[key] else None
  }

  /**
   * `get_icd10_details`: the row of the trimmed, upper-cased code, its
   * integer leaf flag read as a boolean; `None` when there is no connection,
   * no code, a blank code, a failing query or a miss.
   */
  function GetIcd10Details(conn: Store<IcdRow>, code: Option<string>): (d: Option<IcdDetails>)
    ensures d.Some? <==> (conn.Some? && conn.value.Healthy? && code.Some? && IcdKey(code.value) != ""
      && IcdKey(code.value) in conn.value.table)
    ensures d.Some? ==>
      var row := conn.value.table[IcdKey(code.value)];
      d.value == IcdDetails(IcdKey(code.value), row.description, row.isLeafNode != 0)
  {
    if conn.None? || !Given(code) then None
    else
      var key := IcdKey(code.value);
      if key == "" then None
      else match conn.value
        case Failing => None
        case Healthy(table) =>
          if key in table then
            var row := table[key];
            Some(IcdDetails(key, row.description, row.isLeafNode != 0))
          else None
  }

  /** A failing query behaves exactly like a missing connection, for both lookups and every code. */
  lemma FailingIsAbsent(cpt: Option<string>, icd: Option<string>)
    ensures GetCptDescription(Some(Failing), cpt) == GetCptDescription(None, cpt) == None
    ensures GetIcd10Details(Some(Failing), icd) == GetIcd10Details(None, icd) == None
  {
  }

  /** A blank code (after trimming) is never looked up. */
  lemma BlankCodeMisses(conn: Store<Option<string>>, icdConn: Store<IcdRow>, code: string)
    requires AllSpace(code)
    ensures GetCptDescription(conn, Some(code)) == None
    ensures GetIcd10Details(icdConn, Some(code)) == None
  {
    StripAllSpace(code);
  }

  /** Whitespace around a CPT code does not change the answer. */
  lemma CptPaddingIrrelevant(conn: Store<Option<string>>, w1: string, code: string, w2: string)
    requires AllSpace(w1) && AllSpace(w2)
    ensures GetCptDescription(conn, Some(w1 + code + w2)) == GetCptDescription(conn, Some(code))
  {
    StripPadded(w1, code, w2);
    if code == "" {
      assert Strip(code) == "";
    }
  }

  /** ICD-10 lookup ignores surrounding whitespace and letter case. */
  lemma IcdNormalisationIrrelevant(conn: Store<IcdRow>, w1: string, code: string, w2: string)
    requires AllSpace(w1) && AllSpace(w2)
    ensures GetIcd10Details(conn, Some(w1 + code + w2)) == GetIcd10Details(conn, Some(code))
    ensures GetIcd10Details(conn, Some(Lower(code))) == GetIcd10Details(conn, Some(code))
  {
    StripPadded(w1, code, w2);
    SameIcdKey(conn, w1 + code + w2, code);
    StripLower(code);
    LowerUpper(Strip(code));
    SameIcdKey(conn, Lower(code), code);
  }

  /** ICD-10 lookup sees a code only through its key. */
  lemma SameIcdKey(conn: Store<IcdRow>, a: string, b: string)
    requires IcdKey(a) == IcdKey(b)
    ensures GetIcd10Details(conn, Some(a)) == GetIcd10Details(conn, Some(b))
  {
    if a == "" {
      assert Strip(a) == "";
    }
    if b == "" {
      assert Strip(b) == "";
    }
  }

  /** A stored code that is already trimmed and upper-case is found under itself. */
  lemma IcdHitOnStoredKey(table: map<string, IcdRow>, key: string)
    requires key in table && key != "" && Strip(key) == key && Upper(key) == key
    ensures GetIcd10Details(Some(Healthy(table)), Some(key))
      == Some(IcdDetails(key, table[key].description, table[key].isLeafNode != 0))
  {
  }
}
