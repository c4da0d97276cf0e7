/**
 * The flat diagnosis table of `process_icd.py`: one row per `<diag>`
 * element anywhere in the tabular XML, in document order, holding the
 * code, its description, first letter and three-character category.
 * The DataFrame is a sequence of rows; reading the file is left to the
 * caller, who passes `None` when the file is missing or does not parse.
 */
module IcdTable {
  import opened Base
  import opened Text
  import opened Xml
  import opened CodeParts
  import CatalogBuilder

  datatype FlatRow = FlatRow(code: string, description: Option<string>, firstLetter: string, category: string)

  /** The row for one `<diag>`: present exactly when its name text is not blank. */
  function RowOf(d: Element): Option<FlatRow> {
    var code := GetText(d, "name");
    if code.Some? && code.value != "" then
      Some(FlatRow(code.value, GetText(d, "desc"), FirstLetter(code.value), Category(code.value)))
    else None
  }

  /** What one element adds to the table: its row, or nothing. */
  function RowPiece(d: Element): seq<FlatRow> {
    if RowOf(d).Some? then [RowOf(d).value] else []
  }

  /** The rows of the elements `ds`, in order, skipping those without a code. */
  function RowsOf(ds: seq<Element>): seq<FlatRow> {
    if ds == [] then [] else RowsOf(ds[..|ds| - 1]) + RowPiece(ds[|ds| - 1])
  }

  /** What `extract_icd_data_to_dataframe` returns: `None` for no file or no rows. */
  function IcdData(parsed: Option<Element>): Option<seq<FlatRow>> {
    if parsed.None? then None
    else
      var rows := RowsOf(Descendants(parsed.value, "diag"));
      if rows == [] then None else Some(rows)
  }

  lemma RowsOfStep(ds: seq<Element>, k: nat)
    requires k < |ds|
    ensures RowsOf(ds[..k + 1]) == RowsOf(ds[..k]) + RowPiece(ds[k])
  {
    assert ds[..k + 1][..k] == ds[..k];
  }

  /**
   * `extract_icd_data_to_dataframe`: walk every `<diag>`, append a row for
   * each one with a code and count the rows appended.
   */
  method ExtractIcdDataToDataframe(parsed: Option<Element>) returns (table: Option<seq<FlatRow>>, processedCount: nat)
    ensures table == IcdData(parsed)
    ensures parsed.Some? ==> processedCount == |RowsOf(Descendants(parsed.value, "diag"))|
  {
    if parsed.None? {
      return None, 0;
    }
    var dataRows: seq<FlatRow> := [];
    var allDiagElements := Descendants(parsed.value, "diag");
    processedCount := 0;
    for k := 0 to |allDiagElements|
      invariant dataRows == RowsOf(allDiagElements[..k])
      invariant processedCount == |dataRows|
    {
      RowsOfStep(allDiagElements, k);
      var diagElement := allDiagElements[k];
      var nameEl := Find(diagElement, "name");
      var descEl := Find(diagElement, "desc");
      var code := if nameEl.Some? && nameEl.value.text != "" then Some(Strip(nameEl.value.text)) else None;
      var desc := if descEl.Some? && descEl.value.text != "" then Some(Strip(descEl.value.text)) else None;
      if code.Some? && code.value != "" {
        var firstLetter := code.value[..1];
        var category := if |code.value| >= 3 then code.value[..3] else code.value;
        dataRows := dataRows + [FlatRow(code.value, desc, firstLetter, category)];
        processedCount := processedCount + 1;
      }
    }
    assert allDiagElements[..|allDiagElements|] == allDiagElements;
    if dataRows != [] {
      table := Some(dataRows);
    } else {
      table := None;
    }
  }

  /** Rows follow the elements: the rows of `a + b` are those of `a`, then those of `b`. */
  lemma {:induction false} RowsOfAppend(a: seq<Element>, b: seq<Element>)
    ensures RowsOf(a + b) == RowsOf(a) + RowsOf(b)
  {
    if b == [] {
      assert a + b == a;
    } else {
      var ab := a + b;
      var b' := b[..|b| - 1];
      assert ab[..|ab| - 1] == a + b';
      assert ab[|ab| - 1] == b[|b| - 1];
      RowsOfAppend(a, b');
      AppendAssoc(RowsOf(a), RowsOf(b'), RowPiece(b[|b| - 1]));
    }
  }

  /** A row exists for exactly the elements with a code: the row set is the image of `RowOf`. */
  lemma {:induction false} RowsOfMembers(ds: seq<Element>)
    ensures forall r :: r in RowsOf(ds) <==> exists d :: d in ds && RowOf(d) == Some(r)
    ensures |RowsOf(ds)| <= |ds|
  {
    if ds != [] {
      var front := ds[..|ds| - 1];
      var last := ds[|ds| - 1];
      RowsOfMembers(front);
      assert ds == front + [last];
      forall r
        ensures r in RowsOf(ds) <==> exists d :: d in ds && RowOf(d) == Some(r)
      {
        if exists d :: d in ds && RowOf(d) == Some(r) {
          var d :| d in ds && RowOf(d) == Some(r);
          if d != last {
            assert d in front;
          }
        }
      }
    }
  }

  /**
   * Each row's fields: a non-blank stripped code, its first letter, its
   * category (the first three characters, or the whole shorter code), and
   * a description that is `None` exactly when the `<desc>` child is
   * missing or has no text.
   */
  lemma RowShape(d: Element)
    requires RowOf(d).Some?
    ensures var r := RowOf(d).value;
      r.code != "" && Strip(r.code) == r.code
      && r.firstLetter == [r.code[0]]
      && r.category == (if |r.code| >= 3 then r.code[..3] else r.code)
      && (r.description.None? <==> FindAll(d, "desc") == [] || FindAll(d, "desc")[0].text == "")
  {
    GetTextFound(d, "name");
    GetTextFound(d, "desc");
    StripIdempotent(FindAll(d, "name")[0].text);
  }

  /**
   * The result is `None` exactly when there is no parsed document or no
   * `<diag>` at any depth has a code; otherwise its rows are those of the
   * coded `<diag>` elements in document order.
   */
  lemma NoRowsNoTable(root: Element)
    ensures IcdData(Some(root)).None? <==> forall d :: d in Descendants(root, "diag") ==> RowOf(d).None?
  {
    RowsOfMembers(Descendants(root, "diag"));
    if RowsOf(Descendants(root, "diag")) != [] {
      var r := RowsOf(Descendants(root, "diag"))[0];
      assert r in RowsOf(Descendants(root, "diag"));
    }
  }

  /**
   * Depth does not matter: a coded `<diag>` that is a child of the root,
   * or anywhere below one of the root's children, has its row in the table.
   */
  lemma RowAtAnyDepth(root: Element, i: nat, d: Element)
    requires i < |root.children|
    requires d == root.children[i] || d in Descendants(root.children[i], "diag")
    requires d.tag == "diag" && RowOf(d).Some?
    ensures IcdData(Some(root)).Some? && RowOf(d).value in IcdData(Some(root)).value
  {
    DescendantsReach(root, i, "diag");
    RowsOfMembers(Descendants(root, "diag"));
    assert d in Descendants(root, "diag");
  }

  /**
   * The two catalog scripts agree: a diagnosis the builder inserts is
   * stored with the description, category and first letter of its flat row.
   */
  lemma FlatRowMatchesCatalog(t: CatalogBuilder.Tables, d: Element, sectionId: Option<string>, parentCode: Option<string>)
    requires GetText(d, "name").Some? && GetText(d, "name").value != ""
    requires !CatalogBuilder.DiagRefused(t, GetText(d, "name").value, sectionId, parentCode)
    ensures var r := RowOf(d).value;
      var stored := CatalogBuilder.DiagStep(t, d, sectionId, parentCode).0.diagnoses;
      r.code in stored
      && stored[r.code].description == r.description
      && stored[r.code].category == r.category
      && stored[r.code].firstLetter == r.firstLetter
  {
    CatalogBuilder.InsertedDiagRow(t, d, sectionId, parentCode);
  }
}
