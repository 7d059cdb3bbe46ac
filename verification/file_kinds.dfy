/**
 * The MIME-type classifier shared by the file list, the file manager page and
 * the recent-files widget: a type naming a spreadsheet (or Excel) is a
 * spreadsheet, otherwise one naming a document (or PDF) is a document, and
 * anything else is some other file. The spreadsheet test comes first.
 */
module FileKinds {
  import opened Base

  datatype Kind = Spreadsheet | Document | Other

  /** The icons the components draw for a file. */
  datatype Icon = SpreadsheetIcon | TextIcon | GenericIcon

  predicate IsSpreadsheetType(t: string)
  {
    Contains(t, "spreadsheet") || Contains(t, "excel")
  }

  predicate IsDocumentType(t: string)
  {
    Contains(t, "document") || Contains(t, "pdf")
  }

  /** The branch order of the classifier: spreadsheet before document. */
  function Classify(t: string): Kind
  {
    if IsSpreadsheetType(t) then Spreadsheet
    else if IsDocumentType(t) then Document
    else Other
  }

  /** The icon drawn for each kind. */
  function IconOf(k: Kind): Icon
  {
    match k
    case Spreadsheet => SpreadsheetIcon
    case Document => TextIcon
    case Other => GenericIcon
  }

  /** `getFileIcon` of the file list. */
  function FileListIcon(t: string): (i: Icon)
    ensures i == SpreadsheetIcon <==> IsSpreadsheetType(t)
    ensures i == TextIcon <==> !IsSpreadsheetType(t) && IsDocumentType(t)
    ensures i == GenericIcon <==> !IsSpreadsheetType(t) && !IsDocumentType(t)
  {
    if IsSpreadsheetType(t) then SpreadsheetIcon
    else if IsDocumentType(t) then TextIcon
    else GenericIcon
  }

  /** `FileListItem.getFileIcon` of the file manager page. */
  function PageIcon(t: string): (i: Icon)
    ensures i == IconOf(Classify(t))
  {
    if IsSpreadsheetType(t) then SpreadsheetIcon
    else if IsDocumentType(t) then TextIcon
    else GenericIcon
  }

  /** `getFileIcon` of the recent-files widget, which has only two icons. */
  function RecentIcon(t: string): (i: Icon)
    ensures i != GenericIcon
  {
    if IsSpreadsheetType(t) then SpreadsheetIcon else TextIcon
  }

  /** The two three-way icon functions agree with each other and with the
      classifier on every type. */
  lemma IconsAgree(t: string)
    ensures FileListIcon(t) == PageIcon(t) == IconOf(Classify(t))
  {
  }

  /** The two-icon widget shows the spreadsheet icon exactly for the files the
      classifier calls spreadsheets, and the text icon for all the others,
      including those the other components draw with the generic icon. */
  lemma RecentIconAgrees(t: string)
    ensures RecentIcon(t) == SpreadsheetIcon <==> Classify(t) == Spreadsheet
    ensures RecentIcon(t) == TextIcon <==> Classify(t) != Spreadsheet
  {
  }

  /** A type naming both a spreadsheet and a document is a spreadsheet. */
  lemma SpreadsheetFirst(t: string)
    requires IsSpreadsheetType(t) && IsDocumentType(t)
    ensures Classify(t) == Spreadsheet && FileListIcon(t) == SpreadsheetIcon
  {
  }

  /** The MIME type of an `.xlsx` workbook. */
  const XlsxType := "application/vnd.openxmlformats-officedocument.spreadsheetml.sheet"

  /** `document` occurs in the `.xlsx` type, inside `officedocument`. */
  lemma XlsxNamesDocument()
    ensures IsDocumentType(XlsxType)
  {
    var t := XlsxType;
    assert t[37..45] == "document" by {
      assert t[37] == 'd' && t[38] == 'o' && t[39] == 'c' && t[40] == 'u';
      assert t[41] == 'm' && t[42] == 'e' && t[43] == 'n' && t[44] == 't';
    }
    assert OccursAt(t, "document", 37);
    ContainsIffWindow(t, "document");
  }

  /** The `.xlsx` type names a document and is still classed as a spreadsheet. */
  lemma XlsxIsSpreadsheet()
    ensures Classify(XlsxType) == Spreadsheet
    ensures IsDocumentType(XlsxType)
  {
    var t := XlsxType;
    assert t[46..57] == "spreadsheet" by {
      assert t[46] == 's' && t[47] == 'p' && t[48] == 'r' && t[49] == 'e' && t[50] == 'a' && t[51] == 'd';
      assert t[52] == 's' && t[53] == 'h' && t[54] == 'e' && t[55] == 'e' && t[56] == 't';
    }
    assert OccursAt(t, "spreadsheet", 46);
    ContainsIffWindow(t, "spreadsheet");
    XlsxNamesDocument();
  }
}
