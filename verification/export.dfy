/** The two export encoders of the results view. The CSV export lists every
    schema field (page 1, then Part VIII, then Part IX) with its cleaned value,
    looked up in a spread merge of the three sections; the JSON export writes
    the result as received, and only its file name is modelled here. A
    decoder for the CSV layout is the partner of the encoder: it reads back
    the (label, value) pairs. */
module Export {
  import opened Optional
  import opened JsStrings
  import opened Values
  import opened Schema
  import opened Results

  // ---------------------------------------------------------------------------
  // The merged lookup map
  // ---------------------------------------------------------------------------

  /** A missing section spreads as nothing. */
  function SectionOrEmpty(s: Option<Section>): Section {
    if s.Some? then s.value else map[]
  }

  /** `{ ...results.page1, ...results.part_viii, ...results.part_ix }`: a key
      present in a later section overrides the earlier ones, even when its
      value there is `null`. */
  function MergedData(r: ExtractionResult): (m: Section)
    ensures forall k :: k in m <==>
              k in SectionOrEmpty(r.page1) || k in SectionOrEmpty(r.partVIII) || k in SectionOrEmpty(r.partIX)
    ensures forall k :: k in SectionOrEmpty(r.partIX) ==> m[k] == r.partIX.value[k]
    ensures forall k :: k !in SectionOrEmpty(r.partIX) && k in SectionOrEmpty(r.partVIII) ==>
              m[k] == r.partVIII.value[k]
    ensures forall k :: k !in SectionOrEmpty(r.partIX) && k !in SectionOrEmpty(r.partVIII) && k in SectionOrEmpty(r.page1) ==>
              m[k] == r.page1.value[k]
  {
    SectionOrEmpty(r.page1) + SectionOrEmpty(r.partVIII) + SectionOrEmpty(r.partIX)
  }

  // ---------------------------------------------------------------------------
  // CSV encoding
  // ---------------------------------------------------------------------------

  /** `headers.join(',')` for the headers `Field` and `Value`. */
  const CsvHeader: string := Join(["Field", "Value"], ",")

  /** A cell wrapped in double quotes. Embedded quotes are not escaped. */
  function Quote(cell: string): string {
    "\"" + cell + "\""
  }

  /** One data line: the quoted label and the quoted value, comma-joined. */
  function CsvRow(caption: string, value: string): string {
    Join([Quote(caption), Quote(value)], ",")
  }

  /** The data lines for a field list, each value looked up in `data` and
      cleaned by the CSV copy of the rule. */
  function CsvRows(fields: seq<Field>, data: Section): seq<string> {
    seq(|fields|, i requires 0 <= i < |fields| =>
      CsvRow(fields[i].caption, CsvCell(Lookup(Some(data), fields[i].key))))
  }

  /** The file contents for a field list: header, then the data lines,
      joined with `\n` and without a trailing newline. */
  function CsvFor(fields: seq<Field>, data: Section): (text: string)
    ensures |fields| == 0 ==> text == "Field,Value"
    ensures |fields| > 0 ==> "Field,Value\n" <= text
    ensures |fields| > 0 ==> text[|text| - 1] == '"'
  {
    CsvHeaderIsFieldValue();
    if |fields| > 0 then
      CsvForShape(fields, data);
      Join([CsvHeader] + CsvRows(fields, data), "\n")
    else
      assert [CsvHeader] + CsvRows(fields, data) == [CsvHeader];
      Join([CsvHeader] + CsvRows(fields, data), "\n")
  }

  /** The joined lines begin with the header line and end with the last
      field's closing quote. */
  lemma CsvForShape(fields: seq<Field>, data: Section)
    requires |fields| > 0
    ensures "Field,Value\n" <= Join([CsvHeader] + CsvRows(fields, data), "\n")
    ensures var text := Join([CsvHeader] + CsvRows(fields, data), "\n");
            |text| > 0 && text[|text| - 1] == '"'
  {
    var lines := [CsvHeader] + CsvRows(fields, data);
    CsvHeaderIsFieldValue();
    JoinStartsWithFirst(lines, "\n");
    JoinEndsWithLast(lines, "\n");
    var f := fields[|fields| - 1];
    var v := CsvCell(Lookup(Some(data), f.key));
    JoinTwo(Quote(f.caption), Quote(v), ",");
    assert lines[|lines| - 1] == Quote(f.caption) + "," + Quote(v);
  }

  /** `handleExportCSV`'s file contents for a result: the header line first,
      then the field lines, the last of which ends with its closing quote
      (there is no trailing newline). */
  function CsvText(r: ExtractionResult): (text: string)
    ensures "Field,Value\n" <= text
    ensures text[|text| - 1] == '"'
  {
    SchemaSizes();
    CsvFor(AllFields, MergedData(r))
  }

  /** The header is the literal unquoted `Field,Value`. */
  lemma CsvHeaderIsFieldValue()
    ensures CsvHeader == "Field,Value"
  {
  }

  /** The layout of the export: 58 lines joined by `\n`, the header first and
      then, for each of the 57 schema fields in export order, the line
      `"label","value"` with the value cleaned from the merged map. */
  lemma CsvLayout(r: ExtractionResult)
    ensures var lines := [CsvHeader] + CsvRows(AllFields, MergedData(r));
            && CsvText(r) == Join(lines, "\n")
            && |lines| == 58
            && lines[0] == "Field,Value"
            && forall i :: 0 <= i < 57 ==>
                 lines[i + 1] == "\"" + AllFields[i].caption + "\",\"" + CsvCell(Lookup(Some(MergedData(r)), AllFields[i].key)) + "\""
  {
    SchemaSizes();
    var lines := [CsvHeader] + CsvRows(AllFields, MergedData(r));
    forall i | 0 <= i < 57
      ensures lines[i + 1] == "\"" + AllFields[i].caption + "\",\"" + CsvCell(Lookup(Some(MergedData(r)), AllFields[i].key)) + "\""
    {
      var c := AllFields[i].caption;
      var v := CsvCell(Lookup(Some(MergedData(r)), AllFields[i].key));
      assert lines[i + 1] == Join([Quote(c), Quote(v)], ",");
      JoinTwo(Quote(c), Quote(v), ",");
    }
  }

  /** The value cell of field `i` against what the screen would show for the
      same merged raw value: equal for truthy values, empty where the screen
      shows `"0"` for falsy ones. */
  lemma CsvCellVersusScreen(r: ExtractionResult, i: nat)
    requires i < |AllFields|
    ensures var v := Lookup(Some(MergedData(r)), AllFields[i].key);
            CsvCell(v) == (if Truthy(v) then DisplayValue(v) else "")
  {
    DisplayVersusCsv(Lookup(Some(MergedData(r)), AllFields[i].key));
  }

  /** The override rule at the one shared key: when Part VIII (and not
      Part IX) carries `total_revenue`, the page-1 "Row 12: Total Revenue"
      line of the CSV shows Part VIII's value, whatever page 1 says, and so
      does the Part VIII line. */
  lemma TotalRevenueRowTakesPartVIII(r: ExtractionResult)
    requires r.partVIII.Some? && "total_revenue" in r.partVIII.value
    requires "total_revenue" !in SectionOrEmpty(r.partIX)
    ensures var rows := CsvRows(AllFields, MergedData(r));
            var expected := CsvRow("Row 12: Total Revenue", CsvCell(r.partVIII.value["total_revenue"]));
            |rows| == 57 && rows[3] == expected && rows[|Page1Fields| + 37] == expected
  {
    SchemaSizes();
    TotalRevenueListedTwice();
  }

  /** Concretely: with 100 on page 1 and 200 in Part VIII, the page-1 tab
      shows 100 on its Row 12 card while the CSV line for that same page-1
      field says 200. */
  lemma TotalRevenueScreenAndCsvDiffer()
    ensures var r := ExtractionResult(Some("f.pdf"),
                                      Some(map["total_revenue" := Str("100")]),
                                      Some(map["total_revenue" := Str("200")]),
                                      None, None, 0);
            RenderTab(r, Page1Tab)[3].value == "100" &&
            CsvRows(AllFields, MergedData(r))[3] == CsvRow("Row 12: Total Revenue", "200")
  {
    var r := ExtractionResult(Some("f.pdf"),
                              Some(map["total_revenue" := Str("100")]),
                              Some(map["total_revenue" := Str("200")]),
                              None, None, 0);
    SchemaSizes();
    TotalRevenueListedTwice();
    CleanFixesCleanStrings("100");
    CleanFixesCleanStrings("200");
    assert RenderTab(r, Page1Tab)[3] == Card(Page1Fields[3], r.page1);
    TotalRevenueRowTakesPartVIII(r);
  }

  // ---------------------------------------------------------------------------
  // CSV decoding: the partner of the encoder
  // ---------------------------------------------------------------------------

  /** Text a CSV cell can carry through this layout: no double quote and no
      line break. */
  predicate PlainText(s: string) {
    '"' !in s && '\n' !in s
  }

  /** Reads one data line `"a","b"` back into `(a, b)`. */
  function DecodeRow(line: string): Option<(string, string)> {
    if |line| >= 2 && line[0] == '"' && line[|line| - 1] == '"' then
      var parts := Split(line[1..|line| - 1], '"');
      if |parts| == 3 && parts[1] == "," then Some((parts[0], parts[2])) else None
    else None
  }

  /** Reads every data line, failing if any line does not have the layout. */
  function DecodeRows(lines: seq<string>): Option<seq<(string, string)>> {
    if |lines| == 0 then Some([])
    else
      match DecodeRow(lines[0])
      case None => None
      case Some(pair) =>
        match DecodeRows(lines[1..])
        case None => None
        case Some(rest) => Some([pair] + rest)
  }

  /** Reads a whole export back: the header line, then one pair per line. */
  function DecodeCsv(text: string): Option<seq<(string, string)>> {
    var lines := Split(text, '\n');
    if lines[0] == CsvHeader then DecodeRows(lines[1..]) else None
  }

  /** What an export of `fields` over `data` should read back as. */
  function ExpectedPairs(fields: seq<Field>, data: Section): seq<(string, string)> {
    seq(|fields|, i requires 0 <= i < |fields| =>
      (fields[i].caption, CsvCell(Lookup(Some(data), fields[i].key))))
  }

  /** A data line decodes to the label and value it was built from. */
  lemma DecodeRowInvertsCsvRow(a: string, b: string)
    requires '"' !in a && '"' !in b
    ensures DecodeRow(CsvRow(a, b)) == Some((a, b))
  {
    var line := CsvRow(a, b);
    JoinTwo(Quote(a), Quote(b), ",");
    assert line == "\"" + (a + "\"" + "," + "\"" + b) + "\"";
    var inner := a + "\"" + "," + "\"" + b;
    assert line[1..|line| - 1] == inner;
    assert inner == Join([a, ",", b], "\"") by {
      assert Join([a, ",", b], "\"") == a + "\"" + Join([",", b], "\"");
      assert Join([",", b], "\"") == "," + "\"" + Join([b], "\"");
    }
    var parts := [a, ",", b];
    assert forall i :: 0 <= i < |parts| ==> '"' !in parts[i];
    SplitJoin(parts, '"');
  }

  lemma {:induction false} DecodeRowsInvertsCsvRows(fields: seq<Field>, data: Section)
    requires forall i :: 0 <= i < |fields| ==> PlainText(fields[i].caption)
    requires forall i :: 0 <= i < |fields| ==> PlainText(CsvCell(Lookup(Some(data), fields[i].key)))
    ensures DecodeRows(CsvRows(fields, data)) == Some(ExpectedPairs(fields, data))
  {
    if |fields| > 0 {
      var cell0 := CsvCell(Lookup(Some(data), fields[0].key));
      assert PlainText(fields[0].caption) && PlainText(cell0);
      DecodeRowInvertsCsvRow(fields[0].caption, cell0);
      var tail := fields[1..];
      assert forall i :: 0 <= i < |tail| ==> tail[i] == fields[i + 1];
      DecodeRowsInvertsCsvRows(tail, data);
      CsvRowsCons(fields, data);
      var rows := CsvRows(fields, data);
      assert rows[0] == CsvRow(fields[0].caption, cell0);
      assert rows[1..] == CsvRows(tail, data);
      assert DecodeRow(rows[0]) == Some((fields[0].caption, cell0));
      assert DecodeRows(rows) == Some([(fields[0].caption, cell0)] + ExpectedPairs(tail, data));
    } else {
      assert CsvRows(fields, data) == [] && ExpectedPairs(fields, data) == [];
    }
  }

  /** The export lines and the expected pairs of a non-empty field list are
      those of its first field followed by those of the rest. */
  lemma CsvRowsCons(fields: seq<Field>, data: Section)
    requires |fields| > 0
    ensures var cell0 := CsvCell(Lookup(Some(data), fields[0].key));
            CsvRows(fields, data) == [CsvRow(fields[0].caption, cell0)] + CsvRows(fields[1..], data) &&
            ExpectedPairs(fields, data) == [(fields[0].caption, cell0)] + ExpectedPairs(fields[1..], data)
  {
  }

  /** Round trip: as long as no label and no value contains a double quote
      or a line break, decoding an export gives back every field's label and
      CSV value, in schema order, one line per field. */
  lemma CsvDecodesBack(fields: seq<Field>, data: Section)
    requires forall i :: 0 <= i < |fields| ==> PlainText(fields[i].caption)
    requires forall i :: 0 <= i < |fields| ==> PlainText(CsvCell(Lookup(Some(data), fields[i].key)))
    ensures DecodeCsv(CsvFor(fields, data)) == Some(ExpectedPairs(fields, data))
    ensures |Split(CsvFor(fields, data), '\n')| == |fields| + 1
  {
    var rows := CsvRows(fields, data);
    var lines := [CsvHeader] + rows;
    CsvHeaderIsFieldValue();
    forall i | 0 <= i < |lines| ensures '\n' !in lines[i] {
      if i > 0 {
        var f := fields[i - 1];
        var v := CsvCell(Lookup(Some(data), f.key));
        JoinTwo(Quote(f.caption), Quote(v), ",");
        assert lines[i] == Quote(f.caption) + "," + Quote(v);
      }
    }
    SplitJoin(lines, '\n');
    assert Split(CsvFor(fields, data), '\n') == lines;
    assert lines[1..] == rows;
    DecodeRowsInvertsCsvRows(fields, data);
  }

  /** A label or value with a double quote breaks the layout: the quotes are
      not escaped, so the line splits into more than three pieces and does
      not decode. */
  lemma QuoteInValueBreaksRow(a: string, b: string)
    requires '"' in a || '"' in b
    ensures DecodeRow(CsvRow(a, b)) == None
  {
    CsvRowInner(a, b);
    var inner := a + "\",\"" + b;
    CountAppend(a, "\",\"", '"');
    CountAppend(a + "\",\"", b, '"');
    assert Count("\",\"", '"') == 2;
    SplitLength(inner, '"');
  }

  /** A data line is its two cells joined by `","` inside an outer pair of
      quotes. */
  lemma CsvRowInner(a: string, b: string)
    ensures var line := CsvRow(a, b);
            |line| >= 2 && line[0] == '"' && line[|line| - 1] == '"' &&
            line[1..|line| - 1] == a + "\",\"" + b
  {
    var line := CsvRow(a, b);
    JoinTwo(Quote(a), Quote(b), ",");
    assert line == "\"" + (a + "\",\"" + b) + "\"";
  }

  // ---------------------------------------------------------------------------
  // Export file names
  // ---------------------------------------------------------------------------

  const PdfExtension: string := ".pdf"
  const JsonSuffix: string := "_extracted.json"
  const CsvSuffix: string := "_extracted.csv"

  /** `${results.filename.replace('.pdf', '')}${suffix}`: the first `.pdf`
      anywhere in the name is removed (case-sensitively) and the suffix
      appended. Without a file name the handler fails before any download,
      which is `None` here. */
  function ExportFileName(r: ExtractionResult, suffix: string): (name: Option<string>)
    ensures name.Some? <==> r.filename.Some?
    ensures r.filename.Some? && (forall j: nat :: !OccursAt(r.filename.value, PdfExtension, j)) ==>
              name == Some(r.filename.value + suffix)
    ensures forall i: nat ::
              r.filename.Some? && OccursAt(r.filename.value, PdfExtension, i) &&
              (forall j :: 0 <= j < i ==> !OccursAt(r.filename.value, PdfExtension, j)) ==>
                name == Some(r.filename.value[..i] + r.filename.value[i + |PdfExtension|..] + suffix)
  {
    match r.filename
    case None => None
    case Some(n) =>
      assert forall a: string, b: string :: a + "" + b == a + b;
      Some(ReplaceFirst(n, PdfExtension, "") + suffix)
  }

  /** The JSON export's file name. */
  function JsonFileName(r: ExtractionResult): Option<string> {
    ExportFileName(r, JsonSuffix)
  }

  /** The CSV export's file name. */
  function CsvFileName(r: ExtractionResult): Option<string> {
    ExportFileName(r, CsvSuffix)
  }

  /** Both exports share one base name and differ only in the suffix. */
  lemma ExportNamesShareBase(r: ExtractionResult)
    requires r.filename.Some?
    ensures var base := ReplaceFirst(r.filename.value, PdfExtension, "");
            JsonFileName(r) == Some(base + JsonSuffix) && CsvFileName(r) == Some(base + CsvSuffix)
  {
  }

  /** A name whose first `.pdf` is its ending loses exactly that ending. */
  lemma TrailingExtensionStripped(stem: string)
    requires forall j: nat :: j < |stem| ==> !OccursAt(stem + PdfExtension, PdfExtension, j)
    ensures var r := ExtractionResult(Some(stem + PdfExtension), None, None, None, None, 0);
            JsonFileName(r) == Some(stem + JsonSuffix) && CsvFileName(r) == Some(stem + CsvSuffix)
  {
    var n := stem + PdfExtension;
    assert n[|stem|..|stem| + |PdfExtension|] == PdfExtension;
    assert OccursAt(n, PdfExtension, |stem|);
    assert n[..|stem|] == stem && n[|stem| + |PdfExtension|..] == "";
    assert stem + "" == stem;
  }

  /** Worked example: the usual case. */
  lemma FileNameExampleUsual()
    ensures JsonFileName(ExtractionResult(Some("form990.pdf"), None, None, None, None, 0)) == Some("form990_extracted.json")
    ensures CsvFileName(ExtractionResult(Some("form990.pdf"), None, None, None, None, 0)) == Some("form990_extracted.csv")
  {
    var n := "form990.pdf";
    assert OccursAt(n, PdfExtension, 7) by {
      assert n[7..11] == ".pdf";
    }
    forall j: nat | j < 7 ensures !OccursAt(n, PdfExtension, j) {
      assert n[j] != '.';
      assert n[j..j + 4][0] == n[j];
    }
    assert n[..7] + n[11..] == "form990" by {
      assert n[..7] == "form990" && n[11..] == "";
    }
    assert "form990" + JsonSuffix == "form990_extracted.json";
    assert "form990" + CsvSuffix == "form990_extracted.csv";
  }

  /** Worked example: the match is case-sensitive, so an upper-case extension
      stays. */
  lemma FileNameExampleUpperCase()
    ensures CsvFileName(ExtractionResult(Some("FORM.PDF"), None, None, None, None, 0)) == Some("FORM.PDF_extracted.csv")
  {
    var n := "FORM.PDF";
    forall j: nat ensures !OccursAt(n, PdfExtension, j) {
      if j < 4 {
        assert n[j] != '.';
        assert j + 4 <= |n| ==> n[j..j + 4][0] == n[j];
      } else if j == 4 {
        assert n[4..8][1] == 'P';
      }
    }
    assert n + CsvSuffix == "FORM.PDF_extracted.csv";
  }

  /** Worked example: only the first occurrence goes, so of a doubled
      extension the second one stays. */
  lemma FileNameExampleDoubled()
    ensures CsvFileName(ExtractionResult(Some("a.pdf.pdf"), None, None, None, None, 0)) == Some("a.pdf_extracted.csv")
  {
    var n := "a.pdf.pdf";
    assert OccursAt(n, PdfExtension, 1) by {
      assert n[1..5] == ".pdf";
    }
    assert !OccursAt(n, PdfExtension, 0) by {
      assert n[0..4][0] == 'a';
    }
    assert n[..1] + n[5..] == "a.pdf" by {
      assert n[..1] == "a" && n[5..] == ".pdf";
    }
    assert "a.pdf" + CsvSuffix == "a.pdf_extracted.csv";
  }
}
