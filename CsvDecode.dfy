/** The CSV decoder (`parseCSV`): non-blank lines, a trimmed and lower-cased
    header that must name `name`, `url` and `type`, then one record per data
    row whose field count matches the header and whose name and url are
    non-empty after trimming. */
module CsvDecode {
  import opened Wrappers
  import opened Text
  import opened Seqs
  import opened CsvLine
  import opened Records

  datatype ParseError =
    | TooFewLines                          // fewer than a header and one data row
    | MissingHeaders(missing: seq<string>) // required headers absent, in the order name, url, type

  const RequiredHeaders: seq<string> := ["name", "url", "type"]

  /** `lines.filter(line => line.trim())` */
  function KeepNonBlank(lines: seq<string>): (kept: seq<string>)
    ensures |kept| <= |lines|
    ensures forall i :: 0 <= i < |kept| ==> Trim(kept[i]) != ""
  {
    if lines == [] then []
    else (if Trim(lines[0]) != "" then [lines[0]] else []) + KeepNonBlank(lines[1..])
  }

  /** Filtering splits over concatenation: lines are kept or dropped one by
      one, independently of their neighbours. */
  lemma {:induction false} KeepNonBlankAppend(a: seq<string>, b: seq<string>)
    ensures KeepNonBlank(a + b) == KeepNonBlank(a) + KeepNonBlank(b)
  {
    if a == [] {
      assert a + b == b;
    } else {
      var head := if Trim(a[0]) != "" then [a[0]] else [];
      KeepNonBlankAppend(a[1..], b);
      assert (a + b)[0] == a[0];
      assert (a + b)[1..] == a[1..] + b;
      assert KeepNonBlank(a + b) == head + KeepNonBlank(a[1..] + b);
      assert KeepNonBlank(a) == head + KeepNonBlank(a[1..]);
    }
  }

  /** Every non-blank line is kept and nothing else, in the original order. */
  lemma {:induction false} KeepNonBlankKeeps(lines: seq<string>)
    ensures IsSubseq(KeepNonBlank(lines), lines)
    ensures forall l :: l in KeepNonBlank(lines) <==> l in lines && Trim(l) != ""
  {
    if lines != [] {
      var rest := KeepNonBlank(lines[1..]);
      KeepNonBlankKeeps(lines[1..]);
      if Trim(lines[0]) != "" {
        assert KeepNonBlank(lines) == [lines[0]] + rest;
        assert ([lines[0]] + rest)[1..] == rest;
      } else {
        assert KeepNonBlank(lines) == rest;
        SubseqOfTail(rest, lines);
      }
      assert lines == [lines[0]] + lines[1..];
    }
  }

  /** `text.split('\n').filter(line => line.trim())` */
  function NonBlankLines(text: string): seq<string>
  {
    KeepNonBlank(Split(text, '\n'))
  }

  /** `names.map(h => h.trim().toLowerCase())` */
  function NormalizeHeaders(names: seq<string>): (headers: seq<string>)
    ensures |headers| == |names|
  {
    if names == [] then [] else [Lower(Trim(names[0]))] + NormalizeHeaders(names[1..])
  }

  /** `lines[0].split(',').map(h => h.trim().toLowerCase())`: no quote handling. */
  function HeaderNames(line: string): seq<string>
  {
    NormalizeHeaders(Split(line, ','))
  }

  /** `requiredHeaders.filter(header => !headers.includes(header))` */
  function MissingRequired(headers: seq<string>): seq<string>
  {
    MissingFrom(RequiredHeaders, headers)
  }

  function MissingFrom(required: seq<string>, headers: seq<string>): seq<string>
  {
    if required == [] then []
    else (if required[0] in headers then [] else [required[0]]) + MissingFrom(required[1..], headers)
  }

  /** The object built by `headers.forEach((h, i) => property[h] = values[i].trim())`:
      a header that occurs twice keeps the value of its last column. */
  function BuildRecord(headers: seq<string>, values: seq<string>): (r: Record)
    requires |headers| == |values|
    ensures r.Keys == set h | h in headers
    decreases |headers|
  {
    if headers == [] then map[]
    else
      var n := |headers| - 1;
      BuildRecord(headers[..n], values[..n])[headers[n] := Trim(values[n])]
  }

  /** Every value of a built record is the trimmed text of one of its columns. */
  lemma {:induction false} BuildRecordValues(headers: seq<string>, values: seq<string>, k: string)
    requires |headers| == |values|
    requires k in BuildRecord(headers, values)
    ensures exists i :: 0 <= i < |values| && BuildRecord(headers, values)[k] == Trim(values[i])
    decreases |headers|
  {
    var n := |headers| - 1;
    if k != headers[n] {
      BuildRecordValues(headers[..n], values[..n], k);
      var i :| 0 <= i < n && BuildRecord(headers[..n], values[..n])[k] == Trim(values[..n][i]);
      assert values[..n][i] == values[i];
    }
  }

  /** A header that occurs for the last time in column `i` takes that column's trimmed text. */
  lemma {:induction false} BuildRecordLastWins(headers: seq<string>, values: seq<string>, i: nat)
    requires |headers| == |values| && i < |headers|
    requires forall j :: i < j < |headers| ==> headers[j] != headers[i]
    ensures BuildRecord(headers, values)[headers[i]] == Trim(values[i])
    decreases |headers|
  {
    var n := |headers| - 1;
    if i < n {
      var h := headers[..n];
      assert forall j :: i < j < |h| ==> h[j] == headers[j];
      BuildRecordLastWins(h, values[..n], i);
      assert headers[n] != headers[i] && h[i] == headers[i] && values[..n][i] == values[i];
    }
  }

  /** The record a data row contributes: none when the row's field count
      differs from the header's, or when its name or url is empty. */
  function RowRecords(headers: seq<string>, row: string): seq<Record>
  {
    var values := Tokenize(row);
    if |values| != |headers| then []
    else
      var property := BuildRecord(headers, values);
      if Listed(property) then [property] else []
  }

  function DecodeRows(headers: seq<string>, rows: seq<string>): seq<Record>
  {
    if rows == [] then [] else RowRecords(headers, rows[0]) + DecodeRows(headers, rows[1..])
  }

  /** The value `parseCSV` returns, or the error it throws. */
  function Decode(text: string): Result<seq<Record>, ParseError>
  {
    var lines := NonBlankLines(text);
    if |lines| < 2 then Err(TooFewLines)
    else
      var headers := HeaderNames(lines[0]);
      var missing := MissingRequired(headers);
      if |missing| > 0 then Err(MissingHeaders(missing))
      else Ok(DecodeRows(headers, lines[1..]))
  }

  /** `parseCSV`: the structural checks, then the row loop. */
  method ParseCSV(text: string) returns (res: Result<seq<Record>, ParseError>)
    ensures res == Decode(text)
  {
    var lines := NonBlankLines(text);
    if |lines| < 2 {
      return Err(TooFewLines);
    }
    var headers := HeaderNames(lines[0]);
    var missing := MissingRequired(headers);
    if |missing| > 0 {
      return Err(MissingHeaders(missing));
    }
    var properties := ParseDataRows(headers, lines);
    return Ok(properties);
  }

  /** The loop of `parseCSV` over `lines[1..]`: tokenize each row, skip it on a
      field-count mismatch, build its record, and push the record when its
      name and url are non-empty. */
  method ParseDataRows(headers: seq<string>, lines: seq<string>) returns (properties: seq<Record>)
    requires |lines| >= 1
    ensures properties == DecodeRows(headers, lines[1..])
  {
    properties := [];
    for i := 1 to |lines|
      invariant properties == DecodeRows(headers, lines[1..i])
    {
      DecodeRowsSnoc(headers, lines, i);
      var values := ParseCSVLine(lines[i]);
      if |values| != |headers| {
        assert RowRecords(headers, lines[i]) == [];
        continue;
      }
      var property := BuildProperty(headers, values);
      if Field(property, "name") != "" && Field(property, "url") != "" {
        assert RowRecords(headers, lines[i]) == [property];
        properties := properties + [property];
      } else {
        assert RowRecords(headers, lines[i]) == [];
      }
    }
    assert lines[1..] == lines[1..|lines|];
  }

  /** The `headers.forEach` callback loop that fills one record. */
  method BuildProperty(headers: seq<string>, values: seq<string>) returns (property: Record)
    requires |headers| == |values|
    ensures property == BuildRecord(headers, values)
  {
    property := map[];
    for j := 0 to |headers|
      invariant property == BuildRecord(headers[..j], values[..j])
    {
      assert headers[..j + 1][..j] == headers[..j];
      assert values[..j + 1][..j] == values[..j];
      property := property[headers[j] := Trim(values[j])];
    }
    assert headers[..|headers|] == headers && values[..|values|] == values;
  }

  lemma DecodeRowsSnoc(headers: seq<string>, lines: seq<string>, i: nat)
    requires 1 <= i < |lines|
    ensures DecodeRows(headers, lines[1..i + 1]) == DecodeRows(headers, lines[1..i]) + RowRecords(headers, lines[i])
  {
    assert lines[1..i + 1] == lines[1..i] + [lines[i]];
    DecodeRowsAppend(headers, lines[1..i], [lines[i]]);
    assert DecodeRows(headers, [lines[i]]) == RowRecords(headers, lines[i]) + DecodeRows(headers, []);
  }

  /** Rows are decoded independently and in order. */
  lemma {:induction false} DecodeRowsAppend(headers: seq<string>, a: seq<string>, b: seq<string>)
    ensures DecodeRows(headers, a + b) == DecodeRows(headers, a) + DecodeRows(headers, b)
  {
    if a == [] {
      assert a + b == b;
    } else {
      assert (a + b)[0] == a[0];
      assert (a + b)[1..] == a[1..] + b;
      DecodeRowsAppend(headers, a[1..], b);
    }
  }

  /** The record of every data row whose field count matches the header,
      before the name/url check. */
  function WidthMatched(headers: seq<string>, rows: seq<string>): seq<Record>
  {
    if rows == [] then []
    else
      var values := Tokenize(rows[0]);
      (if |values| == |headers| then [BuildRecord(headers, values)] else []) + WidthMatched(headers, rows[1..])
  }

  /** The decoded records are, in order, the right-width rows' records that
      have a name and a url: a subsequence kept by exactly that test. */
  lemma {:induction false} DecodeRowsSubseq(headers: seq<string>, rows: seq<string>)
    ensures IsSubseq(DecodeRows(headers, rows), WidthMatched(headers, rows))
    ensures forall r :: r in DecodeRows(headers, rows) <==> r in WidthMatched(headers, rows) && Listed(r)
  {
    if rows != [] {
      var out := DecodeRows(headers, rows[1..]);
      var all := WidthMatched(headers, rows[1..]);
      DecodeRowsSubseq(headers, rows[1..]);
      var values := Tokenize(rows[0]);
      if |values| != |headers| {
        assert DecodeRows(headers, rows) == out;
        assert WidthMatched(headers, rows) == all;
      } else {
        var r0 := BuildRecord(headers, values);
        assert WidthMatched(headers, rows) == [r0] + all;
        assert ([r0] + all)[1..] == all;
        if Listed(r0) {
          assert DecodeRows(headers, rows) == [r0] + out;
          assert ([r0] + out)[1..] == out;
        } else {
          assert DecodeRows(headers, rows) == out;
          SubseqOfTail(out, [r0] + all);
        }
      }
    }
  }

  /** A data row whose field count differs from the header's is dropped
      without affecting the other rows or raising an error. */
  lemma SkipWrongWidth(headers: seq<string>, before: seq<string>, row: string, after: seq<string>)
    requires |Tokenize(row)| != |headers|
    ensures DecodeRows(headers, before + [row] + after) == DecodeRows(headers, before + after)
  {
    assert DecodeRows(headers, [row]) == [] by {
      assert RowRecords(headers, row) == [];
      assert [row][1..] == [];
    }
    DecodeRowsAppend(headers, before + [row], after);
    DecodeRowsAppend(headers, before, [row]);
    DecodeRowsAppend(headers, before, after);
    assert DecodeRows(headers, before + [row]) == DecodeRows(headers, before);
  }

  /** A data row gives at most one record, and gives one exactly when it has
      one unquoted comma fewer than the header has names and the record
      built from it has a name and a url. */
  lemma RowKeptIff(headers: seq<string>, row: string)
    ensures |Tokenize(row)| == UnquotedCommas(row) + 1
    ensures |RowRecords(headers, row)| <= 1
    ensures |RowRecords(headers, row)| == 1 <==>
              UnquotedCommas(row) + 1 == |headers| && Listed(BuildRecord(headers, Tokenize(row)))
  {
    TokenizeShape(row);
  }

  /** Every decoded record is listed, has exactly the header names as keys,
      and holds trimmed, quote-free values. */
  lemma {:induction false} DecodedRecordsWellFormed(headers: seq<string>, rows: seq<string>)
    ensures |DecodeRows(headers, rows)| <= |rows|
    ensures forall i :: 0 <= i < |DecodeRows(headers, rows)| ==> WellFormed(headers, DecodeRows(headers, rows)[i])
  {
    if rows != [] {
      var head := RowRecords(headers, rows[0]);
      var rest := DecodeRows(headers, rows[1..]);
      DecodedRecordsWellFormed(headers, rows[1..]);
      RowWellFormed(headers, rows[0]);
      assert DecodeRows(headers, rows) == head + rest;
      forall i | 0 <= i < |head + rest| ensures WellFormed(headers, (head + rest)[i]) {
        if i >= |head| {
          assert (head + rest)[i] == rest[i - |head|];
        }
      }
    }
  }

  /** The record a row contributes, if any, is well formed. */
  lemma RowWellFormed(headers: seq<string>, row: string)
    ensures |RowRecords(headers, row)| <= 1
    ensures forall i :: 0 <= i < |RowRecords(headers, row)| ==> WellFormed(headers, RowRecords(headers, row)[i])
  {
    var values := Tokenize(row);
    if |values| == |headers| {
      TokenizeShape(row);
      BuiltValuesClean(headers, values);
    }
  }

  /** Built from quote-free columns, a record holds trimmed, quote-free values. */
  lemma BuiltValuesClean(headers: seq<string>, values: seq<string>)
    requires |headers| == |values|
    requires forall i :: 0 <= i < |values| ==> '"' !in values[i]
    ensures forall k :: k in BuildRecord(headers, values) ==>
              IsTrimmed(BuildRecord(headers, values)[k]) && '"' !in BuildRecord(headers, values)[k]
  {
    var r := BuildRecord(headers, values);
    forall k | k in r ensures IsTrimmed(r[k]) && '"' !in r[k] {
      BuildRecordValues(headers, values, k);
      var i :| 0 <= i < |values| && r[k] == Trim(values[i]);
      TrimFacts(values[i]);
    }
  }

  /** What holds of every record the decoder returns. */
  ghost predicate WellFormed(headers: seq<string>, r: Record)
  {
    && Listed(r)
    && (forall k :: k in r <==> k in headers)
    && (forall k :: k in r ==> IsTrimmed(r[k]) && '"' !in r[k])
  }

  /** The missing-header list names exactly the required headers absent from the header row. */
  lemma MissingRequiredIff(headers: seq<string>)
    ensures forall h :: h in MissingRequired(headers) <==> h in RequiredHeaders && h !in headers
  {
    forall h ensures h in MissingRequired(headers) <==> h in RequiredHeaders && h !in headers {
      MissingFromIff(RequiredHeaders, headers, h);
    }
  }

  lemma {:induction false} MissingFromIff(required: seq<string>, headers: seq<string>, h: string)
    ensures h in MissingFrom(required, headers) <==> h in required && h !in headers
  {
    if required != [] {
      MissingFromIff(required[1..], headers, h);
      assert required == [required[0]] + required[1..];
    }
  }

  /** `parseCSV` throws exactly on too few non-blank lines or a missing
      required header, naming every missing one. */
  lemma DecodeFailsIff(text: string)
    ensures |NonBlankLines(text)| < 2 ==> Decode(text) == Err(TooFewLines)
    ensures |NonBlankLines(text)| >= 2 ==>
              (Decode(text).Err? <==> exists h :: h in RequiredHeaders && h !in HeaderNames(NonBlankLines(text)[0]))
    ensures Decode(text).Err? && Decode(text).error.MissingHeaders? ==>
              forall h :: h in Decode(text).error.missing <==>
                          h in RequiredHeaders && h !in HeaderNames(NonBlankLines(text)[0])
  {
    var lines := NonBlankLines(text);
    if |lines| >= 2 {
      var headers := HeaderNames(lines[0]);
      MissingRequiredIff(headers);
      var missing := MissingRequired(headers);
      assert Decode(text) == if |missing| > 0 then Err(MissingHeaders(missing)) else Ok(DecodeRows(headers, lines[1..]));
      if missing != [] {
        assert missing[0] in missing;
      }
    }
  }

  /** A successful decode returns the well-formed records of the data rows. */
  lemma DecodeOk(text: string)
    requires Decode(text).Ok?
    ensures forall i :: 0 <= i < |Decode(text).value| ==> Listed(Decode(text).value[i])
    ensures |Decode(text).value| < |NonBlankLines(text)|
  {
    var lines := NonBlankLines(text);
    DecodedRecordsWellFormed(HeaderNames(lines[0]), lines[1..]);
  }
}
