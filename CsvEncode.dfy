/** The CSV encoder: the text `downloadCSV` hands to the browser's download
    machinery. A fixed nine-column header, then one line per record; a value
    holding a comma or a quote is wrapped in quotes with its inner quotes
    doubled (RFC 4180, section 2, rules 6 and 7); a missing field is empty;
    nothing is exported for an empty store. */
module CsvEncode {
  import opened Wrappers
  import opened Text
  import opened Records

  const ExportHeaders: seq<string> :=
    ["name", "url", "type", "amenities", "description", "price", "location", "latitude", "longitude"]

  /** `value.replace(/"/g, '""')` */
  function Escape(v: string): string
  {
    if v == [] then [] else (if v[0] == '"' then "\"\"" else [v[0]]) + Escape(v[1..])
  }

  predicate NeedsQuoting(v: string)
  {
    ',' in v || '"' in v
  }

  /** One exported cell. */
  function EncodeField(v: string): string
  {
    if NeedsQuoting(v) then "\"" + Escape(v) + "\"" else v
  }

  /** `keys.map(header => property[header] || '')` */
  function FieldValues(r: Record, keys: seq<string>): (values: seq<string>)
    ensures |values| == |keys|
  {
    if keys == [] then [] else [Field(r, keys[0])] + FieldValues(r, keys[1..])
  }

  /** The cells of a line, one per value. */
  function EncodeCells(values: seq<string>): (cells: seq<string>)
    ensures |cells| == |values|
  {
    if values == [] then [] else [EncodeField(values[0])] + EncodeCells(values[1..])
  }

  /** One exported line: the record's export fields in the fixed order. */
  function EncodeRecord(r: Record): string
  {
    Join(EncodeCells(FieldValues(r, ExportHeaders)), ',')
  }

  function EncodeRecords(rs: seq<Record>): (lines: seq<string>)
    ensures |lines| == |rs|
  {
    if rs == [] then [] else [EncodeRecord(rs[0])] + EncodeRecords(rs[1..])
  }

  function HeaderLine(): string
  {
    Join(ExportHeaders, ',')
  }

  /** The CSV text of `downloadCSV`, or nothing when there are no records. */
  function Encode(rs: seq<Record>): Option<string>
  {
    if rs == [] then None
    else Some(Join([HeaderLine()] + EncodeRecords(rs), '\n'))
  }

  /** How an RFC 4180 reader turns the inside of a quoted field back into
      text: a doubled quote stands for one quote, and a quote that is not
      doubled makes the field malformed. */
  function Unescape(s: string): Option<string>
  {
    if s == [] then Some([])
    else if s[0] == '"' then
      if |s| >= 2 && s[1] == '"' then
        var rest := Unescape(s[2..]);
        if rest.None? then None else Some("\"" + rest.value)
      else None
    else
      var rest := Unescape(s[1..]);
      if rest.None? then None else Some([s[0]] + rest.value)
  }

  /** The escaped value is a well-formed quoted body that reads back as the value. */
  lemma {:induction false} UnescapeEscape(v: string)
    ensures Unescape(Escape(v)) == Some(v)
  {
    if v != [] {
      UnescapeEscape(v[1..]);
      var rest := Escape(v[1..]);
      if v[0] == '"' {
        assert ("\"\"" + rest)[2..] == rest;
      } else {
        assert ([v[0]] + rest)[1..] == rest;
      }
      assert [v[0]] + v[1..] == v;
    }
  }

  /** The escape is the only body that reads back as the value: every quote
      of the value is doubled and no other character is changed. */
  lemma {:induction false} UnescapeOnlyEscape(s: string, v: string)
    requires Unescape(s) == Some(v)
    ensures s == Escape(v)
  {
    if s != [] {
      if s[0] == '"' {
        var rest := Unescape(s[2..]).value;
        UnescapeOnlyEscape(s[2..], rest);
        assert v == "\"" + rest && v[1..] == rest;
        assert s == "\"\"" + s[2..];
      } else {
        var rest := Unescape(s[1..]).value;
        UnescapeOnlyEscape(s[1..], rest);
        assert v == [s[0]] + rest && v[1..] == rest;
        assert s == [s[0]] + s[1..];
      }
    }
  }

  /** A cell is wrapped in quotes exactly when its value holds a comma or a
      quote; the inside of a quoted cell is the one RFC 4180 body that reads
      back as the value, and an unquoted cell is the value itself. */
  lemma EncodeFieldQuoting(v: string)
    ensures var e := EncodeField(v);
      && (|e| >= 2 && e[0] == '"' && e[|e| - 1] == '"' <==> NeedsQuoting(v))
      && (NeedsQuoting(v) ==> Unescape(e[1..|e| - 1]) == Some(v))
      && (NeedsQuoting(v) ==> forall s :: Unescape(s) == Some(v) ==> s == e[1..|e| - 1])
      && (!NeedsQuoting(v) ==> e == v)
  {
    var e := EncodeField(v);
    if NeedsQuoting(v) {
      UnescapeEscape(v);
      assert e[1..|e| - 1] == Escape(v);
      forall s | Unescape(s) == Some(v) ensures s == e[1..|e| - 1] {
        UnescapeOnlyEscape(s, v);
      }
    } else if |e| >= 1 {
      assert e[0] in v;
    }
  }

  lemma {:induction false} FieldValuesAt(r: Record, keys: seq<string>, i: nat)
    requires i < |keys|
    ensures FieldValues(r, keys)[i] == Field(r, keys[i])
  {
    if i > 0 {
      FieldValuesAt(r, keys[1..], i - 1);
    }
  }

  lemma {:induction false} EncodeCellsAt(values: seq<string>, i: nat)
    requires i < |values|
    ensures EncodeCells(values)[i] == EncodeField(values[i])
  {
    if i > 0 {
      EncodeCellsAt(values[1..], i - 1);
    }
  }

  /** A field the record lacks is exported as an empty cell. */
  lemma MissingFieldIsEmpty(r: Record, i: nat)
    requires i < |ExportHeaders| && ExportHeaders[i] !in r
    ensures EncodeCells(FieldValues(r, ExportHeaders))[i] == ""
  {
    FieldValuesAt(r, ExportHeaders, i);
    EncodeCellsAt(FieldValues(r, ExportHeaders), i);
  }

  lemma {:induction false} EscapeAvoids(v: string, c: char)
    requires c != '"' && c !in v
    ensures c !in Escape(v)
  {
    if v != [] {
      EscapeAvoids(v[1..], c);
    }
  }

  lemma EncodeRecordAvoids(r: Record, c: char)
    requires c != '"' && c != ','
    requires forall k :: k in ExportHeaders ==> c !in Field(r, k)
    ensures c !in EncodeRecord(r)
  {
    var values := FieldValues(r, ExportHeaders);
    var cells := EncodeCells(values);
    forall i | 0 <= i < |cells| ensures c !in cells[i] {
      FieldValuesAt(r, ExportHeaders, i);
      EncodeCellsAt(values, i);
      EscapeAvoids(values[i], c);
    }
    JoinAvoids(cells, ',', c);
  }

  /** The export header names are plain lower-case words. */
  lemma ExportHeadersShape()
    ensures forall i :: 0 <= i < |ExportHeaders| ==>
              && ',' !in ExportHeaders[i] && '\n' !in ExportHeaders[i]
              && ExportHeaders[i] != [] && IsTrimmed(ExportHeaders[i])
              && forall c :: c in ExportHeaders[i] ==> 'a' <= c <= 'z'
  {
    forall i | 0 <= i < |ExportHeaders| ensures PlainWord(ExportHeaders[i]) {
      ExportHeadersPlain(i);
    }
    forall i | 0 <= i < |ExportHeaders| {
      PlainWordShape(ExportHeaders[i]);
    }
  }

  /** A non-empty word of lower-case ASCII letters. */
  predicate PlainWord(w: string)
  {
    w != [] && forall i :: 0 <= i < |w| ==> 'a' <= w[i] <= 'z'
  }

  lemma ExportHeadersPlain(i: nat)
    requires i < |ExportHeaders|
    ensures PlainWord(ExportHeaders[i])
  {
  }

  lemma PlainWordShape(w: string)
    requires PlainWord(w)
    ensures ',' !in w && '\n' !in w && IsTrimmed(w)
    ensures forall c :: c in w ==> 'a' <= c <= 'z'
  {
  }

  lemma HeaderLineShape()
    ensures '\n' !in HeaderLine()
    ensures Split(HeaderLine(), ',') == ExportHeaders
  {
    ExportHeadersShape();
    JoinAvoids(ExportHeaders, ',', '\n');
    SplitJoin(ExportHeaders, ',');
  }

  lemma {:induction false} EncodeRecordsAt(rs: seq<Record>, i: nat)
    requires i < |rs|
    ensures EncodeRecords(rs)[i] == EncodeRecord(rs[i])
  {
    if i > 0 {
      EncodeRecordsAt(rs[1..], i - 1);
    }
  }

  /** Values without line breaks give one line per record after the header,
      and nothing is exported for an empty store. */
  lemma EncodeLines(rs: seq<Record>)
    requires forall i, k :: 0 <= i < |rs| && k in ExportHeaders ==> '\n' !in Field(rs[i], k)
    ensures Encode(rs).None? <==> rs == []
    ensures rs != [] ==> Split(Encode(rs).value, '\n') == [HeaderLine()] + EncodeRecords(rs)
  {
    if rs != [] {
      RecordLinesAvoid(rs, '\n');
      HeaderLineNoBreak();
      SplitLines(HeaderLine(), EncodeRecords(rs));
    }
  }

  lemma HeaderLineNoBreak()
    ensures '\n' !in HeaderLine()
  {
    HeaderLineShape();
  }

  /** Lines without line breaks, joined, split back into themselves. */
  lemma SplitLines(header: string, records: seq<string>)
    requires '\n' !in header
    requires forall i :: 0 <= i < |records| ==> '\n' !in records[i]
    ensures Split(Join([header] + records, '\n'), '\n') == [header] + records
  {
    var lines := [header] + records;
    forall i | 0 <= i < |lines| ensures '\n' !in lines[i] {
      if i > 0 {
        assert lines[i] == records[i - 1];
      }
    }
    SplitJoin(lines, '\n');
  }

  /** No exported record line holds `c` when no field does. */
  lemma RecordLinesAvoid(rs: seq<Record>, c: char)
    requires c != '"' && c != ','
    requires forall i, k :: 0 <= i < |rs| && k in ExportHeaders ==> c !in Field(rs[i], k)
    ensures forall i :: 0 <= i < |EncodeRecords(rs)| ==> c !in EncodeRecords(rs)[i]
  {
    forall i | 0 <= i < |EncodeRecords(rs)| ensures c !in EncodeRecords(rs)[i] {
      EncodeRecordsAt(rs, i);
      EncodeRecordAvoids(rs[i], c);
    }
  }
}
