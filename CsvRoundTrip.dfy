/** What decoding an export gives back. The encoder doubles inner quotes
    but the tokenizer never un-doubles them: it drops every quote character.
    So a value comes back trimmed and without its quotes, and a record whose
    name or url is then empty is dropped; clean records come back unchanged. */
module CsvRoundTrip {
  import opened Wrappers
  import opened Text
  import opened CsvLine
  import opened Records
  import opened CsvDecode
  import opened CsvEncode

  /** The escaped body of a quoted cell, read with the quote flag on,
      adds the value without its quotes to the current field. */
  lemma {:induction false} RunEscaped(st: Scan, v: string)
    requires st.inQuotes
    ensures Run(st, Escape(v)) == st.(current := st.current + RemoveQuotes(v))
    decreases |v|
  {
    if v != [] {
      var head := if v[0] == '"' then "\"\"" else [v[0]];
      var kept := if v[0] == '"' then [] else [v[0]];
      var st1 := st.(current := st.current + kept);
      assert Escape(v) == head + Escape(v[1..]);
      assert Run(st, head) == st1 by {
        RunEscapedChar(st, v[0]);
      }
      RunAppend(st, head, Escape(v[1..]));
      RunEscaped(st1, v[1..]);
      assert RemoveQuotes(v) == kept + RemoveQuotes(v[1..]);
      assert st.current + kept + RemoveQuotes(v[1..]) == st.current + RemoveQuotes(v);
    }
  }

  /** Inside quotes, a doubled quote adds nothing and any other character is kept. */
  lemma RunEscapedChar(st: Scan, c: char)
    requires st.inQuotes
    ensures c == '"' ==> Run(st, "\"\"") == st.(current := st.current + [])
    ensures c != '"' ==> Run(st, [c]) == st.(current := st.current + [c])
  {
    if c == '"' {
      assert "\"\"" == "\"" + "\"";
      RunAppend(st, "\"", "\"");
      RunOne(st, '"');
      RunOne(Step(st, '"'), '"');
      assert st.current + [] == st.current;
    } else {
      RunOne(st, c);
    }
  }

  /** One exported cell, read outside quotes, adds the value without its
      quotes to the current field and leaves the flag off. */
  lemma RunEncodedField(st: Scan, v: string)
    requires !st.inQuotes
    ensures Run(st, EncodeField(v)) == st.(current := st.current + RemoveQuotes(v))
  {
    if NeedsQuoting(v) {
      RunAppend(st, "\"" + Escape(v), "\"");
      RunAppend(st, "\"", Escape(v));
      RunOne(st, '"');
      var stq := st.(inQuotes := true);
      RunEscaped(stq, v);
      RunOne(stq.(current := st.current + RemoveQuotes(v)), '"');
    } else {
      RunPlain(st, v);
      RemoveQuotesOfQuoteFree(v);
    }
  }

  /** The fields the tokenizer reads back from an exported line of `values`. */
  function ReadBack(values: seq<string>): (fields: seq<string>)
    ensures |fields| == |values|
  {
    if values == [] then [] else [RemoveQuotes(values[0])] + ReadBack(values[1..])
  }

  lemma {:induction false} ReadBackAt(values: seq<string>, i: nat)
    requires i < |values|
    ensures ReadBack(values)[i] == RemoveQuotes(values[i])
  {
    if i > 0 {
      ReadBackAt(values[1..], i - 1);
    }
  }

  /** One exported cell followed by the separating comma completes one field. */
  lemma RunCellThenComma(st: Scan, v: string, tail: string)
    requires !st.inQuotes
    ensures Run(st, EncodeField(v) + [','] + tail)
            == Run(Scan(st.fields + [st.current + RemoveQuotes(v)], "", false), tail)
  {
    var e := EncodeField(v);
    var st1 := st.(current := st.current + RemoveQuotes(v));
    RunEncodedField(st, v);
    RunAppend(st, e, [',']);
    RunOne(st1, ',');
    RunAppend(st, e + [','], tail);
  }

  lemma {:induction false} RunJoinCells(st: Scan, values: seq<string>)
    requires !st.inQuotes && st.current == ""
    requires |values| >= 1
    ensures var fin := Run(st, Join(EncodeCells(values), ','));
      fin.fields + [fin.current] == st.fields + ReadBack(values) && !fin.inQuotes
    decreases |values|
  {
    if |values| == 1 {
      RunJoinSingle(st, values[0]);
      assert values == [values[0]];
    } else {
      var st2 := Scan(st.fields + [RemoveQuotes(values[0])], "", false);
      RunJoinHead(st, values);
      RunJoinCells(st2, values[1..]);
      assert ReadBack(values) == [RemoveQuotes(values[0])] + ReadBack(values[1..]);
    }
  }

  /** A line of one cell is read back as that one value. */
  lemma RunJoinSingle(st: Scan, v: string)
    requires !st.inQuotes && st.current == ""
    ensures var fin := Run(st, Join(EncodeCells([v]), ','));
      fin.fields + [fin.current] == st.fields + ReadBack([v]) && !fin.inQuotes
  {
    assert EncodeCells([v]) == [EncodeField(v)];
    RunEncodedField(st, v);
    assert st.current + RemoveQuotes(v) == RemoveQuotes(v);
    assert ReadBack([v]) == [RemoveQuotes(v)];
  }

  /** The first cell of a longer line and its comma complete the first field. */
  lemma RunJoinHead(st: Scan, values: seq<string>)
    requires !st.inQuotes && st.current == ""
    requires |values| >= 2
    ensures Run(st, Join(EncodeCells(values), ','))
            == Run(Scan(st.fields + [RemoveQuotes(values[0])], "", false), Join(EncodeCells(values[1..]), ','))
  {
    var e0 := EncodeField(values[0]);
    var rest := EncodeCells(values[1..]);
    assert EncodeCells(values) == [e0] + rest;
    JoinCons(e0, rest, ',');
    RunCellThenComma(st, values[0], Join(rest, ','));
    assert st.current + RemoveQuotes(values[0]) == RemoveQuotes(values[0]);
  }

  /** The tokenizer reads back from an exported line exactly the nine values
      without their quotes: commas inside quoted cells do not split. */
  lemma TokenizeEncodedRecord(r: Record)
    ensures Tokenize(EncodeRecord(r)) == ReadBack(FieldValues(r, ExportHeaders))
  {
    RunJoinCells(Start, FieldValues(r, ExportHeaders));
    assert [] + ReadBack(FieldValues(r, ExportHeaders)) == ReadBack(FieldValues(r, ExportHeaders));
  }

  /** The record the decoder builds from the line of `r`. */
  function Cleaned(r: Record): Record
  {
    CleanedOn(r, ExportHeaders)
  }

  /** `r` restricted to `keys`, each value stripped of quotes and trimmed; a missing field is empty. */
  function CleanedOn(r: Record, keys: seq<string>): Record
  {
    map k | k in keys :: Trim(RemoveQuotes(Field(r, k)))
  }

  /** Columns whose values depend on their header only build the map of those values. */
  lemma {:induction false} BuildRecordUniform(headers: seq<string>, values: seq<string>, m: Record)
    requires |headers| == |values|
    requires forall i :: 0 <= i < |headers| ==> headers[i] in m && Trim(values[i]) == m[headers[i]]
    ensures forall k :: k in BuildRecord(headers, values) ==> BuildRecord(headers, values)[k] == m[k]
    decreases |headers|
  {
    if headers != [] {
      var n := |headers| - 1;
      BuildRecordUniform(headers[..n], values[..n], m);
    }
  }

  lemma BuildReadBack(r: Record, keys: seq<string>)
    ensures BuildRecord(keys, ReadBack(FieldValues(r, keys))) == CleanedOn(r, keys)
  {
    var values := ReadBack(FieldValues(r, keys));
    var m := CleanedOn(r, keys);
    var b := BuildRecord(keys, values);
    assert forall i :: 0 <= i < |keys| ==> keys[i] in m && Trim(values[i]) == m[keys[i]] by {
      forall i | 0 <= i < |keys|
        ensures keys[i] in m && Trim(values[i]) == m[keys[i]]
      {
        ReadBackAt(FieldValues(r, keys), i);
        FieldValuesAt(r, keys, i);
      }
    }
    assert forall k :: k in b ==> b[k] == m[k] by {
      BuildRecordUniform(keys, values, m);
    }
    assert b == m by {
      assert m.Keys == set k | k in keys;
      SameMaps(b, m);
    }
  }

  lemma SameMaps(a: Record, b: Record)
    requires a.Keys == b.Keys
    requires forall k :: k in a ==> a[k] == b[k]
    ensures a == b
  {
  }

  /** The decoder's record for one exported line. */
  lemma RowOfEncoded(r: Record)
    ensures RowRecords(ExportHeaders, EncodeRecord(r)) == if Listed(Cleaned(r)) then [Cleaned(r)] else []
  {
    TokenizeEncodedRecord(r);
    BuildReadBack(r, ExportHeaders);
  }

  /** What the decoder returns for the export of `rs`: each record cleaned,
      in order, those with an empty name or url after cleaning dropped. */
  function CleanAll(rs: seq<Record>): seq<Record>
  {
    if rs == [] then []
    else (if Listed(Cleaned(rs[0])) then [Cleaned(rs[0])] else []) + CleanAll(rs[1..])
  }

  lemma {:induction false} DecodeRowsEncoded(rs: seq<Record>)
    ensures DecodeRows(ExportHeaders, EncodeRecords(rs)) == CleanAll(rs)
  {
    if rs != [] {
      RowOfEncoded(rs[0]);
      DecodeRowsEncoded(rs[1..]);
      assert EncodeRecords(rs)[1..] == EncodeRecords(rs[1..]);
    }
  }

  lemma {:induction false} KeepNonBlankAll(lines: seq<string>)
    requires forall i :: 0 <= i < |lines| ==> Trim(lines[i]) != ""
    ensures KeepNonBlank(lines) == lines
  {
    if lines != [] {
      KeepNonBlankAll(lines[1..]);
      assert [lines[0]] + lines[1..] == lines;
    }
  }

  lemma {:induction false} NormalizeLowerTrimmed(names: seq<string>)
    requires forall i :: 0 <= i < |names| ==> IsTrimmed(names[i]) && forall c :: c in names[i] ==> 'a' <= c <= 'z'
    ensures NormalizeHeaders(names) == names
  {
    if names != [] {
      NormalizeLowerTrimmed(names[1..]);
      TrimFacts(names[0]);
      LowerOfLowercase(names[0]);
      assert [names[0]] + names[1..] == names;
    }
  }

  /** A joined line of several cells holds a comma, so it is never blank. */
  lemma JoinedNotBlank(parts: seq<string>)
    requires |parts| >= 2
    ensures Trim(Join(parts, ',')) != ""
  {
    JoinHasSep(parts, ',');
    var s := Join(parts, ',');
    var i :| 0 <= i < |s| && s[i] == ',';
    TrimFacts(s);
  }

  /** Every line of an export is non-blank, so none is filtered out. */
  lemma ExportLinesKept(rs: seq<Record>)
    ensures KeepNonBlank([HeaderLine()] + EncodeRecords(rs)) == [HeaderLine()] + EncodeRecords(rs)
  {
    var records := EncodeRecords(rs);
    forall i | 0 <= i < |records| ensures Trim(records[i]) != "" {
      EncodeRecordsAt(rs, i);
      EncodeRecordNotBlank(rs[i]);
    }
    KeepNonBlankAll(records);
    HeaderLineNotBlank();
    assert ([HeaderLine()] + records)[1..] == records;
  }

  lemma HeaderLineNotBlank()
    ensures Trim(HeaderLine()) != ""
  {
    JoinedNotBlank(ExportHeaders);
  }

  lemma EncodeRecordNotBlank(r: Record)
    ensures Trim(EncodeRecord(r)) != ""
  {
    JoinedNotBlank(EncodeCells(FieldValues(r, ExportHeaders)));
  }

  /** The decoder reads the export header as the nine export names. */
  lemma ExportHeaderRead()
    ensures HeaderNames(HeaderLine()) == ExportHeaders
  {
    HeaderLineShape();
    ExportHeadersShape();
    NormalizeLowerTrimmed(ExportHeaders);
  }

  /** The export names include every required header. */
  lemma ExportHeadersComplete()
    ensures MissingRequired(ExportHeaders) == []
  {
    assert ExportHeaders[0] == "name" && ExportHeaders[1] == "url" && ExportHeaders[2] == "type";
  }

  /** Decoding an export: for records whose nine fields hold no line break,
      the decoder returns every record trimmed and stripped of quote
      characters, in order, minus those whose name or url became empty. */
  lemma DecodeEncode(rs: seq<Record>)
    requires rs != []
    requires forall i, k :: 0 <= i < |rs| && k in ExportHeaders ==> '\n' !in Field(rs[i], k)
    ensures Encode(rs).Some?
    ensures Decode(Encode(rs).value) == Ok(CleanAll(rs))
  {
    EncodeLines(rs);
    var text := Encode(rs).value;
    var records := EncodeRecords(rs);
    var lines := [HeaderLine()] + records;
    assert NonBlankLines(text) == lines by {
      ExportLinesKept(rs);
    }
    assert HeaderNames(lines[0]) == ExportHeaders by {
      ExportHeaderRead();
    }
    assert MissingRequired(ExportHeaders) == [] by {
      ExportHeadersComplete();
    }
    assert DecodeRows(ExportHeaders, lines[1..]) == CleanAll(rs) by {
      assert lines[1..] == records;
      DecodeRowsEncoded(rs);
    }
  }

  /** A record the export carries without loss: exactly the nine export
      fields, none holding a quote or a line break or surrounding
      whitespace, and a non-empty name and url. */
  ghost predicate Clean(r: Record)
  {
    && (forall k :: k in r <==> k in ExportHeaders)
    && (forall k :: k in r ==> '"' !in r[k] && '\n' !in r[k] && IsTrimmed(r[k]))
    && Listed(r)
  }

  lemma CleanedClean(r: Record)
    requires Clean(r)
    ensures Cleaned(r) == r
  {
    CleanedOnSame(r, ExportHeaders);
  }

  /** Cleaning changes nothing in a record whose keys are `keys` and whose
      values are trimmed and quote-free. */
  lemma CleanedOnSame(r: Record, keys: seq<string>)
    requires forall k :: k in r <==> k in keys
    requires forall k :: k in r ==> '"' !in r[k] && IsTrimmed(r[k])
    ensures CleanedOn(r, keys) == r
  {
    var c := CleanedOn(r, keys);
    forall k | k in r ensures c[k] == r[k] {
      RemoveQuotesOfQuoteFree(r[k]);
      TrimFacts(r[k]);
    }
    assert c.Keys == r.Keys;
  }

  lemma {:induction false} CleanAllClean(rs: seq<Record>)
    requires forall i :: 0 <= i < |rs| ==> Clean(rs[i])
    ensures CleanAll(rs) == rs
  {
    if rs != [] {
      CleanedClean(rs[0]);
      CleanAllClean(rs[1..]);
      assert [rs[0]] + rs[1..] == rs;
    }
  }

  /** The round trip: a non-empty list of clean records decodes from its
      export to the same records in the same order. */
  lemma RoundTrip(rs: seq<Record>)
    requires rs != []
    requires forall i :: 0 <= i < |rs| ==> Clean(rs[i])
    ensures Decode(Encode(rs).value) == Ok(rs)
  {
    forall i, k | 0 <= i < |rs| && k in ExportHeaders ensures '\n' !in Field(rs[i], k) {
    }
    DecodeEncode(rs);
    CleanAllClean(rs);
  }

  /** The divergence from RFC 4180: a value holding a quote is exported
      with the quote doubled inside a quoted cell ... */
  lemma DoubledQuoteExported()
    ensures EncodeField("a\"b") == "\"a\"\"b\""
  {
    assert NeedsQuoting("a\"b") by { assert "a\"b"[1] == '"'; }
    assert Escape("b") == "b";
    assert Escape("\"b") == "\"\"b";
    assert Escape("a\"b") == "a\"\"b";
  }

  /** ... but that cell is read back as one field with no quote at all. */
  lemma DoubledQuoteDropped()
    ensures Tokenize("\"a\"\"b\"") == ["ab"]
  {
    DoubledQuoteExported();
    RunEncodedField(Start, "a\"b");
    assert RemoveQuotes("b") == "b";
    assert RemoveQuotes("\"b") == "b";
    assert RemoveQuotes("a\"b") == "ab";
    assert Run(Start, "\"a\"\"b\"") == Scan([], "ab", false);
  }
}
