/** The quote-aware comma splitter for one CSV data row (`parseCSVLine`).
    A flag flips on every `"`; a comma splits only while the flag is off;
    every other character is copied to the current field. Quote characters
    are dropped, and a doubled `""` is never turned back into one `"`. */
module CsvLine {
  import opened Text
  import opened Seqs

  /** The tokenizer between two characters: the finished fields, the field
      being read, and whether the quote flag is on. */
  datatype Scan = Scan(fields: seq<string>, current: string, inQuotes: bool)

  const Start: Scan := Scan([], "", false)

  /** What one character does to the tokenizer. */
  function Step(st: Scan, c: char): Scan
  {
    if c == '"' then st.(inQuotes := !st.inQuotes)
    else if c == ',' && !st.inQuotes then Scan(st.fields + [st.current], "", false)
    else st.(current := st.current + [c])
  }

  /** The tokenizer after reading `s` from state `st`. */
  function Run(st: Scan, s: string): Scan
    decreases |s|
  {
    if s == [] then st else Step(Run(st, s[..|s| - 1]), s[|s| - 1])
  }

  /** The fields of a row: the finished fields plus the one still open at the end. */
  function Tokenize(line: string): seq<string>
  {
    var st := Run(Start, line);
    st.fields + [st.current]
  }

  /** `parseCSVLine`: one pass over the row, updating `current`, `inQuotes` and `result`. */
  method ParseCSVLine(line: string) returns (result: seq<string>)
    ensures result == Tokenize(line)
  {
    result := [];
    var current := "";
    var inQuotes := false;
    for i := 0 to |line|
      invariant Run(Start, line[..i]) == Scan(result, current, inQuotes)
    {
      var ch := line[i];
      assert line[..i + 1][..i] == line[..i];
      if ch == '"' {
        inQuotes := !inQuotes;
      } else if ch == ',' && !inQuotes {
        result := result + [current];
        current := "";
      } else {
        current := current + [ch];
      }
    }
    assert line[..|line|] == line;
    result := result + [current];
  }

  /** An odd number of quote characters has been read: the flag is on. */
  predicate OddQuotes(s: string)
  {
    Count(s, '"') % 2 == 1
  }

  /** Commas of `s` preceded by an even number of quotes: the ones that split. */
  function UnquotedCommas(s: string): nat
    decreases |s|
  {
    if s == [] then 0
    else
      var init, c := s[..|s| - 1], s[|s| - 1];
      UnquotedCommas(init) + (if c == ',' && !OddQuotes(init) then 1 else 0)
  }

  /** `s` with every quote character and every splitting comma deleted. */
  function Stripped(s: string): string
    decreases |s|
  {
    if s == [] then []
    else
      var init, c := s[..|s| - 1], s[|s| - 1];
      Stripped(init) + (if c == '"' || (c == ',' && !OddQuotes(init)) then [] else [c])
  }

  /** `s` with its quote characters deleted. */
  function RemoveQuotes(s: string): (r: string)
    ensures '"' !in r
  {
    if s == [] then []
    else (if s[0] == '"' then [] else [s[0]]) + RemoveQuotes(s[1..])
  }

  lemma {:induction false} RemoveQuotesOfQuoteFree(s: string)
    requires '"' !in s
    ensures RemoveQuotes(s) == s
  {
    if s != [] {
      RemoveQuotesOfQuoteFree(s[1..]);
      assert [s[0]] + s[1..] == s;
    }
  }

  /** What the tokenizer state says about the text read so far. */
  ghost predicate Summarizes(st: Scan, s: string)
  {
    && st.inQuotes == OddQuotes(s)
    && |st.fields| == UnquotedCommas(s)
    && Flatten(st.fields) + st.current == Stripped(s)
    && '"' !in st.current
    && (forall i :: 0 <= i < |st.fields| ==> '"' !in st.fields[i])
  }

  lemma {:induction false} RunFromStart(s: string)
    ensures Summarizes(Run(Start, s), s)
    decreases |s|
  {
    if s != [] {
      var init, c := s[..|s| - 1], s[|s| - 1];
      RunFromStart(init);
      assert s == init + [c];
      StepSummarizes(Run(Start, init), init, c);
    }
  }

  /** One step of the tokenizer keeps the summary of the text read. */
  lemma StepSummarizes(st: Scan, init: string, c: char)
    requires Summarizes(st, init)
    ensures Summarizes(Step(st, c), init + [c])
  {
    var s := init + [c];
    var st2 := Step(st, c);
    assert s[..|s| - 1] == init && s[|s| - 1] == c;
    assert Count(s, '"') == Count(init, '"') + (if c == '"' then 1 else 0) by {
      assert multiset(s) == multiset(init) + multiset([c]);
    }
    if c == '"' {
      assert st2 == st.(inQuotes := !st.inQuotes);
    } else if c == ',' && !st.inQuotes {
      assert st2 == Scan(st.fields + [st.current], "", false);
      FlattenSnoc(st.fields, st.current);
      assert Stripped(s) == Stripped(init);
      assert forall i :: 0 <= i < |st2.fields| ==> st2.fields[i] == (st.fields + [st.current])[i];
    } else {
      assert st2 == st.(current := st.current + [c]);
      assert Stripped(s) == Stripped(init) + [c];
      assert Flatten(st.fields) + st.current + [c] == Stripped(s);
    }
  }

  /** What `parseCSVLine` promises about its output: one field more than
      there are splitting commas, no field holding a quote, and the fields
      together are the row without its quotes and splitting commas. */
  lemma TokenizeShape(line: string)
    ensures |Tokenize(line)| == UnquotedCommas(line) + 1
    ensures forall i :: 0 <= i < |Tokenize(line)| ==> '"' !in Tokenize(line)[i]
    ensures Flatten(Tokenize(line)) == Stripped(line)
  {
    var st := Run(Start, line);
    RunFromStart(line);
    FlattenSnoc(st.fields, st.current);
  }

  /** Reading `a` then `b` is reading `a + b`. */
  lemma {:induction false} RunAppend(st: Scan, a: string, b: string)
    ensures Run(st, a + b) == Run(Run(st, a), b)
    decreases |b|
  {
    if b == [] {
      assert a + b == a;
    } else {
      var ab := a + b;
      assert ab[..|ab| - 1] == a + b[..|b| - 1];
      assert ab[|ab| - 1] == b[|b| - 1];
      RunAppend(st, a, b[..|b| - 1]);
    }
  }

  /** Quote-free text that holds no comma, or is read with the flag on,
      is copied to the current field unchanged. */
  lemma {:induction false} RunPlain(st: Scan, v: string)
    requires '"' !in v
    requires st.inQuotes || ',' !in v
    ensures Run(st, v) == st.(current := st.current + v)
    decreases |v|
  {
    if v != [] {
      var init := v[..|v| - 1];
      assert v == init + [v[|v| - 1]];
      RunPlain(st, init);
    }
  }

  /** Reading one character is one step. */
  lemma RunOne(st: Scan, c: char)
    ensures Run(st, [c]) == Step(st, c)
  {
    assert [c][..0] == [];
  }
}
