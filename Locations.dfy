/** The location drop-down of `populateLocationDropdown`: the distinct
    non-blank locations of the stored records, sorted, each offered under
    its lower-cased text. */
module Locations {
  import opened Text
  import opened Records
  import opened Listings

  /** The default order of `Array.prototype.sort` on strings: character by
      character, a proper prefix first. */
  predicate Less(a: string, b: string)
  {
    if a == [] then b != []
    else b != [] && (a[0] < b[0] || (a[0] == b[0] && Less(a[1..], b[1..])))
  }

  lemma {:induction false} LessIrreflexive(a: string)
    ensures !Less(a, a)
  {
    if a != [] {
      LessIrreflexive(a[1..]);
    }
  }

  lemma {:induction false} LessTransitive(a: string, b: string, c: string)
    requires Less(a, b) && Less(b, c)
    ensures Less(a, c)
  {
    if a != [] && a[0] == b[0] && b[0] == c[0] {
      LessTransitive(a[1..], b[1..], c[1..]);
    }
  }

  lemma {:induction false} LessTotal(a: string, b: string)
    ensures a == b || Less(a, b) || Less(b, a)
  {
    if a != [] && b != [] && a[0] == b[0] {
      LessTotal(a[1..], b[1..]);
      if a[1..] == b[1..] {
        assert a == [a[0]] + a[1..] && b == [b[0]] + b[1..];
      }
    }
  }

  /** Each element precedes the next one. */
  predicate Ascending(s: seq<string>)
  {
    forall i :: 0 < i < |s| ==> Less(s[i - 1], s[i])
  }

  /** Puts `x` into an ascending list unless it is already there. */
  function Insert(x: string, s: seq<string>): seq<string>
  {
    if s == [] then [x]
    else if x == s[0] then s
    else if Less(x, s[0]) then [x] + s
    else [s[0]] + Insert(x, s[1..])
  }

  lemma {:induction false} InsertFacts(x: string, s: seq<string>)
    requires Ascending(s)
    ensures Ascending(Insert(x, s))
    ensures forall y :: y in Insert(x, s) <==> y == x || y in s
    ensures Insert(x, s) != [] && (Insert(x, s)[0] == x || (s != [] && Insert(x, s)[0] == s[0]))
  {
    if s != [] && x != s[0] && !Less(x, s[0]) {
      var rest := Insert(x, s[1..]);
      assert Ascending(s[1..]) by {
        forall i | 0 < i < |s[1..]| ensures Less(s[1..][i - 1], s[1..][i]) {
          assert s[1..][i - 1] == s[i] && s[1..][i] == s[i + 1];
        }
      }
      InsertFacts(x, s[1..]);
      LessTotal(x, s[0]);
      var r := [s[0]] + rest;
      assert Less(s[0], rest[0]) by {
        if rest[0] != x {
          assert rest[0] == s[1];
        }
      }
      forall i | 0 < i < |r| ensures Less(r[i - 1], r[i]) {
        if i > 1 {
          assert r[i - 1] == rest[i - 2] && r[i] == rest[i - 1];
        }
      }
      assert s == [s[0]] + s[1..];
    }
  }

  /** `location && location.trim() !== ''` */
  predicate HasLocation(r: Record)
  {
    Trim(Field(r, "location")) != ""
  }

  /** `[...new Set(locations)].sort()` over the non-blank locations. */
  function Locations(props: seq<Record>): seq<string>
  {
    if props == [] then []
    else
      var rest := Locations(props[1..]);
      if HasLocation(props[0]) then Insert(Field(props[0], "location"), rest) else rest
  }

  /** The locations of the records that have one, as a set. */
  ghost function LocationSet(props: seq<Record>): set<string>
  {
    set r | r in props && HasLocation(r) :: Field(r, "location")
  }

  /** An ascending list is strictly sorted throughout and so holds no duplicates. */
  lemma {:induction false} AscendingSorted(s: seq<string>)
    requires Ascending(s)
    ensures forall i, j :: 0 <= i < j < |s| ==> Less(s[i], s[j]) && s[i] != s[j]
  {
    forall i, j | 0 <= i < j < |s| ensures Less(s[i], s[j]) && s[i] != s[j] {
      AscendingFrom(s, i, j);
      if s[i] == s[j] {
        LessIrreflexive(s[i]);
      }
    }
  }

  lemma {:induction false} AscendingFrom(s: seq<string>, i: nat, j: nat)
    requires Ascending(s) && i < j < |s|
    ensures Less(s[i], s[j])
    decreases j - i
  {
    if i + 1 < j {
      AscendingFrom(s, i + 1, j);
      LessTransitive(s[i], s[i + 1], s[j]);
    }
  }

  /** The drop-down lists each non-blank location exactly once, in sorted order. */
  lemma {:induction false} LocationsFacts(props: seq<Record>)
    ensures forall i, j :: 0 <= i < j < |Locations(props)| ==>
              Less(Locations(props)[i], Locations(props)[j]) && Locations(props)[i] != Locations(props)[j]
    ensures forall l :: l in Locations(props) <==> l in LocationSet(props)
  {
    LocationsAscending(props);
    AscendingSorted(Locations(props));
  }

  lemma {:induction false} LocationsAscending(props: seq<Record>)
    ensures Ascending(Locations(props))
    ensures forall l :: l in Locations(props) <==> l in LocationSet(props)
  {
    if props != [] {
      LocationsAscending(props[1..]);
      var rest := Locations(props[1..]);
      if HasLocation(props[0]) {
        InsertFacts(Field(props[0], "location"), rest);
      }
      forall l ensures l in LocationSet(props) <==> (l == Field(props[0], "location") && HasLocation(props[0])) || l in LocationSet(props[1..]) {
        if l in LocationSet(props) {
          var r :| r in props && HasLocation(r) && l == Field(r, "location");
          if r != props[0] {
            assert r in props[1..];
          }
        }
        if l in LocationSet(props[1..]) {
          var r :| r in props[1..] && HasLocation(r) && l == Field(r, "location");
          assert r in props;
        }
      }
    }
  }

  /** One drop-down entry: the filter value and the text shown. */
  datatype Choice = Choice(value: string, text: string)

  function ChoicesOf(locations: seq<string>): (choices: seq<Choice>)
    ensures |choices| == |locations|
  {
    if locations == [] then []
    else [Choice(Lower(locations[0]), locations[0])] + ChoicesOf(locations[1..])
  }

  /** The entries `populateLocationDropdown` adds after "All Locations". */
  function LocationChoices(props: seq<Record>): seq<Choice>
  {
    ChoicesOf(Locations(props))
  }

  lemma {:induction false} ChoicesOfAt(locations: seq<string>, i: nat)
    requires i < |locations|
    ensures ChoicesOf(locations)[i] == Choice(Lower(locations[i]), locations[i])
  {
    if i > 0 {
      ChoicesOfAt(locations[1..], i - 1);
    }
  }

  /** Picking an entry keeps every record whose location is that entry's
      text, whatever its letter case. */
  lemma ChoiceKeepsItsRecords(props: seq<Record>, i: nat, r: Record)
    requires i < |LocationChoices(props)|
    requires Lower(Field(r, "location")) == LocationChoices(props)[i].value
    ensures MatchesLocation(r, LocationChoices(props)[i].value)
  {
    var locs := Locations(props);
    ChoicesOfAt(locs, i);
    LocationsFacts(props);
    assert locs[i] in locs;
    var l := locs[i];
    var q :| q in props && HasLocation(q) && l == Field(q, "location");
    TrimFacts(l);
    assert Field(r, "location") != "";
    assert Contains(Lower(Field(r, "location")), Lower(l));
  }
}
