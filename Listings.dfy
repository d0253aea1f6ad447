/** The filter behind `applyFilters`: a free-text search plus three
    drop-down criteria, each switched off when its value is empty. */
module Listings {
  import opened Text
  import opened Seqs
  import opened Records

  /** The raw values of the search box and the three drop-downs. */
  datatype Criteria = Criteria(search: string, propertyType: string, amenity: string, location: string)

  /** Every control empty: the filter keeps everything. */
  const Blank := Criteria("", "", "", "")

  /** The search term (lower-cased first) occurs in the lower-cased name,
      or in the description or location when those are present. */
  predicate MatchesSearch(r: Record, search: string)
  {
    var term := Lower(search);
    || term == ""
    || Contains(Lower(Field(r, "name")), term)
    || (Field(r, "description") != "" && Contains(Lower(Field(r, "description")), term))
    || (Field(r, "location") != "" && Contains(Lower(Field(r, "location")), term))
  }

  /** The record's type is lower-cased; the selected value is not. */
  predicate MatchesType(r: Record, selected: string)
  {
    selected == "" || Lower(Field(r, "type")) == selected
  }

  /** A substring test on the lower-cased amenities text. */
  predicate MatchesAmenity(r: Record, selected: string)
  {
    selected == "" || (Field(r, "amenities") != "" && Contains(Lower(Field(r, "amenities")), selected))
  }

  /** A substring test on the lower-cased location. */
  predicate MatchesLocation(r: Record, selected: string)
  {
    selected == "" || (Field(r, "location") != "" && Contains(Lower(Field(r, "location")), selected))
  }

  /** The callback of `properties.filter(...)`. */
  predicate Matches(r: Record, c: Criteria)
  {
    && MatchesSearch(r, c.search)
    && MatchesType(r, c.propertyType)
    && MatchesAmenity(r, c.amenity)
    && MatchesLocation(r, c.location)
  }

  /** `properties.filter(property => Matches(property, c))` */
  function ApplyFilter(props: seq<Record>, c: Criteria): (shown: seq<Record>)
    ensures |shown| <= |props|
  {
    if props == [] then []
    else (if Matches(props[0], c) then [props[0]] else []) + ApplyFilter(props[1..], c)
  }

  /** The filtered list keeps the order of the full list and drops only records. */
  lemma {:induction false} FilterIsSubseq(props: seq<Record>, c: Criteria)
    ensures IsSubseq(ApplyFilter(props, c), props)
  {
    if props != [] {
      var rest := ApplyFilter(props[1..], c);
      FilterIsSubseq(props[1..], c);
      if Matches(props[0], c) {
        assert ApplyFilter(props, c) == [props[0]] + rest;
        assert ([props[0]] + rest)[1..] == rest;
      } else {
        assert ApplyFilter(props, c) == rest;
        SubseqOfTail(rest, props);
      }
    }
  }

  /** A record is shown exactly when it is stored and matches every criterion. */
  lemma {:induction false} FilterKeepsIff(props: seq<Record>, c: Criteria, r: Record)
    ensures r in ApplyFilter(props, c) <==> r in props && Matches(r, c)
  {
    if props != [] {
      FilterKeepsIff(props[1..], c, r);
      assert props == [props[0]] + props[1..];
    }
  }

  /** With every control empty the view is the whole list. */
  lemma {:induction false} FilterBlank(props: seq<Record>)
    ensures ApplyFilter(props, Blank) == props
  {
    if props != [] {
      FilterBlank(props[1..]);
    }
  }

  /** A filter with criteria `c3` that holds exactly when `c1` and `c2` both
      do gives what filtering by `c1` and then by `c2` gives. */
  lemma {:induction false} FilterTwice(props: seq<Record>, c1: Criteria, c2: Criteria, c3: Criteria)
    requires forall r :: Matches(r, c3) <==> Matches(r, c1) && Matches(r, c2)
    ensures ApplyFilter(ApplyFilter(props, c1), c2) == ApplyFilter(props, c3)
  {
    if props != [] {
      var rest := ApplyFilter(props[1..], c1);
      FilterTwice(props[1..], c1, c2, c3);
      if Matches(props[0], c1) {
        assert ApplyFilter(props, c1) == [props[0]] + rest;
        assert ([props[0]] + rest)[1..] == rest;
      } else {
        assert ApplyFilter(props, c1) == rest;
        assert !Matches(props[0], c3);
      }
    }
  }

  /** Re-applying the same criteria changes nothing. */
  lemma FilterIdempotent(props: seq<Record>, c: Criteria)
    ensures ApplyFilter(ApplyFilter(props, c), c) == ApplyFilter(props, c)
  {
    FilterTwice(props, c, c, c);
  }

  /** The four controls act independently: searching first and then
      applying the three drop-downs gives the combined view. */
  lemma SearchThenDropDowns(props: seq<Record>, c: Criteria)
    ensures ApplyFilter(ApplyFilter(props, Blank.(search := c.search)), c.(search := "")) == ApplyFilter(props, c)
  {
    FilterTwice(props, Blank.(search := c.search), c.(search := ""), c);
  }

  lemma {:induction false} LowerHasNoUpper(s: string)
    ensures forall i :: 0 <= i < |Lower(s)| ==> !IsUpper(Lower(s)[i])
  {
    if s != [] {
      LowerHasNoUpper(s[1..]);
      assert Lower(s) == [LowerChar(s[0])] + Lower(s[1..]);
    }
  }

  /** A selected type holding an upper-case letter matches no record at all,
      because only the record's side is lower-cased. */
  lemma UpperCaseTypeMatchesNothing(r: Record, selected: string, i: nat)
    requires i < |selected| && IsUpper(selected[i])
    ensures !MatchesType(r, selected)
  {
    LowerHasNoUpper(Field(r, "type"));
  }

  /** A lower-case selected type matches every spelling of it in the data. */
  lemma TypeMatchIgnoresRecordCase(r: Record, selected: string)
    requires selected != "" && Lower(Field(r, "type")) == Lower(selected)
    requires forall i :: 0 <= i < |selected| ==> !IsUpper(selected[i])
    ensures MatchesType(r, selected)
  {
    LowerOfLowercase(selected);
  }

  /** A text containing `a + b` contains `a`. */
  lemma {:induction false} ContainsPrefixOf(s: string, a: string, b: string)
    requires Contains(s, a + b)
    ensures Contains(s, a)
  {
    if !(a + b <= s) {
      ContainsPrefixOf(s[1..], a, b);
    } else {
      assert a <= s by {
        assert forall i :: 0 <= i < |a| ==> (a + b)[i] == a[i];
      }
    }
  }

  /** The amenity criterion is a substring test, so a selected value that
      starts another amenity's name matches it: selecting `wi` keeps every
      record whose amenities mention `wifi`. */
  lemma AmenityPrefixMatches(r: Record, selected: string, more: string)
    requires Contains(Lower(Field(r, "amenities")), selected + more)
    ensures MatchesAmenity(r, selected)
  {
    ContainsPrefixOf(Lower(Field(r, "amenities")), selected, more);
  }
}
