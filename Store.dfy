/** The page's record store: the globals `properties` (every loaded or added
    listing) and `filteredProperties` (the listings on show), and the
    handlers that replace, extend, filter and export them. */
module Store {
  import opened Wrappers
  import opened Text
  import opened Records
  import opened CsvDecode
  import opened CsvEncode
  import opened CsvRoundTrip
  import opened Listings

  /** The nine inputs of the add-property form, as typed. */
  datatype PropertyForm = PropertyForm(
    name: string, url: string, propertyType: string, location: string, price: string,
    amenities: string, description: string, latitude: string, longitude: string)

  /** Why a load left the store as it was. */
  datatype LoadError =
    | Unparsable(reason: ParseError) // `parseCSV` threw
    | EmptyText                      // the fetched text was blank
    | NoProperties                   // the text parsed to zero listings

  /** The object `handleAddProperty` builds: every input trimmed except the type. */
  function NewProperty(f: PropertyForm): Record
  {
    map[
      "name" := Trim(f.name), "url" := Trim(f.url), "type" := f.propertyType,
      "location" := Trim(f.location), "price" := Trim(f.price),
      "amenities" := Trim(f.amenities), "description" := Trim(f.description),
      "latitude" := Trim(f.latitude), "longitude" := Trim(f.longitude)
    ]
  }

  /** The form is accepted when name and url are not blank and a type is chosen. */
  predicate Complete(f: PropertyForm)
  {
    !IsBlank(f.name) && !IsBlank(f.url) && f.propertyType != ""
  }

  /** The added record is listed exactly when the trimmed name and url are non-empty. */
  lemma NewPropertyListed(f: PropertyForm)
    ensures Listed(NewProperty(f)) <==> !IsBlank(f.name) && !IsBlank(f.url)
  {
    TrimFacts(f.name);
    TrimFacts(f.url);
  }

  class Store {
    var properties: seq<Record>
    var filteredProperties: seq<Record>
    /** The criteria the current view was filtered with: blank after a load
        or an add, whatever the filter controls still show. */
    ghost var shown: Criteria

    /** The view is the full list filtered by `shown`, and every stored
        listing has a name and a url. */
    ghost predicate Valid()
      reads this
    {
      && filteredProperties == ApplyFilter(properties, shown)
      && (forall i :: 0 <= i < |properties| ==> Listed(properties[i]))
    }

    /** The page starts with nothing loaded. */
    constructor()
      ensures Valid()
      ensures properties == [] && filteredProperties == []
    {
      properties := [];
      filteredProperties := [];
      shown := Blank;
    }

    /** `properties = loaded; filteredProperties = [...properties]` */
    method Replace(loaded: seq<Record>)
      requires forall i :: 0 <= i < |loaded| ==> Listed(loaded[i])
      modifies this
      ensures Valid()
      ensures properties == loaded && filteredProperties == loaded && shown == Blank
    {
      properties := loaded;
      filteredProperties := properties;
      shown := Blank;
      FilterBlank(properties);
    }

    /** `applyFilters`: the view becomes the stored listings matching `c`. */
    method ApplyFilters(c: Criteria)
      requires Valid()
      modifies this
      ensures Valid()
      ensures properties == old(properties) && shown == c
      ensures filteredProperties == ApplyFilter(properties, c)
    {
      filteredProperties := ApplyFilter(properties, c);
      shown := c;
    }

    /** `handleAddProperty`: an accepted form appends its record and resets
        the view to every listing, whatever the filter controls still show;
        a rejected form changes nothing. */
    method AddProperty(form: PropertyForm) returns (added: bool)
      requires Valid()
      modifies this
      ensures Valid()
      ensures added <==> Complete(form)
      ensures added ==> properties == old(properties) + [NewProperty(form)] && filteredProperties == properties
      ensures !added ==> properties == old(properties) && filteredProperties == old(filteredProperties)
    {
      var newProperty := NewProperty(form);
      NewPropertyListed(form);
      if newProperty["name"] == "" || newProperty["url"] == "" || newProperty["type"] == "" {
        TrimFacts(form.name);
        TrimFacts(form.url);
        return false;
      }
      TrimFacts(form.name);
      TrimFacts(form.url);
      Replace(properties + [newProperty]);
      return true;
    }

    /** The `reader.onload` handler of `processFile`: any successful parse
        replaces the store, even one with no listings. */
    method LoadFile(text: string) returns (outcome: Result<nat, LoadError>)
      requires Valid()
      modifies this
      ensures Valid()
      ensures outcome.Ok? <==> Decode(text).Ok?
      ensures outcome.Ok? ==> properties == Decode(text).value && filteredProperties == properties
                              && outcome.value == |properties|
      ensures outcome.Err? ==> outcome.error == Unparsable(Decode(text).error)
                               && properties == old(properties) && filteredProperties == old(filteredProperties)
    {
      var parsed := ParseCSV(text);
      if parsed.Err? {
        return Err(Unparsable(parsed.error));
      }
      DecodeOk(text);
      Replace(parsed.value);
      return Ok(|properties|);
    }

    /** `loadSampleData`: blank text is refused, otherwise as `LoadFile`. */
    method LoadSample(text: string) returns (outcome: Result<nat, LoadError>)
      requires Valid()
      modifies this
      ensures Valid()
      ensures outcome.Ok? <==> !IsBlank(text) && Decode(text).Ok?
      ensures outcome.Ok? ==> properties == Decode(text).value && filteredProperties == properties
                              && outcome.value == |properties|
      ensures IsBlank(text) ==> outcome == Err(EmptyText)
      ensures outcome.Err? ==> properties == old(properties) && filteredProperties == old(filteredProperties)
    {
      TrimFacts(text);
      if Trim(text) == "" {
        return Err(EmptyText);
      }
      outcome := LoadFile(text);
    }

    /** `loadFromUrl` and the start-up load of `stays.csv`: blank text, a
        parse error and a parse with no listings are all refused. */
    method LoadFromUrl(text: string) returns (outcome: Result<nat, LoadError>)
      requires Valid()
      modifies this
      ensures Valid()
      ensures outcome.Ok? <==> !IsBlank(text) && Decode(text).Ok? && Decode(text).value != []
      ensures outcome.Ok? ==> properties == Decode(text).value && filteredProperties == properties
                              && outcome.value == |properties|
      ensures IsBlank(text) ==> outcome == Err(EmptyText)
      ensures !IsBlank(text) && Decode(text).Ok? && Decode(text).value == [] ==> outcome == Err(NoProperties)
      ensures outcome.Err? ==> properties == old(properties) && filteredProperties == old(filteredProperties)
    {
      TrimFacts(text);
      if Trim(text) == "" {
        return Err(EmptyText);
      }
      var parsed := ParseCSV(text);
      if parsed.Err? {
        return Err(Unparsable(parsed.error));
      }
      if |parsed.value| == 0 {
        return Err(NoProperties);
      }
      DecodeOk(text);
      Replace(parsed.value);
      return Ok(|properties|);
    }

    /** `downloadCSV`: nothing when the store is empty, otherwise the export
        text, which decodes back to the same listings when they are clean. */
    method DownloadCSV() returns (csv: Option<string>)
      ensures csv == Encode(properties)
      ensures csv.None? <==> properties == []
      ensures csv.Some? && (forall i :: 0 <= i < |properties| ==> Clean(properties[i])) ==>
                Decode(csv.value) == Ok(properties)
    {
      csv := Encode(properties);
      if csv.Some? && (forall i :: 0 <= i < |properties| ==> Clean(properties[i])) {
        RoundTrip(properties);
      }
    }
  }
}
