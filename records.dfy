/**
 * One place of the GeoNames dump: GeoRecord in geosuggest/geodb.py, its field
 * derivation from a row, its matched_on annotation and its dict rendering.
 */
module Records {
  import opened Wrappers
  import opened Dict
  import opened Fields

  /** The int, float and date parsers the row conversion relies on. */
  datatype Parsers = Parsers(
    toInt: Converter<int>,
    toFloat: Converter<real>,
    /** datetime.strptime(text, '%Y-%m-%d').isoformat(), None when strptime raises */
    toIsoDate: string -> Option<string>)

  /** The fields of a GeoRecord, all fixed at construction. */
  datatype Place = Place(
    name: Option<string>,
    asciiName: Option<string>,
    alternateNames: Option<seq<string>>,
    latitude: Option<real>,
    longitude: Option<real>,
    featureClass: Option<string>,
    featureCode: Option<string>,
    country: Option<string>,
    alternateCountryCodes: Option<seq<string>>,
    admin1: Option<string>,
    admin2: Option<string>,
    admin3: Option<string>,
    admin4: Option<string>,
    population: Option<int>,
    elevation: Option<int>,
    digitalElevationModel: Option<int>,
    timezone: Option<string>,
    modificationDate: Option<string>)

  /** Why GeoRecord(row) raises. */
  datatype RowError =
    | FieldError(error: ConversionError)
    | Admin1Missing                       // int(None) on a Canadian row
    | Admin1NotInteger(text: string)      // int(text) raising on a Canadian row
    | ColumnMissing(column: string)       // row['modified_at'] raising KeyError
    | DateNotParsed(text: string)         // strptime raising

  function Lift<T>(r: Result<T, ConversionError>): Result<T, RowError> {
    match r
    case Ok(v) => Ok(v)
    case Err(e) => Err(FieldError(e))
  }

  /** The separator of the list-valued columns. */
  const ListSeparator: char := ','

  /**
   * admin1 of a Canadian row: the cell text read as a FIPS code and mapped to
   * its ISO code; an empty cell or a non-integer raises, an unmapped code
   * gives None.
   */
  function CanadianAdmin1(row: Row, parsers: Parsers): (r: Result<Option<string>, RowError>)
    ensures Text(row, "admin1") == "" ==> r == Err(Admin1Missing)
    ensures Text(row, "admin1") != "" ==> (r.Ok? <==> parsers.toInt.apply(row["admin1"]).Some?)
    ensures r.Ok? ==> exists code :: parsers.toInt.apply(row["admin1"]) == Some(code) && r.value == FipsToIso(code)
  {
    var text := Text(row, "admin1");
    if text == "" then Err(Admin1Missing)
    else match parsers.toInt.apply(text)
      case None => Err(Admin1NotInteger(text))
      case Some(code) => Ok(FipsToIso(code))
  }

  /** modification_date: None for an empty cell, KeyError for a missing column. */
  function ModificationDate(row: Row, parsers: Parsers): (r: Result<Option<string>, RowError>)
    ensures "modified_at" !in row ==> r == Err(ColumnMissing("modified_at"))
    ensures "modified_at" in row && row["modified_at"] == "" ==> r == Ok(None)
    ensures "modified_at" in row && row["modified_at"] != "" ==>
              (r.Ok? <==> parsers.toIsoDate(row["modified_at"]).Some?)
              && (r.Ok? ==> r.value == parsers.toIsoDate(row["modified_at"]))
  {
    if "modified_at" !in row then Err(ColumnMissing("modified_at"))
    else if |row["modified_at"]| > 0 then
      match parsers.toIsoDate(row["modified_at"])
      case None => Err(DateNotParsed(row["modified_at"]))
      case Some(iso) => Ok(Some(iso))
    else Ok(None)
  }

  /** data_or_none(row, field) for `str`: the text, or None when missing or empty; it never raises. */
  function StrCell(row: Row, field: string): (r: Option<string>)
    ensures Cell(row, field, StrType) == Ok(r)
    ensures r.Some? <==> Text(row, field) != ""
    ensures r.Some? ==> r.value == row[field]
  {
    if Text(row, field) == "" then None else Some(row[field])
  }

  /** data_or_none(row, field, split_on=',') for `str`: the comma-separated pieces; it never raises. */
  function StrListCell(row: Row, field: string): (r: Option<seq<string>>)
    ensures CellList(row, field, StrType, ListSeparator) == Ok(r)
    ensures r.Some? <==> Text(row, field) != ""
    ensures r.Some? ==> Join(r.value, ListSeparator) == row[field]
  {
    if Text(row, field) == "" then None
    else
      StrCellListJoinsBack(row, field, ListSeparator);
      Some(Split(row[field], ListSeparator))
  }

  /**
   * GeoRecord.__init__(row): every field derived from its column, in column
   * order; the first conversion that raises makes the whole row fail. The
   * `str` columns go through StrCell and StrListCell, which cannot raise.
   */
  function ParseRow(row: Row, parsers: Parsers): (r: Result<Place, RowError>)
    ensures r.Ok? <==> && Cell(row, "lat", parsers.toFloat).Ok? && Cell(row, "long", parsers.toFloat).Ok?
                       && (Text(row, "country") != "CA" || CanadianAdmin1(row, parsers).Ok?)
                       && Cell(row, "population", parsers.toInt).Ok? && Cell(row, "elevation", parsers.toInt).Ok?
                       && Cell(row, "dem", parsers.toInt).Ok? && ModificationDate(row, parsers).Ok?
    ensures r.Ok? ==> r.value.name == StrCell(row, "name") && r.value.asciiName == StrCell(row, "ascii")
    ensures r.Ok? ==> r.value.alternateNames == StrListCell(row, "alt_name")
    ensures r.Ok? ==> r.value.latitude == Cell(row, "lat", parsers.toFloat).value
    ensures r.Ok? ==> r.value.longitude == Cell(row, "long", parsers.toFloat).value
    ensures r.Ok? ==> r.value.featureClass == StrCell(row, "feat_class") && r.value.featureCode == StrCell(row, "feat_code")
    ensures r.Ok? ==> r.value.country == StrCell(row, "country")
    ensures r.Ok? ==> r.value.alternateCountryCodes == StrListCell(row, "cc2")
    ensures r.Ok? ==> r.value.admin2 == StrCell(row, "admin2") && r.value.admin3 == StrCell(row, "admin3")
                      && r.value.admin4 == StrCell(row, "admin4")
    ensures r.Ok? ==> r.value.population == Cell(row, "population", parsers.toInt).value
    ensures r.Ok? ==> r.value.elevation == Cell(row, "elevation", parsers.toInt).value
    ensures r.Ok? ==> r.value.digitalElevationModel == Cell(row, "dem", parsers.toInt).value
    ensures r.Ok? ==> r.value.timezone == StrCell(row, "tz")
    ensures r.Ok? ==> r.value.modificationDate == ModificationDate(row, parsers).value
    ensures Text(row, "country") == "CA" && r.Ok? ==>
              exists code :: parsers.toInt.apply(Text(row, "admin1")) == Some(code) && r.value.admin1 == FipsToIso(code)
    ensures Text(row, "country") != "CA" && r.Ok? ==> r.value.admin1 == StrCell(row, "admin1")
    ensures Text(row, "country") == "CA" && Text(row, "admin1") == "" ==> r.Err?
    ensures "modified_at" !in row ==> r.Err?
  {
    var name := StrCell(row, "name");
    var asciiName := StrCell(row, "ascii");
    var alternateNames := StrListCell(row, "alt_name");
    var latitude :- Lift(Cell(row, "lat", parsers.toFloat));
    var longitude :- Lift(Cell(row, "long", parsers.toFloat));
    var featureClass := StrCell(row, "feat_class");
    var featureCode := StrCell(row, "feat_code");
    var country := StrCell(row, "country");
    var alternateCountryCodes := StrListCell(row, "cc2");
    var admin1 :- if country == Some("CA") then CanadianAdmin1(row, parsers) else Ok(StrCell(row, "admin1"));
    var population :- Lift(Cell(row, "population", parsers.toInt));
    var elevation :- Lift(Cell(row, "elevation", parsers.toInt));
    var dem :- Lift(Cell(row, "dem", parsers.toInt));
    var modificationDate :- ModificationDate(row, parsers);
    Ok(Place(name, asciiName, alternateNames, latitude, longitude, featureClass, featureCode, country,
             alternateCountryCodes, admin1, StrCell(row, "admin2"), StrCell(row, "admin3"), StrCell(row, "admin4"),
             population, elevation, dem, StrCell(row, "tz"), modificationDate))
  }

  /** Every name of a place: name, ASCII name, then the alternate names. */
  function NamesOf(p: Place): seq<string> {
    (if p.name.Some? then [p.name.value] else [])
    + (if p.asciiName.Some? then [p.asciiName.value] else [])
    + (if p.alternateNames.Some? then p.alternateNames.value else [])
  }

  /** The invariant of matched_on: unset, or one of the record's own names. */
  predicate LabelOk(p: Place, matchedOn: Option<string>) {
    matchedOn.None? || matchedOn.value in NamesOf(p)
  }

  function UpperAscii(c: char): char {
    if 'a' <= c <= 'z' then (c as int - 32) as char else c
  }

  function LowerAscii(c: char): char {
    if 'A' <= c <= 'Z' then (c as int + 32) as char else c
  }

  /** str.capitalize() on ASCII letters: first character upper case, the rest lower case. */
  function Capitalize(s: string): (r: string)
    ensures |r| == |s|
    ensures s != [] ==> r[0] == UpperAscii(s[0])
    ensures forall i :: 0 < i < |s| ==> r[i] == LowerAscii(s[i])
  {
    if s == [] then [] else [UpperAscii(s[0])] + seq(|s| - 1, i requires 0 <= i < |s| - 1 => LowerAscii(s[i + 1]))
  }

  /** How Python's str.format renders an optional str field. */
  function Render(o: Option<string>): string {
    if o.Some? then o.value else "None"
  }

  const BasicKeys: set<string> := {"name", "latitude", "longitude"}

  const ExtendedKeys: set<string> := {
    "ascii_name", "alternate_names", "feature_class", "feature_code", "country",
    "alternate_country_codes", "admin1", "admin2", "admin3", "admin4", "population",
    "elevation", "digital_elevation_model", "timezone", "modification_date"}

  /** No key of the basic dict is an extended key. */
  lemma BasicAndExtendedKeysDisjoint()
    ensures BasicKeys !! ExtendedKeys
  {
    assert "name" !in ExtendedKeys && "latitude" !in ExtendedKeys && "longitude" !in ExtendedKeys;
  }

  /** {**a, **b} for dicts with no key in common keeps every entry of both. */
  lemma MergeDisjoint(a: map<string, Value>, b: map<string, Value>)
    requires a.Keys !! b.Keys
    ensures (a + b).Keys == a.Keys + b.Keys
    ensures forall k :: k in a ==> (a + b)[k] == a[k]
    ensures forall k :: k in b ==> (a + b)[k] == b[k]
  {
  }

  /** A GeoRecord: the place read from one row plus the name the last query matched on. */
  class GeoRecord {
    const place: Place
    var matchedOn: Option<string>

    constructor (place: Place)
      ensures this.place == place && matchedOn == None
    {
      this.place := place;
      matchedOn := None;
    }

    /** add_matched_on: records which name satisfied the query, and returns the record itself. */
    method AddMatchedOn(matchedOnAttribute: string) returns (r: GeoRecord)
      modifies this
      ensures matchedOn == Some(matchedOnAttribute) && r == this
    {
      matchedOn := Some(matchedOnAttribute);
      r := this;
    }

    /** The name to_dict displays: matched_on when set, else the record's name. */
    function ShownName(): Option<string>
      reads this
    {
      if matchedOn.Some? then matchedOn else place.name
    }

    /** The entries of to_dict(simple=True): display name and coordinates. */
    function BasicDict(): (d: map<string, Value>)
      reads this
      requires ShownName().Some?
      ensures d.Keys == BasicKeys
      ensures d["name"].Str? && Capitalize(ShownName().value) + ", " <= d["name"].text
      ensures d["latitude"] == OptReal(place.latitude) && d["longitude"] == OptReal(place.longitude)
    {
      var shown := ShownName().value;
      var display := Capitalize(shown) + ", " + Render(place.admin1) + ", " + Render(place.country);
      assert Capitalize(shown) + ", " <= display;
      map["name" := Str(display), "latitude" := OptReal(place.latitude), "longitude" := OptReal(place.longitude)]
    }

    /** The value to_dict gives an extended key. */
    function ExtendedValue(key: string): (v: Value)
      ensures key == "ascii_name" ==> v == OptStr(place.asciiName)
      ensures key == "alternate_names" ==> v == OptStrList(place.alternateNames)
      ensures key == "feature_class" ==> v == OptStr(place.featureClass)
      ensures key == "feature_code" ==> v == OptStr(place.featureCode)
      ensures key == "country" ==> v == OptStr(place.country)
      ensures key == "alternate_country_codes" ==> v == OptStrList(place.alternateCountryCodes)
      ensures key == "admin1" ==> v == OptStr(place.admin1)
      ensures key == "admin2" ==> v == OptStr(place.admin2)
      ensures key == "admin3" ==> v == OptStr(place.admin3)
      ensures key == "admin4" ==> v == OptStr(place.admin4)
      ensures key == "population" ==> v == OptInt(place.population)
      ensures key == "elevation" ==> v == OptInt(place.elevation)
      ensures key == "digital_elevation_model" ==> v == OptInt(place.digitalElevationModel)
      ensures key == "timezone" ==> v == OptStr(place.timezone)
      ensures key == "modification_date" ==> v == OptStr(place.modificationDate)
      ensures key !in ExtendedKeys ==> v == Null
    {
      match key
      case "ascii_name" => OptStr(place.asciiName)
      case "alternate_names" => OptStrList(place.alternateNames)
      case "feature_class" => OptStr(place.featureClass)
      case "feature_code" => OptStr(place.featureCode)
      case "country" => OptStr(place.country)
      case "alternate_country_codes" => OptStrList(place.alternateCountryCodes)
      case "admin1" => OptStr(place.admin1)
      case "admin2" => OptStr(place.admin2)
      case "admin3" => OptStr(place.admin3)
      case "admin4" => OptStr(place.admin4)
      case "population" => OptInt(place.population)
      case "elevation" => OptInt(place.elevation)
      case "digital_elevation_model" => OptInt(place.digitalElevationModel)
      case "timezone" => OptStr(place.timezone)
      case "modification_date" => OptStr(place.modificationDate)
      case _ => Null
    }

    /** The entries to_dict adds when `simple` is false. */
    function ExtendedDict(): (d: map<string, Value>)
      ensures d.Keys == ExtendedKeys
      ensures forall k :: k in ExtendedKeys ==> d[k] == ExtendedValue(k)
    {
      map key | key in ExtendedKeys :: ExtendedValue(key)
    }

    /**
     * to_dict(simple): the display name "<Name>, <admin1>, <country>" and the
     * coordinates; without `simple`, every other field as well, the basic
     * entries unchanged.
     */
    function ToDict(simple: bool): (d: map<string, Value>)
      reads this
      requires ShownName().Some?
      ensures simple ==> d.Keys == BasicKeys
      ensures !simple ==> d.Keys == BasicKeys + ExtendedKeys
      ensures forall k :: k in BasicKeys ==> d[k] == BasicDict()[k]
      ensures !simple ==> forall k :: k in ExtendedKeys ==> d[k] == ExtendedDict()[k]
      ensures d["name"].Str? && Capitalize(ShownName().value) + ", " <= d["name"].text
    {
      var basic := BasicDict();
      if simple then basic
      else
        var extended := ExtendedDict();
        BasicAndExtendedKeysDisjoint();
        MergeDisjoint(basic, extended);
        basic + extended
    }
  }
}
