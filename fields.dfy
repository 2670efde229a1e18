/**
 * Reading one cell of a dataset row (data_or_none in geosuggest/geodb.py) and
 * the FIPS 10-4 to ISO 3166-2:CA table (fips_to_iso).
 */
module Fields {
  import opened Wrappers

  /** One dataset row: column name to raw cell text. */
  type Row = map<string, string>

  /**
   * A destination type of data_or_none: its Python name and the conversion
   * from text, None standing for the conversion raising.
   */
  datatype Converter<T> = Converter(typeName: string, apply: string -> Option<T>)

  /** `str`: the text itself, never fails. */
  const StrType: Converter<string> := Converter("str", s => Some(s))

  /** The exception data_or_none raises: field, destination type, and the text that did not convert. */
  datatype ConversionError = ConversionError(field: string, typeName: string, text: string)

  /** row.get(field, '') */
  function Text(row: Row, field: string): string {
    if field in row then row[field] else ""
  }

  /**
   * data_or_none(row, field, as_type) without split_on: None for a missing or
   * empty cell, else the converted text, else the conversion error.
   */
  function Cell<T>(row: Row, field: string, conv: Converter<T>): (r: Result<Option<T>, ConversionError>)
    ensures Text(row, field) == "" ==> r == Ok(None)
    ensures Text(row, field) != "" ==> (r.Ok? <==> conv.apply(row[field]).Some?)
    ensures r.Ok? && r.value.Some? ==> field in row && conv.apply(row[field]) == r.value
    ensures Text(row, field) != "" && r.Ok? ==> r.value == conv.apply(row[field])
    ensures r.Err? ==> r.error == ConversionError(field, conv.typeName, row[field])
  {
    var text := Text(row, field);
    if |text| <= 0 then Ok(None)
    else match conv.apply(text)
      case Some(v) => Ok(Some(v))
      case None => Err(ConversionError(field, conv.typeName, text))
  }

  /**
   * data_or_none(row, field, as_type, split_on=sep): None for a missing or
   * empty cell, else one converted element per piece of text.split(sep).
   */
  function CellList<T>(row: Row, field: string, conv: Converter<T>, sep: char): (r: Result<Option<seq<T>>, ConversionError>)
    ensures Text(row, field) == "" ==> r == Ok(None)
    ensures Text(row, field) != "" && r.Ok? ==> r.value.Some?
  {
    var text := Text(row, field);
    if |text| <= 0 then Ok(None)
    else match ConvertAll(Split(text, sep), conv)
      case Ok(vs) => Ok(Some(vs))
      case Err(bad) => Err(ConversionError(field, conv.typeName, bad))
  }

  /**
   * The list comprehension [as_type(el) for el in pieces]: the converted
   * pieces in order, or the first piece whose conversion raises.
   */
  function ConvertAll<T>(pieces: seq<string>, conv: Converter<T>): (r: Result<seq<T>, string>)
    ensures r.Ok? <==> forall i :: 0 <= i < |pieces| ==> conv.apply(pieces[i]).Some?
    ensures r.Ok? ==> |r.value| == |pieces| && forall i :: 0 <= i < |pieces| ==> conv.apply(pieces[i]) == Some(r.value[i])
    ensures r.Err? ==> exists i :: 0 <= i < |pieces| && pieces[i] == r.error && conv.apply(pieces[i]).None?
                                   && forall j :: 0 <= j < i ==> conv.apply(pieces[j]).Some?
    decreases |pieces|
  {
    if pieces == [] then Ok([])
    else match conv.apply(pieces[0])
      case None => Err(pieces[0])
      case Some(v) =>
        match ConvertAll(pieces[1..], conv)
        case Ok(vs) => Ok([v] + vs)
        case Err(bad) => Err(bad)
  }

  /** Python's str.split(sep) for a one-character separator. */
  function Split(s: string, sep: char): (pieces: seq<string>)
    ensures |pieces| >= 1
    ensures forall i :: 0 <= i < |pieces| ==> sep !in pieces[i]
    decreases |s|
  {
    if s == [] then [""]
    else if s[0] == sep then [""] + Split(s[1..], sep)
    else
      var rest := Split(s[1..], sep);
      [[s[0]] + rest[0]] + rest[1..]
  }

  /** sep.join(pieces) */
  function Join(pieces: seq<string>, sep: char): string
    decreases |pieces|
  {
    if pieces == [] then ""
    else if |pieces| == 1 then pieces[0]
    else pieces[0] + [sep] + Join(pieces[1..], sep)
  }

  /** Joining the pieces of a split gives back the text. */
  lemma {:induction false} JoinSplit(s: string, sep: char)
    ensures Join(Split(s, sep), sep) == s
    decreases |s|
  {
    if s == [] {
    } else if s[0] == sep {
      JoinSplit(s[1..], sep);
      var rest := Split(s[1..], sep);
      assert Split(s, sep) == [""] + rest;
      assert ([""] + rest)[1..] == rest;
    } else {
      JoinSplit(s[1..], sep);
      var rest := Split(s[1..], sep);
      var pieces := [[s[0]] + rest[0]] + rest[1..];
      assert Split(s, sep) == pieces;
      if |rest| == 1 {
        assert Join(pieces, sep) == [s[0]] + rest[0];
      } else {
        assert pieces[1..] == rest[1..];
        assert Join(rest, sep) == rest[0] + [sep] + Join(rest[1..], sep);
        assert Join(pieces, sep) == [s[0]] + rest[0] + [sep] + Join(rest[1..], sep);
      }
    }
  }

  /** Splitting a join of separator-free pieces gives back the pieces. */
  lemma {:induction false} SplitJoin(pieces: seq<string>, sep: char)
    requires |pieces| >= 1
    requires forall i :: 0 <= i < |pieces| ==> sep !in pieces[i]
    ensures Split(Join(pieces, sep), sep) == pieces
    decreases |pieces|, |pieces[0]|
  {
    var p := pieces[0];
    if p == [] {
      if |pieces| == 1 {
      } else {
        SplitJoin(pieces[1..], sep);
        assert Join(pieces, sep) == [sep] + Join(pieces[1..], sep);
      }
    } else {
      var shorter := [p[1..]] + pieces[1..];
      assert sep !in p[1..] by { assert forall c :: c in p[1..] ==> c in p; }
      assert forall i :: 1 <= i < |shorter| ==> shorter[i] == pieces[i];
      SplitJoin(shorter, sep);
      assert shorter[1..] == pieces[1..];
      var text := Join(pieces, sep);
      assert text == [p[0]] + Join(shorter, sep) by {
        if |pieces| == 1 {
        } else {
          assert p == [p[0]] + p[1..];
        }
      }
      assert p[0] != sep by { assert p[0] in p; }
      assert text[1..] == Join(shorter, sep);
      assert [p[0]] + p[1..] == p;
    }
  }

  /** A `str` cell split on a separator joins back to the cell text. */
  lemma {:induction false} StrCellListJoinsBack(row: Row, field: string, sep: char)
    requires Text(row, field) != ""
    ensures CellList(row, field, StrType, sep) == Ok(Some(Split(row[field], sep)))
    ensures Join(Split(row[field], sep), sep) == row[field]
  {
    ConvertStrIsIdentity(Split(row[field], sep));
    JoinSplit(row[field], sep);
  }

  lemma {:induction false} ConvertStrIsIdentity(pieces: seq<string>)
    ensures ConvertAll(pieces, StrType) == Ok(pieces)
    decreases |pieces|
  {
    if pieces != [] {
      ConvertStrIsIdentity(pieces[1..]);
      assert [pieces[0]] + pieces[1..] == pieces;
    }
  }

  /** The table of fips_to_iso. */
  const FipsToIsoTable: map<int, string> :=
    map[1 := "AB", 2 := "BC", 3 := "MB", 4 := "NB", 5 := "NL",
        7 := "NS", 8 := "ON", 9 := "PE", 10 := "QC", 11 := "SK",
        12 := "YT", 13 := "NT", 14 := "NU"]

  /** fips_to_iso: the ISO 3166-2:CA code of a Canadian FIPS 10-4 code, None for a code with no mapping. */
  function FipsToIso(fipsCode: int): (r: Option<string>)
    ensures r.Some? <==> 1 <= fipsCode <= 14 && fipsCode != 6
    ensures r.Some? ==> |r.value| == 2
  {
    if fipsCode in FipsToIsoTable then Some(FipsToIsoTable[fipsCode]) else None
  }

  /** Two different FIPS codes never map to the same ISO code. */
  lemma FipsToIsoInjective(a: int, b: int)
    requires FipsToIso(a).Some? && FipsToIso(a) == FipsToIso(b)
    ensures a == b
  {
  }
}
