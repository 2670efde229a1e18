/**
 * GeoDB in geosuggest/geodb.py: the ordered list of GeoRecords loaded from the
 * dataset rows, and find_by_name, which scans it three times and annotates
 * every record it returns with the name that matched.
 */
module GeoDb {
  import opened Wrappers
  import opened Errors
  import opened Fields
  import opened Records
  import opened Search

  /** What GeoRecord(row) does with a row: the place, or the error that makes it raise. */
  type Conversion = Row -> Result<Place, RowError>

  /** GeoRecord(row) with the given value parsers. */
  function RecordConversion(parsers: Parsers): Conversion {
    row => ParseRow(row, parsers)
  }

  /** The places of the rows that convert, in row order. */
  function Loaded(rows: seq<Row>, convert: Conversion): (ps: seq<Place>)
    ensures |ps| <= |rows|
    decreases |rows|
  {
    if rows == [] then []
    else
      var n := |rows| - 1;
      match convert(rows[n])
      case Ok(p) => Loaded(rows[..n], convert) + [p]
      case Err(_) => Loaded(rows[..n], convert)
  }

  lemma LoadedStep(rows: seq<Row>, convert: Conversion, i: nat)
    requires i < |rows|
    ensures Loaded(rows[..i + 1], convert)
            == Loaded(rows[..i], convert) + (if convert(rows[i]).Ok? then [convert(rows[i]).value] else [])
  {
    assert rows[..i + 1][..i] == rows[..i];
  }

  /** Loading is row by row: the load of a concatenation is the concatenation of the loads. */
  lemma {:induction false} LoadedAppend(a: seq<Row>, b: seq<Row>, convert: Conversion)
    ensures Loaded(a + b, convert) == Loaded(a, convert) + Loaded(b, convert)
    decreases |b|
  {
    if b == [] {
      assert a + b == a;
    } else {
      var n := |b| - 1;
      LoadedAppend(a, b[..n], convert);
      assert (a + b)[..|a + b| - 1] == a + b[..n];
      assert (a + b)[|a + b| - 1] == b[n];
    }
  }

  /** A row whose conversion raises is left out, and the load goes on past it. */
  lemma FailingRowIsSkipped(a: seq<Row>, row: Row, b: seq<Row>, convert: Conversion)
    requires convert(row).Err?
    ensures Loaded(a + [row] + b, convert) == Loaded(a + b, convert)
  {
    LoadedAppend(a + [row], b, convert);
    LoadedAppend(a, [row], convert);
    LoadedAppend(a, b, convert);
    assert [row][..0] == [];
  }

  /** A row whose conversion succeeds is kept, in its place. */
  lemma GoodRowIsKept(a: seq<Row>, row: Row, b: seq<Row>, convert: Conversion)
    requires convert(row).Ok?
    ensures Loaded(a + [row] + b, convert) == Loaded(a, convert) + [convert(row).value] + Loaded(b, convert)
  {
    LoadedAppend(a + [row], b, convert);
    LoadedAppend(a, [row], convert);
    assert [row][..0] == [];
  }

  /** The index holds exactly the places of the rows that convert. */
  lemma {:induction false} LoadedMembership(rows: seq<Row>, convert: Conversion, p: Place)
    ensures p in Loaded(rows, convert) <==> exists i :: 0 <= i < |rows| && convert(rows[i]) == Ok(p)
    decreases |rows|
  {
    if rows != [] {
      var n := |rows| - 1;
      LoadedMembership(rows[..n], convert, p);
      assert forall i :: 0 <= i < n ==> rows[..n][i] == rows[i];
    }
  }

  function PlacesOf(recs: seq<GeoRecord>): (ps: seq<Place>)
    ensures |ps| == |recs| && forall i :: 0 <= i < |recs| ==> ps[i] == recs[i].place
  {
    seq(|recs|, i requires 0 <= i < |recs| => recs[i].place)
  }

  /** recs are the records of the places ps, position by position. */
  predicate Describes(recs: seq<GeoRecord>, ps: seq<Place>) {
    |recs| == |ps| && forall j :: 0 <= j < |ps| ==> recs[j].place == ps[j]
  }

  predicate Distinct(recs: seq<GeoRecord>) {
    forall i, j :: 0 <= i < j < |recs| ==> recs[i] != recs[j]
  }

  /** Every record's matched_on is unset or one of its own names. */
  ghost predicate LabelsOk(recs: seq<GeoRecord>)
    reads recs
  {
    forall j :: 0 <= j < |recs| ==> LabelOk(recs[j].place, recs[j].matchedOn)
  }

  /** rs holds, hit by hit, the record of recs at the hit's position. */
  predicate Picks(rs: seq<GeoRecord>, recs: seq<GeoRecord>, hs: seq<Hit>) {
    |rs| == |hs| && forall k :: 0 <= k < |hs| ==> hs[k].index < |recs| && rs[k] == recs[hs[k].index]
  }

  /** The hits determine the records picked. */
  lemma PicksUnique(a: seq<GeoRecord>, b: seq<GeoRecord>, recs: seq<GeoRecord>, hs: seq<Hit>)
    requires Picks(a, recs, hs) && Picks(b, recs, hs)
    ensures a == b
  {
  }

  /** Distinct hit indices into distinct records pick distinct records. */
  lemma PicksDistinct(rs: seq<GeoRecord>, recs: seq<GeoRecord>, hs: seq<Hit>)
    requires Picks(rs, recs, hs) && Distinct(recs)
    requires forall k, l :: 0 <= k < l < |hs| ==> hs[k].index != hs[l].index
    ensures Distinct(rs)
  {
  }

  lemma PicksAppend(a: seq<GeoRecord>, b: seq<GeoRecord>, recs: seq<GeoRecord>, h: seq<Hit>, g: seq<Hit>)
    requires Picks(a, recs, h) && Picks(b, recs, g)
    ensures Picks(a + b, recs, h + g)
  {
    forall k | 0 <= k < |h + g|
      ensures (h + g)[k].index < |recs| && (a + b)[k] == recs[(h + g)[k].index]
    {
      if k >= |h| {
        assert (h + g)[k] == g[k - |h|] && (a + b)[k] == b[k - |h|];
      }
    }
  }

  lemma PicksSnoc(rs: seq<GeoRecord>, recs: seq<GeoRecord>, hs: seq<Hit>, i: nat, matchedOn: string)
    requires Picks(rs, recs, hs) && i < |recs|
    ensures Picks(rs + [recs[i]], recs, hs + [Hit(i, matchedOn)])
  {
  }

  /** One step of a scan over group g after the hits `before`: the record at i is appended exactly when it is classified in g. */
  lemma PicksScanStep(rs: seq<GeoRecord>, recs: seq<GeoRecord>, before: seq<Hit>, cs: seq<Option<Classified>>, g: Group, i: nat)
    requires i < |cs| == |recs| && Picks(rs, recs, before + HitsOf(cs[..i], g))
    ensures cs[i].Some? && cs[i].value.group == g ==> Picks(rs + [recs[i]], recs, before + HitsOf(cs[..i + 1], g))
    ensures !(cs[i].Some? && cs[i].value.group == g) ==> Picks(rs, recs, before + HitsOf(cs[..i + 1], g))
  {
    HitsOfStep(cs, g, i);
    var hs := before + HitsOf(cs[..i], g);
    if cs[i].Some? && cs[i].value.group == g {
      PicksSnoc(rs, recs, hs, i, cs[i].value.matchedOn);
      assert hs + [Hit(i, cs[i].value.matchedOn)] == before + HitsOf(cs[..i + 1], g);
    }
  }

  /** With no record repeated, identity is position: `point in candidates` asks whether a hit is at the point's position. */
  lemma InPicksIff(rs: seq<GeoRecord>, recs: seq<GeoRecord>, hs: seq<Hit>, i: nat)
    requires Distinct(recs) && Picks(rs, recs, hs) && i < |recs|
    ensures recs[i] in rs <==> HasIndex(hs, i)
  {
    if recs[i] in rs {
      var k :| 0 <= k < |rs| && rs[k] == recs[i];
      assert hs[k].index == i;
    }
    if HasIndex(hs, i) {
      var k :| 0 <= k < |hs| && hs[k].index == i;
      assert rs[k] == recs[i];
    }
  }

  /**
   * cs is the classification of every place. The trigger keeps the
   * definition of Classify out of the scans, which consult cs only.
   */
  ghost predicate ClassifiesAll(ps: seq<Place>, pat: Pattern, cs: seq<Option<Classified>>) {
    && |cs| == |ps|
    && (forall j {:trigger Classify(ps[j], pat)} :: 0 <= j < |ps| ==> cs[j] == Classify(ps[j], pat))
  }

  /** matched_on after the scan over group g, for a place classified as c whose matched_on was prior. */
  function StampedBy(c: Option<Classified>, prior: Option<string>, g: Group): Option<string> {
    if c.Some? && c.value.group == g then Some(c.value.matchedOn) else prior
  }

  /**
   * The scan over group g turns the matched_on values `before` into `after`,
   * place by place. The trigger keeps StampedBy out of the scan loops, which
   * only carry these values along.
   */
  ghost predicate Stamps(cs: seq<Option<Classified>>, before: seq<Option<string>>, after: seq<Option<string>>, g: Group) {
    && |before| == |cs| && |after| == |cs|
    && forall j {:trigger StampedBy(cs[j], before[j], g)} :: 0 <= j < |cs| ==> after[j] == StampedBy(cs[j], before[j], g)
  }

  /** The matched_on values the scan over group g leaves behind. */
  ghost function StampAll(cs: seq<Option<Classified>>, before: seq<Option<string>>, g: Group): (after: seq<Option<string>>)
    requires |before| == |cs|
    ensures Stamps(cs, before, after, g)
  {
    seq(|cs|, j requires 0 <= j < |cs| => StampedBy(cs[j], before[j], g))
  }

  /** The matched_on of every record. */
  ghost function MatchedOns(recs: seq<GeoRecord>): (ms: seq<Option<string>>)
    reads recs
    ensures |ms| == |recs| && forall j :: 0 <= j < |recs| ==> ms[j] == recs[j].matchedOn
  {
    seq(|recs|, j requires 0 <= j < |recs| reads recs => recs[j].matchedOn)
  }

  /** The hits of the scan over group g, read off the classification of every place. */
  function HitsOf(cs: seq<Option<Classified>>, g: Group): (hs: seq<Hit>)
    ensures forall k :: 0 <= k < |hs| ==> hs[k].index < |cs|
    decreases |cs|
  {
    if cs == [] then []
    else
      var n := |cs| - 1;
      if cs[n].Some? && cs[n].value.group == g then HitsOf(cs[..n], g) + [Hit(n, cs[n].value.matchedOn)]
      else HitsOf(cs[..n], g)
  }

  lemma HitsOfStep(cs: seq<Option<Classified>>, g: Group, i: nat)
    requires i < |cs|
    ensures HitsOf(cs[..i + 1], g)
            == if cs[i].Some? && cs[i].value.group == g then HitsOf(cs[..i], g) + [Hit(i, cs[i].value.matchedOn)] else HitsOf(cs[..i], g)
  {
    assert cs[..i + 1][..i] == cs[..i];
  }

  lemma {:induction false} HitsOfIndexIff(cs: seq<Option<Classified>>, g: Group, i: nat)
    requires i < |cs|
    ensures HasIndex(HitsOf(cs, g), i) <==> cs[i].Some? && cs[i].value.group == g
    decreases |cs|
  {
    var hs := HitsOf(cs, g);
    var n := |cs| - 1;
    if i < n {
      assert cs[..n][i] == cs[i];
      HitsOfIndexIff(cs[..n], g, i);
      HasIndexConcat(HitsOf(cs[..n], g), [Hit(n, if cs[n].Some? then cs[n].value.matchedOn else [])], i);
    } else if cs[i].Some? && cs[i].value.group == g {
      assert hs[|hs| - 1].index == i;
    }
  }

  /** Read off the classification, the scans are the scans of Search. */
  lemma {:induction false} HitsOfClassification(ps: seq<Place>, pat: Pattern, cs: seq<Option<Classified>>, g: Group)
    requires ClassifiesAll(ps, pat, cs)
    ensures HitsOf(cs, g) == Hits(ps, pat, g)
    decreases |ps|
  {
    if ps != [] {
      var n := |ps| - 1;
      assert cs[n] == Classify(ps[n], pat);
      forall j | 0 <= j < n ensures cs[..n][j] == Classify(ps[..n][j], pat) {
        assert cs[j] == Classify(ps[j], pat);
      }
      HitsOfClassification(ps[..n], pat, cs[..n], g);
    }
  }

  /** `point not in candidates` in the second scan: the first scan did not take the record. */
  lemma InFirstScanIff(points: seq<GeoRecord>, cs: seq<Option<Classified>>, rs: seq<GeoRecord>, i: nat)
    requires Distinct(points) && |cs| == |points| && i < |points|
    requires Picks(rs, points, HitsOf(cs, Primary))
    ensures points[i] in rs <==> cs[i].Some? && cs[i].value.group == Primary
  {
    InPicksIff(rs, points, HitsOf(cs, Primary), i);
    HitsOfIndexIff(cs, Primary, i);
  }

  /** `point not in candidates` in the third scan: neither earlier scan took the record. */
  lemma InEarlierScansIff(points: seq<GeoRecord>, cs: seq<Option<Classified>>, rs: seq<GeoRecord>, i: nat)
    requires Distinct(points) && |cs| == |points| && i < |points|
    requires Picks(rs, points, HitsOf(cs, Primary) + HitsOf(cs, Ascii) + HitsOf(cs[..i], Alternate))
    ensures points[i] in rs <==> cs[i].Some? && cs[i].value.group != Alternate
  {
    var a, b, c := HitsOf(cs, Primary), HitsOf(cs, Ascii), HitsOf(cs[..i], Alternate);
    InPicksIff(rs, points, a + b + c, i);
    HasIndexConcat(a + b, c, i);
    HasIndexConcat(a, b, i);
    HitsOfIndexIff(cs, Primary, i);
    HitsOfIndexIff(cs, Ascii, i);
    assert !HasIndex(c, i);
  }

  /** The first scan's test at place i: the primary name matches. */
  lemma PrimaryStep(ps: seq<Place>, pat: Pattern, cs: seq<Option<Classified>>, i: nat)
    requires ClassifiesAll(ps, pat, cs) && i < |ps| && ps[i].name.Some?
    ensures Matches(pat, ps[i].name.value) <==> cs[i].Some? && cs[i].value.group == Primary
    ensures cs[i].Some? && cs[i].value.group == Primary ==> cs[i].value.matchedOn == ps[i].name.value
  {
    assert cs[i] == Classify(ps[i], pat);
  }

  /** The second scan's test at place i: the ASCII name matches and the first scan did not take the place. */
  lemma AsciiStep(ps: seq<Place>, pat: Pattern, cs: seq<Option<Classified>>, i: nat)
    requires ClassifiesAll(ps, pat, cs) && i < |ps| && ps[i].name.Some? && ps[i].asciiName.Some?
    ensures Matches(pat, ps[i].asciiName.value) && !(cs[i].Some? && cs[i].value.group == Primary)
            <==> cs[i].Some? && cs[i].value.group == Ascii
    ensures cs[i].Some? && cs[i].value.group == Ascii ==> cs[i].value.matchedOn == ps[i].asciiName.value
  {
    assert cs[i] == Classify(ps[i], pat);
  }

  /** The third scan's test at place i: an alternate name matches and neither earlier scan took the place. */
  lemma AlternateStep(ps: seq<Place>, pat: Pattern, cs: seq<Option<Classified>>, i: nat)
    requires ClassifiesAll(ps, pat, cs) && i < |ps| && ps[i].name.Some? && ps[i].asciiName.Some?
    ensures FirstMatchIn(ps[i].alternateNames, pat).Some? && !(cs[i].Some? && cs[i].value.group != Alternate)
            <==> cs[i].Some? && cs[i].value.group == Alternate
    ensures cs[i].Some? && cs[i].value.group == Alternate ==>
              cs[i].value.matchedOn == FirstMatchIn(ps[i].alternateNames, pat).value
  {
    assert cs[i] == Classify(ps[i], pat);
  }

  /** One pass of the first loop, at the record points[i], whose name is set. */
  method NameAt(points: seq<GeoRecord>, candidates: seq<GeoRecord>, pattern: Pattern, i: nat,
                ghost ps: seq<Place>, ghost cs: seq<Option<Classified>>, ghost before: seq<Option<string>>, ghost after: seq<Option<string>>)
    returns (candidates': seq<GeoRecord>)
    requires Describes(points, ps) && ClassifiesAll(ps, pattern, cs)
    requires i < |points| == |before| == |after| && ps[i].name.Some?
    requires Picks(candidates, points, HitsOf(cs[..i], Primary))
    requires points[i].matchedOn == before[i] && after[i] == StampedBy(cs[i], before[i], Primary)
    modifies points[i]
    ensures Picks(candidates', points, HitsOf(cs[..i + 1], Primary))
    ensures points[i].matchedOn == after[i]
  {
    candidates' := candidates;
    var point := points[i];
    PrimaryStep(ps, pattern, cs, i);
    assert [] + HitsOf(cs[..i], Primary) == HitsOf(cs[..i], Primary);
    assert [] + HitsOf(cs[..i + 1], Primary) == HitsOf(cs[..i + 1], Primary);
    PicksScanStep(candidates, points, [], cs, Primary, i);
    if Matches(pattern, point.place.name.value) {
      var found := point.AddMatchedOn(point.place.name.value);
      candidates' := candidates + [found];
    }
  }

  /**
   * The first loop of find_by_name: every record whose primary name matches,
   * in index order, annotated with that name. A missing name makes
   * pattern.match raise, after the records before it were annotated.
   */
  method ScanNames(points: seq<GeoRecord>, pattern: Pattern,
                   ghost ps: seq<Place>, ghost cs: seq<Option<Classified>>, ghost before: seq<Option<string>>, ghost after: seq<Option<string>>)
    returns (r: Result<seq<GeoRecord>, Failure>)
    requires Describes(points, ps) && Distinct(points) && ClassifiesAll(ps, pattern, cs)
    requires Stamps(cs, before, after, Primary) && forall j :: 0 <= j < |points| ==> points[j].matchedOn == before[j]
    modifies points
    ensures r.Err? ==> exists i :: && 0 <= i < |ps| && ps[i].name.None?
                                   && (forall j :: 0 <= j < i ==> ps[j].name.Some? && points[j].matchedOn == after[j])
                                   && (forall j :: i <= j < |points| ==> points[j].matchedOn == before[j])
    ensures r.Ok? ==> forall j :: 0 <= j < |ps| ==> ps[j].name.Some?
    ensures r.Err? ==> r.error == Unhandled(MatchOnMissingName)
    ensures r.Ok? ==> Picks(r.value, points, HitsOf(cs, Primary))
    ensures forall j :: 0 <= j < |points| ==> points[j].matchedOn == before[j] || points[j].matchedOn == after[j]
    ensures r.Ok? ==> forall j :: 0 <= j < |points| ==> points[j].matchedOn == after[j]
  {
    var candidates: seq<GeoRecord> := [];
    var i := 0;
    while i < |points| && points[i].place.name.Some?
      invariant 0 <= i <= |points|
      invariant forall j :: 0 <= j < i ==> ps[j].name.Some?
      invariant Picks(candidates, points, HitsOf(cs[..i], Primary))
      invariant forall j :: 0 <= j < i ==> points[j].matchedOn == after[j]
      invariant forall j :: i <= j < |points| ==> points[j].matchedOn == before[j]
    {
      candidates := NameAt(points, candidates, pattern, i, ps, cs, before, after);
      i := i + 1;
    }
    if i < |points| {
      assert ps[i].name.None?;
      return Err(Unhandled(MatchOnMissingName));
    }
    assert cs[..i] == cs;
    return Ok(candidates);
  }

  /** One pass of the second loop, at the record points[i], whose ASCII name is set. */
  method AsciiAt(points: seq<GeoRecord>, candidates: seq<GeoRecord>, asciiMatches: seq<GeoRecord>, pattern: Pattern, i: nat,
                 ghost ps: seq<Place>, ghost cs: seq<Option<Classified>>, ghost before: seq<Option<string>>, ghost after: seq<Option<string>>)
    returns (asciiMatches': seq<GeoRecord>)
    requires Describes(points, ps) && Distinct(points) && ClassifiesAll(ps, pattern, cs)
    requires i < |points| == |before| == |after| && ps[i].name.Some? && ps[i].asciiName.Some?
    requires Picks(candidates, points, HitsOf(cs, Primary))
    requires Picks(asciiMatches, points, HitsOf(cs[..i], Ascii))
    requires points[i].matchedOn == before[i] && after[i] == StampedBy(cs[i], before[i], Ascii)
    modifies points[i]
    ensures Picks(asciiMatches', points, HitsOf(cs[..i + 1], Ascii))
    ensures points[i].matchedOn == after[i]
  {
    asciiMatches' := asciiMatches;
    var point := points[i];
    InFirstScanIff(points, cs, candidates, i);
    AsciiStep(ps, pattern, cs, i);
    assert [] + HitsOf(cs[..i], Ascii) == HitsOf(cs[..i], Ascii);
    assert [] + HitsOf(cs[..i + 1], Ascii) == HitsOf(cs[..i + 1], Ascii);
    PicksScanStep(asciiMatches, points, [], cs, Ascii, i);
    if Matches(pattern, point.place.asciiName.value) && point !in candidates {
      var found := point.AddMatchedOn(point.place.asciiName.value);
      asciiMatches' := asciiMatches + [found];
    }
  }

  /**
   * The second loop: every record not found by the first whose ASCII name
   * matches, annotated with it. A missing ASCII name raises.
   */
  method ScanAsciiNames(points: seq<GeoRecord>, candidates: seq<GeoRecord>, pattern: Pattern,
                        ghost ps: seq<Place>, ghost cs: seq<Option<Classified>>, ghost before: seq<Option<string>>, ghost after: seq<Option<string>>)
    returns (r: Result<seq<GeoRecord>, Failure>)
    requires Describes(points, ps) && Distinct(points) && ClassifiesAll(ps, pattern, cs)
    requires forall j :: 0 <= j < |ps| ==> ps[j].name.Some?
    requires Picks(candidates, points, HitsOf(cs, Primary))
    requires Stamps(cs, before, after, Ascii) && forall j :: 0 <= j < |points| ==> points[j].matchedOn == before[j]
    modifies points
    ensures r.Err? ==> exists i :: && 0 <= i < |ps| && ps[i].asciiName.None?
                                   && (forall j :: 0 <= j < i ==> ps[j].asciiName.Some? && points[j].matchedOn == after[j])
                                   && (forall j :: i <= j < |points| ==> points[j].matchedOn == before[j])
    ensures r.Ok? ==> forall j :: 0 <= j < |ps| ==> ps[j].asciiName.Some?
    ensures r.Err? ==> r.error == Unhandled(MatchOnMissingName)
    ensures r.Ok? ==> Picks(r.value, points, HitsOf(cs, Ascii))
    ensures forall j :: 0 <= j < |points| ==> points[j].matchedOn == before[j] || points[j].matchedOn == after[j]
    ensures r.Ok? ==> forall j :: 0 <= j < |points| ==> points[j].matchedOn == after[j]
  {
    var asciiMatches: seq<GeoRecord> := [];
    var i := 0;
    while i < |points| && points[i].place.asciiName.Some?
      invariant 0 <= i <= |points|
      invariant forall j :: 0 <= j < i ==> ps[j].asciiName.Some?
      invariant Picks(asciiMatches, points, HitsOf(cs[..i], Ascii))
      invariant forall j :: 0 <= j < i ==> points[j].matchedOn == after[j]
      invariant forall j :: i <= j < |points| ==> points[j].matchedOn == before[j]
    {
      asciiMatches := AsciiAt(points, candidates, asciiMatches, pattern, i, ps, cs, before, after);
      i := i + 1;
    }
    if i < |points| {
      assert ps[i].asciiName.None?;
      return Err(Unhandled(MatchOnMissingName));
    }
    assert cs[..i] == cs;
    return Ok(asciiMatches);
  }

  /** One pass of the third loop, at the record points[i]. */
  method AlternateAt(points: seq<GeoRecord>, r: seq<GeoRecord>, pattern: Pattern, i: nat,
                     ghost ps: seq<Place>, ghost cs: seq<Option<Classified>>, ghost found: seq<Hit>,
                     ghost before: seq<Option<string>>, ghost after: seq<Option<string>>)
    returns (r': seq<GeoRecord>)
    requires Describes(points, ps) && Distinct(points) && ClassifiesAll(ps, pattern, cs)
    requires forall j :: 0 <= j < |ps| ==> ps[j].name.Some? && ps[j].asciiName.Some?
    requires found == HitsOf(cs, Primary) + HitsOf(cs, Ascii)
    requires i < |points| == |before| == |after|
    requires Picks(r, points, found + HitsOf(cs[..i], Alternate))
    requires points[i].matchedOn == before[i] && after[i] == StampedBy(cs[i], before[i], Alternate)
    modifies points[i]
    ensures Picks(r', points, found + HitsOf(cs[..i + 1], Alternate))
    ensures points[i].matchedOn == after[i]
  {
    r' := r;
    var point := points[i];
    var altNameMatch := MatchInList(point.place.alternateNames, pattern);
    AlternateStep(ps, pattern, cs, i);
    InEarlierScansIff(points, cs, r, i);
    PicksScanStep(r, points, found, cs, Alternate, i);
    if altNameMatch.Some? && point !in r {
      var record := point.AddMatchedOn(altNameMatch.value);
      r' := r + [record];
    }
  }

  /**
   * The third loop: every record found by neither earlier scan with a
   * matching alternate name, annotated with the first such name and appended
   * to the candidates.
   */
  method ScanAlternateNames(points: seq<GeoRecord>, candidates: seq<GeoRecord>, pattern: Pattern,
                            ghost ps: seq<Place>, ghost cs: seq<Option<Classified>>, ghost before: seq<Option<string>>, ghost after: seq<Option<string>>)
    returns (r: seq<GeoRecord>)
    requires Describes(points, ps) && Distinct(points) && ClassifiesAll(ps, pattern, cs)
    requires forall j :: 0 <= j < |ps| ==> ps[j].name.Some? && ps[j].asciiName.Some?
    requires Picks(candidates, points, HitsOf(cs, Primary) + HitsOf(cs, Ascii))
    requires Stamps(cs, before, after, Alternate) && forall j :: 0 <= j < |points| ==> points[j].matchedOn == before[j]
    modifies points
    ensures Picks(r, points, HitsOf(cs, Primary) + HitsOf(cs, Ascii) + HitsOf(cs, Alternate))
    ensures forall j :: 0 <= j < |points| ==> points[j].matchedOn == after[j]
  {
    ghost var found := HitsOf(cs, Primary) + HitsOf(cs, Ascii);
    r := candidates;
    var i := 0;
    while i < |points|
      invariant 0 <= i <= |points|
      invariant Picks(r, points, found + HitsOf(cs[..i], Alternate))
      invariant forall j :: 0 <= j < i ==> points[j].matchedOn == after[j]
      invariant forall j :: i <= j < |points| ==> points[j].matchedOn == before[j]
    {
      r := AlternateAt(points, r, pattern, i, ps, cs, found, before, after);
      i := i + 1;
    }
    assert cs[..i] == cs;
  }

  /** The scan over group g sets no matched_on to anything but one of the place's own names. */
  lemma StampsKeepLabels(ps: seq<Place>, pat: Pattern, cs: seq<Option<Classified>>,
                         before: seq<Option<string>>, after: seq<Option<string>>, g: Group)
    requires ClassifiesAll(ps, pat, cs) && Stamps(cs, before, after, g)
    requires forall j :: 0 <= j < |ps| ==> LabelOk(ps[j], before[j])
    ensures forall j :: 0 <= j < |ps| ==> LabelOk(ps[j], after[j])
  {
    forall j | 0 <= j < |ps|
      ensures LabelOk(ps[j], after[j])
    {
      assert cs[j] == Classify(ps[j], pat);
      assert after[j] == StampedBy(cs[j], before[j], g);
    }
  }

  /** Records whose matched_on is one of two valid labels keep LabelsOk. */
  lemma KeepsLabels(points: seq<GeoRecord>, ps: seq<Place>, before: seq<Option<string>>, after: seq<Option<string>>)
    requires Describes(points, ps) && |before| == |after| == |points|
    requires forall j :: 0 <= j < |ps| ==> LabelOk(ps[j], before[j]) && LabelOk(ps[j], after[j])
    requires forall j :: 0 <= j < |points| ==> points[j].matchedOn == before[j] || points[j].matchedOn == after[j]
    ensures LabelsOk(points)
  {
  }

  /**
   * Once the three scans are done, their hits are the expected hits; every
   * hit's record carries the hit's name and every other record the
   * matched_on it had before the query.
   */
  lemma ScansAreExpected(ps: seq<Place>, pat: Pattern, cs: seq<Option<Classified>>,
                         m0: seq<Option<string>>, m1: seq<Option<string>>, m2: seq<Option<string>>, m3: seq<Option<string>>)
    requires ClassifiesAll(ps, pat, cs)
    requires Stamps(cs, m0, m1, Primary) && Stamps(cs, m1, m2, Ascii) && Stamps(cs, m2, m3, Alternate)
    ensures HitsOf(cs, Primary) + HitsOf(cs, Ascii) + HitsOf(cs, Alternate) == Expected(ps, pat)
    ensures forall k :: 0 <= k < |Expected(ps, pat)| ==>
              m3[Expected(ps, pat)[k].index] == Some(Expected(ps, pat)[k].matchedOn)
    ensures forall j :: 0 <= j < |ps| && !HasIndex(Expected(ps, pat), j) ==> m3[j] == m0[j]
  {
    HitsOfClassification(ps, pat, cs, Primary);
    HitsOfClassification(ps, pat, cs, Ascii);
    HitsOfClassification(ps, pat, cs, Alternate);
    var e := Expected(ps, pat);
    ExpectedHitsAreClassified(ps, pat);
    forall k | 0 <= k < |e|
      ensures m3[e[k].index] == Some(e[k].matchedOn)
    {
      var j := e[k].index;
      assert cs[j] == Classify(ps[j], pat);
      assert m1[j] == StampedBy(cs[j], m0[j], Primary);
      assert m2[j] == StampedBy(cs[j], m1[j], Ascii);
      assert m3[j] == StampedBy(cs[j], m2[j], Alternate);
    }
    forall j | 0 <= j < |ps| && !HasIndex(e, j)
      ensures m3[j] == m0[j]
    {
      assert cs[j] == Classify(ps[j], pat);
      ExpectedComplete(ps, pat, j);
      ClassifiedIffAnyNameMatches(ps[j], pat);
      assert m1[j] == StampedBy(cs[j], m0[j], Primary);
      assert m2[j] == StampedBy(cs[j], m1[j], Ascii);
      assert m3[j] == StampedBy(cs[j], m2[j], Alternate);
    }
  }

  /** The load loop of GeoDB(file): a fresh GeoRecord for every row that converts, in row order. */
  method LoadRecords(rows: seq<Row>, convert: Conversion) returns (points: seq<GeoRecord>)
    ensures Describes(points, Loaded(rows, convert))
    ensures Distinct(points)
    ensures forall k :: 0 <= k < |points| ==> fresh(points[k]) && points[k].matchedOn.None?
  {
    points := [];
    ghost var loaded: seq<Place> := [];
    var i := 0;
    while i < |rows|
      invariant 0 <= i <= |rows|
      invariant loaded == Loaded(rows[..i], convert)
      invariant Describes(points, loaded)
      invariant Distinct(points)
      invariant forall k :: 0 <= k < |points| ==> fresh(points[k]) && points[k].matchedOn.None?
    {
      LoadedStep(rows, convert, i);
      var parsed := convert(rows[i]);
      if parsed.Ok? {
        var record := new GeoRecord(parsed.value);
        points := points + [record];
        loaded := loaded + [parsed.value];
      }
      i := i + 1;
    }
    assert rows[..i] == rows;
  }

  /**
   * The classification of every place and the matched_on values after each
   * of the three scans, with what is known of them: each scan keeps every
   * matched_on one of its record's names, and after the last one the hits of
   * Expected carry their names while every other record keeps its own.
   */
  lemma PlanScans(ps: seq<Place>, pat: Pattern, m0: seq<Option<string>>)
    returns (cs: seq<Option<Classified>>, m1: seq<Option<string>>, m2: seq<Option<string>>, m3: seq<Option<string>>)
    requires |m0| == |ps| && forall j :: 0 <= j < |ps| ==> LabelOk(ps[j], m0[j])
    ensures ClassifiesAll(ps, pat, cs)
    ensures Stamps(cs, m0, m1, Primary) && Stamps(cs, m1, m2, Ascii) && Stamps(cs, m2, m3, Alternate)
    ensures forall j :: 0 <= j < |ps| ==> LabelOk(ps[j], m1[j]) && LabelOk(ps[j], m2[j]) && LabelOk(ps[j], m3[j])
    ensures HitsOf(cs, Primary) + HitsOf(cs, Ascii) + HitsOf(cs, Alternate) == Expected(ps, pat)
    ensures forall k :: 0 <= k < |Expected(ps, pat)| ==>
              m3[Expected(ps, pat)[k].index] == Some(Expected(ps, pat)[k].matchedOn)
    ensures forall j :: 0 <= j < |ps| && !HasIndex(Expected(ps, pat), j) ==> m3[j] == m0[j]
  {
    cs := seq(|ps|, j requires 0 <= j < |ps| => Classify(ps[j], pat));
    assert ClassifiesAll(ps, pat, cs);
    m1 := StampAll(cs, m0, Primary);
    m2 := StampAll(cs, m1, Ascii);
    m3 := StampAll(cs, m2, Alternate);
    StampsKeepLabels(ps, pat, cs, m0, m1, Primary);
    StampsKeepLabels(ps, pat, cs, m1, m2, Ascii);
    StampsKeepLabels(ps, pat, cs, m2, m3, Alternate);
    ScansAreExpected(ps, pat, cs, m0, m1, m2, m3);
  }

  /**
   * The three loops of find_by_name, for a query that compiled to pattern:
   * the expected hits, each record with matched_on set to the name that
   * matched; records not returned keep whatever matched_on they had. A
   * missing name or ASCII name raises.
   */
  method MatchRecords(points: seq<GeoRecord>, pattern: Pattern) returns (r: Result<seq<GeoRecord>, Failure>)
    requires Distinct(points) && LabelsOk(points)
    modifies points
    ensures LabelsOk(points)
    ensures r.Err? <==> SomeNameMissing(PlacesOf(points))
    ensures r.Err? ==> r.error == Unhandled(MatchOnMissingName)
    ensures var e := Expected(PlacesOf(points), pattern);
            r.Ok? ==> && Picks(r.value, points, e)
                      && (forall k :: 0 <= k < |r.value| ==> r.value[k].matchedOn == Some(e[k].matchedOn))
                      && (forall i :: 0 <= i < |points| && !HasIndex(e, i) ==>
                            points[i].matchedOn == old(points[i].matchedOn))
  {
    ghost var ps := PlacesOf(points);
    ghost var m0 := MatchedOns(points);
    assert forall j :: 0 <= j < |ps| ==> LabelOk(ps[j], m0[j]);
    ghost var cs, m1, m2, m3 := PlanScans(ps, pattern, m0);

    var byName := ScanNames(points, pattern, ps, cs, m0, m1);
    if byName.Err? {
      KeepsLabels(points, ps, m0, m1);
      return Err(byName.error);
    }
    var candidates := byName.value;
    var byAscii := ScanAsciiNames(points, candidates, pattern, ps, cs, m1, m2);
    if byAscii.Err? {
      KeepsLabels(points, ps, m1, m2);
      return Err(byAscii.error);
    }
    var asciiMatches := byAscii.value;
    PicksAppend(candidates, asciiMatches, points, HitsOf(cs, Primary), HitsOf(cs, Ascii));
    candidates := ScanAlternateNames(points, candidates + asciiMatches, pattern, ps, cs, m2, m3);

    KeepsLabels(points, ps, m3, m3);
    return Ok(candidates);
  }

  class GeoDB {
    var geoPoints: seq<GeoRecord>

    /** No record appears twice, and each record's matched_on is unset or one of its own names. */
    ghost predicate Valid()
      reads this, geoPoints
    {
      Distinct(geoPoints) && LabelsOk(geoPoints)
    }

    /**
     * GeoDB(file): a GeoRecord for every row whose conversion succeeds, in row
     * order; a row whose conversion raises is skipped and the load goes on.
     */
    constructor (rows: seq<Row>, parsers: Parsers)
      ensures Valid()
      ensures PlacesOf(geoPoints) == Loaded(rows, RecordConversion(parsers))
      ensures forall i :: 0 <= i < |geoPoints| ==> fresh(geoPoints[i]) && geoPoints[i].matchedOn.None?
    {
      var points := LoadRecords(rows, RecordConversion(parsers));
      geoPoints := points;
    }

    /**
     * find_by_name(prefix): the hits of Search, as records of this index,
     * each with matched_on set to the name that matched; records not returned
     * keep whatever matched_on an earlier query left on them.
     */
    method FindByName(prefix: string, compiles: string -> bool) returns (r: Result<seq<GeoRecord>, Failure>)
      requires Valid()
      modifies geoPoints
      ensures Valid()
      ensures var s := Search.Search(PlacesOf(geoPoints), prefix, compiles);
              (r.Err? <==> s.Err?) && (r.Err? ==> r.error == s.error)
      ensures r.Err? && r.error.QueryRejected? ==>
                forall i :: 0 <= i < |geoPoints| ==> geoPoints[i].matchedOn == old(geoPoints[i].matchedOn)
      ensures var s := Search.Search(PlacesOf(geoPoints), prefix, compiles);
              r.Ok? ==> && s.Ok?
                        && Picks(r.value, geoPoints, s.value)
                        && (forall k :: 0 <= k < |r.value| ==> r.value[k].matchedOn == Some(s.value[k].matchedOn))
                        && (forall i :: 0 <= i < |geoPoints| && !HasIndex(s.value, i) ==>
                              geoPoints[i].matchedOn == old(geoPoints[i].matchedOn))
      ensures r.Ok? ==> Distinct(r.value)
    {
      var query := Strip(prefix);
      var clean := Clean(query);
      if |clean| == 0 {
        return Err(QueryRejected(NewInvalidQuery(query + NotValidSearchTerm, None, None)));
      }
      if !compiles(clean) {
        return Err(QueryRejected(NewInvalidQuery(clean + NotValidSearchTerm, None, None)));
      }
      r := MatchRecords(geoPoints, Pattern(clean));
      if r.Ok? {
        ExpectedDistinct(PlacesOf(geoPoints), Pattern(clean));
        PicksDistinct(r.value, geoPoints, Expected(PlacesOf(geoPoints), Pattern(clean)));
      }
    }
  }
}
