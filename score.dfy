/**
 * geosuggest/api/controllers/ScoreController.py: the score of each candidate
 * record, 60% from how much its names resemble the query and 40% from how
 * close it lies to the caller's coordinates.
 *
 * The three library calls the controller makes are parameters: difflib's
 * SequenceMatcher(...).ratio(), geopy's geodesic distance in kilometres, and
 * the float('%.2f' % x) rounding of the final score.
 */
module ScoreController {
  import opened Wrappers
  import opened Dict
  import opened Errors
  import opened Records

  /** weights['name'] */
  const NameWeight: real := 0.6
  /** weights['proximity'] */
  const ProximityWeight: real := 0.4
  /** canada_us_diameter, in km */
  const CanadaUsDiameter: real := 6430.0

  /**
   * What ratio() raises when the name it compares against is missing: the
   * matcher is built without complaint, and ratio() then takes len(None).
   */
  const RatioOnMissingName: string := "TypeError: object of type 'NoneType' has no len()"
  /** What is left of an error geopy raises (a missing or out-of-range coordinate). */
  const DistanceFailed: string := "geopy could not measure the distance"

  /**
   * The library calls: `ratio(a, b)` is SequenceMatcher(a=a, b=b).ratio();
   * `distance(lat, lon, lat', lon')` is the geodesic distance in km, None when
   * geopy raises; `round` is float('%.2f' % x).
   */
  datatype Collaborators = Collaborators(
    ratio: (string, string) -> real,
    distance: (Option<real>, Option<real>, Option<real>, Option<real>) -> Option<real>,
    round: real -> real)

  /** difflib promises a ratio in [0, 1], and 1 for two equal strings. */
  ghost predicate RatioInRange(ratio: (string, string) -> real) {
    && (forall a, b :: 0.0 <= ratio(a, b) <= 1.0)
    && (forall s :: ratio(s, s) == 1.0)
  }

  /** A distance, when geopy gives one, is not negative. */
  ghost predicate DistanceNonNegative(distance: (Option<real>, Option<real>, Option<real>, Option<real>) -> Option<real>) {
    forall a, b, c, d :: distance(a, b, c, d).Some? ==> distance(a, b, c, d).value >= 0.0
  }

  /** Rounding to two decimals keeps [0, 1] within [0, 1] and leaves 1.0 as it is. */
  ghost predicate RoundingInRange(round: real -> real) {
    && (forall x :: 0.0 <= x <= 1.0 ==> 0.0 <= round(x) <= 1.0)
    && round(1.0) == 1.0
  }

  ghost predicate ValidCollaborators(c: Collaborators) {
    RatioInRange(c.ratio) && DistanceNonNegative(c.distance) && RoundingInRange(c.round)
  }

  /** The query a suggestion request carries: a place name and optional coordinates. */
  datatype Query = Query(place: string, latitude: Option<real>, longitude: Option<real>)

  /** Python truthiness of an optional float: present and non-zero. */
  predicate Truthy(x: Option<real>) {
    x.Some? && x.value != 0.0
  }

  /** evaluate_distance: `latitude or longitude` is truthy. */
  predicate UsesDistance(q: Query) {
    Truthy(q.latitude) || Truthy(q.longitude)
  }

  /** The largest element of a non-empty sequence, as Python's max(). */
  function Max(xs: seq<real>): (m: real)
    requires |xs| > 0
    ensures m in xs
    ensures forall k :: 0 <= k < |xs| ==> xs[k] <= m
  {
    if |xs| == 1 then xs[0]
    else
      var rest := Max(xs[1..]);
      assert forall k :: 1 <= k < |xs| ==> xs[k] == xs[1..][k - 1];
      if xs[0] >= rest then xs[0] else rest
  }

  /**
   * The names get_name_score compares the query against: name, ASCII name,
   * then every alternate name. SequenceMatcher raises on a missing name or
   * ASCII name.
   */
  function ComparedNames(p: Place): (r: Result<seq<string>, Failure>)
    ensures r.Ok? <==> p.name.Some? && p.asciiName.Some?
    ensures r.Ok? ==> r.value == NamesOf(p) && |r.value| >= 2
    ensures r.Err? ==> r.error == Unhandled(RatioOnMissingName)
  {
    if p.name.None? || p.asciiName.None? then Err(Unhandled(RatioOnMissingName))
    else Ok([p.name.value, p.asciiName.value] + (if p.alternateNames.Some? then p.alternateNames.value else []))
  }

  function Ratios(place: string, names: seq<string>, ratio: (string, string) -> real): (r: seq<real>)
    ensures |r| == |names|
    ensures forall k :: 0 <= k < |names| ==> r[k] == ratio(place, names[k])
  {
    seq(|names|, k requires 0 <= k < |names| => ratio(place, names[k]))
  }

  /** get_name_score: the best ratio over the compared names, scaled to [0, weight]. */
  function NameScore(place: string, p: Place, weight: real, ratio: (string, string) -> real): (r: Result<real, Failure>)
    ensures r.Ok? <==> ComparedNames(p).Ok?
  {
    var names :- ComparedNames(p);
    Ok(Max(Ratios(place, names, ratio)) * weight)
  }

  /** The best ratio is the ratio of one of the names, no name has a higher one, and it lies in [0, 1]. */
  lemma BestRatio(place: string, names: seq<string>, ratio: (string, string) -> real) returns (k: nat)
    requires RatioInRange(ratio) && |names| > 0
    ensures k < |names| && Max(Ratios(place, names, ratio)) == ratio(place, names[k])
    ensures forall n :: n in names ==> ratio(place, n) <= Max(Ratios(place, names, ratio))
    ensures 0.0 <= Max(Ratios(place, names, ratio)) <= 1.0
  {
    var rs := Ratios(place, names, ratio);
    k :| 0 <= k < |rs| && rs[k] == Max(rs);
    forall n | n in names
      ensures ratio(place, n) <= Max(rs)
    {
      var j :| 0 <= j < |names| && names[j] == n;
      assert rs[j] == ratio(place, n);
    }
  }

  /**
   * The name score evaluate uses is the name weight times the ratio of one of
   * the compared names, and no compared name has a higher ratio; it lies in
   * [0, NameWeight].
   */
  lemma NameScoreIsBestRatio(place: string, p: Place, ratio: (string, string) -> real)
    requires RatioInRange(ratio)
    requires p.name.Some? && p.asciiName.Some?
    ensures NameScore(place, p, NameWeight, ratio).Ok?
    ensures exists n :: n in NamesOf(p) && NameScore(place, p, NameWeight, ratio).value == ratio(place, n) * NameWeight
    ensures forall n :: n in NamesOf(p) ==> ratio(place, n) * NameWeight <= NameScore(place, p, NameWeight, ratio).value
    ensures 0.0 <= NameScore(place, p, NameWeight, ratio).value <= NameWeight
  {
    var names := ComparedNames(p).value;
    var m := Max(Ratios(place, names, ratio));
    assert NameScore(place, p, NameWeight, ratio).value == m * NameWeight;
    var k := BestRatio(place, names, ratio);
    assert names == NamesOf(p) && names[k] in names;
  }

  /** A candidate whose name is the query itself gets the whole name weight. */
  lemma ExactNameGetsFullWeight(place: string, p: Place, ratio: (string, string) -> real)
    requires RatioInRange(ratio)
    requires p.name == Some(place) && p.asciiName.Some?
    ensures NameScore(place, p, NameWeight, ratio) == Ok(NameWeight)
  {
    NameScoreIsBestRatio(place, p, ratio);
    assert place in NamesOf(p);
  }

  /** The proximity part for a distance d: weight at d = 0, down to 0 at the diameter and beyond. */
  function Proximity(d: real, weight: real): real {
    var score := weight - (d * weight) / CanadaUsDiameter;
    if score >= 0.0 then score else 0.0
  }

  /** get_proximity_score: geopy measures the distance, and the proximity part is scaled from it. */
  function ProximityScore(q: Query, p: Place, weight: real, c: Collaborators): (r: Result<real, Failure>)
    ensures r.Ok? <==> c.distance(q.latitude, q.longitude, p.latitude, p.longitude).Some?
    ensures r.Ok? ==> r.value == Proximity(c.distance(q.latitude, q.longitude, p.latitude, p.longitude).value, weight)
  {
    match c.distance(q.latitude, q.longitude, p.latitude, p.longitude)
    case None => Err(Unhandled(DistanceFailed))
    case Some(d) => Ok(Proximity(d, weight))
  }

  /** For a real distance the proximity part lies in [0, weight]; it is the whole weight at distance 0. */
  lemma ProximityBounds(d: real, weight: real)
    requires d >= 0.0 && weight >= 0.0
    ensures 0.0 <= Proximity(d, weight) <= weight
    ensures d == 0.0 ==> Proximity(d, weight) == weight
  {
  }

  /** The farther the candidate, the lower its proximity part. */
  lemma ProximityNonIncreasing(d1: real, d2: real, weight: real)
    requires 0.0 <= d1 <= d2 && weight >= 0.0
    ensures Proximity(d2, weight) <= Proximity(d1, weight)
  {
    assert d1 * weight <= d2 * weight;
  }

  /** A candidate at least the Canada-US diameter away gets nothing for proximity. */
  lemma FarCandidateGetsNoProximity(d: real, weight: real)
    requires d >= CanadaUsDiameter && weight >= 0.0
    ensures Proximity(d, weight) == 0.0
  {
    assert d * weight >= CanadaUsDiameter * weight;
  }

  /**
   * The unrounded score of one candidate: the name score, plus the whole
   * proximity weight when no coordinates were given, plus the proximity
   * part otherwise; a candidate exactly at the given coordinates scores 1.
   */
  function CandidateScore(q: Query, p: Place, c: Collaborators): (r: Result<real, Failure>)
    ensures r.Ok? ==> p.name.Some? && p.asciiName.Some?
  {
    var nameScore :- NameScore(q.place, p, NameWeight, c.ratio);
    if UsesDistance(q) then
      if p.latitude == q.latitude && p.longitude == q.longitude then Ok(1.0)
      else
        var proximity :- ProximityScore(q, p, ProximityWeight, c);
        Ok(nameScore + proximity)
    else Ok(nameScore + ProximityWeight)
  }

  /**
   * Scoring fails exactly when a name SequenceMatcher needs is missing, or
   * when geopy is asked for a distance it cannot measure.
   */
  lemma CandidateScoreFails(q: Query, p: Place, c: Collaborators)
    ensures CandidateScore(q, p, c).Err? <==>
      || p.name.None? || p.asciiName.None?
      || (UsesDistance(q) && !(p.latitude == q.latitude && p.longitude == q.longitude)
          && c.distance(q.latitude, q.longitude, p.latitude, p.longitude).None?)
    ensures p.name.None? || p.asciiName.None? ==> CandidateScore(q, p, c) == Err(Unhandled(RatioOnMissingName))
  {
  }

  /** Every score lies between 0 and 1. */
  lemma ScoreInUnitInterval(q: Query, p: Place, c: Collaborators)
    requires ValidCollaborators(c)
    requires CandidateScore(q, p, c).Ok?
    ensures 0.0 <= CandidateScore(q, p, c).value <= 1.0
  {
    NameScoreIsBestRatio(q.place, p, c.ratio);
    var d := c.distance(q.latitude, q.longitude, p.latitude, p.longitude);
    if d.Some? {
      ProximityBounds(d.value, ProximityWeight);
    }
  }

  /** With coordinates, a candidate exactly at them scores 1 whatever its name. */
  lemma ExactCoordinatesScoreOne(q: Query, p: Place, c: Collaborators)
    requires UsesDistance(q)
    requires p.name.Some? && p.asciiName.Some?
    requires p.latitude == q.latitude && p.longitude == q.longitude
    ensures CandidateScore(q, p, c) == Ok(1.0)
  {
  }

  /** Without coordinates, a candidate named exactly as the query scores 1. */
  lemma ExactNameScoresOneWithoutCoordinates(q: Query, p: Place, c: Collaborators)
    requires RatioInRange(c.ratio)
    requires !UsesDistance(q)
    requires p.name == Some(q.place) && p.asciiName.Some?
    ensures CandidateScore(q, p, c) == Ok(1.0)
  {
    ExactNameGetsFullWeight(q.place, p, c.ratio);
  }

  /** Without coordinates, every candidate gets its name score plus the whole proximity weight. */
  lemma NoCoordinatesAddsProximityWeight(q: Query, p: Place, c: Collaborators)
    requires !UsesDistance(q)
    ensures NameScore(q.place, p, NameWeight, c.ratio).Ok? ==>
      CandidateScore(q, p, c) == Ok(NameScore(q.place, p, NameWeight, c.ratio).value + ProximityWeight)
    ensures NameScore(q.place, p, NameWeight, c.ratio).Err? ==> CandidateScore(q, p, c).Err?
  {
  }

  /**
   * With coordinates, a candidate elsewhere gets its name score plus the
   * proximity part for the distance geopy measures.
   */
  lemma CoordinatesAddProximity(q: Query, p: Place, c: Collaborators, d: real)
    requires UsesDistance(q)
    requires !(p.latitude == q.latitude && p.longitude == q.longitude)
    requires c.distance(q.latitude, q.longitude, p.latitude, p.longitude) == Some(d)
    requires NameScore(q.place, p, NameWeight, c.ratio).Ok?
    ensures CandidateScore(q, p, c) == Ok(NameScore(q.place, p, NameWeight, c.ratio).value + Proximity(d, ProximityWeight))
  {
  }

  /** A positive distance leaves the proximity part strictly below its weight. */
  lemma ProximityBelowWeight(d: real, weight: real)
    requires d > 0.0 && weight > 0.0
    ensures Proximity(d, weight) < weight
  {
    assert d * weight > 0.0;
  }

  /**
   * With coordinates, a candidate at a positive distance from them scores
   * below 1, even with an exact name.
   */
  lemma DistantCandidateBelowOne(q: Query, p: Place, c: Collaborators, d: real)
    requires RatioInRange(c.ratio)
    requires UsesDistance(q)
    requires !(p.latitude == q.latitude && p.longitude == q.longitude)
    requires c.distance(q.latitude, q.longitude, p.latitude, p.longitude) == Some(d) && d > 0.0
    requires CandidateScore(q, p, c).Ok?
    ensures CandidateScore(q, p, c).value < 1.0
  {
    NameScoreIsBestRatio(q.place, p, c.ratio);
    ProximityBelowWeight(d, ProximityWeight);
    CoordinatesAddProximity(q, p, c, d);
  }

  /** Without coordinates, a candidate whose every compared name has a ratio below 1 scores below 1. */
  lemma PartialNameBelowOne(q: Query, p: Place, c: Collaborators)
    requires RatioInRange(c.ratio)
    requires !UsesDistance(q)
    requires p.name.Some? && p.asciiName.Some?
    requires forall n :: n in NamesOf(p) ==> c.ratio(q.place, n) < 1.0
    ensures CandidateScore(q, p, c).Ok? && CandidateScore(q, p, c).value < 1.0
  {
    NameScoreIsBestRatio(q.place, p, c.ratio);
  }

  /**
   * `latitude or longitude` is falsy for 0.0: coordinates (0, 0) are scored
   * as if none had been given, and every candidate gets the whole proximity
   * weight.
   */
  lemma ZeroCoordinatesCountAsNone(place: string, p: Place, c: Collaborators)
    ensures CandidateScore(Query(place, Some(0.0), Some(0.0)), p, c) == CandidateScore(Query(place, None, None), p, c)
    ensures NameScore(place, p, NameWeight, c.ratio).Ok? ==>
      CandidateScore(Query(place, Some(0.0), Some(0.0)), p, c) == Ok(NameScore(place, p, NameWeight, c.ratio).value + ProximityWeight)
  {
  }

  /** One entry of evaluate's result: to_dict(simple=True) of the candidate and its rounded score. */
  datatype Suggestion = Suggestion(entries: map<string, Value>, score: real)

  /** The dict evaluate builds: {**candidate.to_dict(simple=True), "score": score}. */
  function AsDict(s: Suggestion): (d: map<string, Value>)
    ensures d.Keys == s.entries.Keys + {"score"}
    ensures d["score"] == Real(s.score)
    ensures forall k :: k in s.entries && k != "score" ==> d[k] == s.entries[k]
  {
    s.entries["score" := Real(s.score)]
  }

  /** The suggestion evaluate makes of one candidate. */
  function Suggest(q: Query, candidate: GeoRecord, c: Collaborators): (r: Result<Suggestion, Failure>)
    reads candidate
    ensures r.Ok? <==> CandidateScore(q, candidate.place, c).Ok?
    ensures r.Ok? ==> r.value.score == c.round(CandidateScore(q, candidate.place, c).value)
    ensures r.Ok? ==> candidate.ShownName().Some? && r.value.entries == candidate.ToDict(true)
    ensures r.Ok? ==> AsDict(r.value).Keys == candidate.ToDict(true).Keys + {"score"}
    ensures r.Ok? ==> AsDict(r.value)["score"] == Real(c.round(CandidateScore(q, candidate.place, c).value))
  {
    var score :- CandidateScore(q, candidate.place, c);
    Ok(Suggestion(candidate.ToDict(true), c.round(score)))
  }

  /** The values of a sequence of results, or the first failure among them. */
  function Collect<T>(rs: seq<Result<T, Failure>>): (r: Result<seq<T>, Failure>) {
    if rs == [] then Ok([])
    else
      var n := |rs| - 1;
      var earlier :- Collect(rs[..n]);
      var last :- rs[n];
      Ok(earlier + [last])
  }

  /** Collect succeeds exactly when every result does, and then keeps their values in order. */
  lemma {:induction false} CollectPointwise<T>(rs: seq<Result<T, Failure>>)
    ensures Collect(rs).Ok? <==> forall k :: 0 <= k < |rs| ==> rs[k].Ok?
    ensures Collect(rs).Ok? ==> |Collect(rs).value| == |rs| && forall k :: 0 <= k < |rs| ==> Collect(rs).value[k] == rs[k].value
  {
    if rs != [] {
      var n := |rs| - 1;
      CollectPointwise(rs[..n]);
      assert forall k :: 0 <= k < n ==> rs[..n][k] == rs[k];
    }
  }

  /** When result i is the first failure, every longer prefix collects to that failure. */
  lemma {:induction false} CollectStopsAtFirstFailure<T>(rs: seq<Result<T, Failure>>, i: nat, j: nat)
    requires i < j <= |rs|
    requires Collect(rs[..i]).Ok? && rs[i].Err?
    ensures Collect(rs[..j]) == Err(rs[i].error)
  {
    if j == i + 1 {
      assert rs[..j][..i] == rs[..i];
    } else {
      CollectStopsAtFirstFailure(rs, i, j - 1);
      assert rs[..j][..j - 1] == rs[..j - 1];
    }
  }

  /** What scoring each candidate gives, in the candidates' order. */
  function Attempts(q: Query, candidates: seq<GeoRecord>, c: Collaborators): (r: seq<Result<Suggestion, Failure>>)
    reads candidates
    ensures |r| == |candidates|
    ensures forall k :: 0 <= k < |candidates| ==> r[k] == Suggest(q, candidates[k], c)
  {
    seq(|candidates|, k requires 0 <= k < |candidates| reads candidates => Suggest(q, candidates[k], c))
  }

  /** evaluate, as a value: the candidates' suggestions in order, or the first candidate's failure. */
  function Suggestions(q: Query, candidates: seq<GeoRecord>, c: Collaborators): (r: Result<seq<Suggestion>, Failure>)
    reads candidates
  {
    Collect(Attempts(q, candidates, c))
  }

  /** One suggestion per candidate, in the candidates' order, when every candidate can be scored. */
  lemma SuggestionsPointwise(q: Query, candidates: seq<GeoRecord>, c: Collaborators)
    ensures Suggestions(q, candidates, c).Ok? <==> forall k :: 0 <= k < |candidates| ==> Suggest(q, candidates[k], c).Ok?
    ensures Suggestions(q, candidates, c).Ok? ==>
      && |Suggestions(q, candidates, c).value| == |candidates|
      && forall k :: 0 <= k < |candidates| ==> Suggestions(q, candidates, c).value[k] == Suggest(q, candidates[k], c).value
  {
    CollectPointwise(Attempts(q, candidates, c));
  }

  /** Scoring gives as many suggestions as there are candidates. */
  lemma SuggestionsLength(q: Query, candidates: seq<GeoRecord>, c: Collaborators)
    ensures Suggestions(q, candidates, c).Ok? ==> |Suggestions(q, candidates, c).value| == |candidates|
  {
    SuggestionsPointwise(q, candidates, c);
  }

  /** Every suggestion's score lies between 0 and 1. */
  lemma SuggestionScoresInUnitInterval(q: Query, candidates: seq<GeoRecord>, c: Collaborators)
    requires ValidCollaborators(c)
    requires Suggestions(q, candidates, c).Ok?
    ensures forall s :: s in Suggestions(q, candidates, c).value ==> 0.0 <= s.score <= 1.0
  {
    SuggestionsPointwise(q, candidates, c);
    var ss := Suggestions(q, candidates, c).value;
    forall s | s in ss
      ensures 0.0 <= s.score <= 1.0
    {
      var k :| 0 <= k < |ss| && ss[k] == s;
      ScoreInUnitInterval(q, candidates[k].place, c);
    }
  }

  /**
   * evaluate: each candidate in turn gets its name score, then its proximity
   * part (or the exact-position score of 1), and a suggestion with the
   * rounded score; the first failure ends the loop.
   */
  method Evaluate(q: Query, candidates: seq<GeoRecord>, c: Collaborators) returns (r: Result<seq<Suggestion>, Failure>)
    ensures r == Suggestions(q, candidates, c)
  {
    if |candidates| == 0 {
      return Ok([]);
    }
    var evaluateDistance := Truthy(q.latitude) || Truthy(q.longitude);
    ghost var attempts := Attempts(q, candidates, c);
    var suggestions: seq<Suggestion> := [];
    for i := 0 to |candidates|
      invariant Collect(attempts[..i]) == Ok(suggestions)
    {
      var suggestion := ScoreCandidate(q, candidates[i], evaluateDistance, c);
      if suggestion.Err? {
        CollectStopsAtFirstFailure(attempts, i, |attempts|);
        assert attempts[..|attempts|] == attempts;
        return Err(suggestion.error);
      }
      suggestions := suggestions + [suggestion.value];
      assert attempts[..i + 1][..i] == attempts[..i];
    }
    assert attempts[..|attempts|] == attempts;
    r := Ok(suggestions);
  }

  /**
   * The body of evaluate's loop: the name score, then the exact-position
   * score of 1 or the proximity part (or the whole proximity weight without
   * coordinates), and the suggestion with the rounded score.
   */
  method ScoreCandidate(q: Query, candidate: GeoRecord, evaluateDistance: bool, c: Collaborators)
    returns (r: Result<Suggestion, Failure>)
    requires evaluateDistance == UsesDistance(q)
    ensures r == Suggest(q, candidate, c)
  {
    var nameScore := NameScore(q.place, candidate.place, NameWeight, c.ratio);
    if nameScore.Err? {
      return Err(nameScore.error);
    }
    assert candidate.place.name.Some?;
    var candidateScore := nameScore.value;
    if evaluateDistance {
      if candidate.place.latitude == q.latitude && candidate.place.longitude == q.longitude {
        candidateScore := 1.0;
      } else {
        var proximity := ProximityScore(q, candidate.place, ProximityWeight, c);
        if proximity.Err? {
          return Err(proximity.error);
        }
        candidateScore := candidateScore + proximity.value;
      }
    } else {
      candidateScore := candidateScore + ProximityWeight;
    }
    assert CandidateScore(q, candidate.place, c) == Ok(candidateScore);
    r := Ok(Suggestion(candidate.ToDict(true), c.round(candidateScore)));
  }
}
