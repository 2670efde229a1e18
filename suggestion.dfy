/**
 * geosuggest/api/controllers/SuggestionController.py: the candidates the
 * index finds for a place name, scored, and sorted from the highest score
 * down with Python's stable sort, so that equal scores keep evaluate's order.
 */
module SuggestionController {
  import opened Wrappers
  import opened Errors
  import opened Records
  import Search
  import opened GeoDb
  import opened ScoreController

  /** Ordered from the highest score down: no suggestion scores more than the one before it. */
  predicate SortedByScore(ss: seq<Suggestion>) {
    forall i :: 0 < i < |ss| ==> ss[i - 1].score >= ss[i].score
  }

  /** In a sorted sequence every suggestion scores at least as much as every later one. */
  lemma {:induction false} SortedIsOrdered(ss: seq<Suggestion>)
    requires SortedByScore(ss)
    ensures forall i, j :: 0 <= i < j < |ss| ==> ss[i].score >= ss[j].score
    decreases |ss|
  {
    if |ss| > 1 {
      var n := |ss| - 1;
      SortedIsOrdered(ss[..n]);
      assert forall i :: 0 <= i < n ==> ss[..n][i] == ss[i];
      forall i | 0 <= i < n
        ensures ss[i].score >= ss[n].score
      {
        assert ss[..n][i].score >= ss[..n][n - 1].score;
      }
    }
  }

  /**
   * Inserts s into a sequence sorted by score, after every suggestion that
   * scores at least as much.
   */
  function Insert(s: Suggestion, ss: seq<Suggestion>): (r: seq<Suggestion>)
    requires SortedByScore(ss)
    ensures SortedByScore(r)
    ensures multiset(r) == multiset(ss) + multiset{s}
    ensures r[0] == s || (ss != [] && r[0] == ss[0])
  {
    if ss == [] then [s]
    else if ss[0].score >= s.score then
      var rest := Insert(s, ss[1..]);
      ConsSorted(ss[0], rest);
      assert ss == [ss[0]] + ss[1..];
      [ss[0]] + rest
    else
      ConsSorted(s, ss);
      [s] + ss
  }

  lemma ConsSorted(x: Suggestion, ss: seq<Suggestion>)
    requires SortedByScore(ss) && (ss == [] || x.score >= ss[0].score)
    ensures SortedByScore([x] + ss)
  {
  }

  /**
   * sorted(..., key=lambda sugg: sugg['score'], reverse=True): the
   * suggestions from the highest score down, every suggestion kept.
   */
  function SortByScore(ss: seq<Suggestion>): (r: seq<Suggestion>)
    ensures SortedByScore(r)
    ensures multiset(r) == multiset(ss)
  {
    if ss == [] then []
    else
      var n := |ss| - 1;
      assert ss == ss[..n] + [ss[n]];
      Insert(ss[n], SortByScore(ss[..n]))
  }

  /** The suggestions that score exactly v, in their order. */
  function WithScore(ss: seq<Suggestion>, v: real): seq<Suggestion> {
    if ss == [] then []
    else (if ss[0].score == v then [ss[0]] else []) + WithScore(ss[1..], v)
  }

  lemma {:induction false} WithScoreConcat(a: seq<Suggestion>, b: seq<Suggestion>, v: real)
    ensures WithScore(a + b, v) == WithScore(a, v) + WithScore(b, v)
  {
    if a == [] {
      assert a + b == b;
    } else {
      var head := if a[0].score == v then [a[0]] else [];
      assert (a + b)[0] == a[0] && (a + b)[1..] == a[1..] + b;
      WithScoreConcat(a[1..], b, v);
      assert WithScore(a + b, v) == head + (WithScore(a[1..], v) + WithScore(b, v));
      assert WithScore(a, v) == head + WithScore(a[1..], v);
    }
  }

  /** Nothing in a sequence scoring below u scores u. */
  lemma {:induction false} WithScoreNone(ss: seq<Suggestion>, u: real)
    requires forall k :: 0 <= k < |ss| ==> ss[k].score < u
    ensures WithScore(ss, u) == []
  {
    if ss != [] {
      WithScoreNone(ss[1..], u);
    }
  }

  lemma WithScoreCons(x: Suggestion, xs: seq<Suggestion>, v: real)
    ensures WithScore([x] + xs, v) == (if x.score == v then [x] else []) + WithScore(xs, v)
  {
    assert ([x] + xs)[0] == x && ([x] + xs)[1..] == xs;
  }

  /** Insert puts s after every suggestion of the same score. */
  lemma {:induction false} InsertKeepsTies(s: Suggestion, ss: seq<Suggestion>, v: real)
    requires SortedByScore(ss)
    ensures WithScore(Insert(s, ss), v) == WithScore(ss, v) + (if s.score == v then [s] else [])
  {
    if ss == [] {
      WithScoreCons(s, [], v);
    } else if ss[0].score >= s.score {
      InsertKeepsTies(s, ss[1..], v);
      InsertBehindHeadKeepsTies(s, ss, v);
    } else {
      assert Insert(s, ss) == [s] + ss;
      InsertInFrontKeepsTies(s, ss, v);
    }
  }

  /** The step of InsertKeepsTies where s goes behind the head of ss. */
  lemma InsertBehindHeadKeepsTies(s: Suggestion, ss: seq<Suggestion>, v: real)
    requires SortedByScore(ss) && ss != [] && ss[0].score >= s.score
    requires WithScore(Insert(s, ss[1..]), v) == WithScore(ss[1..], v) + (if s.score == v then [s] else [])
    ensures WithScore(Insert(s, ss), v) == WithScore(ss, v) + (if s.score == v then [s] else [])
  {
    var head := if ss[0].score == v then [ss[0]] else [];
    var tail := if s.score == v then [s] else [];
    var rest := Insert(s, ss[1..]);
    assert Insert(s, ss) == [ss[0]] + rest;
    WithScoreCons(ss[0], rest, v);
    assert WithScore(ss, v) == head + WithScore(ss[1..], v);
    ConcatAssociates(head, WithScore(ss[1..], v), tail);
  }

  lemma ConcatAssociates(a: seq<Suggestion>, b: seq<Suggestion>, c: seq<Suggestion>)
    ensures a + (b + c) == (a + b) + c
  {
  }

  /** The step of InsertKeepsTies where s scores more than all of ss and goes in front. */
  lemma InsertInFrontKeepsTies(s: Suggestion, ss: seq<Suggestion>, v: real)
    requires SortedByScore(ss) && ss != [] && ss[0].score < s.score
    ensures WithScore([s] + ss, v) == WithScore(ss, v) + (if s.score == v then [s] else [])
  {
    SortedIsOrdered(ss);
    WithScoreCons(s, ss, v);
    if s.score == v {
      WithScoreNone(ss, s.score);
    }
  }

  lemma SplitLast(ss: seq<Suggestion>)
    requires ss != []
    ensures ss == ss[..|ss| - 1] + [ss[|ss| - 1]]
  {
  }

  /** The sort is stable: suggestions of equal score keep their relative order. */
  lemma {:induction false} SortIsStable(ss: seq<Suggestion>, v: real)
    ensures WithScore(SortByScore(ss), v) == WithScore(ss, v)
  {
    if ss != [] {
      var n := |ss| - 1;
      SortIsStable(ss[..n], v);
      InsertKeepsTies(ss[n], SortByScore(ss[..n]), v);
      SplitLast(ss);
      WithScoreConcat(ss[..n], [ss[n]], v);
    }
  }

  /** SortIsStable for every score at once. */
  lemma SortKeepsTies(ss: seq<Suggestion>)
    ensures forall v :: WithScore(SortByScore(ss), v) == WithScore(ss, v)
  {
    forall v
      ensures WithScore(SortByScore(ss), v) == WithScore(ss, v)
    {
      SortIsStable(ss, v);
    }
  }

  /**
   * get_suggestions: the index's find_by_name, then evaluate, then the sort
   * by score. An InvalidQuery (or any other failure of the search) ends the
   * request before anything is scored; a failure while scoring ends it
   * before anything is sorted. `candidates` are the records the search
   * returned.
   */
  method GetSuggestions(db: GeoDB, q: Query, compiles: string -> bool, c: Collaborators)
    returns (r: Result<seq<Suggestion>, Failure>, ghost candidates: seq<GeoRecord>)
    requires db.Valid()
    modifies db.geoPoints
    ensures db.Valid()
    ensures var s := Search.Search(PlacesOf(db.geoPoints), q.place, compiles);
            s.Err? ==> r == Err(s.error)
    ensures var s := Search.Search(PlacesOf(db.geoPoints), q.place, compiles);
            s.Ok? ==> && Picks(candidates, db.geoPoints, s.value)
                      && (forall k :: 0 <= k < |candidates| ==> candidates[k].matchedOn == Some(s.value[k].matchedOn))
                      && (r.Err? <==> Suggestions(q, candidates, c).Err?)
                      && (r.Err? ==> r.error == Suggestions(q, candidates, c).error)
                      && (r.Ok? ==> r.value == SortByScore(Suggestions(q, candidates, c).value))
    ensures r.Ok? ==> SortedByScore(r.value)
    ensures r.Ok? ==> multiset(r.value) == multiset(Suggestions(q, candidates, c).value)
    ensures r.Ok? ==> |r.value| == |candidates|
    ensures r.Ok? ==> forall v :: WithScore(r.value, v) == WithScore(Suggestions(q, candidates, c).value, v)
  {
    var found := db.FindByName(q.place, compiles);
    if found.Err? {
      return Err(found.error), [];
    }
    candidates := found.value;
    var scored := Evaluate(q, found.value, c);
    if scored.Err? {
      return Err(scored.error), candidates;
    }
    SuggestionsLength(q, candidates, c);
    SortKeepsTies(scored.value);
    r := Ok(SortByScore(scored.value));
  }
}
