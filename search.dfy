/**
 * The query side of GeoDB.find_by_name in geosuggest/geodb.py: trimming and
 * cleaning the query, the prefix pattern, match_in_list, and the value-level
 * specification of the three scans (primary name, ASCII name, alternate names).
 */
module Search {
  import opened Wrappers
  import opened Errors
  import opened Records

  /** Python's str.isspace() for one character. */
  predicate IsSpace(c: char) {
    c == ' ' || '\t' <= c <= '\r' || '\U{1C}' <= c <= '\U{1F}' || c == '\U{85}' || c == '\U{A0}'
    || c == '\U{1680}' || '\U{2000}' <= c <= '\U{200A}' || c == '\U{2028}' || c == '\U{2029}'
    || c == '\U{202F}' || c == '\U{205F}' || c == '\U{3000}'
  }

  /** The end of the run of whitespace that starts at i. */
  function SpacesFrom(s: string, i: nat): (j: nat)
    requires i <= |s|
    ensures i <= j <= |s|
    ensures forall k :: i <= k < j ==> IsSpace(s[k])
    ensures j == |s| || !IsSpace(s[j])
    decreases |s| - i
  {
    if i < |s| && IsSpace(s[i]) then SpacesFrom(s, i + 1) else i
  }

  /** The start of the run of whitespace that ends at j, going back no further than i. */
  function SpacesBefore(s: string, i: nat, j: nat): (e: nat)
    requires i <= j <= |s|
    ensures i <= e <= j
    ensures forall k :: e <= k < j ==> IsSpace(s[k])
    ensures e == i || !IsSpace(s[e - 1])
    decreases j
  {
    if i < j && IsSpace(s[j - 1]) then SpacesBefore(s, i, j - 1) else j
  }

  /**
   * str.strip(): the query without its leading and trailing whitespace; what
   * remains is a contiguous slice of the query.
   */
  function Strip(s: string): (r: string)
    ensures r == [] || (!IsSpace(r[0]) && !IsSpace(r[|r| - 1]))
    ensures var i := SpacesFrom(s, 0);
              i + |r| <= |s| && r == s[i..i + |r|]
              && (forall k :: 0 <= k < i ==> IsSpace(s[k]))
              && (forall k :: i + |r| <= k < |s| ==> IsSpace(s[k]))
  {
    var i := SpacesFrom(s, 0);
    var e := SpacesBefore(s, i, |s|);
    s[i..e]
  }

  /** The six characters find_by_name removes; none of them is alphanumeric. */
  const RegexCharacters: set<char> := {'*', '.', '[', ']', '\\', '/'}

  /**
   * ''.join(c for c in prefix if c.isalnum() or c not in regex_characters):
   * the query with the six characters removed, everything else kept in order.
   */
  function Clean(s: string): (r: string)
    ensures |r| <= |s|
    ensures forall i :: 0 <= i < |r| ==> r[i] !in RegexCharacters
    decreases |s|
  {
    if s == [] then []
    else (if s[0] in RegexCharacters then [] else [s[0]]) + Clean(s[1..])
  }

  /** The cleaned query is empty exactly when every character of the query is one of the six. */
  lemma {:induction false} CleanEmptyIff(s: string)
    ensures Clean(s) == [] <==> forall i :: 0 <= i < |s| ==> s[i] in RegexCharacters
    decreases |s|
  {
    if s != [] {
      CleanEmptyIff(s[1..]);
      assert forall i :: 1 <= i < |s| ==> s[i] == s[1..][i - 1];
    }
  }

  /** Cleaning a query without any of the six characters changes nothing. */
  lemma {:induction false} CleanKeepsOtherCharacters(s: string)
    requires forall i :: 0 <= i < |s| ==> s[i] !in RegexCharacters
    ensures Clean(s) == s
    decreases |s|
  {
    if s != [] {
      CleanKeepsOtherCharacters(s[1..]);
    }
  }

  /** Cleaning goes character by character: the cleaned concatenation is the concatenation of the cleaned parts. */
  lemma {:induction false} CleanAppend(a: string, b: string)
    ensures Clean(a + b) == Clean(a) + Clean(b)
    decreases |a|
  {
    if a == [] {
      assert a + b == b;
    } else {
      CleanAppend(a[1..], b);
      assert (a + b)[0] == a[0] && (a + b)[1..] == a[1..] + b;
    }
  }

  /** A single character is removed exactly when it is one of the six. */
  lemma CleanOneCharacter(c: char)
    ensures Clean([c]) == if c in RegexCharacters then [] else [c]
  {
    assert [c][1..] == [];
  }

  /** Cleaning twice is cleaning once. */
  lemma CleanIdempotent(s: string)
    ensures Clean(Clean(s)) == Clean(s)
  {
    CleanKeepsOtherCharacters(Clean(s));
  }

  /**
   * Cleaning happens after trimming: "* *" keeps its inner space, so it is
   * not rejected as empty, and no InvalidQuery is raised when " " compiles.
   */
  lemma StarSpaceStarCleansToSpace(ps: seq<Place>, compiles: string -> bool)
    ensures Strip("* *") == "* *"
    ensures Clean(Strip("* *")) == " "
    ensures compiles(" ") ==> !(Search(ps, "* *", compiles).Err? && Search(ps, "* *", compiles).error.QueryRejected?)
  {
    var s := "* *";
    assert s[0] == '*' && s[2] == '*' && !IsSpace('*');
    assert SpacesFrom(s, 0) == 0 && SpacesBefore(s, 0, 3) == 3;
    assert s[1..] == " *" && " *"[1..] == "*" && "*"[1..] == [];
    assert Clean("*") == [];
    assert Clean(" *") == " ";
  }

  /** The compiled query: a literal, anchored, ASCII case-insensitive prefix. */
  datatype Pattern = Pattern(text: string)

  /** pattern.match(target) succeeds */
  predicate Matches(p: Pattern, target: string) {
    |p.text| <= |target| && forall i :: 0 <= i < |p.text| ==> LowerAscii(p.text[i]) == LowerAscii(target[i])
  }

  predicate MatchesOpt(p: Pattern, target: Option<string>) {
    target.Some? && Matches(p, target.value)
  }

  /** A query matches its own text, whatever follows it. */
  lemma MatchesOwnPrefix(q: string, rest: string)
    ensures Matches(Pattern(q), q + rest)
  {
    assert forall i :: 0 <= i < |q| ==> (q + rest)[i] == q[i];
  }

  /** The first item the pattern matches, in list order. */
  function FirstMatch(items: seq<string>, p: Pattern): (r: Option<string>)
    ensures r.None? <==> forall i :: 0 <= i < |items| ==> !Matches(p, items[i])
    ensures r.Some? ==> exists i :: 0 <= i < |items| && items[i] == r.value && Matches(p, items[i])
                                    && forall j :: 0 <= j < i ==> !Matches(p, items[j])
    decreases |items|
  {
    if items == [] then None
    else if Matches(p, items[0]) then Some(items[0])
    else
      var r := FirstMatch(items[1..], p);
      assert forall i :: 1 <= i < |items| ==> items[i] == items[1..][i - 1];
      r
  }

  /** What match_in_list returns: None for a missing list, else the first matching item. */
  function FirstMatchIn(items: Option<seq<string>>, p: Pattern): Option<string> {
    if items.None? then None else FirstMatch(items.value, p)
  }

  /**
   * match_in_list: None for a non-list or an empty list; otherwise the first
   * item the pattern matches, or None when no item matches.
   */
  method MatchInList(items: Option<seq<string>>, pattern: Pattern) returns (r: Option<string>)
    ensures items.None? || items.value == [] ==> r.None?
    ensures r == FirstMatchIn(items, pattern)
  {
    if items.None? || |items.value| == 0 {
      return None;
    }
    var list := items.value;
    for i := 0 to |list|
      invariant forall j :: 0 <= j < i ==> !Matches(pattern, list[j])
    {
      if Matches(pattern, list[i]) {
        return Some(list[i]);
      }
    }
    return None;
  }

  /** The scan of find_by_name that finds a record. */
  datatype Group = Primary | Ascii | Alternate

  function Rank(g: Group): nat {
    match g
    case Primary => 0
    case Ascii => 1
    case Alternate => 2
  }

  /** The earliest scan a place qualifies for, and the name it is then annotated with. */
  datatype Classified = Classified(group: Group, matchedOn: string)

  /**
   * Which scan of find_by_name collects the place: the primary name when it
   * matches, else the ASCII name, else the first matching alternate name.
   */
  function Classify(p: Place, pat: Pattern): (c: Option<Classified>)
    ensures c.Some? ==> c.value.matchedOn in NamesOf(p) && Matches(pat, c.value.matchedOn)
    ensures c.Some? && c.value.group == Primary <==> MatchesOpt(pat, p.name)
    ensures c.Some? && c.value.group == Primary ==> c.value.matchedOn == p.name.value
    ensures c.Some? && c.value.group == Ascii <==> !MatchesOpt(pat, p.name) && MatchesOpt(pat, p.asciiName)
    ensures c.Some? && c.value.group == Ascii ==> c.value.matchedOn == p.asciiName.value
    ensures c.Some? && c.value.group == Alternate <==>
              !MatchesOpt(pat, p.name) && !MatchesOpt(pat, p.asciiName) && FirstMatchIn(p.alternateNames, pat).Some?
    ensures c.Some? && c.value.group == Alternate ==> Some(c.value.matchedOn) == FirstMatchIn(p.alternateNames, pat)
  {
    if MatchesOpt(pat, p.name) then Some(Classified(Primary, p.name.value))
    else if MatchesOpt(pat, p.asciiName) then Some(Classified(Ascii, p.asciiName.value))
    else match FirstMatchIn(p.alternateNames, pat)
      case Some(a) =>
        assert a in p.alternateNames.value;
        Some(Classified(Alternate, a))
      case None => None
  }

  /** Some name of the place (primary, ASCII or any alternate) matches the pattern. */
  predicate AnyNameMatches(p: Place, pat: Pattern) {
    MatchesOpt(pat, p.name) || MatchesOpt(pat, p.asciiName)
    || (p.alternateNames.Some? && exists j :: 0 <= j < |p.alternateNames.value| && Matches(pat, p.alternateNames.value[j]))
  }

  lemma ClassifiedIffAnyNameMatches(p: Place, pat: Pattern)
    ensures Classify(p, pat).Some? <==> AnyNameMatches(p, pat)
  {
  }

  /** One record found by find_by_name: its position in the index and its matched_on. */
  datatype Hit = Hit(index: nat, matchedOn: string)

  /** Some hit of hs is at index i of the index. */
  predicate HasIndex(hs: seq<Hit>, i: nat) {
    exists k :: 0 <= k < |hs| && hs[k].index == i
  }

  lemma HasIndexConcat(a: seq<Hit>, b: seq<Hit>, i: nat)
    ensures HasIndex(a + b, i) <==> HasIndex(a, i) || HasIndex(b, i)
  {
    if HasIndex(a + b, i) {
      var k :| 0 <= k < |a + b| && (a + b)[k].index == i;
      if k >= |a| { assert b[k - |a|] == (a + b)[k]; }
    }
    if HasIndex(a, i) {
      var k :| 0 <= k < |a| && a[k].index == i;
      assert (a + b)[k] == a[k];
    }
    if HasIndex(b, i) {
      var k :| 0 <= k < |b| && b[k].index == i;
      assert (a + b)[|a| + k] == b[k];
    }
  }

  /** The records one scan collects, in index order. */
  function Hits(ps: seq<Place>, pat: Pattern, g: Group): (hs: seq<Hit>)
    ensures forall k :: 0 <= k < |hs| ==>
              hs[k].index < |ps| && Classify(ps[hs[k].index], pat) == Some(Classified(g, hs[k].matchedOn))
    ensures forall k, l :: 0 <= k < l < |hs| ==> hs[k].index < hs[l].index
    decreases |ps|
  {
    if ps == [] then []
    else
      var n := |ps| - 1;
      var earlier := Hits(ps[..n], pat, g);
      var c := Classify(ps[n], pat);
      if c.Some? && c.value.group == g then earlier + [Hit(n, c.value.matchedOn)] else earlier
  }

  /** A scan collects a place exactly when the place's earliest scan is that one. */
  lemma HitsIndexIff(ps: seq<Place>, pat: Pattern, g: Group, i: nat)
    requires i < |ps|
    ensures HasIndex(Hits(ps, pat, g), i) <==> Classify(ps[i], pat).Some? && Classify(ps[i], pat).value.group == g
  {
    var c := Classify(ps[i], pat);
    if c.Some? && c.value.group == g {
      HitsCollectClassified(ps, pat, g, i);
    }
  }

  lemma {:induction false} HitsCollectClassified(ps: seq<Place>, pat: Pattern, g: Group, i: nat)
    requires i < |ps|
    requires Classify(ps[i], pat).Some? && Classify(ps[i], pat).value.group == g
    ensures HasIndex(Hits(ps, pat, g), i)
    decreases |ps|
  {
    var n := |ps| - 1;
    var hs := Hits(ps, pat, g);
    var earlier := Hits(ps[..n], pat, g);
    HitsGrow(ps, pat, g);
    if i == n {
      assert hs[|hs| - 1].index == i;
    } else {
      assert ps[..n][i] == ps[i];
      HitsCollectClassified(ps[..n], pat, g, i);
      var k :| 0 <= k < |earlier| && earlier[k].index == i;
      assert hs[k] == earlier[k];
    }
  }

  /** A scan over one more place collects what it collected before, and possibly that place. */
  lemma HitsGrow(ps: seq<Place>, pat: Pattern, g: Group)
    requires ps != []
    ensures var n := |ps| - 1;
            var c := Classify(ps[n], pat);
            Hits(ps, pat, g) == Hits(ps[..n], pat, g) + (if c.Some? && c.value.group == g then [Hit(n, c.value.matchedOn)] else [])
  {
  }

  /** find_by_name's result on an index whose names are all present: the three scans in turn. */
  function Expected(ps: seq<Place>, pat: Pattern): seq<Hit> {
    Hits(ps, pat, Primary) + Hits(ps, pat, Ascii) + Hits(ps, pat, Alternate)
  }

  /** Hit k of the result is found by the scan its place is classified into, with that matchedOn. */
  lemma ExpectedHitsAreClassified(ps: seq<Place>, pat: Pattern)
    ensures forall k :: 0 <= k < |Expected(ps, pat)| ==>
              var h := Expected(ps, pat)[k];
              h.index < |ps| && Classify(ps[h.index], pat).Some? && Classify(ps[h.index], pat).value.matchedOn == h.matchedOn
  {
    var a, b, c := Hits(ps, pat, Primary), Hits(ps, pat, Ascii), Hits(ps, pat, Alternate);
    assert Expected(ps, pat) == a + b + c;
    forall k | 0 <= k < |a + b + c|
      ensures var h := (a + b + c)[k]; h.index < |ps| && Classify(ps[h.index], pat).Some? && Classify(ps[h.index], pat).value.matchedOn == h.matchedOn
    {
      if k < |a| { assert (a + b + c)[k] == a[k]; }
      else if k < |a| + |b| { assert (a + b + c)[k] == b[k - |a|]; }
      else { assert (a + b + c)[k] == c[k - |a| - |b|]; }
    }
  }

  /** The scan a hit comes from. */
  function GroupOf(ps: seq<Place>, pat: Pattern, h: Hit): Group
    requires h.index < |ps| && Classify(ps[h.index], pat).Some?
  {
    Classify(ps[h.index], pat).value.group
  }

  /** Hit a comes before hit b: an earlier scan, or the same scan and an earlier record. */
  predicate Precedes(ga: Group, ia: nat, gb: Group, ib: nat) {
    Rank(ga) < Rank(gb) || (ga == gb && ia < ib)
  }

  /**
   * Order of the result: primary-name matches, then ASCII-name-only matches,
   * then alternate-name-only matches, each group in index order.
   */
  lemma ExpectedOrdered(ps: seq<Place>, pat: Pattern)
    ensures forall k :: 0 <= k < |Expected(ps, pat)| ==>
              Expected(ps, pat)[k].index < |ps| && Classify(ps[Expected(ps, pat)[k].index], pat).Some?
    ensures forall k, l :: 0 <= k < l < |Expected(ps, pat)| ==>
              var e := Expected(ps, pat);
              Precedes(GroupOf(ps, pat, e[k]), e[k].index, GroupOf(ps, pat, e[l]), e[l].index)
  {
    ExpectedHitsAreClassified(ps, pat);
    var a, b, c := Hits(ps, pat, Primary), Hits(ps, pat, Ascii), Hits(ps, pat, Alternate);
    var e := a + b + c;
    assert Expected(ps, pat) == e;
    forall k, l | 0 <= k < l < |e|
      ensures Precedes(GroupOf(ps, pat, e[k]), e[k].index, GroupOf(ps, pat, e[l]), e[l].index)
    {
      if l < |a| {
        assert e[k] == a[k] && e[l] == a[l];
      } else if k < |a| {
        assert e[k] == a[k];
        if l < |a| + |b| { assert e[l] == b[l - |a|]; } else { assert e[l] == c[l - |a| - |b|]; }
      } else if l < |a| + |b| {
        assert e[k] == b[k - |a|] && e[l] == b[l - |a|];
      } else if k < |a| + |b| {
        assert e[k] == b[k - |a|] && e[l] == c[l - |a| - |b|];
      } else {
        assert e[k] == c[k - |a| - |b|] && e[l] == c[l - |a| - |b|];
      }
    }
  }

  /** find_by_name never returns the same record twice. */
  lemma ExpectedDistinct(ps: seq<Place>, pat: Pattern)
    ensures forall k, l :: 0 <= k < l < |Expected(ps, pat)| ==> Expected(ps, pat)[k].index != Expected(ps, pat)[l].index
  {
    ExpectedOrdered(ps, pat);
  }

  /**
   * find_by_name returns every record one of whose names matches, and only
   * those.
   */
  lemma ExpectedComplete(ps: seq<Place>, pat: Pattern, i: nat)
    requires i < |ps|
    ensures HasIndex(Expected(ps, pat), i) <==> AnyNameMatches(ps[i], pat)
  {
    var a, b, c := Hits(ps, pat, Primary), Hits(ps, pat, Ascii), Hits(ps, pat, Alternate);
    HasIndexConcat(a + b, c, i);
    HasIndexConcat(a, b, i);
    ClassifiedIffAnyNameMatches(ps[i], pat);
    HitsIndexIff(ps, pat, Primary, i);
    HitsIndexIff(ps, pat, Ascii, i);
    HitsIndexIff(ps, pat, Alternate, i);
  }

  const NotValidSearchTerm: string := " is not a valid search term"

  /** The message of the TypeError pattern.match raises on a missing (None) name. */
  const MatchOnMissingName: string := "TypeError: expected string or bytes-like object"

  /** Some place lacks the name or the ASCII name a scan matches against. */
  predicate SomeNameMissing(ps: seq<Place>) {
    exists i :: 0 <= i < |ps| && (ps[i].name.None? || ps[i].asciiName.None?)
  }

  /**
   * find_by_name on an index holding `ps`, as the hits it returns: the
   * InvalidQuery for an empty cleaned query or one that does not compile, the
   * TypeError of a scan meeting a missing name, else the three scans.
   */
  function Search(ps: seq<Place>, query: string, compiles: string -> bool): (r: Result<seq<Hit>, Failure>)
    ensures r.Ok? ==> forall k :: 0 <= k < |r.value| ==> r.value[k].index < |ps|
  {
    var prefix := Strip(query);
    var clean := Clean(prefix);
    if |clean| == 0 then Err(QueryRejected(NewInvalidQuery(prefix + NotValidSearchTerm, None, None)))
    else if !compiles(clean) then Err(QueryRejected(NewInvalidQuery(clean + NotValidSearchTerm, None, None)))
    else if SomeNameMissing(ps) then Err(Unhandled(MatchOnMissingName))
    else
      ExpectedHitsAreClassified(ps, Pattern(clean));
      Ok(Expected(ps, Pattern(clean)))
  }

  /**
   * find_by_name raises InvalidQuery (status 400) exactly when the trimmed
   * query consists of the six removed characters only, or its cleaned form
   * does not compile.
   */
  lemma SearchRejectsExactly(ps: seq<Place>, query: string, compiles: string -> bool)
    ensures var r := Search(ps, query, compiles);
            r.Err? && r.error.QueryRejected?
            <==> (forall i :: 0 <= i < |Strip(query)| ==> Strip(query)[i] in RegexCharacters)
                 || !compiles(Clean(Strip(query)))
    ensures var r := Search(ps, query, compiles);
            r.Err? && r.error.QueryRejected? ==> r.error.error.statusCode == BadRequest
    ensures var r := Search(ps, query, compiles);
            r.Err? && r.error.Unhandled?
            <==> Clean(Strip(query)) != [] && compiles(Clean(Strip(query))) && SomeNameMissing(ps)
    ensures var r := Search(ps, query, compiles);
            r.Err? && r.error.Unhandled? ==> r.error == Unhandled(MatchOnMissingName)
  {
    CleanEmptyIff(Strip(query));
  }

  /**
   * A query that survives cleaning and compiles, over places that all have a
   * name and an ASCII name, gives an empty result, not an error, when no name
   * matches.
   */
  lemma SearchWithoutMatchIsEmpty(ps: seq<Place>, query: string, compiles: string -> bool)
    requires Clean(Strip(query)) != [] && compiles(Clean(Strip(query))) && !SomeNameMissing(ps)
    requires forall i :: 0 <= i < |ps| ==> !AnyNameMatches(ps[i], Pattern(Clean(Strip(query))))
    ensures Search(ps, query, compiles) == Ok([])
  {
    var pat := Pattern(Clean(Strip(query)));
    assert Search(ps, query, compiles) == Ok(Expected(ps, pat));
    NothingExpectedWithoutMatch(ps, pat);
  }

  lemma NothingExpectedWithoutMatch(ps: seq<Place>, pat: Pattern)
    requires forall i :: 0 <= i < |ps| ==> !AnyNameMatches(ps[i], pat)
    ensures Expected(ps, pat) == []
  {
    var e := Expected(ps, pat);
    if e != [] {
      ExpectedHitsAreClassified(ps, pat);
      var i := e[0].index;
      assert HasIndex(e, i);
      ExpectedComplete(ps, pat, i);
    }
  }

  /** A record whose primary name matches is found by the first scan, annotated with that name. */
  lemma {:induction false} PrimaryMatchIsFound(ps: seq<Place>, pat: Pattern, i: nat)
    requires i < |ps| && MatchesOpt(pat, ps[i].name)
    ensures Hit(i, ps[i].name.value) in Expected(ps, pat)
  {
    HitsIndexIff(ps, pat, Primary, i);
    var a := Hits(ps, pat, Primary);
    var k :| 0 <= k < |a| && a[k].index == i;
    assert a[k] == Hit(i, ps[i].name.value);
    assert Expected(ps, pat) == a + (Hits(ps, pat, Ascii) + Hits(ps, pat, Alternate));
    assert Expected(ps, pat)[k] == a[k];
  }

  /**
   * A query equal to a record's primary name (and unchanged by trimming and
   * cleaning) finds that record with matched_on set to the primary name.
   */
  lemma ExactNameIsFound(ps: seq<Place>, query: string, compiles: string -> bool, i: nat)
    requires i < |ps| && ps[i].name == Some(query)
    requires Strip(query) == query && Clean(query) == query && query != []
    requires compiles(query) && !SomeNameMissing(ps)
    ensures Search(ps, query, compiles) == Ok(Expected(ps, Pattern(query)))
    ensures Hit(i, query) in Expected(ps, Pattern(query))
  {
    MatchesOwnPrefix(query, []);
    assert query + [] == query;
    PrimaryMatchIsFound(ps, Pattern(query), i);
  }
}
