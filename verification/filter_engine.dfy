/**
 The catalog's filter pipeline (`applyFilters`): a facet step followed by a
 search step, each a stable filter over the record list.
 */
module FilterEngine {
  import opened Seqs
  import opened Text
  import opened Records

  /** The facet token that lifts every facet restriction. */
  const All: string := "all"

  /** The active facet tokens and the raw text of the search box. */
  datatype FilterState = FilterState(active: set<string>, query: string)

  /** The query as the search step uses it: trimmed, then lower-cased. */
  function Normalize(query: string): (q: string)
    ensures |q| <= |query|
    ensures Lower(q) == q
    ensures q == [] <==> forall i :: 0 <= i < |query| ==> IsWhitespace(query[i])
    ensures q == [] || (!IsWhitespace(q[0]) && !IsWhitespace(q[|q| - 1]))
    ensures TrimmedFrom(Lower(query), q)
  {
    NormalizedFacts(query);
    Lower(Trim(query))
  }

  /** The promises of `Normalize`, gathered for the trimmed, lowered query. */
  lemma NormalizedFacts(query: string)
    ensures |Lower(Trim(query))| <= |query|
    ensures Lower(Lower(Trim(query))) == Lower(Trim(query))
    ensures Lower(Trim(query)) == [] <==> forall i :: 0 <= i < |query| ==> IsWhitespace(query[i])
    ensures Lower(Trim(query)) == [] || (!IsWhitespace(Lower(Trim(query))[0]) && !IsWhitespace(Lower(Trim(query))[|Trim(query)| - 1]))
    ensures TrimmedFrom(Lower(query), Lower(Trim(query)))
  {
    NormalizedShape(query);
    NormalizedEnds(query);
    NormalizedFrom(query);
  }

  /** The trimmed, lowered query is a trimmed piece of the lowered query. */
  lemma NormalizedFrom(query: string)
    ensures TrimmedFrom(Lower(query), Lower(Trim(query)))
  {
    LowerKeepsTrim(query, Trim(query));
  }

  /** The trimmed, lowered query is no longer than the query, lower-case, and empty exactly for a blank query. */
  lemma NormalizedShape(query: string)
    ensures |Lower(Trim(query))| <= |query|
    ensures Lower(Lower(Trim(query))) == Lower(Trim(query))
    ensures Lower(Trim(query)) == [] <==> forall i :: 0 <= i < |query| ==> IsWhitespace(query[i])
  {
    LowerIdempotent(Trim(query));
    assert |Lower(Trim(query))| == |Trim(query)|;
  }

  /** The trimmed, lowered query has no whitespace at either end. */
  lemma NormalizedEnds(query: string)
    ensures Lower(Trim(query)) == [] || (!IsWhitespace(Lower(Trim(query))[0]) && !IsWhitespace(Lower(Trim(query))[|Trim(query)| - 1]))
  {
    LowerKeepsEnds(Trim(query));
  }

  /** Some active token equals the record's year or its area (`active.some(...)`). */
  predicate MatchesSomeFacet(active: set<string>, p: Record) {
    exists f :: f in active && (p.year == f || p.area == f)
  }

  /** The record's lowered haystack includes the (already normalised) query. */
  predicate MatchesQuery(q: string, p: Record) {
    Contains(Lower(Haystack(p)), q)
  }

  /** When the facet step lets a record through: no restriction, or its year or area is active. */
  ghost predicate FacetAdmits(active: set<string>, p: Record) {
    active == {} || All in active || p.year in active || p.area in active
  }

  /** When the search step lets a record through: empty query, or the query is part of its lowered haystack. */
  ghost predicate SearchAdmits(q: string, p: Record) {
    q == [] || Infix(q, Lower(Haystack(p)))
  }

  /** The record is visible under the filter state. */
  ghost predicate Selected(st: FilterState, p: Record) {
    FacetAdmits(st.active, p) && SearchAdmits(Normalize(st.query), p)
  }

  ghost function Selector(st: FilterState): Record -> bool {
    p => Selected(st, p)
  }

  /**
   Facet step: with a non-empty active set lacking "all", keep the records
   whose year or area is active; otherwise keep everything.
   */
  function FacetStep(ps: seq<Record>, active: set<string>): (r: seq<Record>)
    ensures IsSubsequence(r, ps)
    ensures forall p :: multiset(r)[p] == if FacetAdmits(active, p) then multiset(ps)[p] else 0
  {
    if |active| > 0 && All !in active then
      Filter(ps, p => MatchesSomeFacet(active, p))
    else
      SubsequenceReflexive(ps);
      ps
  }

  /** Search step on a normalised query: a non-empty query keeps the records whose lowered haystack includes it. */
  function SearchStep(ps: seq<Record>, q: string): (r: seq<Record>)
    ensures IsSubsequence(r, ps)
    ensures forall p :: multiset(r)[p] == if SearchAdmits(q, p) then multiset(ps)[p] else 0
  {
    if q != [] then
      Filter(ps, p => MatchesQuery(q, p))
    else
      SubsequenceReflexive(ps);
      ps
  }

  /**
   The visible list (`applyFilters`): exactly the selected records, each with
   its multiplicity in the store, in store order, unaltered.
   */
  function ComputeVisible(ps: seq<Record>, st: FilterState): (r: seq<Record>)
    ensures IsSubsequence(r, ps)
    ensures |r| <= |ps|
    ensures forall p :: multiset(r)[p] == if Selected(st, p) then multiset(ps)[p] else 0
    ensures forall p :: p in r <==> p in ps && Selected(st, p)
  {
    var byFacet := FacetStep(ps, st.active);
    var r := SearchStep(byFacet, Normalize(st.query));
    SubsequenceTransitive(r, byFacet, ps);
    SubsequenceCounts(r, ps);
    r
  }
}

/** Properties of the filter pipeline as a whole. */
module FilterProperties {
  import opened Seqs
  import opened Text
  import opened Records
  import opened FilterEngine

  /** With a non-empty active set lacking "all", a record survives the facet step iff its year or area is active. */
  lemma FacetStepKeepsMatches(ps: seq<Record>, active: set<string>, p: Record)
    requires active != {} && All !in active
    ensures p in FacetStep(ps, active) <==> p in ps && (p.year in active || p.area in active)
  {
  }

  /** An empty active set, or one holding "all", keeps every record. */
  lemma UnrestrictedFacetsKeepAll(ps: seq<Record>, active: set<string>)
    requires active == {} || All in active
    ensures FacetStep(ps, active) == ps
  {
  }

  /** A query made only of whitespace normalises to the empty query. */
  lemma BlankQueryIsEmpty(query: string)
    requires forall i :: 0 <= i < |query| ==> IsWhitespace(query[i])
    ensures Normalize(query) == []
  {
  }

  /** A blank query leaves the facet step's result as it is. */
  lemma BlankQueryKeepsFacetResult(ps: seq<Record>, st: FilterState)
    requires forall i :: 0 <= i < |st.query| ==> IsWhitespace(st.query[i])
    ensures ComputeVisible(ps, st) == FacetStep(ps, st.active)
  {
    BlankQueryIsEmpty(st.query);
  }

  /** Normalising an already normalised query changes nothing. */
  lemma NormalizeIdempotent(query: string)
    ensures Normalize(Normalize(query)) == Normalize(query)
  {
    var q := Normalize(query);
    assert TrimStart(q) == q;
    assert TrimEnd(q) == q;
  }

  /** Selecting "all" filters by the search text alone. */
  lemma AllIsSearchOnly(ps: seq<Record>, st: FilterState)
    requires All in st.active
    ensures ComputeVisible(ps, st) == SearchStep(ps, Normalize(st.query))
  {
  }

  /** An empty active set (every facet deselected one by one) shows what "all" shows. */
  lemma NoneSelectedShowsAsAll(ps: seq<Record>, query: string)
    ensures ComputeVisible(ps, FilterState({}, query)) == ComputeVisible(ps, FilterState({All}, query))
  {
  }

  /** The two steps together are one stable filter by the selection predicate. */
  lemma VisibleIsOneFilter(ps: seq<Record>, st: FilterState)
    ensures ComputeVisible(ps, st) == Filter(ps, Selector(st))
  {
    FilterUnique(ps, Selector(st), ComputeVisible(ps, st));
  }

  /** Nothing is visible in an empty store. */
  lemma EmptyStoreShowsNothing(st: FilterState)
    ensures ComputeVisible([], st) == []
  {
  }

  /**
   Searching for any part of a title, area, tag, language or tool, in any
   letter case, finds the record whenever the facet step admits it.
   */
  lemma SearchFindsFields(ps: seq<Record>, st: FilterState, p: Record, part: string)
    requires p in ps && FacetAdmits(st.active, p)
    requires InSomeField(part, p) && Normalize(st.query) == Lower(part)
    ensures p in ComputeVisible(ps, st)
  {
    HaystackHoldsFields(part, p);
    var i :| OccursAt(Haystack(p), part, i);
    LowerPreservesOccurrence(Haystack(p), part, i);
  }

  /**
   The query "undefined" finds every admitted record that lacks its
   languages or its tools, because the haystack spells an absent list that way.
   */
  lemma UndefinedFindsMissingLists(ps: seq<Record>, st: FilterState, p: Record)
    requires p in ps && FacetAdmits(st.active, p)
    requires p.languages.None? || p.tools.None?
    requires Normalize(st.query) == "undefined"
    ensures p in ComputeVisible(ps, st)
  {
    HaystackHoldsUndefined(p);
    var i :| OccursAt(Haystack(p), "undefined", i);
    LowerPreservesOccurrence(Haystack(p), "undefined", i);
    assert Lower("undefined") == "undefined";
  }
}
