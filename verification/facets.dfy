/**
 The facet buttons and the clear action as transitions of the filter state.
 "all" excludes every other token: clicking it selects it alone, clicking
 any other token deselects it and flips that token.
 */
module Facets {
  import opened Seqs
  import opened Records
  import opened FilterEngine

  /** Clicking the facet button tagged `f`. */
  function Click(active: set<string>, f: string): (r: set<string>)
    ensures f == All ==> r == {All}
    ensures f != All ==> All !in r && (f in r <==> f !in active)
    ensures f != All ==> forall g :: g != All && g != f ==> (g in r <==> g in active)
  {
    if f == All then {All}
    else if f in active then active - {All, f}
    else active - {All} + {f}
  }

  /** A facet click keeps the search text. */
  function ClickFacet(st: FilterState, f: string): (r: FilterState)
    ensures r.query == st.query && r.active == Click(st.active, f)
  {
    st.(active := Click(st.active, f))
  }

  /** The clear action: only "all" active, and an empty search box. */
  function Clear(st: FilterState): (r: FilterState)
    ensures r.active == {All} && r.query == ""
  {
    FilterState({All}, "")
  }

  /** "all" is active only on its own. */
  predicate Exclusive(active: set<string>) {
    All in active ==> active == {All}
  }

  /** Whatever the prior set, a click leaves "all" exclusive. */
  lemma ClickMakesExclusive(active: set<string>, f: string)
    ensures Exclusive(Click(active, f))
  {
  }

  /** Toggling a token twice from a set without "all" restores the set. */
  lemma ClickTwiceRestores(active: set<string>, f: string)
    requires All !in active && f != All
    ensures Click(Click(active, f), f) == active
  {
  }

  /** After the clear action the visible list is the whole store, in order. */
  lemma ClearShowsEverything(ps: seq<Record>, st: FilterState)
    ensures ComputeVisible(ps, Clear(st)) == ps
  {
    assert Normalize("") == "";
  }
}
