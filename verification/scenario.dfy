/**
 A worked example: two records, a facet click, then a search with every
 facet restored, then the details of one record.
 */
module Scenario {
  import opened Wrappers
  import opened Seqs
  import opened Text
  import opened Records
  import opened FilterEngine
  import opened FilterProperties
  import opened Facets
  import opened Detail

  const Alpha: Record := Record(1, "Alpha", "", "web", "2022", "", ["x"], None, None, None, None, None, None)
  const Beta: Record := Record(2, "Beta", "", "cli", "2023", "", ["y"], None, None, None, None, None, None)

  /** A one-character query occurs only where that character does. */
  lemma SingleCharInfix(c: char, h: string)
    requires Infix([c], h)
    ensures c in h
  {
    var i :| OccursAt(h, [c], i);
    assert h[i] == h[i..i + 1][0];
  }

  /** Of two records, a predicate that rejects the first and admits the second keeps the second alone. */
  lemma FilterSecondOnly(a: Record, b: Record, p: Record -> bool)
    requires !p(a) && p(b)
    ensures Filter([a, b], p) == [b]
  {
    assert [a, b][1..] == [b];
    assert [b][1..] == [];
  }

  /** Of two records, a predicate that admits the first and rejects the second keeps the first alone. */
  lemma FilterFirstOnly(a: Record, b: Record, p: Record -> bool)
    requires p(a) && !p(b)
    ensures Filter([a, b], p) == [a]
  {
    assert [a, b][1..] == [b];
    assert [b][1..] == [];
  }

  /** Clicking "web" from the initial state shows Alpha alone. */
  lemma WebFacetShowsAlpha()
    ensures ComputeVisible([Alpha, Beta], FilterState(Click({All}, "web"), "")) == [Alpha]
  {
    var st := FilterState(Click({All}, "web"), "");
    VisibleIsOneFilter([Alpha, Beta], st);
    WebSelectsAlphaOnly(st);
    FilterFirstOnly(Alpha, Beta, Selector(st));
  }

  lemma WebSelectsAlphaOnly(st: FilterState)
    requires st == FilterState(Click({All}, "web"), "")
    ensures Selected(st, Alpha) && !Selected(st, Beta)
  {
    ClickWeb();
    NormalizeEmpty();
    WebAdmitsAlphaOnly();
  }

  lemma WebAdmitsAlphaOnly()
    ensures FacetAdmits({"web"}, Alpha) && !FacetAdmits({"web"}, Beta)
  {
    assert Beta.year != "web" && Beta.area != "web";
  }

  lemma ClickWeb()
    ensures Click({All}, "web") == {"web"}
  {
  }

  lemma NormalizeEmpty()
    ensures Normalize("") == ""
  {
    assert TrimStart("") == "";
    assert TrimEnd("") == "";
  }

  lemma NormalizeY()
    ensures Normalize("y") == "y"
  {
    assert !IsWhitespace('y');
    assert TrimStart("y") == "y";
    assert TrimEnd("y") == "y";
    assert Lower("y") == "y";
  }

  lemma AlphaHaystack()
    ensures Haystack(Alpha) == "Alpha" + "undefined" + "undefined" + "x" + "web"
  {
    assert ListText(Alpha.languages) == "undefined" && ListText(Alpha.tools) == "undefined";
    assert Join(Alpha.tags, " ") == "x";
  }

  /** A lower-case letter appears in a lowered text only where it or its capital appeared. */
  lemma LowerAvoids(h: string, c: char, cap: char)
    requires 'A' <= cap <= 'Z' && LowerChar(cap) == c
    requires c !in h && cap !in h
    ensures c !in Lower(h)
  {
    forall i | 0 <= i < |h|
      ensures Lower(h)[i] != c
    {
      assert h[i] != c && h[i] != cap;
    }
  }

  lemma AlphaHasNoY()
    ensures 'y' !in Haystack(Alpha) && 'Y' !in Haystack(Alpha)
  {
    AlphaHaystack();
    assert 'y' !in "Alpha" && 'Y' !in "Alpha";
    assert 'y' !in "undefined" && 'Y' !in "undefined";
    assert 'y' !in "x" + "web" && 'Y' !in "x" + "web";
  }

  /** Nothing in Alpha's haystack, "Alphaundefinedundefinedxweb", is a "y" in either case. */
  lemma AlphaMissesY()
    ensures !SearchAdmits("y", Alpha)
  {
    AlphaHasNoY();
    LowerAvoids(Haystack(Alpha), 'y', 'Y');
    if Infix("y", Lower(Haystack(Alpha))) {
      SingleCharInfix('y', Lower(Haystack(Alpha)));
      assert false;
    }
  }

  lemma BetaHasY()
    ensures SearchAdmits("y", Beta)
  {
    InfixSelf("y");
    assert Beta.tags[0] == "y";
    assert InSomeField("y", Beta);
    HaystackHoldsFields("y", Beta);
    var i :| OccursAt(Haystack(Beta), "y", i);
    LowerPreservesOccurrence(Haystack(Beta), "y", i);
    assert Lower("y") == "y";
    assert OccursAt(Lower(Haystack(Beta)), "y", i);
  }

  /** With "all" restored, the query "y" shows Beta alone: it matches Beta's tag and nothing of Alpha's. */
  lemma QueryYShowsBeta()
    ensures ComputeVisible([Alpha, Beta], FilterState(Click({"web"}, All), "y")) == [Beta]
  {
    var st := FilterState(Click({"web"}, All), "y");
    VisibleIsOneFilter([Alpha, Beta], st);
    NormalizeY();
    AlphaMissesY();
    BetaHasY();
    assert !Selector(st)(Alpha) && Selector(st)(Beta);
    FilterSecondOnly(Alpha, Beta, Selector(st));
  }

  /** Beta's details show its title and no optional section. */
  lemma BetaDetailsAreBare()
    ensures OpenModal([Alpha, Beta], 2, InitialModal).open
    ensures OpenModal([Alpha, Beta], 2, InitialModal).view.value.title == "Beta"
    ensures Project(Beta) == DetailView("Beta", "", "", "2023", None, None, None, None, None)
    ensures OpenModal([Alpha, Beta], 2, InitialModal)
            == Modal(true, Some(DetailView("Beta", "", "", "2023", None, None, None, None, None)))
  {
    assert Find([Alpha, Beta], 2) == Some(1);
  }
}
