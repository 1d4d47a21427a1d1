/**
 The page as one state machine: every user event of the catalog, and the
 invariant that the grid always shows the rendering of the filter state.
 */
module Page {
  import opened Wrappers
  import opened Seqs
  import opened Records
  import opened FilterEngine
  import opened Facets
  import opened Grid
  import opened Detail

  /** The user events the page reacts to. */
  datatype Event =
    | FacetClicked(token: string)
    | SearchInput(text: string)
    | ClearClicked
    | DetailsClicked(id: int)
    | CardKey(id: int, key: string)
    | Dismissed(how: Dismissal)

  /** The filter state, the grid on screen, and the modal. */
  datatype PageState = PageState(filters: FilterState, grid: View, modal: Modal)

  /** At load: only "all" active, an empty search box, every record rendered, the modal hidden. */
  function Init(ps: seq<Record>): (pg: PageState)
    ensures pg.filters.active == {All} && pg.filters.query == ""
    ensures pg.grid == RenderGrid(ps) && !pg.modal.open
  {
    PageState(FilterState({All}, ""), RenderGrid(ps), InitialModal)
  }

  /** Re-run the filters and redraw the grid (`applyFilters`). */
  function Refresh(ps: seq<Record>, pg: PageState, st: FilterState): PageState {
    pg.(filters := st, grid := RenderGrid(ComputeVisible(ps, st)))
  }

  /**
   One event. Filter events re-run the filters and redraw, leaving the modal;
   modal events leave the filters and the grid. A key pressed on a card is
   handled by the card (Enter opens) and then by the document (Escape closes).
   */
  function Step(ps: seq<Record>, pg: PageState, ev: Event): (r: PageState)
    ensures (ev.FacetClicked? || ev.SearchInput? || ev.ClearClicked?) ==> r.modal == pg.modal
    ensures !(ev.FacetClicked? || ev.SearchInput? || ev.ClearClicked?) ==> r.filters == pg.filters && r.grid == pg.grid
    ensures ev.FacetClicked? ==> r.filters.active == Click(pg.filters.active, ev.token) && r.filters.query == pg.filters.query
    ensures ev.SearchInput? ==> r.filters.active == pg.filters.active && r.filters.query == ev.text
    ensures (ev.FacetClicked? || ev.SearchInput?) ==> r.grid == RenderGrid(ComputeVisible(ps, r.filters))
    ensures ev.ClearClicked? ==> r.filters == FilterState({All}, "") && r.grid == RenderGrid(ps)
    ensures ev.DetailsClicked? || (ev.CardKey? && ev.key == "Enter") ==> r.modal == OpenModal(ps, ev.id, pg.modal)
    ensures ev.CardKey? && ev.key == "Escape" ==> !r.modal.open && r.modal.view == pg.modal.view
    ensures ev.CardKey? && ev.key != "Enter" && ev.key != "Escape" ==> r.modal == pg.modal
    ensures ev.Dismissed? ==> r.modal == Dismiss(pg.modal, ev.how)
  {
    match ev
    case FacetClicked(f) => Refresh(ps, pg, ClickFacet(pg.filters, f))
    case SearchInput(text) => Refresh(ps, pg, pg.filters.(query := text))
    case ClearClicked => pg.(filters := Clear(pg.filters), grid := RenderGrid(ps))
    case DetailsClicked(id) => pg.(modal := OpenModal(ps, id, pg.modal))
    case CardKey(id, key) =>
      // the card handles Enter; the key then reaches the document, which handles Escape
      var shown := if key == "Enter" then OpenModal(ps, id, pg.modal) else pg.modal;
      pg.(modal := Dismiss(shown, KeyDown(key)))
    case Dismissed(how) => pg.(modal := Dismiss(pg.modal, how))
  }

  /** The events in order, each handled to completion before the next; consistency survives any run. */
  function Run(ps: seq<Record>, pg: PageState, evs: seq<Event>): (r: PageState)
    ensures |evs| == 0 ==> r == pg
    ensures Consistent(ps, pg) ==> Consistent(ps, r)
    decreases |evs|
  {
    if |evs| == 0 then pg
    else
      StepConsistent(ps, pg, evs[0]);
      Run(ps, Step(ps, pg, evs[0]), evs[1..])
  }

  /** Running one more event is one more step after the run. */
  lemma {:induction false} RunSnoc(ps: seq<Record>, pg: PageState, evs: seq<Event>, ev: Event)
    ensures Run(ps, pg, evs + [ev]) == Step(ps, Run(ps, pg, evs), ev)
    decreases |evs|
  {
    if |evs| == 0 {
      assert [ev][1..] == [];
    } else {
      assert (evs + [ev])[0] == evs[0] && (evs + [ev])[1..] == evs[1..] + [ev];
      RunSnoc(ps, Step(ps, pg, evs[0]), evs[1..], ev);
    }
  }

  /** The grid shows the rendering of the filter state, and "all" is active only on its own. */
  ghost predicate Consistent(ps: seq<Record>, pg: PageState) {
    pg.grid == RenderGrid(ComputeVisible(ps, pg.filters)) && Exclusive(pg.filters.active)
  }

  lemma InitConsistent(ps: seq<Record>)
    ensures Consistent(ps, Init(ps))
  {
    ClearShowsEverything(ps, FilterState({All}, ""));
  }

  /** Every event keeps the page consistent; the clear action's direct redraw agrees with the filters. */
  lemma StepConsistent(ps: seq<Record>, pg: PageState, ev: Event)
    ensures Consistent(ps, pg) ==> Consistent(ps, Step(ps, pg, ev))
  {
    if Consistent(ps, pg) {
      match ev
      case FacetClicked(f) => FacetClickConsistent(ps, pg, f);
      case SearchInput(text) => SearchConsistent(ps, pg, text);
      case ClearClicked => ClearConsistent(ps, pg);
      case _ => ModalEventConsistent(ps, pg, ev);
    }
  }

  lemma FacetClickConsistent(ps: seq<Record>, pg: PageState, f: string)
    requires Consistent(ps, pg)
    ensures Consistent(ps, Step(ps, pg, FacetClicked(f)))
  {
    ClickMakesExclusive(pg.filters.active, f);
  }

  lemma SearchConsistent(ps: seq<Record>, pg: PageState, text: string)
    requires Consistent(ps, pg)
    ensures Consistent(ps, Step(ps, pg, SearchInput(text)))
  {
  }

  lemma ClearConsistent(ps: seq<Record>, pg: PageState)
    requires Consistent(ps, pg)
    ensures Consistent(ps, Step(ps, pg, ClearClicked))
  {
    var st := FilterState({All}, "");
    ClearedPage(ps, pg);
    ClearShowsEverything(ps, st);
    assert Clear(st) == st;
  }

  /** The page after the clear action: "all" alone, an empty query, the whole store drawn, the modal kept. */
  lemma ClearedPage(ps: seq<Record>, pg: PageState)
    ensures Step(ps, pg, ClearClicked) == PageState(FilterState({All}, ""), RenderGrid(ps), pg.modal)
  {
  }

  lemma ModalEventConsistent(ps: seq<Record>, pg: PageState, ev: Event)
    requires Consistent(ps, pg)
    requires !(ev.FacetClicked? || ev.SearchInput? || ev.ClearClicked?)
    ensures Consistent(ps, Step(ps, pg, ev))
  {
  }

  /** The clear action redraws the whole store directly. */
  lemma StepClear(ps: seq<Record>, pg: PageState)
    ensures Step(ps, pg, ClearClicked).grid == RenderGrid(ps)
  {
  }

  /**
   Whatever happened since load, the clear action shows the whole store in
   its original order, exactly as the filters compute it.
   */
  lemma ClearRestoresFullList(ps: seq<Record>, evs: seq<Event>)
    ensures var pg := Step(ps, Run(ps, Init(ps), evs), ClearClicked);
            pg.grid == RenderGrid(ps) && Consistent(ps, pg)
  {
    var pg0 := Run(ps, Init(ps), evs);
    InitConsistent(ps);
    StepConsistent(ps, pg0, ClearClicked);
    StepClear(ps, pg0);
  }

  /** Asking for details only hands the id to the modal. */
  lemma StepDetails(ps: seq<Record>, pg: PageState, id: int)
    ensures Step(ps, pg, DetailsClicked(id)) == pg.(modal := OpenModal(ps, id, pg.modal))
  {
  }

  /** Pressing Enter on a card only hands its id to the modal. */
  lemma StepEnter(ps: seq<Record>, pg: PageState, id: int)
    ensures Step(ps, pg, CardKey(id, "Enter")) == pg.(modal := OpenModal(ps, id, pg.modal))
  {
  }

  /** The record behind the `i`-th card on screen is a stored record. */
  lemma CardRecordIsStored(ps: seq<Record>, pg: PageState, i: nat) returns (k: nat)
    requires Consistent(ps, pg) && pg.grid.Cards? && i < |pg.grid.cards|
    ensures k < |ps| && i < |ComputeVisible(ps, pg.filters)|
    ensures ps[k] == ComputeVisible(ps, pg.filters)[i] && ps[k].id == pg.grid.cards[i].id
  {
    var vis := ComputeVisible(ps, pg.filters);
    assert vis[i] in ps by { assert vis[i] in vis; }
    k :| 0 <= k < |ps| && ps[k] == vis[i];
  }

  /** Activating a card on screen, by its button or by Enter, always opens the modal. */
  lemma CardOpensModal(ps: seq<Record>, pg: PageState, i: nat)
    requires Consistent(ps, pg) && pg.grid.Cards? && i < |pg.grid.cards|
    ensures Step(ps, pg, DetailsClicked(pg.grid.cards[i].id)).modal.open
    ensures Step(ps, pg, CardKey(pg.grid.cards[i].id, "Enter")).modal.open
  {
    var k := CardRecordIsStored(ps, pg, i);
    FindsSome(ps, k);
    StepDetails(ps, pg, pg.grid.cards[i].id);
    StepEnter(ps, pg, pg.grid.cards[i].id);
  }

  /** With unique ids, activating a card, by its button or by Enter, shows that card's record. */
  lemma CardShowsItsRecord(ps: seq<Record>, pg: PageState, i: nat)
    requires Consistent(ps, pg) && pg.grid.Cards? && i < |pg.grid.cards|
    requires UniqueIds(ps)
    ensures i < |ComputeVisible(ps, pg.filters)|
    ensures Step(ps, pg, DetailsClicked(pg.grid.cards[i].id)).modal.view == Some(Project(ComputeVisible(ps, pg.filters)[i]))
    ensures Step(ps, pg, CardKey(pg.grid.cards[i].id, "Enter")).modal.view == Some(Project(ComputeVisible(ps, pg.filters)[i]))
  {
    var k := CardRecordIsStored(ps, pg, i);
    FindStored(ps, k);
    StepDetails(ps, pg, pg.grid.cards[i].id);
    StepEnter(ps, pg, pg.grid.cards[i].id);
  }

  /** Asking for an id that no record has leaves the whole page as it was. */
  lemma UnknownIdChangesNothing(ps: seq<Record>, pg: PageState, id: int)
    requires forall j :: 0 <= j < |ps| ==> ps[j].id != id
    ensures Step(ps, pg, DetailsClicked(id)) == pg
    ensures Step(ps, pg, CardKey(id, "Enter")) == pg
  {
  }

  /** Modal events never touch the filters or the grid. */
  lemma ModalEventsKeepGrid(ps: seq<Record>, pg: PageState, ev: Event)
    requires ev.DetailsClicked? || ev.CardKey? || ev.Dismissed?
    ensures Step(ps, pg, ev).filters == pg.filters && Step(ps, pg, ev).grid == pg.grid
  {
  }
}
