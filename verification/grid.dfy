/** `renderCard` / `renderGrid`: the card grid as a projection of the visible list. */
module Grid {
  import opened Wrappers
  import opened Records

  /** A card's thumbnail: the record's icon, or a placeholder box. */
  datatype Thumb = Placeholder | Picture(src: string)

  /** What one card shows, and the id its "Détails" button and Enter key open. */
  datatype Card = Card(
    id: int,
    title: string,
    desc: string,
    tags: seq<string>,
    area: string,
    year: string,
    kind: string,
    thumb: Thumb)

  /** The grid holds either the "no results" message or the cards. */
  datatype View = NoResults | Cards(cards: seq<Card>)

  /** A non-empty icon is shown as the thumbnail; an absent or empty one gives the placeholder. */
  function ThumbOf(icon: Option<string>): (t: Thumb)
    ensures t.Picture? <==> icon.Some? && icon.value != ""
    ensures t.Picture? ==> t.src == icon.value
  {
    match icon
    case Some(src) => if src != "" then Picture(src) else Placeholder
    case None => Placeholder
  }

  function RenderCard(p: Record): (c: Card)
    ensures c.id == p.id && c.title == p.title && c.desc == p.desc && c.tags == p.tags
    ensures c.area == p.area && c.year == p.year && c.kind == p.kind
    ensures c.thumb == ThumbOf(p.icon)
  {
    Card(p.id, p.title, p.desc, p.tags, p.area, p.year, p.kind, ThumbOf(p.icon))
  }

  /**
   The placeholder alone for an empty list; otherwise one card per record,
   in list order.
   */
  function RenderGrid(list: seq<Record>): (g: View)
    ensures g.NoResults? <==> |list| == 0
    ensures g.Cards? ==> |g.cards| == |list|
    ensures g.Cards? ==> forall i :: 0 <= i < |list| ==> g.cards[i] == RenderCard(list[i])
  {
    if |list| == 0 then NoResults
    else Cards(seq(|list|, i requires 0 <= i < |list| => RenderCard(list[i])))
  }

  /** The ids the grid's cards open, in grid order. */
  function CardIds(g: View): seq<int> {
    match g
    case NoResults => []
    case Cards(cs) => seq(|cs|, i requires 0 <= i < |cs| => cs[i].id)
  }

  function Ids(list: seq<Record>): seq<int> {
    seq(|list|, i requires 0 <= i < |list| => list[i].id)
  }

  /** The cards carry exactly the records' ids, in the records' order. */
  lemma GridIdsAreRecordIds(list: seq<Record>)
    ensures CardIds(RenderGrid(list)) == Ids(list)
  {
  }
}
