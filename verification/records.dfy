/**
 The project records the catalog displays, and the text the search box is
 matched against.
 */
module Records {
  import opened Wrappers
  import opened Text

  /**
   One catalog entry. `year` is held in its string form (the form the facet
   tokens compare against); the properties a record may lack are `Option`s,
   `None` standing for an absent (undefined) property.
   */
  datatype Record = Record(
    id: int,
    title: string,
    desc: string,
    area: string,
    year: string,
    kind: string,
    tags: seq<string>,
    icon: Option<string>,
    enterprise: Option<string>,
    team: Option<int>,
    languages: Option<seq<string>>,
    tools: Option<seq<string>>,
    images: Option<seq<string>>)

  /**
   What an optional list becomes when added to a string in JavaScript: its
   elements joined by commas, or the literal text "undefined" when absent.
   */
  function ListText(xs: Option<seq<string>>): (r: string)
    ensures xs.None? ==> r == "undefined"
    ensures xs.Some? ==> r == Join(xs.value, ",")
    ensures xs.Some? ==> forall i :: 0 <= i < |xs.value| ==> Infix(xs.value[i], r)
  {
    match xs
    case None => "undefined"
    case Some(v) => Join(v, ",")
  }

  /**
   The searchable text of a record: title, languages, tools, space-joined
   tags and area, concatenated with no separator between them.
   */
  function Haystack(p: Record): (h: string)
    ensures |h| == |p.title| + |ListText(p.languages)| + |ListText(p.tools)| + |Join(p.tags, " ")| + |p.area|
    ensures OccursAt(h, p.title, 0)
    ensures OccursAt(h, ListText(p.languages), |p.title|)
    ensures OccursAt(h, ListText(p.tools), |p.title| + |ListText(p.languages)|)
    ensures OccursAt(h, Join(p.tags, " "), |p.title| + |ListText(p.languages)| + |ListText(p.tools)|)
    ensures OccursAt(h, p.area, |h| - |p.area|)
  {
    var t, l, o, g, a := p.title, ListText(p.languages), ListText(p.tools), Join(p.tags, " "), p.area;
    FiveParts(t, l, o, g, a);
    t + l + o + g + a
  }

  /** Each of five concatenated parts occurs where the earlier parts end. */
  lemma FiveParts(t: string, l: string, o: string, g: string, a: string)
    ensures OccursAt(t + l + o + g + a, t, 0)
    ensures OccursAt(t + l + o + g + a, l, |t|)
    ensures OccursAt(t + l + o + g + a, o, |t| + |l|)
    ensures OccursAt(t + l + o + g + a, g, |t| + |l| + |o|)
    ensures OccursAt(t + l + o + g + a, a, |t| + |l| + |o| + |g|)
  {
    var h := t + l + o + g + a;
    assert h[..|t|] == t;
    assert h[|t|..|t| + |l|] == l;
    assert h[|t| + |l|..|t| + |l| + |o|] == o;
    assert h[|t| + |l| + |o|..|t| + |l| + |o| + |g|] == g;
    assert h[|h| - |a|..] == a;
  }

  /** Record identifiers are unique within the store. */
  predicate UniqueIds(ps: seq<Record>) {
    forall i, j :: 0 <= i < j < |ps| ==> ps[i].id != ps[j].id
  }

  /** `q` is part of one of the record's searchable fields. */
  ghost predicate InSomeField(q: string, p: Record) {
    || Infix(q, p.title)
    || Infix(q, p.area)
    || (exists i :: 0 <= i < |p.tags| && Infix(q, p.tags[i]))
    || (p.languages.Some? && exists i :: 0 <= i < |p.languages.value| && Infix(q, p.languages.value[i]))
    || (p.tools.Some? && exists i :: 0 <= i < |p.tools.value| && Infix(q, p.tools.value[i]))
  }

  /** Each of the five parts is a substring of the haystack. */
  lemma PartsInHaystack(p: Record)
    ensures Infix(p.title, Haystack(p))
    ensures Infix(ListText(p.languages), Haystack(p))
    ensures Infix(ListText(p.tools), Haystack(p))
    ensures Infix(Join(p.tags, " "), Haystack(p))
    ensures Infix(p.area, Haystack(p))
  {
    FivePartsInfix(p.title, ListText(p.languages), ListText(p.tools), Join(p.tags, " "), p.area);
  }

  /** Each of five concatenated parts is a substring of the whole. */
  lemma FivePartsInfix(t: string, l: string, o: string, g: string, a: string)
    ensures Infix(t, t + l + o + g + a) && Infix(l, t + l + o + g + a) && Infix(o, t + l + o + g + a)
    ensures Infix(g, t + l + o + g + a) && Infix(a, t + l + o + g + a)
  {
    FiveParts(t, l, o, g, a);
  }

  /** Whatever occurs in a searchable field occurs in the haystack. */
  lemma HaystackHoldsFields(q: string, p: Record)
    requires InSomeField(q, p)
    ensures Infix(q, Haystack(p))
  {
    PartsInHaystack(p);
    var h := Haystack(p);
    if Infix(q, p.title) {
      InfixTransitive(q, p.title, h);
    } else if Infix(q, p.area) {
      InfixTransitive(q, p.area, h);
    } else if exists i :: 0 <= i < |p.tags| && Infix(q, p.tags[i]) {
      var i :| 0 <= i < |p.tags| && Infix(q, p.tags[i]);
      InfixTransitive(q, p.tags[i], Join(p.tags, " "));
      InfixTransitive(q, Join(p.tags, " "), h);
    } else if p.languages.Some? && exists i :: 0 <= i < |p.languages.value| && Infix(q, p.languages.value[i]) {
      var i :| 0 <= i < |p.languages.value| && Infix(q, p.languages.value[i]);
      InfixTransitive(q, p.languages.value[i], ListText(p.languages));
      InfixTransitive(q, ListText(p.languages), h);
    } else {
      var i :| 0 <= i < |p.tools.value| && Infix(q, p.tools.value[i]);
      InfixTransitive(q, p.tools.value[i], ListText(p.tools));
      InfixTransitive(q, ListText(p.tools), h);
    }
  }

  /**
   A record that lacks its languages or its tools carries the text
   "undefined" in its haystack.
   */
  lemma HaystackHoldsUndefined(p: Record)
    requires p.languages.None? || p.tools.None?
    ensures Infix("undefined", Haystack(p))
  {
    PartsInHaystack(p);
    InfixSelf("undefined");
    if p.languages.None? {
      InfixTransitive("undefined", ListText(p.languages), Haystack(p));
    } else {
      InfixTransitive("undefined", ListText(p.tools), Haystack(p));
    }
  }
}
