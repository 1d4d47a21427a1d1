/**
 `openModal` and the modal's dismiss handlers: the detail view computed for
 a record, and the singleton modal that shows it.
 */
module Detail {
  import opened Wrappers
  import opened Text
  import opened Records

  /**
   The detail view. Each optional section is `None` when hidden; the
   enterprise tag's `None` is an emptied enterprise box.
   */
  datatype DetailView = DetailView(
    title: string,
    kind: string,
    desc: string,
    year: string,
    enterprise: Option<string>,
    team: Option<string>,
    languages: Option<seq<string>>,
    tools: Option<seq<string>>,
    images: Option<seq<string>>)

  /** The modal: whether it is shown, and the view it last received (none before the first open). */
  datatype Modal = Modal(open: bool, view: Option<DetailView>)

  const InitialModal: Modal := Modal(false, None)

  /** The folder image names are resolved against. */
  const ImageRoot: string := "images/"

  /** The position of the first record with id `id` (`projects.find`), or `None`. */
  function Find(ps: seq<Record>, id: int): (r: Option<nat>)
    ensures r.Some? ==> r.value < |ps| && ps[r.value].id == id
    ensures r.Some? ==> forall j :: 0 <= j < r.value ==> ps[j].id != id
    ensures r.None? ==> forall j :: 0 <= j < |ps| ==> ps[j].id != id
    decreases |ps|
  {
    if |ps| == 0 then None
    else if ps[0].id == id then Some(0)
    else
      match Find(ps[1..], id)
      case None => None
      case Some(k) => Some(k + 1)
  }

  /** With unique ids, looking up a stored record's id finds that record. */
  lemma FindStored(ps: seq<Record>, k: nat)
    requires UniqueIds(ps) && k < |ps|
    ensures Find(ps, ps[k].id) == Some(k)
  {
  }

  /** Looking up a stored record's id always finds a record. */
  lemma FindsSome(ps: seq<Record>, k: nat)
    requires k < |ps|
    ensures Find(ps, ps[k].id).Some?
  {
  }

  /** "N participant", with a final "s" exactly when N is more than one. */
  function TeamLine(n: int): (s: string)
    requires n > 0
    ensures DigitsValue(LeadingDigits(s)) == n
    ensures |LeadingDigits(s)| + 12 <= |s| && s[|LeadingDigits(s)|..|LeadingDigits(s)| + 12] == " participant"
    ensures |s| > 0 && (s[|s| - 1] == 's' <==> n > 1)
    ensures |s| == |LeadingDigits(s)| + 12 + (if n > 1 then 1 else 0)
    ensures |LeadingDigits(s)| > 0 && LeadingDigits(s)[0] != '0'
  {
    var d := Decimal(n);
    var s := d + " participant" + (if n > 1 then "s" else "");
    LeadingDigitsOfConcat(d, " participant" + (if n > 1 then "s" else ""));
    assert s == d + (" participant" + (if n > 1 then "s" else ""));
    s
  }

  /** Each image name prefixed with the image folder, in the given order. */
  function ImagePaths(srcs: seq<string>): (r: seq<string>)
    ensures |r| == |srcs|
    ensures forall i :: 0 <= i < |r| ==> |r[i]| >= |ImageRoot| && r[i][..|ImageRoot|] == ImageRoot
    ensures forall i :: 0 <= i < |r| ==> r[i][|ImageRoot|..] == srcs[i]
  {
    seq(|srcs|, i requires 0 <= i < |srcs| => ImageRoot + srcs[i])
  }

  /** A list section is shown when the list is present and non-empty. */
  function ListSection(xs: Option<seq<string>>): (r: Option<seq<string>>)
    ensures r.Some? <==> xs.Some? && |xs.value| > 0
    ensures r.Some? ==> r.value == xs.value
  {
    if xs.Some? && |xs.value| > 0 then xs else None
  }

  /** The detail view of one record, each optional section decided by its presence test. */
  function Project(p: Record): (v: DetailView)
    ensures v.title == p.title && v.kind == p.kind && v.desc == p.desc && v.year == p.year
    ensures v.enterprise.Some? <==> p.enterprise.Some? && p.enterprise.value != ""
    ensures v.enterprise.Some? ==> v.enterprise.value == p.enterprise.value
    ensures v.team.Some? <==> p.team.Some? && p.team.value > 0
    ensures v.team.Some? ==> v.team.value == TeamLine(p.team.value)
    ensures v.languages.Some? <==> p.languages.Some? && |p.languages.value| > 0
    ensures v.languages.Some? ==> v.languages.value == p.languages.value
    ensures v.tools.Some? <==> p.tools.Some? && |p.tools.value| > 0
    ensures v.tools.Some? ==> v.tools.value == p.tools.value
    ensures v.images.Some? <==> p.images.Some? && |p.images.value| > 0
    ensures v.images.Some? ==> v.images.value == ImagePaths(p.images.value)
  {
    DetailView(
      p.title, p.kind, p.desc, p.year,
      if p.enterprise.Some? && p.enterprise.value != "" then p.enterprise else None,
      if p.team.Some? && p.team.value > 0 then Some(TeamLine(p.team.value)) else None,
      ListSection(p.languages),
      ListSection(p.tools),
      if p.images.Some? && |p.images.value| > 0 then Some(ImagePaths(p.images.value)) else None)
  }

  /**
   A record with no enterprise, no team, and empty language, tool and image
   lists gets a view with only the required fields.
   */
  lemma BareRecordHasNoSections(p: Record)
    requires p.enterprise.None? && p.team.GetOr(0) <= 0
    requires p.languages.GetOr([]) == [] && p.tools.GetOr([]) == [] && p.images.GetOr([]) == []
    ensures Project(p) == DetailView(p.title, p.kind, p.desc, p.year, None, None, None, None, None)
  {
  }

  /**
   `openModal(id)`: an unknown id changes nothing; otherwise the modal opens
   on the first record with that id.
   */
  function OpenModal(ps: seq<Record>, id: int, m: Modal): (r: Modal)
    ensures Find(ps, id).None? ==> r == m
    ensures Find(ps, id).Some? ==> r.open && r.view == Some(Project(ps[Find(ps, id).value]))
  {
    match Find(ps, id)
    case None => m
    case Some(k) => Modal(true, Some(Project(ps[k])))
  }

  /** The ways of dismissing: the close button, a click that lands on the backdrop or on what it holds, a key press. */
  datatype Dismissal = CloseButton | BackdropClick(onBackdrop: bool) | KeyDown(key: string)

  /** Whether a dismissal hides the modal. */
  predicate Closes(d: Dismissal) {
    match d
    case CloseButton => true
    case BackdropClick(onBackdrop) => onBackdrop
    case KeyDown(key) => key == "Escape"
  }

  function Dismiss(m: Modal, d: Dismissal): (r: Modal)
    ensures r.view == m.view
    ensures Closes(d) ==> !r.open
    ensures !Closes(d) ==> r == m
  {
    if Closes(d) then m.(open := false) else m
  }

  /** Repeating a dismissal changes nothing more. */
  lemma DismissIdempotent(m: Modal, d: Dismissal)
    ensures Dismiss(Dismiss(m, d), d) == Dismiss(m, d)
  {
  }
}
