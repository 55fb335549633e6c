/**
 * The audit picker of `src/components/Resultados/AuditoriaSelector.tsx`: it loads the audits,
 * normalises each record (fields under `attributes` win over top-level ones), filters them by
 * a case-insensitive search, selects the first audit when nothing is selected, and colours
 * each audit's state.
 *
 * An absent or falsy string field is `None` or `Some("")`; JavaScript's `a || b` is `Or`.
 * A `documentId`, and the selection compared with it, keep `undefined` and `null` apart.
 */
module Selector {
  import opened Wrappers
  import opened Text
  import opened Seqs
  import AuditoriaUtils

  /** A JavaScript value that should be a `documentId`: `undefined`, `null` or a string. */
  datatype DocId = Undefined | Null | Id(value: string)

  datatype RawFields = RawFields(
    documentId: DocId,
    title: Option<string>,
    state: Option<string>,
    startDate: Option<string>,
    endDate: Option<string>)

  const NoFields := RawFields(Undefined, None, None, None, None)

  /** A record as the list endpoint returns it: maybe wrapped in `attributes`, maybe flat. */
  datatype RawItem = RawItem(id: int, attributes: Option<RawFields>, top: RawFields)

  /** A normalised audit; `documentId` is the top-level value when `attributes` supplies none. */
  datatype Audit = Audit(
    id: int,
    documentId: DocId,
    title: string,
    state: Option<string>,
    startDate: Option<string>,
    endDate: Option<string>)

  predicate Truthy(a: Option<string>) {
    a.Some? && a.value != ""
  }

  /** `a || b` on optional strings. */
  function Or(a: Option<string>, b: Option<string>): (r: Option<string>)
    ensures Truthy(a) ==> r == a
    ensures !Truthy(a) ==> r == b
  {
    if Truthy(a) then a else b
  }

  predicate IdTruthy(d: DocId) {
    d.Id? && d.value != ""
  }

  /** `a || b` on `documentId` values. */
  function OrId(a: DocId, b: DocId): (r: DocId)
    ensures IdTruthy(a) ==> r == a
    ensures !IdTruthy(a) ==> r == b
  {
    if IdTruthy(a) then a else b
  }

  /** The item mapped in the `.map(...)` after the list is fetched. */
  function Normalize(item: RawItem): (a: Audit)
    ensures var attr := item.attributes.GetOr(NoFields);
      && a.id == item.id
      && a.documentId == OrId(attr.documentId, item.top.documentId)
      && a.state == Or(attr.state, item.top.state)
      && a.startDate == Or(attr.startDate, item.top.startDate)
      && a.endDate == Or(attr.endDate, item.top.endDate)
      && (Truthy(attr.title) ==> a.title == attr.title.value)
      && (!Truthy(attr.title) && Truthy(item.top.title) ==> a.title == item.top.title.value)
      && (!Truthy(attr.title) && !Truthy(item.top.title) ==> a.title == "Auditoría #" + IntToString(item.id))
    ensures a.title != ""
  {
    var attr := item.attributes.GetOr(NoFields);
    var title := Or(attr.title, item.top.title);
    Audit(
      item.id,
      OrId(attr.documentId, item.top.documentId),
      if Truthy(title) then title.value else "Auditoría #" + IntToString(item.id),
      Or(attr.state, item.top.state),
      Or(attr.startDate, item.top.startDate),
      Or(attr.endDate, item.top.endDate))
  }

  /** An audit written back as a flat record. */
  function Flat(a: Audit): RawItem {
    RawItem(a.id, None, RawFields(a.documentId, Some(a.title), a.state, a.startDate, a.endDate))
  }

  /** Normalising is a fixpoint: a normalised audit, flattened, normalises to itself. */
  lemma NormalizeFlat(item: RawItem)
    ensures Normalize(Flat(Normalize(item))) == Normalize(item)
  {
  }

  function NormalizeAll(items: seq<RawItem>): (r: seq<Audit>)
    ensures |r| == |items| && forall i :: 0 <= i < |items| ==> r[i] == Normalize(items[i])
  {
    if items == [] then [] else [Normalize(items[0])] + NormalizeAll(items[1..])
  }

  // ---------------------------------------------------------------- loading

  /** What the list request yields. */
  datatype Fetch = NoToken | Failed(message: string) | NotAList | Items(items: seq<RawItem>)

  const NoTokenMessage := "No se encontró token de autenticación"

  datatype Selector = Selector(auditorias: seq<Audit>, loading: bool, error: Option<string>)

  /**
   * `fetchAuditorias` once the request settles: the list is replaced and the first audit is
   * proposed for selection when none is selected; a thrown error is shown; loading ends.
   * The second component is the `documentId` passed to `onSelectAuditoria`, if it is called.
   */
  function FetchDone(s: Selector, selected: DocId, f: Fetch): (r: (Selector, Option<DocId>))
    ensures !r.0.loading
    ensures f.NoToken? ==> r.0.error == Some(NoTokenMessage) && r.0.auditorias == s.auditorias && r.1.None?
    ensures f.Failed? ==> r.0.error == Some(f.message) && r.0.auditorias == s.auditorias && r.1.None?
    ensures f.NotAList? ==> r.0 == s.(loading := false) && r.1.None?
    ensures f.Items? ==> r.0.auditorias == NormalizeAll(f.items) && r.0.error == s.error
    ensures f.Items? ==> (r.1.Some? <==> !IdTruthy(selected) && f.items != [])
    ensures f.Items? && r.1.Some? ==> r.1.value == r.0.auditorias[0].documentId
  {
    match f
    case NoToken => (s.(loading := false, error := Some(NoTokenMessage)), None)
    case Failed(m) => (s.(loading := false, error := Some(m)), None)
    case NotAList => (s.(loading := false), None)
    case Items(items) =>
      var list := NormalizeAll(items);
      (s.(auditorias := list, loading := false), AutoSelect(selected, list))
  }

  /** The first audit's `documentId`, when nothing is selected and the list is not empty. */
  function AutoSelect(selected: DocId, list: seq<Audit>): (r: Option<DocId>)
    ensures r.Some? <==> !IdTruthy(selected) && list != []
    ensures r.Some? ==> r.value == list[0].documentId
  {
    if !IdTruthy(selected) && |list| > 0 then Some(list[0].documentId) else None
  }

  // ---------------------------------------------------------------- search

  predicate TitleMatches(a: Audit, term: string) {
    Contains(Lower(a.title), Lower(term))
  }

  predicate IdMatches(a: Audit, term: string) {
    a.documentId.Id? && Contains(Lower(a.documentId.value), Lower(term))
  }

  /**
   * An audit whose title does not match and whose `documentId` is `undefined` or `null` makes
   * the filter call `toLowerCase` on it, which throws.
   */
  predicate Throws(a: Audit, term: string) {
    !TitleMatches(a, term) && !a.documentId.Id?
  }

  predicate Kept(a: Audit, term: string) {
    TitleMatches(a, term) || IdMatches(a, term)
  }

  /** `filteredAuditorias`; `None` when the filter throws. */
  function Search(list: seq<Audit>, term: string): (r: Option<seq<Audit>>)
    ensures r.None? <==> exists i :: 0 <= i < |list| && Throws(list[i], term)
    ensures r.Some? ==> IsSubseq(r.value, list)
    ensures r.Some? ==> forall i :: 0 <= i < |r.value| ==> r.value[i] in list && Kept(r.value[i], term)
    ensures r.Some? ==> forall i :: 0 <= i < |list| && Kept(list[i], term) ==> list[i] in r.value
  {
    FilterOrThrow(list, a => Throws(a, term), a => Kept(a, term))
  }

  /** Searching a list with one more audit decides that audit alone and keeps the rest as before. */
  lemma SearchAppend(list: seq<Audit>, last: Audit, term: string)
    ensures Search(list + [last], term) ==
              if Throws(last, term) || Search(list, term).None? then None
              else Some(Search(list, term).value + (if Kept(last, term) then [last] else []))
  {
    FilterOrThrowAppend(list, last, a => Throws(a, term), a => Kept(a, term));
  }

  /** An empty search term keeps every audit, and nothing throws. */
  lemma SearchEmpty(list: seq<Audit>)
    ensures Search(list, "") == Some(list)
  {
    assert Lower("") == "";
    forall i | 0 <= i < |list|
      ensures TitleMatches(list[i], "")
    {
      ContainsEmpty(Lower(list[i].title));
    }
    FilterAll(list, a => Kept(a, ""));
  }

  // ---------------------------------------------------------------- selection

  /**
   * `a.documentId === selectedAuditoriaId`: strict equality, so an `undefined` selection
   * matches an audit whose `documentId` is `undefined`, and `null` one whose is `null`.
   */
  predicate Selects(a: Audit, selected: DocId) {
    a.documentId == selected
  }

  /** `auditorias.find(...)`, as the position of the first audit with the selected id. */
  function FindSelected(list: seq<Audit>, selected: DocId): (r: Option<nat>)
    ensures r.Some? ==> r.value < |list| && list[r.value].documentId == selected
    ensures r.Some? ==> forall j :: 0 <= j < r.value ==> list[j].documentId != selected
    ensures r.None? <==> forall j :: 0 <= j < |list| ==> list[j].documentId != selected
  {
    if list == [] then None
    else if Selects(list[0], selected) then Some(0)
    else
      match FindSelected(list[1..], selected)
      case None => None
      case Some(k) => Some(k + 1)
  }

  /**
   * The audit proposed after loading is the one the picker then shows, whatever its
   * `documentId` is, `undefined` and `null` included.
   */
  lemma AutoSelectShowsFirst(s: Selector, selected: DocId, items: seq<RawItem>)
    requires FetchDone(s, selected, Items(items)).1.Some?
    ensures var r := FetchDone(s, selected, Items(items));
      FindSelected(r.0.auditorias, r.1.value) == Some(0)
  {
    var r := FetchDone(s, selected, Items(items));
    assert Selects(r.0.auditorias[0], r.1.value);
  }

  /**
   * Clicking an audit of the filtered list selects it: the picker then finds an audit of the
   * full list with the same `documentId`.
   */
  lemma PickedIsFound(list: seq<Audit>, term: string, i: nat)
    requires Search(list, term).Some? && i < |Search(list, term).value|
    ensures var picked := Search(list, term).value[i];
      && FindSelected(list, picked.documentId).Some?
      && list[FindSelected(list, picked.documentId).value].documentId == picked.documentId
  {
    var picked := Search(list, term).value[i];
    assert picked in list;
    var k :| 0 <= k < |list| && list[k] == picked;
    assert list[k].documentId == picked.documentId;
  }

  // ---------------------------------------------------------------- state badge

  datatype Badge = EmeraldBadge | AmberBadge | GrayBadge

  /** `getStateBadgeClass`, by the lower-cased state. */
  function BadgeOf(state: Option<string>): (b: Badge)
    ensures b == EmeraldBadge <==> state.Some? && (Lower(state.value) == "completada" || Lower(state.value) == "completed")
    ensures b == AmberBadge <==> state.Some? && (Lower(state.value) == "en progreso" || Lower(state.value) == "in_progress")
  {
    match state
    case None => GrayBadge
    case Some(s) =>
      var v := Lower(s);
      if v == "completada" || v == "completed" then EmeraldBadge
      else if v == "en progreso" || v == "in_progress" then AmberBadge
      else GrayBadge
  }

  /** The badge and the status colour of the audit utilities agree on every state. */
  lemma BadgeMatchesStatusColor(state: Option<string>)
    ensures BadgeOf(state) == EmeraldBadge <==> AuditoriaUtils.StatusColor(state) == AuditoriaUtils.EmeraldStatus
    ensures BadgeOf(state) == AmberBadge <==> AuditoriaUtils.StatusColor(state) == AuditoriaUtils.AmberStatus
    ensures BadgeOf(state) == GrayBadge <==> AuditoriaUtils.StatusColor(state) == AuditoriaUtils.SlateStatus
  {
  }

  /** `auditoria.state || 'Pendiente'`. */
  function StateLabel(state: Option<string>): (s: string)
    ensures Truthy(state) ==> s == state.value
    ensures !Truthy(state) ==> s == "Pendiente"
  {
    if Truthy(state) then state.value else "Pendiente"
  }

  /**
   * The label and the badge agree: a falsy state reads "Pendiente" on a grey badge, a
   * "Pendiente" label always sits on a grey badge, and a coloured badge shows its state's
   * own text.
   */
  lemma StateLabelMatchesBadge(state: Option<string>)
    ensures !Truthy(state) ==> StateLabel(state) == "Pendiente" && BadgeOf(state) == GrayBadge
    ensures StateLabel(state) == "Pendiente" ==> BadgeOf(state) == GrayBadge
    ensures BadgeOf(state) != GrayBadge ==> state.Some? && StateLabel(state) == state.value
  {
    if state.Some? && state.value != "" {
      var v := Lower(state.value);
      if state.value == "Pendiente" {
        assert v[0] == 'p';
      }
    }
  }
}
