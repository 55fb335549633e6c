/**
 * The audit-state hook of `src/hooks/useAuditoriaState.ts`: loading an audit, counting its
 * evaluated results, caching the progress, suggesting a state change, and the guarded
 * state update. The HTTP exchanges are inputs (`FetchResponse`, `UpdateResponse`); the
 * hook's React state is the record `Hook`.
 */
module AuditoriaState {
  import opened Wrappers
  import opened Text
  import opened Seqs
  import opened ProgressUtils

  /** The part of an audit record the hook reads. */
  datatype Audit = Audit(
    documentId: string,
    state: Option<string>,
    controlCount: nat,                     // `(data.controladors || []).length`
    evaluationDates: seq<Option<string>>)  // `fechaEvaluacion` of each result

  /** What the audit request ends with. */
  datatype FetchResponse =
    | NoToken                  // no auth cookie: thrown before any request
    | FetchFailed(message: string)
    | Found(audits: seq<Audit>)

  /** What the state-update requests end with. */
  datatype UpdateResponse = UpdateNoToken | UpdateFailed | Updated(audit: Audit)

  /** The request `actualizarEstadoAuditoria` sends: target document and new state. */
  datatype UpdateRequest = UpdateRequest(target: string, state: string)

  datatype Hook = Hook(
    auditoria: Option<Audit>,
    loading: bool,
    error: Option<string>,
    progreso: int,
    controlesEvaluados: int,
    totalControles: int,
    estadoSugerido: Option<string>,
    storage: Storage)

  const Completada := "Completada"
  const EnProgreso := "En Progreso"

  /** A result is evaluated when its date is present and not blank. */
  predicate IsEvaluated(fecha: Option<string>) {
    fecha.Some? && fecha.value != "" && Trim(fecha.value) != ""
  }

  /** The number of evaluated results. */
  function EvaluatedCount(dates: seq<Option<string>>): (n: nat)
    ensures n <= |dates|
    ensures n == 0 <==> forall i :: 0 <= i < |dates| ==> !IsEvaluated(dates[i])
    ensures n == |dates| <==> forall i :: 0 <= i < |dates| ==> IsEvaluated(dates[i])
  {
    CountZero(dates, IsEvaluated);
    CountFull(dates, IsEvaluated);
    Count(dates, IsEvaluated)
  }

  /** A date counts exactly when it has a non-whitespace character. */
  lemma IsEvaluatedMeans(fecha: Option<string>)
    ensures IsEvaluated(fecha) <==>
              fecha.Some? && exists i :: 0 <= i < |fecha.value| && !IsWhitespace(fecha.value[i])
  {
    if fecha.Some? { TrimEmpty(fecha.value); }
  }

  /** Dates made only of Unicode spacing, such as an ideographic or a line separator, do not count. */
  lemma UnicodeBlankNotEvaluated()
    ensures !IsEvaluated(Some("\U{3000}"))
    ensures !IsEvaluated(Some("\U{2028}\U{00A0}\U{1680}"))
    ensures IsEvaluated(Some("\U{3000}2024-01-01\U{2029}"))
  {
    TrimEmpty("\U{3000}");
    TrimEmpty("\U{2028}\U{00A0}\U{1680}");
    IsEvaluatedMeans(Some("\U{3000}2024-01-01\U{2029}"));
    assert !IsWhitespace("\U{3000}2024-01-01\U{2029}"[1]);
  }

  /**
   * The suggested next state: "Completada" at full progress, "En Progreso" strictly between
   * 0 and 100, never the state the audit already has.
   */
  function SuggestState(progreso: int, state: Option<string>): (r: Option<string>)
    ensures r == Some(Completada) <==> progreso == 100 && state != Some(Completada)
    ensures r == Some(EnProgreso) <==> 0 < progreso < 100 && state != Some(EnProgreso)
    ensures r.Some? ==> r.value == Completada || r.value == EnProgreso
    ensures r.Some? ==> r != state
  {
    if progreso == 100 && state != Some(Completada) then Some(Completada)
    else if progreso < 100 && progreso > 0 && state != Some(EnProgreso) then Some(EnProgreso)
    else None
  }

  /** The catch block of `fetchAuditoriaData`: forget the audit, clear its cache, zero the counters. */
  function FailFetch(h: Hook, documentId: string, message: string): (r: Hook)
    requires documentId != ""
    ensures r.error == Some(message) && r.auditoria.None? && !r.loading
    ensures r.progreso == 0 && r.controlesEvaluados == 0 && r.totalControles == 0
    ensures r.estadoSugerido.None?
    ensures Key(documentId) !in r.storage
    ensures SameExcept(h.storage, r.storage, Key(documentId))
  {
    Hook(None, false, Some(message), 0, 0, 0, None, Clear(h.storage, documentId).0)
  }

  /**
   * `fetchAuditoriaData`: does nothing without an id; otherwise reads the cache, then
   * either adopts the first audit returned (counts, progress, cache, suggestion) or takes
   * the error path.
   */
  function Fetch(h: Hook, documentId: string, response: FetchResponse, now: int): (r: Hook)
    ensures documentId == "" ==> r == h
    ensures documentId != "" ==> !r.loading
    ensures documentId != "" ==> (r.error.None? <==> response.Found? && response.audits != [])
    ensures documentId != "" && response.Found? && response.audits != [] ==>
              var a := response.audits[0];
              && r.auditoria == Some(a)
              && r.totalControles == a.controlCount
              && r.controlesEvaluados == EvaluatedCount(a.evaluationDates)
              && 0 <= r.progreso <= 100
              && r.estadoSugerido == SuggestState(r.progreso, a.state)
              && Load(r.storage, documentId).1 == Some(Progress(r.progreso, r.controlesEvaluados))
    ensures documentId != "" && !(response.Found? && response.audits != []) ==>
              && r.auditoria.None?
              && r.progreso == 0 && r.controlesEvaluados == 0 && r.totalControles == 0
              && r.estadoSugerido.None?
              && Load(r.storage, documentId).1.None?
    ensures SameExcept(h.storage, r.storage, Key(documentId))
  {
    if documentId == "" then h
    else
      var (st1, cached) := Load(h.storage, documentId);
      var h1 := match cached
        case Some(p) => h.(storage := st1, progreso := p.progreso, controlesEvaluados := p.controlesEvaluados,
                           loading := true, error := None)
        case None => h.(storage := st1, loading := true, error := None);
      match response
      case NoToken => FailFetch(h1, documentId, "No se encontró token de autenticación")
      case FetchFailed(message) =>
        FailFetch(h1, documentId, if message == "" then "Error desconocido" else message)
      case Found(audits) =>
        if audits == [] then FailFetch(h1, documentId, "Auditoría no encontrada")
        else
          var a := audits[0];
          var evaluados := EvaluatedCount(a.evaluationDates);
          var prog := ClampedProgress(evaluados, a.controlCount);
          var saved := UpdateAfterEvaluation(h1.storage, documentId, evaluados, a.controlCount, now);
          Hook(Some(a), false, None, prog, evaluados, a.controlCount, SuggestState(prog, a.state), saved.0)
  }

  /**
   * `actualizarEstadoAuditoria`: without an id or a loaded audit it only records an error
   * and sends nothing; otherwise it sends the new state to the audit's own document id
   * (falling back to the hook's id) when a token exists, and adopts the refreshed audit.
   */
  function UpdateState(h: Hook, documentId: string, nuevoEstado: string, response: UpdateResponse)
    : (r: (Hook, Option<UpdateRequest>))
    ensures documentId == "" || h.auditoria.None? ==>
              r.1.None? && r.0 == h.(error := Some("No hay auditoría cargada o ID inválido"))
    ensures r.1.Some? <==> documentId != "" && h.auditoria.Some? && !response.UpdateNoToken?
    ensures r.1.Some? ==> r.1.value.state == nuevoEstado && r.1.value.target != ""
    ensures documentId != "" && h.auditoria.Some? && response.Updated? ==>
              r.0.auditoria == Some(response.audit) && r.0.error.None? && r.0.estadoSugerido.None?
    ensures documentId != "" && h.auditoria.Some? && !response.Updated? ==>
              r.0.auditoria == h.auditoria && r.0.error == Some("Error al actualizar estado")
    ensures r.0.storage == h.storage
  {
    if documentId == "" || h.auditoria.None? then
      (h.(error := Some("No hay auditoría cargada o ID inválido")), None)
    else
      var a := h.auditoria.value;
      var target := if a.documentId != "" then a.documentId else documentId;
      match response
      case UpdateNoToken => (h.(error := Some("Error al actualizar estado")), None)
      case UpdateFailed => (h.(error := Some("Error al actualizar estado")), Some(UpdateRequest(target, nuevoEstado)))
      case Updated(refreshed) =>
        (h.(auditoria := Some(refreshed), error := None, estadoSugerido := None),
         Some(UpdateRequest(target, nuevoEstado)))
  }

  /** Loading one audit never changes what another audit's cache entry reads as. */
  lemma FetchKeepsOtherAudits(h: Hook, documentId: string, response: FetchResponse, now: int, other: string)
    requires other != documentId
    ensures Load(Fetch(h, documentId, response, now).storage, other).1 == Load(h.storage, other).1
  {
    LoadOther(h.storage, Fetch(h, documentId, response, now).storage, documentId, other);
  }
}
