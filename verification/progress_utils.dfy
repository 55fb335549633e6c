/**
 * The progress cache of `src/utils/progressUtils.ts`: one browser-storage entry per audit,
 * keyed `auditoria_<documentId>_progreso`, holding the JSON object
 * `{"progreso":p,"controlesEvaluados":n,"timestamp":t}`. Browser storage is a map from keys
 * to strings; the clock is the parameter `now`. Every operation returns the storage after
 * the call together with the value the TypeScript function returns.
 */
module ProgressUtils {
  import opened Wrappers
  import opened Json
  import opened Percent

  type Storage = map<string, string>

  /** What `loadProgress`, `calculateProgress` and `updateProgressAfterEvaluation` return. */
  datatype Progress = Progress(progreso: int, controlesEvaluados: int)

  /** The storage key of an audit. */
  function Key(documentId: string): (k: string)
    ensures |k| == |documentId| + 19
    ensures k[..10] == "auditoria_" && k[|k| - 9..] == "_progreso"
    ensures k[10..|k| - 9] == documentId
  {
    "auditoria_" + documentId + "_progreso"
  }

  /** Different audits never share a cache entry. */
  lemma KeyInjective(a: string, b: string)
    ensures Key(a) == Key(b) <==> a == b
  {
    if Key(a) == Key(b) {
      assert a == Key(a)[10..|Key(a)| - 9];
    }
  }

  /** `st'` agrees with `st` on every key other than `key`. */
  ghost predicate SameExcept(st: Storage, st': Storage, key: string) {
    forall k :: k != key ==> (k in st <==> k in st') && (k in st ==> st[k] == st'[k])
  }

  /** `JSON.stringify` of the record `saveProgress` writes. */
  function Payload(progreso: int, controlesEvaluados: int, timestamp: int): string {
    EncodeObject([("progreso", JInt(progreso)), ("controlesEvaluados", JInt(controlesEvaluados)),
                  ("timestamp", JInt(timestamp))])
  }

  /**
   * `saveProgress`: an empty id is refused without touching storage; otherwise the payload
   * is written and read back, and the read-back text is never empty, so the call succeeds.
   */
  function Save(st: Storage, documentId: string, progreso: int, controlesEvaluados: int, now: int)
    : (r: (Storage, bool))
    ensures documentId == "" ==> r == (st, false)
    ensures documentId != "" ==> r.1 && Key(documentId) in r.0 && r.0[Key(documentId)] != ""
    ensures documentId != "" ==> r.0.Keys == st.Keys + {Key(documentId)}
    ensures SameExcept(st, r.0, Key(documentId))
  {
    if documentId == "" then (st, false)
    else
      var st' := st[Key(documentId) := Payload(progreso, controlesEvaluados, now)];
      (st', Key(documentId) in st' && st'[Key(documentId)] != "")
  }

  /** The numeric `progreso` and `controlesEvaluados` members of a parsed document, if both are numbers. */
  function Fields(d: Doc): Option<Progress> {
    match d
    case Scalar(_) => None
    case Obj(ms) =>
      match (Lookup(ms, "progreso"), Lookup(ms, "controlesEvaluados"))
      case (Some(JInt(p)), Some(JInt(n))) => Some(Progress(p, n))
      case _ => None
  }

  /**
   * `loadProgress`: an empty id, a missing entry and an empty string give null and leave
   * storage alone; text that does not parse, or whose two fields are not numbers, is
   * evicted and gives null.
   */
  function Load(st: Storage, documentId: string): (r: (Storage, Option<Progress>))
    ensures documentId == "" || Key(documentId) !in st ==> r == (st, None)
    ensures r.1.Some? ==> r.0 == st
    ensures r.1.None? ==> r.0 == st || r.0 == st - {Key(documentId)}
    ensures SameExcept(st, r.0, Key(documentId))
    ensures r.1.Some? ==>
              && Key(documentId) in st
              && Parse(st[Key(documentId)]).Some?
              && Fields(Parse(st[Key(documentId)]).value) == r.1
    ensures documentId != "" && Key(documentId) in st && st[Key(documentId)] == "" ==> r == (st, None)
    ensures documentId != "" && Key(documentId) in st && Parse(st[Key(documentId)]).Some?
            && Fields(Parse(st[Key(documentId)]).value).Some? ==>
              r == (st, Fields(Parse(st[Key(documentId)]).value))
    ensures documentId != "" && Key(documentId) in st && st[Key(documentId)] != ""
            && (Parse(st[Key(documentId)]).None? || Fields(Parse(st[Key(documentId)]).value).None?) ==>
              r == (st - {Key(documentId)}, None)
  {
    if documentId == "" then (st, None)
    else
      var key := Key(documentId);
      if key !in st || st[key] == "" then (st, None)
      else
        match Parse(st[key])
        case None => (st - {key}, None)
        case Some(d) =>
          match Fields(d)
          case None => (st - {key}, None)
          case Some(p) => (st, Some(p))
  }

  /** `clearProgress`: removes exactly the audit's entry; an empty id is refused. */
  function Clear(st: Storage, documentId: string): (r: (Storage, bool))
    ensures r.1 <==> documentId != ""
    ensures documentId == "" ==> r.0 == st
    ensures documentId != "" ==> r.0.Keys == st.Keys - {Key(documentId)}
    ensures SameExcept(st, r.0, Key(documentId))
  {
    if documentId == "" then (st, false) else (st - {Key(documentId)}, true)
  }

  /**
   * The clamped percentage of `updateProgressAfterEvaluation`: the evaluated count is taken
   * as at least 0 and the total as at least 1, the ratio is rounded and capped at 100.
   */
  function ClampedProgress(evaluados: int, total: int): (p: nat)
    ensures p <= 100
    ensures 0 <= evaluados <= total && 0 < total ==> 2 * total * p <= 200 * evaluados + total < 2 * total * p + 2 * total
    ensures evaluados <= 0 ==> p == 0
    ensures 0 < total <= evaluados ==> p == 100
    ensures total <= 0 < evaluados ==> p == 100
  {
    var controlesEvaluados: nat := if evaluados < 0 then 0 else evaluados;
    var totalControles: nat := if total < 1 then 1 else total;
    var rounded := RoundPercent(controlesEvaluados, totalControles);
    RoundPercentEnds(totalControles);
    RoundPercentAtLeast100(controlesEvaluados, totalControles);
    RoundPercentAtMost100(controlesEvaluados, totalControles);
    if rounded < 100 then rounded else 100
  }

  /**
   * `updateProgressAfterEvaluation`: clamps the counts, rounds the percentage, caps it at
   * 100 and writes it to the cache. An empty id gives {0, 0} and writes nothing.
   */
  function UpdateAfterEvaluation(st: Storage, documentId: string, evaluados: int, total: int, now: int)
    : (r: (Storage, Progress))
    ensures documentId == "" ==> r == (st, Progress(0, 0))
    ensures documentId != "" ==>
              && r.1.controlesEvaluados == (if evaluados < 0 then 0 else evaluados)
              && r.1.progreso == ClampedProgress(evaluados, total)
              && Load(r.0, documentId) == (r.0, Some(r.1))
    ensures SameExcept(st, r.0, Key(documentId))
  {
    if documentId == "" then (st, Progress(0, 0))
    else
      var controlesEvaluados := if evaluados < 0 then 0 else evaluados;
      var progreso := ClampedProgress(evaluados, total);
      LoadAfterSave(st, documentId, progreso, controlesEvaluados, now);
      (Save(st, documentId, progreso, controlesEvaluados, now).0, Progress(progreso, controlesEvaluados))
  }

  /**
   * `calculateProgress`: a cached value is returned as it is; otherwise {100, totalControles}
   * is cached and returned. An empty id gives {0, 0}.
   */
  function CalculateProgress(st: Storage, documentId: string, totalControles: int, now: int)
    : (r: (Storage, Progress))
    ensures documentId == "" ==> r == (st, Progress(0, 0))
    ensures documentId != "" && Load(st, documentId).1.Some? ==> r == (st, Load(st, documentId).1.value)
    ensures documentId != "" && Load(st, documentId).1.None? ==> r.1 == Progress(100, totalControles)
    ensures documentId != "" ==> Load(r.0, documentId) == (r.0, Some(r.1))
    ensures SameExcept(st, r.0, Key(documentId))
  {
    if documentId == "" then (st, Progress(0, 0))
    else
      var (st1, cached) := Load(st, documentId);
      match cached
      case Some(p) => (st1, p)
      case None =>
        LoadAfterSave(st1, documentId, 100, totalControles, now);
        (Save(st1, documentId, 100, totalControles, now).0, Progress(100, totalControles))
  }

  // ---------------------------------------------------------------- properties

  /** The saved payload parses back to its two counters. */
  lemma PayloadFields(progreso: int, controlesEvaluados: int, now: int)
    ensures Parse(Payload(progreso, controlesEvaluados, now)).Some?
    ensures Fields(Parse(Payload(progreso, controlesEvaluados, now)).value)
         == Some(Progress(progreso, controlesEvaluados))
  {
    var ms := [("progreso", JInt(progreso)), ("controlesEvaluados", JInt(controlesEvaluados)),
               ("timestamp", JInt(now))];
    ParseEncodeObject(ms);
    var front := ms[..|ms| - 1];
    assert front == ms[..2];
    assert front[..|front| - 1] == [ms[0]];
    assert Lookup(ms, "progreso") == Some(JInt(progreso));
    assert Lookup(ms, "controlesEvaluados") == Some(JInt(controlesEvaluados));
  }

  /** Saving and then loading the same audit gives back exactly what was saved. */
  lemma LoadAfterSave(st: Storage, documentId: string, progreso: int, controlesEvaluados: int, now: int)
    requires documentId != ""
    ensures var st' := Save(st, documentId, progreso, controlesEvaluados, now).0;
      Load(st', documentId) == (st', Some(Progress(progreso, controlesEvaluados)))
  {
    PayloadFields(progreso, controlesEvaluados, now);
  }

  /** Stored text that is not JSON is evicted and reads as null. */
  lemma LoadEvictsUnparsable(st: Storage, documentId: string)
    requires documentId != "" && Key(documentId) in st && st[Key(documentId)] != ""
    requires Parse(st[Key(documentId)]).None?
    ensures Load(st, documentId) == (st - {Key(documentId)}, None)
  {
  }

  /** A stored document whose two counters are not both numbers is evicted and reads as null. */
  lemma LoadEvictsMalformed(st: Storage, documentId: string)
    requires documentId != "" && Key(documentId) in st && st[Key(documentId)] != ""
    requires Parse(st[Key(documentId)]).Some? && Fields(Parse(st[Key(documentId)]).value).None?
    ensures Load(st, documentId) == (st - {Key(documentId)}, None)
  {
  }

  /** After clearing an audit its progress reads as null, and every other audit reads as before. */
  lemma ClearThenLoad(st: Storage, documentId: string, other: string)
    requires documentId != "" && other != documentId
    ensures Load(Clear(st, documentId).0, documentId).1 == None
    ensures Load(Clear(st, documentId).0, other).1 == Load(st, other).1
  {
    LoadOther(st, Clear(st, documentId).0, documentId, other);
  }

  /** Changing only one audit's entry does not change what any other audit loads. */
  lemma LoadOther(st: Storage, st': Storage, documentId: string, other: string)
    requires SameExcept(st, st', Key(documentId)) && other != documentId
    ensures Load(st', other).1 == Load(st, other).1
  {
    KeyInjective(documentId, other);
  }

  /** Saving one audit's progress does not change what another audit loads. */
  lemma SaveKeepsOthers(st: Storage, documentId: string, other: string, p: int, n: int, now: int)
    requires other != documentId
    ensures Load(Save(st, documentId, p, n, now).0, other).1 == Load(st, other).1
  {
    LoadOther(st, Save(st, documentId, p, n, now).0, documentId, other);
  }
}
