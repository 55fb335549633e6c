/**
 * The results hook of `src/hooks/useAuditoriaResultados.ts`: the normalised result record,
 * the verdict and domain mappings, the compliance summary (`calcularResumen`) and the
 * result filter. Per-domain and per-category tallies are association lists in insertion
 * order, which is the order `Object.keys` gives for keys that do not look like integers; a
 * partial verdict weighs one half, so compliant counts are kept in half units.
 */
module AuditoriaResultados {
  import opened Wrappers
  import opened Text
  import opened Seqs
  import opened Percent

  /** The normalised compliance verdict (`cumplimiento`). */
  datatype Verdict = Cumple | NoCumple | CumpleParcialmente | NoAplica | NoEvaluado

  /** A normalised control; an empty string stands for a missing or empty field. */
  datatype Control = Control(
    id: int, documentId: string, code: string, name: string, description: string,
    category: string, domain: string)

  /** A normalised result. */
  datatype Resultado = Resultado(
    id: int,
    completado: bool,
    cumplimiento: Option<Verdict>,
    observaciones: string,
    controlData: Option<Control>)

  /** The raw fields of a result record the normaliser reads. */
  datatype RawResult = RawResult(
    id: int, fechaEvaluacion: Option<string>, tipo: Option<string>, comentario: Option<string>)

  // ---------------------------------------------------------------- normalisation

  /** `!!rawItem.fechaEvaluacion`: present and not the empty string. */
  predicate Truthy(s: Option<string>) { s.Some? && s.value != "" }

  /** The four recognised `tipo` spellings, compared in lower case. */
  function VerdictOfTipo(tipo: string): (r: Option<Verdict>)
    ensures r.Some? ==> r.value != NoEvaluado
    ensures r == Some(Cumple) <==> Lower(tipo) == "conforme"
    ensures r == Some(NoCumple) <==> Lower(tipo) == "no conforme"
    ensures r == Some(CumpleParcialmente) <==> Lower(tipo) == "parcialmente conforme"
    ensures r == Some(NoAplica) <==> Lower(tipo) == "no aplica"
  {
    var t := Lower(tipo);
    if t == "conforme" then Some(Cumple)
    else if t == "no conforme" then Some(NoCumple)
    else if t == "parcialmente conforme" then Some(CumpleParcialmente)
    else if t == "no aplica" then Some(NoAplica)
    else None
  }

  /**
   * The verdict part of the normaliser: a completed result starts as "no evaluado", an
   * open one without a verdict; a recognised `tipo` overrides either.
   */
  function NormalizeVerdict(completado: bool, tipo: Option<string>): (r: Option<Verdict>)
    ensures Truthy(tipo) && VerdictOfTipo(tipo.value).Some? ==> r == VerdictOfTipo(tipo.value)
    ensures !(Truthy(tipo) && VerdictOfTipo(tipo.value).Some?) ==> (r == Some(NoEvaluado) <==> completado)
    ensures !(Truthy(tipo) && VerdictOfTipo(tipo.value).Some?) ==> (r.None? <==> !completado)
    ensures r == Some(NoEvaluado) ==> completado
  {
    var initial := if completado then Some(NoEvaluado) else None;
    if Truthy(tipo) then
      match VerdictOfTipo(tipo.value)
      case Some(v) => Some(v)
      case None => initial
    else initial
  }

  /** The normalised record built from a raw result and the control it was matched to. */
  function Normalize(raw: RawResult, control: Option<Control>): (r: Resultado)
    ensures r.completado <==> Truthy(raw.fechaEvaluacion)
    ensures r.cumplimiento == NormalizeVerdict(r.completado, raw.tipo)
    ensures r.observaciones == if Truthy(raw.comentario) then raw.comentario.value else ""
    ensures r.controlData == control && r.id == raw.id
  {
    var completado := Truthy(raw.fechaEvaluacion);
    Resultado(raw.id, completado, NormalizeVerdict(completado, raw.tipo),
              if Truthy(raw.comentario) then raw.comentario.value else "", control)
  }

  /** The domain name of a control type letter; a missing type gives "Sin dominio". */
  function DomainForType(tipo: Option<string>): (r: string)
    ensures !Truthy(tipo) ==> r == "Sin dominio"
    ensures Truthy(tipo) && tipo.value !in {"A", "B", "C", "D"} ==> r == "Tipo " + tipo.value
    ensures r != ""
  {
    if !Truthy(tipo) then "Sin dominio"
    else match tipo.value
      case "A" => "Controles Organizacionales"
      case "B" => "Controles de Personas"
      case "C" => "Controles Físicos"
      case "D" => "Controles Tecnológicos"
      case other => "Tipo " + other
  }

  /** The four letters name four different domains, none of the fallback form. */
  lemma DomainForTypeDistinct(a: string, b: string)
    requires a in {"A", "B", "C", "D"} && b in {"A", "B", "C", "D"} && a != b
    ensures DomainForType(Some(a)) != DomainForType(Some(b))
    ensures !StartsWith(DomainForType(Some(a)), "Tipo ")
  {
  }

  // ---------------------------------------------------------------- tallies

  /** One per-domain or per-category record; `cumplidosHalves` is twice `cumplidos`. */
  datatype Tally = Tally(total: nat, evaluados: nat, cumplidosHalves: nat, porcentaje: nat)

  type Tallies = seq<(string, Tally)>

  /** The two groupings of `calcularResumen`. */
  datatype Dimension = ByDomain | ByCategory

  /** The grouping key of a control, with the source's defaults for missing values. */
  function KeyOf(dim: Dimension, c: Control): string {
    match dim
    case ByDomain => if c.domain == "" then "Sin dominio" else c.domain
    case ByCategory => if c.category == "" then "Sin categoría" else c.category
  }

  /** The updates a tally receives: one more control, or one more evaluated result worth `halves`. */
  datatype Op = CountControl | CountResult(halves: nat)

  function Apply(op: Op, t: Tally): Tally {
    match op
    case CountControl => t.(total := t.total + 1)
    case CountResult(h) => t.(evaluados := t.evaluados + 1, cumplidosHalves := t.cumplidosHalves + h)
  }

  /** Position of `key`, if present. */
  function KeyIndex(ts: Tallies, key: string): (r: Option<nat>)
    ensures r.Some? ==> r.value < |ts| && ts[r.value].0 == key
    ensures r.None? ==> forall i :: 0 <= i < |ts| ==> ts[i].0 != key
  {
    if ts == [] then None
    else if ts[0].0 == key then Some(0)
    else match KeyIndex(ts[1..], key)
      case None => None
      case Some(i) => Some(i + 1)
  }

  /** `if (!tallies[key]) tallies[key] = {0, 0, 0, 0}`. */
  function Ensure(ts: Tallies, key: string): (r: Tallies)
    ensures KeyIndex(ts, key).Some? ==> r == ts
    ensures KeyIndex(ts, key).None? ==> r == ts + [(key, Tally(0, 0, 0, 0))]
  {
    if KeyIndex(ts, key).Some? then ts else ts + [(key, Tally(0, 0, 0, 0))]
  }

  /** `if (tallies[key]) update(tallies[key])`: only an existing entry changes. */
  function Modify(ts: Tallies, key: string, op: Op): (r: Tallies)
    ensures |r| == |ts|
    ensures forall i :: 0 <= i < |ts| ==> r[i].0 == ts[i].0
    ensures forall i :: 0 <= i < |ts| && ts[i].0 != key ==> r[i] == ts[i]
  {
    match KeyIndex(ts, key)
    case None => ts
    case Some(i) => ts[i := (key, Apply(op, ts[i].1))]
  }

  /** Keys appear at most once. */
  predicate UniqueKeys(ts: Tallies) {
    forall i, j :: 0 <= i < j < |ts| ==> ts[i].0 != ts[j].0
  }

  datatype Field = Total | Evaluados | Halves

  function FieldOf(f: Field, t: Tally): nat {
    match f
    case Total => t.total
    case Evaluados => t.evaluados
    case Halves => t.cumplidosHalves
  }

  function SumOf(ts: Tallies, f: Field): nat {
    if ts == [] then 0 else FieldOf(f, ts[0].1) + SumOf(ts[1..], f)
  }

  lemma {:induction false} SumUpdate(ts: Tallies, i: nat, x: (string, Tally), f: Field)
    requires i < |ts|
    ensures SumOf(ts[i := x], f) + FieldOf(f, ts[i].1) == SumOf(ts, f) + FieldOf(f, x.1)
  {
    if i > 0 {
      assert ts[i := x][1..] == ts[1..][i - 1 := x];
      SumUpdate(ts[1..], i - 1, x, f);
    }
  }

  lemma {:induction false} SumSnoc(ts: Tallies, x: (string, Tally), f: Field)
    ensures SumOf(ts + [x], f) == SumOf(ts, f) + FieldOf(f, x.1)
  {
    if ts != [] {
      assert (ts + [x])[1..] == ts[1..] + [x];
      SumSnoc(ts[1..], x, f);
    }
  }

  /** What one update adds to a field's sum, when the key exists. */
  function Delta(op: Op, f: Field): nat {
    match (op, f)
    case (CountControl, Total) => 1
    case (CountResult(_), Evaluados) => 1
    case (CountResult(h), Halves) => h
    case _ => 0
  }

  lemma ModifySum(ts: Tallies, key: string, op: Op, f: Field)
    ensures SumOf(Modify(ts, key, op), f)
         == SumOf(ts, f) + (if KeyIndex(ts, key).Some? then Delta(op, f) else 0)
  {
    match KeyIndex(ts, key)
    case None =>
    case Some(i) => SumUpdate(ts, i, (key, Apply(op, ts[i].1)), f);
  }

  lemma EnsureSum(ts: Tallies, key: string, f: Field)
    ensures SumOf(Ensure(ts, key), f) == SumOf(ts, f)
    ensures KeyIndex(Ensure(ts, key), key).Some?
  {
    if KeyIndex(ts, key).None? {
      SumSnoc(ts, (key, Tally(0, 0, 0, 0)), f);
      var r := ts + [(key, Tally(0, 0, 0, 0))];
      assert r[|ts|].0 == key;
    }
  }

  /** The tallies after the control loop (lines 92-119): one entry per distinct key, in first-seen order. */
  function Register(cs: seq<Control>, dim: Dimension): (ts: Tallies)
    ensures forall i :: 0 <= i < |ts| ==> ts[i].1.evaluados == 0 && ts[i].1.cumplidosHalves == 0
    decreases |cs|
  {
    if cs == [] then []
    else
      var k := KeyOf(dim, cs[|cs| - 1]);
      Modify(Ensure(Register(cs[..|cs| - 1], dim), k), k, CountControl)
  }

  /** The per-key totals add up to the number of controls. */
  lemma {:induction false} RegisterTotal(cs: seq<Control>, dim: Dimension)
    ensures SumOf(Register(cs, dim), Total) == |cs|
    decreases |cs|
  {
    if cs != [] {
      var k := KeyOf(dim, cs[|cs| - 1]);
      var prev := Register(cs[..|cs| - 1], dim);
      RegisterTotal(cs[..|cs| - 1], dim);
      EnsureSum(prev, k, Total);
      ModifySum(Ensure(prev, k), k, CountControl, Total);
    }
  }

  /** An entry with the key is found exactly when some position holds it. */
  lemma KeyIndexSome(ts: Tallies, key: string, j: nat)
    requires j < |ts| && ts[j].0 == key
    ensures KeyIndex(ts, key).Some?
  {
  }

  /** No key is registered twice. */
  lemma {:induction false} RegisterUnique(cs: seq<Control>, dim: Dimension)
    ensures UniqueKeys(Register(cs, dim))
    decreases |cs|
  {
    if cs != [] {
      var k := KeyOf(dim, cs[|cs| - 1]);
      var prev := Register(cs[..|cs| - 1], dim);
      RegisterUnique(cs[..|cs| - 1], dim);
      assert UniqueKeys(Ensure(prev, k));
    }
  }

  /** Every control's key has an entry. */
  lemma {:induction false} RegisterCovers(cs: seq<Control>, dim: Dimension)
    ensures forall i :: 0 <= i < |cs| ==> KeyIndex(Register(cs, dim), KeyOf(dim, cs[i])).Some?
    decreases |cs|
  {
    if cs != [] {
      var init := cs[..|cs| - 1];
      var k := KeyOf(dim, cs[|cs| - 1]);
      var prev := Register(init, dim);
      var mid := Ensure(prev, k);
      var ts := Register(cs, dim);
      RegisterCovers(init, dim);
      EnsureSum(prev, k, Total);
      forall i | 0 <= i < |cs| ensures KeyIndex(ts, KeyOf(dim, cs[i])).Some? {
        var key := KeyOf(dim, cs[i]);
        var j := if i < |cs| - 1 then (assert cs[i] == init[i]; KeyIndex(prev, key).value)
                 else KeyIndex(mid, k).value;
        assert mid[j].0 == key;
        KeyIndexSome(ts, key, j);
      }
    }
  }

  /** Every entry is the key of some control. */
  lemma {:induction false} RegisterSound(cs: seq<Control>, dim: Dimension)
    ensures forall j :: 0 <= j < |Register(cs, dim)| ==>
              exists i :: 0 <= i < |cs| && KeyOf(dim, cs[i]) == Register(cs, dim)[j].0
    decreases |cs|
  {
    if cs != [] {
      var init := cs[..|cs| - 1];
      var k := KeyOf(dim, cs[|cs| - 1]);
      var prev := Register(init, dim);
      var ts := Register(cs, dim);
      var mid := Ensure(prev, k);
      RegisterSound(init, dim);
      forall j | 0 <= j < |ts| ensures exists i :: 0 <= i < |cs| && KeyOf(dim, cs[i]) == ts[j].0 {
        assert ts[j].0 == mid[j].0;
        if j < |prev| {
          assert mid[j] == prev[j];
          var i :| 0 <= i < |init| && KeyOf(dim, init[i]) == prev[j].0;
          assert cs[i] == init[i];
        } else {
          assert mid[j].0 == k;
          assert KeyOf(dim, cs[|cs| - 1]) == ts[j].0;
        }
      }
    } else {
      assert Register(cs, dim) == [];
    }
  }

  /** Every entry has at most two half units per evaluated result. */
  predicate HalvesBounded(ts: Tallies) {
    forall i :: 0 <= i < |ts| ==> ts[i].1.cumplidosHalves <= 2 * ts[i].1.evaluados
  }

  // ---------------------------------------------------------------- summary

  /** The counters of the result loop (lines 122-172). */
  datatype Acc = Acc(
    evaluados: nat, pendientes: nat, cumplidos: nat, parciales: nat, noCumplidos: nat, noAplica: nat,
    dom: Tallies, cat: Tallies)

  /** What a verdict adds to a tally's compliant count, in half units. */
  function HalvesOf(v: Option<Verdict>): (h: nat)
    ensures h <= 2
    ensures h == 2 <==> v == Some(Cumple)
    ensures h == 1 <==> v == Some(CumpleParcialmente)
  {
    match v
    case Some(Cumple) => 2
    case Some(CumpleParcialmente) => 1
    case _ => 0
  }

  /** One iteration of the result loop. */
  function Step(a: Acc, r: Resultado): Acc {
    if !r.completado then a.(pendientes := a.pendientes + 1)
    else
      match r.controlData
      case None => a.(evaluados := a.evaluados + 1)
      case Some(c) =>
        var op := CountResult(HalvesOf(r.cumplimiento));
        var a1 := a.(evaluados := a.evaluados + 1,
                     dom := Modify(a.dom, KeyOf(ByDomain, c), op),
                     cat := Modify(a.cat, KeyOf(ByCategory, c), op));
        match r.cumplimiento
        case Some(Cumple) => a1.(cumplidos := a1.cumplidos + 1)
        case Some(CumpleParcialmente) => a1.(parciales := a1.parciales + 1)
        case Some(NoCumple) => a1.(noCumplidos := a1.noCumplidos + 1)
        case Some(NoAplica) => a1.(noAplica := a1.noAplica + 1)
        case _ => a1
  }

  /** The result loop, in array order. */
  function Process(a: Acc, rs: seq<Resultado>): Acc
    decreases |rs|
  {
    if rs == [] then a else Step(Process(a, rs[..|rs| - 1]), rs[|rs| - 1])
  }

  /** The per-entry percentage (lines 191-203): rounded compliant share once something was evaluated. */
  function Finish(t: Tally): (r: Tally)
    ensures r.total == t.total && r.evaluados == t.evaluados && r.cumplidosHalves == t.cumplidosHalves
    ensures t.evaluados == 0 ==> r.porcentaje == 0
    ensures t.evaluados > 0 ==>
              2 * (2 * t.evaluados) * r.porcentaje <= 200 * t.cumplidosHalves + 2 * t.evaluados
                < 2 * (2 * t.evaluados) * r.porcentaje + 2 * (2 * t.evaluados)
    ensures t.cumplidosHalves <= 2 * t.evaluados ==> r.porcentaje <= 100
  {
    var p := if t.evaluados > 0 then RoundPercent(t.cumplidosHalves, 2 * t.evaluados) else 0;
    if t.evaluados > 0 then RoundPercentAtMost100(t.cumplidosHalves, 2 * t.evaluados); t.(porcentaje := p)
    else t.(porcentaje := p)
  }

  function FinishAll(ts: Tallies): (r: Tallies)
    ensures |r| == |ts|
    ensures forall i :: 0 <= i < |ts| ==> r[i] == (ts[i].0, Finish(ts[i].1))
  {
    seq(|ts|, i requires 0 <= i < |ts| => (ts[i].0, Finish(ts[i].1)))
  }

  lemma {:induction false} FinishAllSum(ts: Tallies, f: Field)
    ensures SumOf(FinishAll(ts), f) == SumOf(ts, f)
  {
    if ts != [] {
      assert FinishAll(ts)[1..] == FinishAll(ts[1..]);
      FinishAllSum(ts[1..], f);
    }
  }

  datatype Summary = Summary(
    totalControles: nat,
    evaluados: nat, pendientes: nat,
    cumplidos: nat, parciales: nat, noCumplidos: nat, noAplica: nat,
    porcentajeCumplimiento: nat, porcentajeCompletitud: nat,
    porDominio: Tallies, porCategoria: Tallies)

  /** `porcentajeCompletitud` as the source computes it (lines 175-178). */
  function CompletitudAsWritten(evaluados: nat, noAplica: nat, totalControles: nat): (p: nat)
    ensures totalControles <= noAplica ==> p == 0
    ensures totalControles > noAplica ==>
              var b := totalControles - noAplica;
              2 * b * p <= 200 * evaluados + b < 2 * b * p + 2 * b
  {
    if totalControles - noAplica > 0 then RoundPercent(evaluados, totalControles - noAplica) else 0
  }

  /**
   * Completeness over applicable controls with the not-applicable results taken out of the
   * numerator as well as the denominator.
   */
  function Completitud(evaluados: nat, noAplica: nat, totalControles: nat): (p: nat)
    requires noAplica <= evaluados
    ensures totalControles <= noAplica ==> p == 0
    ensures totalControles > noAplica ==>
              var b := totalControles - noAplica;
              2 * b * p <= 200 * (evaluados - noAplica) + b < 2 * b * p + 2 * b
    ensures evaluados <= totalControles ==> p <= 100
    ensures noAplica < totalControles == evaluados ==> p == 100
  {
    if totalControles > noAplica then
      var b := totalControles - noAplica;
      RoundPercentAtMost100(evaluados - noAplica, b);
      RoundPercentEnds(b);
      RoundPercent(evaluados - noAplica, b)
    else 0
  }

  /**
   * `porcentajeCumplimiento` (lines 180-187): compliant plus half the partial results over
   * the evaluated applicable ones, once there are applicable controls and evaluated
   * applicable results; 0 otherwise.
   */
  function Cumplimiento(a: Acc, totalControles: nat): (p: nat)
    ensures !(totalControles > a.noAplica && a.evaluados > a.noAplica) ==> p == 0
    ensures totalControles > a.noAplica && a.evaluados > a.noAplica ==>
              var b := 2 * (a.evaluados - a.noAplica);
              2 * b * p <= 200 * (2 * a.cumplidos + a.parciales) + b < 2 * b * p + 2 * b
    ensures a.cumplidos + a.parciales + a.noAplica <= a.evaluados ==> p <= 100
  {
    if totalControles > a.noAplica && a.evaluados > 0 && a.evaluados > a.noAplica then
      RoundPercentAtMost100(2 * a.cumplidos + a.parciales, 2 * (a.evaluados - a.noAplica));
      RoundPercent(2 * a.cumplidos + a.parciales, 2 * (a.evaluados - a.noAplica))
    else 0
  }

  /** The end of `calcularResumen`: the loop's counters and the two percentages over `total` controls. */
  function Conclude(a: Acc, total: nat): (s: Summary)
    ensures s.totalControles == total
    ensures total <= s.noAplica ==> s.porcentajeCompletitud == 0
    ensures total > s.noAplica ==>
              var b := total - s.noAplica;
              2 * b * s.porcentajeCompletitud <= 200 * s.evaluados + b < 2 * b * s.porcentajeCompletitud + 2 * b
    ensures !(total > s.noAplica && s.evaluados > s.noAplica) ==> s.porcentajeCumplimiento == 0
    ensures total > s.noAplica && s.evaluados > s.noAplica ==>
              var b := 2 * (s.evaluados - s.noAplica);
              2 * b * s.porcentajeCumplimiento <= 200 * (2 * s.cumplidos + s.parciales) + b
                < 2 * b * s.porcentajeCumplimiento + 2 * b
  {
    var cumplimiento := Cumplimiento(a, total);
    var completitud := CompletitudAsWritten(a.evaluados, a.noAplica, total);
    var dom, cat := FinishAll(a.dom), FinishAll(a.cat);
    Summary(total, a.evaluados, a.pendientes, a.cumplidos, a.parciales, a.noCumplidos, a.noAplica,
            cumplimiento, completitud, dom, cat)
  }

  /**
   * `calcularResumen` as written: the counters of the result loop, completeness as the source
   * computes it (every evaluated result over the applicable controls) and compliance over the
   * evaluated applicable results.
   */
  function Summarize(rs: seq<Resultado>, cs: seq<Control>): (s: Summary)
    ensures s.totalControles == |cs|
    ensures |cs| <= s.noAplica ==> s.porcentajeCompletitud == 0
    ensures |cs| > s.noAplica ==>
              var b := |cs| - s.noAplica;
              2 * b * s.porcentajeCompletitud <= 200 * s.evaluados + b < 2 * b * s.porcentajeCompletitud + 2 * b
    ensures !(|cs| > s.noAplica && s.evaluados > s.noAplica) ==> s.porcentajeCumplimiento == 0
    ensures |cs| > s.noAplica && s.evaluados > s.noAplica ==>
              var b := 2 * (s.evaluados - s.noAplica);
              2 * b * s.porcentajeCumplimiento <= 200 * (2 * s.cumplidos + s.parciales) + b
                < 2 * b * s.porcentajeCumplimiento + 2 * b
  {
    Conclude(Process(Acc(0, 0, 0, 0, 0, 0, Register(cs, ByDomain), Register(cs, ByCategory)), rs), |cs|)
  }

  /**
   * The summary with completeness corrected as `Completitud`: not-applicable results leave
   * the numerator as they leave the denominator. Every other field is the program's.
   */
  function SummarizeCorrected(rs: seq<Resultado>, cs: seq<Control>): (s: Summary)
    ensures s == Summarize(rs, cs).(porcentajeCompletitud := s.porcentajeCompletitud)
    ensures s.noAplica <= s.evaluados
    ensures s.evaluados <= |cs| ==> s.porcentajeCompletitud <= 100
    ensures |cs| <= s.noAplica ==> s.porcentajeCompletitud == 0
    ensures |cs| > s.noAplica ==>
              var b := |cs| - s.noAplica;
              2 * b * s.porcentajeCompletitud <= 200 * (s.evaluados - s.noAplica) + b
                < 2 * b * s.porcentajeCompletitud + 2 * b
  {
    var s := Summarize(rs, cs);
    SummaryParts(rs, cs);
    var p := Completitud(s.evaluados, s.noAplica, |cs|);
    s.(porcentajeCompletitud := p)
  }

  /** The summary's verdict counters stay within its evaluated count, and how its completeness is made. */
  lemma SummaryParts(rs: seq<Resultado>, cs: seq<Control>)
    ensures var s := Summarize(rs, cs);
      && s.noAplica <= s.evaluados
      && s.porcentajeCompletitud == CompletitudAsWritten(s.evaluados, s.noAplica, |cs|)
  {
    ProcessVerdicts(Acc(0, 0, 0, 0, 0, 0, Register(cs, ByDomain), Register(cs, ByCategory)), rs);
  }

  /**
   * The program's completeness is never below the corrected one, and the two agree when no
   * evaluated result is "no aplica".
   */
  lemma CompletitudAsWrittenAtLeastCorrected(rs: seq<Resultado>, cs: seq<Control>)
    ensures Summarize(rs, cs).porcentajeCompletitud >= SummarizeCorrected(rs, cs).porcentajeCompletitud
    ensures Summarize(rs, cs).noAplica == 0 ==>
              Summarize(rs, cs).porcentajeCompletitud == SummarizeCorrected(rs, cs).porcentajeCompletitud
  {
    var w, c := Summarize(rs, cs), SummarizeCorrected(rs, cs);
    SummaryParts(rs, cs);
    var e, n := w.evaluados, w.noAplica;
    assert c.porcentajeCompletitud == Completitud(e, n, |cs|);
    if |cs| > n {
      RoundPercentMono(e - n, e, |cs| - n);
    }
  }

  // ---------------------------------------------------------------- summary properties

  /** Each result is either evaluated or pending. */
  lemma {:induction false} ProcessCounts(a: Acc, rs: seq<Resultado>)
    ensures Process(a, rs).evaluados + Process(a, rs).pendientes == a.evaluados + a.pendientes + |rs|
    decreases |rs|
  {
    if rs != [] { ProcessCounts(a, rs[..|rs| - 1]); }
  }

  /** A verdict is classified only for an evaluated result. */
  lemma {:induction false} ProcessVerdicts(a: Acc, rs: seq<Resultado>)
    requires a.cumplidos + a.parciales + a.noCumplidos + a.noAplica <= a.evaluados
    ensures var b := Process(a, rs);
      b.cumplidos + b.parciales + b.noCumplidos + b.noAplica <= b.evaluados
    decreases |rs|
  {
    if rs != [] { ProcessVerdicts(a, rs[..|rs| - 1]); }
  }

  /** `b` has the same keys as `a`, in the same order. */
  predicate SameKeys(a: Tallies, b: Tallies) {
    |b| == |a| && forall i :: 0 <= i < |a| ==> b[i].0 == a[i].0
  }

  /** What one iteration does to the tallies: keys and totals kept, at most one more evaluated entry. */
  predicate TallyStep(a: Acc, b: Acc) {
    && SameKeys(a.dom, b.dom) && SameKeys(a.cat, b.cat)
    && SumOf(b.dom, Total) == SumOf(a.dom, Total) && SumOf(b.cat, Total) == SumOf(a.cat, Total)
    && SumOf(b.dom, Evaluados) + a.evaluados <= SumOf(a.dom, Evaluados) + b.evaluados
    && SumOf(b.cat, Evaluados) + a.evaluados <= SumOf(a.cat, Evaluados) + b.evaluados
    && HalvesBounded(b.dom) && HalvesBounded(b.cat)
  }

  lemma StepTallies(a: Acc, r: Resultado)
    requires HalvesBounded(a.dom) && HalvesBounded(a.cat)
    ensures TallyStep(a, Step(a, r))
  {
    if r.completado && r.controlData.Some? {
      var c := r.controlData.value;
      var op := CountResult(HalvesOf(r.cumplimiento));
      StepTally(a.dom, KeyOf(ByDomain, c), op);
      StepTally(a.cat, KeyOf(ByCategory, c), op);
    }
  }

  /** The result loop keeps keys, totals and the half-unit bound of every entry. */
  lemma {:induction false} ProcessTallies(a: Acc, rs: seq<Resultado>)
    requires HalvesBounded(a.dom) && HalvesBounded(a.cat)
    ensures TallyStep(a, Process(a, rs))
    decreases |rs|
  {
    if rs != [] {
      var p := Process(a, rs[..|rs| - 1]);
      ProcessTallies(a, rs[..|rs| - 1]);
      StepTallies(p, rs[|rs| - 1]);
    }
  }

  lemma StepTally(ts: Tallies, key: string, op: Op)
    requires op.CountResult? && op.halves <= 2 && HalvesBounded(ts)
    ensures SumOf(Modify(ts, key, op), Total) == SumOf(ts, Total)
    ensures SumOf(Modify(ts, key, op), Evaluados) <= SumOf(ts, Evaluados) + 1
    ensures HalvesBounded(Modify(ts, key, op))
  {
    ModifySum(ts, key, op, Total);
    ModifySum(ts, key, op, Evaluados);
  }

  /** The headline counts: controls, results split into evaluated and pending, verdicts within the evaluated. */
  lemma SummaryCounts(rs: seq<Resultado>, cs: seq<Control>)
    ensures var s := Summarize(rs, cs);
      && s.totalControles == |cs|
      && s.evaluados + s.pendientes == |rs|
      && s.cumplidos + s.parciales + s.noCumplidos + s.noAplica <= s.evaluados
      && s.porcentajeCumplimiento <= 100
  {
    var a0 := Acc(0, 0, 0, 0, 0, 0, Register(cs, ByDomain), Register(cs, ByCategory));
    ProcessCounts(a0, rs);
    ProcessVerdicts(a0, rs);
  }

  /** Per-domain and per-category tallies: one entry per distinct key, totals adding up to the controls. */
  lemma SummaryTallies(rs: seq<Resultado>, cs: seq<Control>)
    ensures var s := Summarize(rs, cs);
      && SumOf(s.porDominio, Total) == |cs| && SumOf(s.porCategoria, Total) == |cs|
      && SumOf(s.porDominio, Evaluados) <= s.evaluados && SumOf(s.porCategoria, Evaluados) <= s.evaluados
      && (forall i :: 0 <= i < |s.porDominio| ==> s.porDominio[i].1.porcentaje <= 100)
      && (forall i :: 0 <= i < |s.porCategoria| ==> s.porCategoria[i].1.porcentaje <= 100)
      && SameKeys(Register(cs, ByDomain), s.porDominio)
      && SameKeys(Register(cs, ByCategory), s.porCategoria)
  {
    var a0 := Acc(0, 0, 0, 0, 0, 0, Register(cs, ByDomain), Register(cs, ByCategory));
    var a := Process(a0, rs);
    RegisterTotal(cs, ByDomain);
    RegisterTotal(cs, ByCategory);
    ZeroEvaluados(Register(cs, ByDomain));
    ZeroEvaluados(Register(cs, ByCategory));
    ProcessTallies(a0, rs);
    FinishAllSum(a.dom, Total);
    FinishAllSum(a.cat, Total);
    FinishAllSum(a.dom, Evaluados);
    FinishAllSum(a.cat, Evaluados);
  }

  lemma {:induction false} ZeroEvaluados(ts: Tallies)
    requires forall i :: 0 <= i < |ts| ==> ts[i].1.evaluados == 0 && ts[i].1.cumplidosHalves == 0
    ensures SumOf(ts, Evaluados) == 0 && HalvesBounded(ts)
  {
    if ts != [] {
      assert forall i :: 0 <= i < |ts[1..]| ==> ts[1..][i] == ts[i + 1];
      ZeroEvaluados(ts[1..]);
    }
  }

  function TalliesOf(a: Acc, dim: Dimension): Tallies {
    match dim
    case ByDomain => a.dom
    case ByCategory => a.cat
  }

  /**
   * What one result does to the entry of a key: an evaluated result with control data whose
   * key it is adds one evaluated and 2, 1 or 0 half units (cumple, parcial, otherwise);
   * nothing else changes the entry.
   */
  lemma StepEntry(a: Acc, r: Resultado, dim: Dimension, i: nat)
    requires UniqueKeys(TalliesOf(a, dim)) && i < |TalliesOf(a, dim)|
    ensures var before := TalliesOf(a, dim)[i].1;
      var after := TalliesOf(Step(a, r), dim)[i].1;
      var hit := r.completado && r.controlData.Some? && KeyOf(dim, r.controlData.value) == TalliesOf(a, dim)[i].0;
      && |TalliesOf(Step(a, r), dim)| == |TalliesOf(a, dim)|
      && after.total == before.total
      && after.evaluados == before.evaluados + (if hit then 1 else 0)
      && after.cumplidosHalves == before.cumplidosHalves + (if hit then HalvesOf(r.cumplimiento) else 0)
  {
    var ts := TalliesOf(a, dim);
    if r.completado && r.controlData.Some? {
      var key := KeyOf(dim, r.controlData.value);
      match KeyIndex(ts, key)
      case None =>
      case Some(j) =>
        if ts[i].0 == key { assert i == j; }
    }
  }

  // ---------------------------------------------------------------- filter

  /** The filter ids of `resultadosFiltrados`. */
  datatype Selector = Pendientes | Evaluados_ | WithVerdict(v: Verdict) | Todos

  function SelectorOf(filtro: string): Selector {
    match filtro
    case "pendientes" => Pendientes
    case "cumplidos" => WithVerdict(Cumple)
    case "parciales" => WithVerdict(CumpleParcialmente)
    case "noCumplidos" => WithVerdict(NoCumple)
    case "noAplica" => WithVerdict(NoAplica)
    case "evaluados" => Evaluados_
    case _ => Todos
  }

  predicate Selects(sel: Selector, r: Resultado) {
    match sel
    case Pendientes => !r.completado
    case Evaluados_ => r.completado
    case WithVerdict(v) => r.completado && r.cumplimiento == Some(v)
    case Todos => true
  }

  /** The results `sel` selects, in their original order. */
  function Select(rs: seq<Resultado>, sel: Selector): (r: seq<Resultado>)
    ensures |r| <= |rs|
    ensures forall i :: 0 <= i < |r| ==> r[i] in rs && Selects(sel, r[i])
    ensures forall i :: 0 <= i < |rs| && Selects(sel, rs[i]) ==> rs[i] in r
    ensures IsSubseq(r, rs)
  {
    if rs == [] then []
    else if Selects(sel, rs[0]) then [rs[0]] + Select(rs[1..], sel)
    else Select(rs[1..], sel)
  }

  lemma {:induction false} SelectAppend(rs: seq<Resultado>, last: Resultado, sel: Selector)
    ensures Select(rs + [last], sel) == Select(rs, sel) + (if Selects(sel, last) then [last] else [])
  {
    if rs == [] {
      assert rs + [last] == [last];
    } else {
      assert (rs + [last])[1..] == rs[1..] + [last];
      SelectAppend(rs[1..], last, sel);
    }
  }

  lemma {:induction false} SelectTodos(rs: seq<Resultado>)
    ensures Select(rs, Todos) == rs
  {
    if rs != [] { SelectTodos(rs[1..]); }
  }

  /** `resultadosFiltrados`: the results the active filter selects, in their original order. */
  function FilterResults(rs: seq<Resultado>, filtro: string): (r: seq<Resultado>)
    ensures IsSubseq(r, rs)
    ensures forall i :: 0 <= i < |r| ==> Selects(SelectorOf(filtro), r[i])
    ensures forall i :: 0 <= i < |rs| && Selects(SelectorOf(filtro), rs[i]) ==> rs[i] in r
    ensures SelectorOf(filtro) == Todos ==> r == rs
  {
    if rs == [] then []
    else
      match SelectorOf(filtro)
      case Todos => SelectTodos(rs); rs
      case sel => Select(rs, sel)
  }

  /** "pendientes" and "evaluados" split the results between them. */
  lemma {:induction false} PendingEvaluatedSplit(rs: seq<Resultado>)
    ensures |Select(rs, Pendientes)| + |Select(rs, Evaluados_)| == |rs|
  {
    if rs != [] { PendingEvaluatedSplit(rs[1..]); }
  }

  /** One iteration's effect on the pending, evaluated and compliant counters. */
  lemma StepCounts(a: Acc, r: Resultado)
    ensures Step(a, r).pendientes == a.pendientes + (if Selects(Pendientes, r) then 1 else 0)
    ensures Step(a, r).evaluados == a.evaluados + (if Selects(Evaluados_, r) then 1 else 0)
    ensures r.completado ==> r.controlData.Some? ==>
              Step(a, r).cumplidos == a.cumplidos + (if Selects(WithVerdict(Cumple), r) then 1 else 0)
    ensures !r.completado ==> Step(a, r).cumplidos == a.cumplidos
  {
  }

  /** The filters count what the summary counts; a compliant count matches once every evaluated result has its control. */
  lemma {:induction false} FilterCountsMatchProcess(a: Acc, rs: seq<Resultado>)
    ensures var b := Process(a, rs);
      && b.pendientes == a.pendientes + |Select(rs, Pendientes)|
      && b.evaluados == a.evaluados + |Select(rs, Evaluados_)|
      && ((forall i :: 0 <= i < |rs| && rs[i].completado ==> rs[i].controlData.Some?) ==>
            b.cumplidos == a.cumplidos + |Select(rs, WithVerdict(Cumple))|)
    decreases |rs|
  {
    if rs != [] {
      var init := rs[..|rs| - 1];
      var last := rs[|rs| - 1];
      assert rs == init + [last];
      FilterCountsMatchProcess(a, init);
      StepCounts(Process(a, init), last);
      SelectAppend(init, last, Pendientes);
      SelectAppend(init, last, Evaluados_);
      SelectAppend(init, last, WithVerdict(Cumple));
      if forall i :: 0 <= i < |rs| && rs[i].completado ==> rs[i].controlData.Some? {
        assert forall i :: 0 <= i < |init| && init[i].completado ==> init[i].controlData.Some? by {
          assert forall i :: 0 <= i < |init| ==> init[i] == rs[i];
        }
      }
    }
  }

  /** The summary's pending, evaluated and compliant counts are the sizes of the matching filters. */
  lemma SummaryMatchesFilters(rs: seq<Resultado>, cs: seq<Control>)
    ensures Summarize(rs, cs).pendientes == |FilterResults(rs, "pendientes")|
    ensures Summarize(rs, cs).evaluados == |FilterResults(rs, "evaluados")|
    ensures (forall i :: 0 <= i < |rs| && rs[i].completado ==> rs[i].controlData.Some?) ==>
              Summarize(rs, cs).cumplidos == |FilterResults(rs, "cumplidos")|
  {
    var a0 := Acc(0, 0, 0, 0, 0, 0, Register(cs, ByDomain), Register(cs, ByCategory));
    SummaryOfProcess(rs, cs);
    FilterCountsMatchProcess(a0, rs);
    FilterIsSelect(rs, "pendientes");
    FilterIsSelect(rs, "evaluados");
    FilterIsSelect(rs, "cumplidos");
  }

  lemma SummaryOfProcess(rs: seq<Resultado>, cs: seq<Control>)
    ensures var b := Process(Acc(0, 0, 0, 0, 0, 0, Register(cs, ByDomain), Register(cs, ByCategory)), rs);
      var s := Summarize(rs, cs);
      s.pendientes == b.pendientes && s.evaluados == b.evaluados && s.cumplidos == b.cumplidos
  {
  }

  lemma FilterIsSelect(rs: seq<Resultado>, filtro: string)
    requires filtro in {"pendientes", "evaluados", "cumplidos"}
    ensures FilterResults(rs, filtro) == Select(rs, SelectorOf(filtro))
    ensures SelectorOf(filtro) == match filtro
      case "pendientes" => Pendientes case "evaluados" => Evaluados_ case _ => WithVerdict(Cumple)
  {
  }

  // ---------------------------------------------------------------- finding

  /**
   * As written, completeness counts not-applicable results in the numerator but removes them
   * from the denominator: four controls, all evaluated, two of them not applicable, give 200.
   */
  lemma CompletitudAsWrittenExceeds100()
    ensures CompletitudAsWritten(4, 2, 4) == 200
    ensures Completitud(4, 2, 4) == 100
  {
    var p := CompletitudAsWritten(4, 2, 4);
    assert 4 * p <= 802 < 4 * p + 4;
  }
}
