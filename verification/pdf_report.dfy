/**
 * The pure parts of the audit report of `src/services/pdfService.ts`: the verdict of the
 * compliance bar and of the conclusion, the table rows with their placeholders, the
 * critical domains and the numbered recommendations, and the file name. Page layout,
 * fonts and drawing are not modelled.
 */
module PdfReport {
  import opened Wrappers
  import opened Text
  import AuditoriaResultados
  import AuditoriaUtils
  import ResultsTable

  /** `resumen?.porcentajeCumplimiento || 0`. */
  function Porcentaje(resumen: Option<AuditoriaResultados.Summary>): nat {
    match resumen
    case None => 0
    case Some(s) => s.porcentajeCumplimiento
  }

  // ---------------------------------------------------------------- verdicts

  /** `estadoText`, the label on the compliance bar. */
  function EstadoText(p: int): (t: string)
    ensures t == "EXCELENTE" <==> p >= 75
    ensures t == "ACEPTABLE" <==> 50 <= p < 75
    ensures t == "REGULAR" <==> 25 <= p < 50
    ensures t == "INSUFICIENTE" <==> p < 25
  {
    if p < 75 && p >= 50 then "ACEPTABLE"
    else if p < 50 && p >= 25 then "REGULAR"
    else if p < 25 then "INSUFICIENTE"
    else "EXCELENTE"
  }

  /** `estadoGeneral`, the level named in the conclusion. */
  function EstadoGeneral(p: int): (t: string)
    ensures t == "un nivel satisfactorio" <==> p >= 75
    ensures t == "un nivel aceptable" <==> 50 <= p < 75
    ensures t == "un nivel que requiere mejoras significativas" <==> 25 <= p < 50
    ensures t == "un nivel crítico que requiere atención inmediata" <==> p < 25
  {
    if p >= 75 then "un nivel satisfactorio"
    else if p >= 50 then "un nivel aceptable"
    else if p >= 25 then "un nivel que requiere mejoras significativas"
    else "un nivel crítico que requiere atención inmediata"
  }

  /**
   * The bar label, the conclusion and the progress colour of the audit utilities cut the
   * percentage at the same three points.
   */
  lemma VerdictsAgree(p: int)
    ensures EstadoText(p) == "EXCELENTE" <==> EstadoGeneral(p) == "un nivel satisfactorio"
    ensures EstadoText(p) == "EXCELENTE" <==> AuditoriaUtils.ProgressColor(p) == AuditoriaUtils.Emerald
    ensures EstadoText(p) == "ACEPTABLE" <==> EstadoGeneral(p) == "un nivel aceptable"
    ensures EstadoText(p) == "ACEPTABLE" <==> AuditoriaUtils.ProgressColor(p) == AuditoriaUtils.Amber
    ensures EstadoText(p) == "REGULAR" <==> EstadoGeneral(p) == "un nivel que requiere mejoras significativas"
    ensures EstadoText(p) == "REGULAR" <==> AuditoriaUtils.ProgressColor(p) == AuditoriaUtils.Orange
    ensures EstadoText(p) == "INSUFICIENTE" <==> EstadoGeneral(p) == "un nivel crítico que requiere atención inmediata"
    ensures EstadoText(p) == "INSUFICIENTE" <==> AuditoriaUtils.ProgressColor(p) == AuditoriaUtils.Red
  {
  }

  datatype Fill = Verde | Amarillo | Rojo | Gris

  /** The fill of the compliance bar: green from 75, yellow from 50, red below. */
  function BarFill(p: int): (f: Fill)
    ensures f == Verde <==> p >= 75
    ensures f == Amarillo <==> 50 <= p < 75
    ensures f == Rojo <==> p < 50
  {
    if p >= 75 then Verde else if p >= 50 then Amarillo else Rojo
  }

  /**
   * The bar's fill follows its label and the utilities' progress colour: green with
   * "EXCELENTE" and emerald, yellow with "ACEPTABLE" and amber, red with the two lower bands.
   */
  lemma BarFillAgrees(p: int)
    ensures BarFill(p) == Verde <==> EstadoText(p) == "EXCELENTE"
    ensures BarFill(p) == Verde <==> AuditoriaUtils.ProgressColor(p) == AuditoriaUtils.Emerald
    ensures BarFill(p) == Amarillo <==> EstadoText(p) == "ACEPTABLE"
    ensures BarFill(p) == Amarillo <==> AuditoriaUtils.ProgressColor(p) == AuditoriaUtils.Amber
    ensures BarFill(p) == Rojo <==> EstadoText(p) == "REGULAR" || EstadoText(p) == "INSUFICIENTE"
    ensures BarFill(p) == Rojo <==>
              AuditoriaUtils.ProgressColor(p) == AuditoriaUtils.Orange || AuditoriaUtils.ProgressColor(p) == AuditoriaUtils.Red
  {
  }

  // ---------------------------------------------------------------- domain table

  /** `${n}` for a count kept in halves: "2" or "2.5". */
  function HalvesText(h: nat): string {
    NatToString(h / 2) + (if h % 2 == 1 then ".5" else "")
  }

  const NoDomainRow := ["Sin datos disponibles", "-", "-", "-"]

  function DomainRow(entry: (string, AuditoriaResultados.Tally)): (row: seq<string>)
    ensures |row| == 4 && row[0] == entry.0
    ensures row[1] == NatToString(entry.1.evaluados) + "/" + NatToString(entry.1.total)
    ensures row[3] == NatToString(entry.1.porcentaje) + "%"
  {
    var t := entry.1;
    [ entry.0,
      NatToString(t.evaluados) + "/" + NatToString(t.total),
      HalvesText(t.cumplidosHalves) + "/" + NatToString(if t.evaluados == 0 then 1 else t.evaluados),
      NatToString(t.porcentaje) + "%" ]
  }

  function DomainRowsOf(ts: AuditoriaResultados.Tallies): (rows: seq<seq<string>>)
    ensures |rows| == |ts| && forall i :: 0 <= i < |ts| ==> rows[i] == DomainRow(ts[i])
  {
    if ts == [] then [] else [DomainRow(ts[0])] + DomainRowsOf(ts[1..])
  }

  /** `dominiosData`: a row per domain, or the single placeholder row when there is none. */
  function DomainTable(ts: AuditoriaResultados.Tallies): (rows: seq<seq<string>>)
    ensures ts == [] ==> rows == [NoDomainRow]
    ensures ts != [] ==> |rows| == |ts| && forall i :: 0 <= i < |ts| ==> |rows[i]| == 4 && rows[i][0] == ts[i].0
    ensures |rows| >= 1
  {
    if ts == [] then [NoDomainRow] else DomainRowsOf(ts)
  }

  // ---------------------------------------------------------------- results table

  const NoResultRow := ["N/A", "No hay controles evaluados", "-", "-", "-"]

  /** The verdict as the results hook spells it. */
  function VerdictText(v: AuditoriaResultados.Verdict): string {
    match v
    case Cumple => "cumple"
    case NoCumple => "no cumple"
    case CumpleParcialmente => "cumple parcialmente"
    case NoAplica => "no aplica"
    case NoEvaluado => "no evaluado"
  }

  function OrText(s: string, fallback: string): string {
    if s != "" then s else fallback
  }

  /** The status cell: "Pendiente" when open, else the verdict or "No especificado". */
  function StatusText(r: AuditoriaResultados.Resultado): (t: string)
    ensures !r.completado ==> t == "Pendiente"
    ensures r.completado && r.cumplimiento.None? ==> t == "No especificado"
    ensures r.completado && r.cumplimiento.Some? ==> t == VerdictText(r.cumplimiento.value)
  {
    if !r.completado then "Pendiente"
    else match r.cumplimiento
      case None => "No especificado"
      case Some(v) => VerdictText(v)
  }

  /** The status colour: only completed results with a decided verdict are coloured. */
  function StatusFill(r: AuditoriaResultados.Resultado): (f: Fill)
    ensures f == Verde <==> r.completado && r.cumplimiento == Some(AuditoriaResultados.Cumple)
    ensures f == Amarillo <==> r.completado && r.cumplimiento == Some(AuditoriaResultados.CumpleParcialmente)
    ensures f == Rojo <==> r.completado && r.cumplimiento == Some(AuditoriaResultados.NoCumple)
  {
    if !r.completado then Gris
    else match r.cumplimiento
      case Some(Cumple) => Verde
      case Some(CumpleParcialmente) => Amarillo
      case Some(NoCumple) => Rojo
      case _ => Gris
  }

  function ResultRow(r: AuditoriaResultados.Resultado): (row: seq<string>)
    ensures |row| == 5 && row[3] == StatusText(r)
  {
    var c := r.controlData.GetOr(AuditoriaResultados.Control(0, "", "", "", "", "", ""));
    [OrText(c.code, "N/A"), OrText(c.name, "Sin nombre"), OrText(c.domain, "Sin dominio"),
     StatusText(r), r.observaciones]
  }

  function ResultRowsOf(rs: seq<AuditoriaResultados.Resultado>): (rows: seq<seq<string>>)
    ensures |rows| == |rs| && forall i :: 0 <= i < |rs| ==> rows[i] == ResultRow(rs[i])
  {
    if rs == [] then [] else [ResultRow(rs[0])] + ResultRowsOf(rs[1..])
  }

  /** `resultadosData`: a row per result, or the single placeholder row when there is none. */
  function ResultTable(rs: seq<AuditoriaResultados.Resultado>): (rows: seq<seq<string>>)
    ensures rs == [] ==> rows == [NoResultRow]
    ensures rs != [] ==> |rows| == |rs| && forall i :: 0 <= i < |rs| ==> |rows[i]| == 5 && rows[i][3] == StatusText(rs[i])
    ensures |rows| >= 1
  {
    if rs == [] then [NoResultRow] else ResultRowsOf(rs)
  }

  // ---------------------------------------------------------------- agreement with the results table

  /** The verdict text is lower case throughout, so lower-casing leaves it as it is. */
  lemma VerdictTextLower(v: AuditoriaResultados.Verdict)
    ensures Lower(VerdictText(v)) == VerdictText(v)
  {
    var t := VerdictText(v);
    match v
    case Cumple => LowerOfLowercase(t);
    case NoCumple => LowerOfLowercase(t);
    case CumpleParcialmente => LowerOfLowercase(t);
    case NoAplica => LowerOfLowercase(t);
    case NoEvaluado => LowerOfLowercase(t);
  }

  /** The row the results table shows for a result: the verdict as text, "" when there is none. */
  function TableRow(r: AuditoriaResultados.Resultado): ResultsTable.Row {
    ResultsTable.Row(
      r.id, r.completado,
      match r.cumplimiento case None => "" case Some(v) => VerdictText(v),
      r.observaciones,
      match r.controlData
      case None => None
      case Some(c) => Some(ResultsTable.ControlInfo(c.code, c.name, c.description, c.domain)))
  }

  /**
   * The report and the results table describe a result alike: the report's status text is
   * the table's status label, and the report colours the status green, yellow or red exactly
   * when the table's badge is emerald, amber or red.
   */
  lemma StatusAgreesWithTable(r: AuditoriaResultados.Resultado)
    ensures StatusText(r) == ResultsTable.StatusLabel(TableRow(r))
    ensures StatusFill(r) == Verde <==> ResultsTable.BadgeOf(TableRow(r)) == ResultsTable.EmeraldBadge
    ensures StatusFill(r) == Amarillo <==> ResultsTable.BadgeOf(TableRow(r)) == ResultsTable.AmberBadge
    ensures StatusFill(r) == Rojo <==> ResultsTable.BadgeOf(TableRow(r)) == ResultsTable.RedBadge
    ensures StatusFill(r) == Gris <==> ResultsTable.BadgeOf(TableRow(r)) == ResultsTable.GrayBadge
  {
    if r.cumplimiento.Some? {
      VerdictTextLower(r.cumplimiento.value);
    }
  }

  /** Each row of the report's results table has the status the results table shows for it. */
  lemma ResultTableMatchesTable(rs: seq<AuditoriaResultados.Resultado>)
    ensures forall i :: 0 <= i < |rs| ==> ResultTable(rs)[i][3] == ResultsTable.StatusLabel(TableRow(rs[i]))
  {
    forall i | 0 <= i < |rs| ensures ResultTable(rs)[i][3] == ResultsTable.StatusLabel(TableRow(rs[i])) {
      StatusAgreesWithTable(rs[i]);
    }
  }

  /**
   * On a summary's domains the report has one row per domain the controls name, or the
   * placeholder when there are no controls; each row carries its domain's evaluated and
   * total counts and a percentage of at most 100.
   */
  lemma DomainTableOfSummary(rs: seq<AuditoriaResultados.Resultado>, cs: seq<AuditoriaResultados.Control>)
    ensures var ts := AuditoriaResultados.Summarize(rs, cs).porDominio;
      && (DomainTable(ts) == [NoDomainRow] <==> cs == [])
      && (cs != [] ==> |DomainTable(ts)| == |AuditoriaResultados.Register(cs, AuditoriaResultados.ByDomain)|)
      && forall i :: 0 <= i < |ts| && cs != [] ==>
           && DomainTable(ts)[i][0] == AuditoriaResultados.Register(cs, AuditoriaResultados.ByDomain)[i].0
           && DomainTable(ts)[i][1] == NatToString(ts[i].1.evaluados) + "/" + NatToString(ts[i].1.total)
           && DomainTable(ts)[i][3] == NatToString(ts[i].1.porcentaje) + "%"
           && ts[i].1.porcentaje <= 100
  {
    var ts := AuditoriaResultados.Summarize(rs, cs).porDominio;
    AuditoriaResultados.SummaryTallies(rs, cs);
    if ts == [] {
      assert AuditoriaResultados.SumOf(ts, AuditoriaResultados.Total) == 0;
    }
    if cs == [] {
      assert |AuditoriaResultados.Register(cs, AuditoriaResultados.ByDomain)| == 0;
    }
  }

  // ---------------------------------------------------------------- recommendations

  predicate Critical(t: AuditoriaResultados.Tally) {
    t.porcentaje < 50 && t.evaluados > 0
  }

  /** `dominiosCriticos`: the names of the domains below 50% with something evaluated, in order. */
  function CriticalDomains(ts: AuditoriaResultados.Tallies): (r: seq<string>)
    ensures |r| <= |ts|
    ensures forall d :: d in r <==> exists i :: 0 <= i < |ts| && ts[i].0 == d && Critical(ts[i].1)
  {
    if ts == [] then []
    else
      var rest := CriticalDomains(ts[1..]);
      assert forall i :: 1 <= i < |ts| ==> ts[i] == ts[1..][i - 1];
      assert forall i :: 0 <= i < |ts| - 1 ==> ts[1..][i] == ts[i + 1];
      if Critical(ts[0].1) then [ts[0].0] + rest else rest
  }

  /** One numbered recommendation, with its bullet list. */
  datatype Item = Item(number: nat, text: string, bullets: seq<string>)

  const PriorityText := "Priorizar la implementación de controles en los siguientes dominios que presentan bajo nivel de cumplimiento:"
  const GeneralTexts := [
    "Completar la evaluación de los controles pendientes para obtener una visión más completa.",
    "Establecer un plan de acción con responsables y fechas para remediar los incumplimientos detectados.",
    "Implementar un programa de concientización en seguridad para todo el personal.",
    "Planificar una revisión de seguimiento en 3-6 meses para evaluar el progreso."]

  function GeneralItems(first: nat, texts: seq<string>): (items: seq<Item>)
    ensures |items| == |texts|
    ensures forall i :: 0 <= i < |texts| ==> items[i] == Item(first + i, texts[i], [])
    decreases |texts|
  {
    if texts == [] then [] else [Item(first, texts[0], [])] + GeneralItems(first + 1, texts[1..])
  }

  /**
   * The recommendations: the priority item over the critical domains comes first when there
   * is any, and the four general items follow, numbered on from it.
   */
  function Recommendations(critical: seq<string>): (items: seq<Item>)
    ensures |items| == (if critical == [] then 4 else 5)
    ensures forall i :: 0 <= i < |items| ==> items[i].number == i + 1
    ensures critical != [] ==> items[0] == Item(1, PriorityText, critical)
    ensures var g := if critical == [] then 0 else 1;
      forall i :: 0 <= i < 4 ==> items[g + i].text == GeneralTexts[i] && items[g + i].bullets == []
  {
    if critical == [] then GeneralItems(1, GeneralTexts)
    else [Item(1, PriorityText, critical)] + GeneralItems(2, GeneralTexts)
  }

  /** The general items are numbered from 2 when a domain is critical and from 1 otherwise. */
  lemma GeneralNumbering(ts: AuditoriaResultados.Tallies)
    ensures var items := Recommendations(CriticalDomains(ts));
      var first := items[|items| - 4].number;
      first == (if exists i :: 0 <= i < |ts| && Critical(ts[i].1) then 2 else 1)
  {
    var c := CriticalDomains(ts);
    if exists i :: 0 <= i < |ts| && Critical(ts[i].1) {
      var i :| 0 <= i < |ts| && Critical(ts[i].1);
      assert ts[i].0 in c;
    }
  }

  function Bullets(ds: seq<string>): string {
    if ds == [] then "" else "   • " + ds[0] + "\n" + Bullets(ds[1..])
  }

  function RenderItems(items: seq<Item>): string {
    if items == [] then ""
    else
      var it := items[0];
      var head := NatToString(it.number) + ". " + it.text;
      var body := if it.bullets == [] then head + (if |items| > 1 then "\n\n" else "")
                  else head + "\n" + Bullets(it.bullets) + "\n";
      body + RenderItems(items[1..])
  }

  /** `recomendacionesTexto`. */
  function RecommendationsText(critical: seq<string>): string {
    "Se recomienda priorizar las siguientes acciones:\n\n" + RenderItems(Recommendations(critical))
  }

  // ---------------------------------------------------------------- file name

  function RemoveDashes(s: string): (r: string)
    ensures forall i :: 0 <= i < |r| ==> r[i] != '-'
    ensures |r| <= |s|
  {
    if s == [] then []
    else (if s[0] == '-' then [] else [s[0]]) + RemoveDashes(s[1..])
  }

  /** `Informe_ISO27001_` + the date part of the ISO timestamp without dashes + `.pdf`. */
  function Filename(iso: string): (f: string)
    ensures StartsWith(f, "Informe_ISO27001_")
    ensures |f| <= 17 + 10 + 4
  {
    var day := if |iso| <= 10 then iso else iso[..10];
    "Informe_ISO27001_" + RemoveDashes(day) + ".pdf"
  }

  /** A timestamp that opens with `YYYY-MM-DD` names the file `Informe_ISO27001_YYYYMMDD.pdf`. */
  lemma FilenameOfIsoDate(iso: string)
    requires |iso| >= 10 && iso[4] == '-' && iso[7] == '-'
    requires forall i | 0 <= i < 10 && i != 4 && i != 7 :: IsDigit(iso[i])
    ensures Filename(iso) == "Informe_ISO27001_" + iso[..4] + iso[5..7] + iso[8..10] + ".pdf"
  {
    var day := if |iso| <= 10 then iso else iso[..10];
    assert day == iso[..10];
    var y, m, d := iso[..4], iso[5..7], iso[8..10];
    assert day == y + ['-'] + m + ['-'] + d;
    assert forall i :: 0 <= i < 4 ==> y[i] == iso[i];
    assert forall i :: 0 <= i < 2 ==> m[i] == iso[5 + i] && d[i] == iso[8 + i];
    DashedDay(y, m, d);
    assert Filename(iso) == "Informe_ISO27001_" + RemoveDashes(day) + ".pdf";
  }

  /** Removing the two dashes of `y-m-d` leaves `ymd` when the parts hold none. */
  lemma DashedDay(y: string, m: string, d: string)
    requires forall i :: 0 <= i < |y| ==> y[i] != '-'
    requires forall i :: 0 <= i < |m| ==> m[i] != '-'
    requires forall i :: 0 <= i < |d| ==> d[i] != '-'
    ensures RemoveDashes(y + ['-'] + m + ['-'] + d) == y + m + d
  {
    var dash: string := ['-'];
    var a := y + dash;
    var b := a + m;
    var c := b + dash;
    assert RemoveDashes(dash) == [];
    RemoveDashesNone(y);
    RemoveDashesNone(m);
    RemoveDashesNone(d);
    RemoveDashesAppend(y, dash);
    assert RemoveDashes(a) == y;
    RemoveDashesAppend(a, m);
    assert RemoveDashes(b) == y + m;
    RemoveDashesAppend(b, dash);
    assert RemoveDashes(c) == y + m;
    RemoveDashesAppend(c, d);
  }

  lemma {:induction false} RemoveDashesAppend(s: string, t: string)
    ensures RemoveDashes(s + t) == RemoveDashes(s) + RemoveDashes(t)
  {
    if s == [] {
      assert s + t == t;
    } else {
      assert (s + t)[1..] == s[1..] + t;
      RemoveDashesAppend(s[1..], t);
    }
  }

  lemma {:induction false} RemoveDashesNone(s: string)
    requires forall i :: 0 <= i < |s| ==> s[i] != '-'
    ensures RemoveDashes(s) == s
  {
    if s != [] {
      RemoveDashesNone(s[1..]);
      assert s == [s[0]] + s[1..];
    }
  }
}
