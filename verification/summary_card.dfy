/**
 * The summary card of `src/components/Resultados/ResumenCard.tsx`: the colour of its two
 * progress rings and the seven filter buttons with their counts.
 */
module SummaryCard {
  import AuditoriaResultados
  import DomainChart

  datatype RingColor = BgEmerald | BgGreen | BgAmber | BgOrange | BgRed

  /** `getProgressColor`: emerald from 90, green from 70, amber from 50, orange from 30, red below. */
  function ProgressColor(percent: int): (c: RingColor)
    ensures c == BgEmerald <==> percent >= 90
    ensures c == BgGreen <==> 70 <= percent < 90
    ensures c == BgAmber <==> 50 <= percent < 70
    ensures c == BgOrange <==> 30 <= percent < 50
    ensures c == BgRed <==> percent < 30
  {
    if percent >= 90 then BgEmerald
    else if percent >= 70 then BgGreen
    else if percent >= 50 then BgAmber
    else if percent >= 30 then BgOrange
    else BgRed
  }

  function Rank(c: RingColor): nat {
    match c
    case BgRed => 0
    case BgOrange => 1
    case BgAmber => 2
    case BgGreen => 3
    case BgEmerald => 4
  }

  /** A higher percentage never gets a lower band. */
  lemma ProgressColorMonotone(p: int, q: int)
    requires p <= q
    ensures Rank(ProgressColor(p)) <= Rank(ProgressColor(q))
  {
  }

  /** The card and the domain chart cut percentages at the same points. */
  lemma SameBandsAsChart(p: int)
    ensures Rank(ProgressColor(p)) == DomainChart.Rank(DomainChart.ColorOf(p))
  {
  }

  datatype FilterOption = FilterOption(id: string, caption: string, count: nat)

  /** `filtros`, the buttons in display order. */
  function Options(s: AuditoriaResultados.Summary): (opts: seq<FilterOption>)
    ensures |opts| == 7
    ensures opts[0] == FilterOption("todos", "Todos", s.totalControles)
    ensures opts[1] == FilterOption("evaluados", "Evaluados", s.evaluados)
    ensures opts[2] == FilterOption("pendientes", "Pendientes", s.pendientes)
    ensures opts[3] == FilterOption("cumplidos", "Cumplidos", s.cumplidos)
    ensures opts[4] == FilterOption("parciales", "Parciales", s.parciales)
    ensures opts[5] == FilterOption("noCumplidos", "No Cumplidos", s.noCumplidos)
    ensures opts[6] == FilterOption("noAplica", "No Aplica", s.noAplica)
  {
    [ FilterOption("todos", "Todos", s.totalControles),
      FilterOption("evaluados", "Evaluados", s.evaluados),
      FilterOption("pendientes", "Pendientes", s.pendientes),
      FilterOption("cumplidos", "Cumplidos", s.cumplidos),
      FilterOption("parciales", "Parciales", s.parciales),
      FilterOption("noCumplidos", "No Cumplidos", s.noCumplidos),
      FilterOption("noAplica", "No Aplica", s.noAplica) ]
  }

  /**
   * Every button's id is one the results filter understands: "todos" falls to its default
   * and keeps everything, each other id picks its own selection.
   */
  lemma OptionsUnderstood(s: AuditoriaResultados.Summary)
    ensures forall i :: 0 <= i < 7 ==>
              (AuditoriaResultados.SelectorOf(Options(s)[i].id) == AuditoriaResultados.Todos <==> i == 0)
    ensures forall i, j :: 0 <= i < j < 7 ==>
              AuditoriaResultados.SelectorOf(Options(s)[i].id) != AuditoriaResultados.SelectorOf(Options(s)[j].id)
  {
  }

  /**
   * On the summary of a result list, the pending and evaluated buttons show the number of
   * results their filter lists.
   */
  lemma OptionCountsMatchFilters(rs: seq<AuditoriaResultados.Resultado>, cs: seq<AuditoriaResultados.Control>)
    ensures var opts := Options(AuditoriaResultados.Summarize(rs, cs));
      && opts[1].count == |AuditoriaResultados.FilterResults(rs, opts[1].id)|
      && opts[2].count == |AuditoriaResultados.FilterResults(rs, opts[2].id)|
  {
    AuditoriaResultados.SummaryMatchesFilters(rs, cs);
  }

  /** A click hands the option's id to the parent, which stores it as the active filter. */
  function Click(opt: FilterOption): string {
    opt.id
  }

  /** `filtroActivo === filtro.id`: the button is drawn highlighted. */
  predicate Highlighted(active: string, opt: FilterOption) {
    active == opt.id
  }

  /**
   * After a click on button `k`, that button and no other is highlighted, and the results
   * listed are the ones the button stands for: all of them for "Todos", and exactly as many
   * as the button's count for "Evaluados" and "Pendientes", and for "Cumplidos" once every
   * evaluated result has its control.
   */
  lemma ClickShowsItsResults(rs: seq<AuditoriaResultados.Resultado>, cs: seq<AuditoriaResultados.Control>, k: nat)
    requires k < 7
    ensures var opts := Options(AuditoriaResultados.Summarize(rs, cs));
      var shown := AuditoriaResultados.FilterResults(rs, Click(opts[k]));
      && (forall j :: 0 <= j < 7 ==> (Highlighted(Click(opts[k]), opts[j]) <==> j == k))
      && (k == 0 ==> shown == rs)
      && (k == 1 || k == 2 ==> |shown| == opts[k].count)
      && (k == 3 && (forall i :: 0 <= i < |rs| && rs[i].completado ==> rs[i].controlData.Some?) ==>
            |shown| == opts[k].count)
  {
    OptionsUnderstood(AuditoriaResultados.Summarize(rs, cs));
    if k == 1 || k == 2 || k == 3 {
      AuditoriaResultados.SummaryMatchesFilters(rs, cs);
    }
  }
}
