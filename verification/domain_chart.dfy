/**
 * The per-domain bar chart of `src/components/Resultados/GraficoDominio.tsx`: one bar per
 * domain tally, its name shortened, its compliant count rounded, ordered by name, and
 * coloured by percentage.
 */
module DomainChart {
  import opened Wrappers
  import opened Text
  import AuditoriaResultados

  // ---------------------------------------------------------------- domain names

  predicate IsUpper(c: char) { 'A' <= c <= 'Z' }

  /** A string the pattern `^([A-Z]\d*\.)` matches in full: a capital, digits, a dot. */
  predicate PrefixShape(p: string) {
    && |p| >= 2
    && IsUpper(p[0])
    && p[|p| - 1] == '.'
    && forall i :: 1 <= i < |p| - 1 ==> IsDigit(p[i])
  }

  /** The number of digits that open `s`. */
  function DigitRun(s: string): (k: nat)
    ensures k <= |s|
    ensures forall i :: 0 <= i < k ==> IsDigit(s[i])
    ensures k < |s| ==> !IsDigit(s[k])
  {
    if s == [] || !IsDigit(s[0]) then 0
    else
      var k := DigitRun(s[1..]);
      assert forall i :: 1 <= i < k + 1 ==> s[i] == s[1..][i - 1];
      1 + k
  }

  /** At most one prefix of a string has the shape: a shorter one would end on a digit. */
  lemma PrefixUnique(s: string, n: nat)
    requires n <= |s| && PrefixShape(s[..n])
    ensures forall m :: 0 <= m < n ==> !PrefixShape(s[..m])
  {
    forall m | 2 <= m < n ensures !PrefixShape(s[..m]) {
      assert s[..m][m - 1] == s[..n][m - 1];
    }
  }

  /** `dominio.match(/^([A-Z]\d*\.)/)`, giving the matched prefix. */
  function MatchPrefix(s: string): (r: Option<string>)
    ensures r.Some? ==> PrefixShape(r.value) && |r.value| <= |s| && r.value == s[..|r.value|]
    ensures r.None? ==> forall n :: 0 <= n <= |s| ==> !PrefixShape(s[..n])
  {
    if |s| == 0 || !IsUpper(s[0]) then None
    else
      var k := 1 + DigitRun(s[1..]);
      assert forall i :: 1 <= i < k ==> s[i] == s[1..][i - 1];
      if k < |s| && s[k] == '.' then
        Some(s[..k + 1])
      else
        forall n | 0 <= n <= |s| ensures !PrefixShape(s[..n]) {
          if 2 <= n {
            if n - 1 < k {
              assert s[..n][n - 1] == s[n - 1] && IsDigit(s[n - 1]);
            } else {
              assert k < |s| && !IsDigit(s[k]) && s[k] != '.';
              assert s[..n][k] == s[k];
            }
          }
        }
        None
  }

  /** `formatearNombreDominio`. */
  function FormatDomain(d: string): (r: string)
    ensures MatchPrefix(d).Some? ==> r == MatchPrefix(d).value
    ensures MatchPrefix(d).None? && |d| > 15 ==> r == d[..12] + "..." && |r| == 15
    ensures MatchPrefix(d).None? && |d| <= 15 ==> r == d
  {
    match MatchPrefix(d)
    case Some(p) => p
    case None => if |d| > 15 then d[..12] + "..." else d
  }

  /** A formatted name is a matched prefix or at most 15 characters long. */
  lemma FormatDomainShort(d: string)
    ensures PrefixShape(FormatDomain(d)) || |FormatDomain(d)| <= 15
    ensures StartsWith(d, FormatDomain(d)) || StartsWith(d, FormatDomain(d)[..12])
  {
    var r := FormatDomain(d);
    if MatchPrefix(d).None? && |d| > 15 {
      assert r[..12] == d[..12];
    }
  }

  /** A name that already is a prefix is kept as it is. */
  lemma FormatPrefixFixed(p: string)
    requires PrefixShape(p)
    ensures FormatDomain(p) == p
  {
    assert p[..|p|] == p;
    PrefixUnique(p, |p|);
  }

  // ---------------------------------------------------------------- colour

  datatype BarColor = Emerald | Green | Amber | Orange | Red

  function Rank(c: BarColor): nat {
    match c
    case Red => 0
    case Orange => 1
    case Amber => 2
    case Green => 3
    case Emerald => 4
  }

  /** `getColor`: emerald from 90, green from 70, amber from 50, orange from 30, red below. */
  function ColorOf(porcentaje: int): (c: BarColor)
    ensures c == Emerald <==> porcentaje >= 90
    ensures c == Green <==> 70 <= porcentaje < 90
    ensures c == Amber <==> 50 <= porcentaje < 70
    ensures c == Orange <==> 30 <= porcentaje < 50
    ensures c == Red <==> porcentaje < 30
  {
    if porcentaje >= 90 then Emerald
    else if porcentaje >= 70 then Green
    else if porcentaje >= 50 then Amber
    else if porcentaje >= 30 then Orange
    else Red
  }

  lemma ColorMonotone(p: int, q: int)
    requires p <= q
    ensures Rank(ColorOf(p)) <= Rank(ColorOf(q))
  {
  }

  // ---------------------------------------------------------------- rows

  datatype Bar = Bar(dominio: string, total: nat, evaluados: nat, cumplidos: nat, porcentaje: nat)

  /** `Math.round` of a count kept in halves: a half rounds up. */
  function RoundHalves(h: nat): (r: nat)
    ensures h <= 2 * r <= h + 1
  {
    (h + 1) / 2
  }

  function BarOf(entry: (string, AuditoriaResultados.Tally)): (b: Bar)
    ensures b.dominio == FormatDomain(entry.0)
    ensures b.total == entry.1.total && b.evaluados == entry.1.evaluados && b.porcentaje == entry.1.porcentaje
    ensures entry.1.cumplidosHalves <= 2 * b.cumplidos <= entry.1.cumplidosHalves + 1
  {
    Bar(FormatDomain(entry.0), entry.1.total, entry.1.evaluados, RoundHalves(entry.1.cumplidosHalves), entry.1.porcentaje)
  }

  function BarsOf(ts: AuditoriaResultados.Tallies): (r: seq<Bar>)
    ensures |r| == |ts| && forall i :: 0 <= i < |ts| ==> r[i] == BarOf(ts[i])
  {
    if ts == [] then [] else [BarOf(ts[0])] + BarsOf(ts[1..])
  }

  predicate Le(a: Bar, b: Bar) {
    StrLe(a.dominio, b.dominio)
  }

  predicate Sorted(s: seq<Bar>) {
    forall i, j :: 0 <= i < j < |s| ==> Le(s[i], s[j])
  }

  function Insert(x: Bar, s: seq<Bar>): (r: seq<Bar>)
    ensures |r| == |s| + 1
    ensures multiset(r) == multiset(s) + multiset{x}
  {
    if s == [] then [x]
    else if !Le(s[0], x) then [x] + s
    else
      assert s == [s[0]] + s[1..];
      [s[0]] + Insert(x, s[1..])
  }

  lemma {:induction false} InsertSorted(x: Bar, s: seq<Bar>)
    requires Sorted(s)
    ensures Sorted(Insert(x, s))
  {
    if s != [] {
      if !Le(s[0], x) {
        StrLeTotal(s[0].dominio, x.dominio);
        forall j | 0 < j < |s| + 1 ensures Le(([x] + s)[0], ([x] + s)[j]) {
          if j > 1 { StrLeTrans(x.dominio, s[0].dominio, s[j - 1].dominio); }
        }
      } else {
        assert Sorted(s[1..]);
        InsertSorted(x, s[1..]);
        var rest := Insert(x, s[1..]);
        assert forall y :: y in multiset(rest) ==> y == x || y in multiset(s[1..]);
        forall j | 0 <= j < |rest| ensures Le(s[0], rest[j]) {
          assert rest[j] in multiset(rest);
          if rest[j] != x {
            assert rest[j] in s[1..];
          }
        }
      }
    }
  }

  /** `.sort((a, b) => a.dominio.localeCompare(b.dominio))`, by stable insertion. */
  function SortBars(bars: seq<Bar>): (r: seq<Bar>)
    ensures |r| == |bars|
    ensures multiset(r) == multiset(bars)
  {
    if bars == [] then []
    else
      assert bars == bars[..|bars| - 1] + [bars[|bars| - 1]];
      Insert(bars[|bars| - 1], SortBars(bars[..|bars| - 1]))
  }

  lemma {:induction false} SortBarsSorted(bars: seq<Bar>)
    ensures Sorted(SortBars(bars))
  {
    if bars != [] {
      SortBarsSorted(bars[..|bars| - 1]);
      InsertSorted(bars[|bars| - 1], SortBars(bars[..|bars| - 1]));
    }
  }

  /** The chart's `data`. */
  function ChartData(ts: AuditoriaResultados.Tallies): seq<Bar> {
    SortBars(BarsOf(ts))
  }

  /**
   * One bar per domain tally, each built from its tally, in ascending order of the
   * formatted name.
   */
  lemma ChartDataSpec(ts: AuditoriaResultados.Tallies)
    ensures |ChartData(ts)| == |ts|
    ensures multiset(ChartData(ts)) == multiset(BarsOf(ts))
    ensures Sorted(ChartData(ts))
    ensures forall b | b in ChartData(ts) :: exists i :: 0 <= i < |ts| && b == BarOf(ts[i])
  {
    SortBarsSorted(BarsOf(ts));
    forall b | b in ChartData(ts) ensures exists i :: 0 <= i < |ts| && b == BarOf(ts[i]) {
      assert b in multiset(ChartData(ts));
      assert b in BarsOf(ts);
    }
  }
}
