/**
 * The results table of `src/components/Resultados/TablaResultados.tsx`: the sort-column
 * toggle, the text search, the sort, the ten-row pagination and the status cell. The
 * table's React state is `View`; `localeCompare` is the code-point order `StrLe`.
 */
module ResultsTable {
  import opened Wrappers
  import opened Text
  import opened Seqs

  /** The control fields the table reads; an empty string stands for a missing one. */
  datatype ControlInfo = ControlInfo(code: string, name: string, description: string, domain: string)

  datatype Row = Row(id: int, completado: bool, cumplimiento: string, observaciones: string,
                     controlData: Option<ControlInfo>)

  datatype Column = Code | Name | Domain | Cumplimiento
  datatype Order = Asc | Desc

  /** The table state: order, sort column, search text and current page. */
  datatype View = View(orden: Order, columna: Column, busqueda: string, pagina: int)

  const PageSize := 10
  const InitialView := View(Asc, Code, "", 1)

  // ---------------------------------------------------------------- sort column

  /** `cambiarOrden`: the current column flips the order; another column is selected ascending. */
  function CambiarOrden(v: View, col: Column): (r: View)
    ensures r.columna == col && r.busqueda == v.busqueda && r.pagina == v.pagina
    ensures v.columna == col ==> r.orden != v.orden
    ensures v.columna != col ==> r.orden == Asc
  {
    if v.columna == col then v.(orden := if v.orden == Asc then Desc else Asc)
    else v.(columna := col, orden := Asc)
  }

  lemma CambiarOrdenTwice(v: View)
    ensures CambiarOrden(CambiarOrden(v, v.columna), v.columna) == v
  {
  }

  // ---------------------------------------------------------------- search

  function ControlOf(r: Row): ControlInfo {
    r.controlData.GetOr(ControlInfo("", "", "", ""))
  }

  /** The search condition: no query keeps everything, otherwise a case-insensitive substring of one of four fields. */
  predicate Matches(r: Row, query: string) {
    var q := Lower(query);
    var c := ControlOf(r);
    query == ""
    || Contains(Lower(c.code), q) || Contains(Lower(c.name), q)
    || Contains(Lower(c.description), q) || Contains(Lower(r.observaciones), q)
  }

  /** `resultadosFiltrados`. */
  function Search(rows: seq<Row>, query: string): (r: seq<Row>)
    ensures |r| <= |rows|
    ensures forall i :: 0 <= i < |r| ==> r[i] in rows && Matches(r[i], query)
    ensures forall i :: 0 <= i < |rows| && Matches(rows[i], query) ==> rows[i] in r
    ensures IsSubseq(r, rows)
  {
    if rows == [] then []
    else if Matches(rows[0], query) then [rows[0]] + Search(rows[1..], query)
    else Search(rows[1..], query)
  }

  /** Searching one more row adds that row exactly when it matches. */
  lemma {:induction false} SearchAppend(rows: seq<Row>, last: Row, query: string)
    ensures Search(rows + [last], query) == Search(rows, query) + (if Matches(last, query) then [last] else [])
  {
    if rows == [] {
      assert rows + [last] == [last];
    } else {
      assert (rows + [last])[1..] == rows[1..] + [last];
      SearchAppend(rows[1..], last, query);
    }
  }

  lemma {:induction false} SearchEmpty(rows: seq<Row>)
    ensures Search(rows, "") == rows
  {
    if rows != [] {
      SearchEmpty(rows[1..]);
    }
  }

  // ---------------------------------------------------------------- sort

  /** The value a column sorts by; a missing one sorts as "". */
  function SortKey(r: Row, col: Column): string {
    match col
    case Code => ControlOf(r).code
    case Name => ControlOf(r).name
    case Domain => ControlOf(r).domain
    case Cumplimiento => r.cumplimiento
  }

  /** `a` may precede `b`: the comparator is at most 0, reversed for descending order. */
  predicate Le(a: Row, b: Row, col: Column, ord: Order) {
    if ord == Asc then StrLe(SortKey(a, col), SortKey(b, col)) else StrLe(SortKey(b, col), SortKey(a, col))
  }

  predicate Sorted(s: seq<Row>, col: Column, ord: Order) {
    forall i, j :: 0 <= i < j < |s| ==> Le(s[i], s[j], col, ord)
  }

  lemma LeTotal(a: Row, b: Row, col: Column, ord: Order)
    ensures Le(a, b, col, ord) || Le(b, a, col, ord)
  {
    StrLeTotal(SortKey(a, col), SortKey(b, col));
  }

  lemma LeTrans(a: Row, b: Row, c: Row, col: Column, ord: Order)
    requires Le(a, b, col, ord) && Le(b, c, col, ord)
    ensures Le(a, c, col, ord)
  {
    if ord == Asc {
      StrLeTrans(SortKey(a, col), SortKey(b, col), SortKey(c, col));
    } else {
      StrLeTrans(SortKey(c, col), SortKey(b, col), SortKey(a, col));
    }
  }

  /** Places `x` after every element that may precede it: the step of a stable sort. */
  function Insert(x: Row, s: seq<Row>, col: Column, ord: Order): (r: seq<Row>)
    ensures |r| == |s| + 1
    ensures multiset(r) == multiset(s) + multiset{x}
  {
    if s == [] then [x]
    else if !Le(s[0], x, col, ord) then [x] + s
    else
      assert s == [s[0]] + s[1..];
      [s[0]] + Insert(x, s[1..], col, ord)
  }

  lemma {:induction false} InsertSorted(x: Row, s: seq<Row>, col: Column, ord: Order)
    requires Sorted(s, col, ord)
    ensures Sorted(Insert(x, s, col, ord), col, ord)
  {
    if s == [] {
    } else if !Le(s[0], x, col, ord) {
      LeTotal(s[0], x, col, ord);
      forall j | 0 <= j < |s| ensures Le(x, s[j], col, ord) {
        if j > 0 { LeTrans(x, s[0], s[j], col, ord); }
      }
      SortedCons(x, s, col, ord);
    } else {
      var tail := s[1..];
      assert Sorted(tail, col, ord);
      assert forall j :: 0 <= j < |tail| ==> tail[j] == s[j + 1];
      InsertSorted(x, tail, col, ord);
      InsertAbove(s[0], x, tail, col, ord);
      SortedCons(s[0], Insert(x, tail, col, ord), col, ord);
    }
  }

  /** A row that may precede every row of a sorted sequence can head it. */
  lemma SortedCons(h: Row, t: seq<Row>, col: Column, ord: Order)
    requires Sorted(t, col, ord)
    requires forall j :: 0 <= j < |t| ==> Le(h, t[j], col, ord)
    ensures Sorted([h] + t, col, ord)
  {
    var r := [h] + t;
    forall i, j | 0 <= i < j < |r| ensures Le(r[i], r[j], col, ord) {
      assert r[j] == t[j - 1];
      if i > 0 { assert r[i] == t[i - 1]; }
    }
  }

  /** A row that may precede `x` and every row of `s` may precede every row after inserting `x`. */
  lemma {:induction false} InsertAbove(b: Row, x: Row, s: seq<Row>, col: Column, ord: Order)
    requires Le(b, x, col, ord)
    requires forall j :: 0 <= j < |s| ==> Le(b, s[j], col, ord)
    ensures forall j :: 0 <= j < |Insert(x, s, col, ord)| ==> Le(b, Insert(x, s, col, ord)[j], col, ord)
  {
    var r := Insert(x, s, col, ord);
    if s == [] {
      assert r == [x];
    } else if !Le(s[0], x, col, ord) {
      assert r == [x] + s;
      forall j | 0 <= j < |r| ensures Le(b, r[j], col, ord) {
        if j > 0 { assert r[j] == s[j - 1]; }
      }
    } else {
      var tail := s[1..];
      assert forall j :: 0 <= j < |tail| ==> tail[j] == s[j + 1];
      InsertAbove(b, x, tail, col, ord);
      var rest := Insert(x, tail, col, ord);
      assert r == [s[0]] + rest;
      forall j | 0 <= j < |r| ensures Le(b, r[j], col, ord) {
        if j > 0 { assert r[j] == rest[j - 1]; }
      }
    }
  }

  /** The sorted copy, `[...rows].sort(comparator)`, built by stable insertion. */
  function Sort(rows: seq<Row>, col: Column, ord: Order): (r: seq<Row>)
    ensures |r| == |rows|
    ensures multiset(r) == multiset(rows)
  {
    if rows == [] then []
    else
      assert rows == rows[..|rows| - 1] + [rows[|rows| - 1]];
      Insert(rows[|rows| - 1], Sort(rows[..|rows| - 1], col, ord), col, ord)
  }

  /** The sort orders by the comparator of the chosen direction. */
  lemma {:induction false} SortSorted(rows: seq<Row>, col: Column, ord: Order)
    ensures Sorted(Sort(rows, col, ord), col, ord)
  {
    if rows != [] {
      SortSorted(rows[..|rows| - 1], col, ord);
      InsertSorted(rows[|rows| - 1], Sort(rows[..|rows| - 1], col, ord), col, ord);
    }
  }

  /** The rows whose sort key is `k`, in order. */
  function WithKey(s: seq<Row>, col: Column, k: string): (r: seq<Row>)
    ensures |r| <= |s|
  {
    if s == [] then []
    else (if SortKey(s[0], col) == k then [s[0]] else []) + WithKey(s[1..], col, k)
  }

  lemma {:induction false} WithKeyAppend(s: seq<Row>, t: seq<Row>, col: Column, k: string)
    ensures WithKey(s + t, col, k) == WithKey(s, col, k) + WithKey(t, col, k)
  {
    if s == [] {
      assert s + t == t;
    } else {
      var h := if SortKey(s[0], col) == k then [s[0]] else [];
      assert (s + t)[0] == s[0] && (s + t)[1..] == s[1..] + t;
      WithKeyAppend(s[1..], t, col, k);
      assert WithKey(s + t, col, k) == h + (WithKey(s[1..], col, k) + WithKey(t, col, k));
      assert h + (WithKey(s[1..], col, k) + WithKey(t, col, k)) == (h + WithKey(s[1..], col, k)) + WithKey(t, col, k);
    }
  }

  lemma {:induction false} WithKeyNone(s: seq<Row>, col: Column, k: string)
    requires forall j :: 0 <= j < |s| ==> SortKey(s[j], col) != k
    ensures WithKey(s, col, k) == []
  {
    if s != [] {
      WithKeyNone(s[1..], col, k);
    }
  }

  lemma {:induction false} StrLeRefl(a: string)
    ensures StrLe(a, a)
  {
    if a != [] {
      StrLeRefl(a[1..]);
    }
  }

  /** A row placed in front of a sorted sequence shares its key with none of it. */
  lemma InsertedFirstKeyUnique(x: Row, s: seq<Row>, col: Column, ord: Order)
    requires Sorted(s, col, ord) && s != [] && !Le(s[0], x, col, ord)
    ensures forall j :: 0 <= j < |s| ==> SortKey(s[j], col) != SortKey(x, col)
  {
    StrLeRefl(SortKey(x, col));
    forall j | 0 <= j < |s| ensures SortKey(s[j], col) != SortKey(x, col) {
      if j > 0 {
        assert Le(s[0], s[j], col, ord);
      }
    }
  }

  /** The rows of `[x]` with key `k`. */
  function Own(x: Row, col: Column, k: string): seq<Row> {
    if SortKey(x, col) == k then [x] else []
  }

  lemma WithKeyCons(x: Row, s: seq<Row>, col: Column, k: string)
    ensures WithKey([x] + s, col, k) == Own(x, col, k) + WithKey(s, col, k)
  {
    var r := [x] + s;
    assert r[0] == x && r[1..] == s;
  }

  lemma InsertWithKeyFront(x: Row, s: seq<Row>, col: Column, ord: Order, k: string)
    requires Sorted(s, col, ord) && s != [] && !Le(s[0], x, col, ord)
    ensures WithKey(Insert(x, s, col, ord), col, k) == WithKey(s, col, k) + Own(x, col, k)
  {
    InsertedFirstKeyUnique(x, s, col, ord);
    WithKeyCons(x, s, col, k);
    if SortKey(x, col) == k {
      WithKeyNone(s, col, k);
    }
  }

  /** Inserting `x` adds it behind every row already there with the same key. */
  lemma {:induction false} InsertWithKey(x: Row, s: seq<Row>, col: Column, ord: Order, k: string)
    requires Sorted(s, col, ord)
    ensures WithKey(Insert(x, s, col, ord), col, k) == WithKey(s, col, k) + Own(x, col, k)
  {
    if s == [] {
      WithKeyCons(x, [], col, k);
      assert [x] + [] == [x];
    } else if !Le(s[0], x, col, ord) {
      InsertWithKeyFront(x, s, col, ord, k);
    } else {
      assert Sorted(s[1..], col, ord);
      InsertWithKey(x, s[1..], col, ord, k);
      InsertWithKeyBehind(x, s, col, ord, k);
    }
  }

  lemma InsertWithKeyBehind(x: Row, s: seq<Row>, col: Column, ord: Order, k: string)
    requires s != [] && Le(s[0], x, col, ord)
    requires WithKey(Insert(x, s[1..], col, ord), col, k) == WithKey(s[1..], col, k) + Own(x, col, k)
    ensures WithKey(Insert(x, s, col, ord), col, k) == WithKey(s, col, k) + Own(x, col, k)
  {
    var rest := Insert(x, s[1..], col, ord);
    var h := Own(s[0], col, k);
    calc {
      WithKey(Insert(x, s, col, ord), col, k);
      WithKey([s[0]] + rest, col, k);
      { WithKeyCons(s[0], rest, col, k); }
      h + (WithKey(s[1..], col, k) + Own(x, col, k));
      (h + WithKey(s[1..], col, k)) + Own(x, col, k);
      WithKey(s, col, k) + Own(x, col, k);
    }
  }

  /** The sort is stable: rows with equal keys keep their relative order. */
  lemma {:induction false} SortStable(rows: seq<Row>, col: Column, ord: Order, k: string)
    ensures WithKey(Sort(rows, col, ord), col, k) == WithKey(rows, col, k)
  {
    if rows != [] {
      var front, last := rows[..|rows| - 1], rows[|rows| - 1];
      var sorted := Sort(front, col, ord);
      assert Sort(rows, col, ord) == Insert(last, sorted, col, ord);
      SortStable(front, col, ord, k);
      SortSorted(front, col, ord);
      InsertWithKey(last, sorted, col, ord, k);
      assert WithKey(Sort(rows, col, ord), col, k) == WithKey(front, col, k) + Own(last, col, k);
      SplitLastWithKey(rows, col, k);
    }
  }

  /** The rows with key `k` are those of all but the last row, then the last row's own. */
  lemma SplitLastWithKey(rows: seq<Row>, col: Column, k: string)
    requires rows != []
    ensures WithKey(rows, col, k) == WithKey(rows[..|rows| - 1], col, k) + Own(rows[|rows| - 1], col, k)
  {
    var front, last := rows[..|rows| - 1], rows[|rows| - 1];
    assert rows == front + [last];
    WithKeyAppend(front, [last], col, k);
    WithKeyCons(last, [], col, k);
    assert [last] + [] == [last];
  }

  /** Descending order is ascending order read with the operands of the comparator swapped. */
  lemma DescIsReversedAsc(a: Row, b: Row, col: Column)
    ensures Le(a, b, col, Desc) <==> Le(b, a, col, Asc)
  {
  }

  // ---------------------------------------------------------------- pagination

  /** `Math.ceil(n / 10)`. */
  function TotalPages(n: nat): (t: nat)
    ensures PageSize * (t - 1) < n <= PageSize * t || (n == 0 && t == 0)
  {
    (n + PageSize - 1) / PageSize
  }

  /** `Array.prototype.slice(start, end)`: negative bounds count from the end, all clamped to the length. */
  function Slice<T>(s: seq<T>, start: int, end: int): (r: seq<T>)
    ensures 0 <= start <= end ==> r == s[(if start < |s| then start else |s|)..(if end < |s| then end else |s|)]
  {
    var n := |s|;
    var a := if start < 0 then (if n + start < 0 then 0 else n + start) else if start < n then start else n;
    var b := if end < 0 then (if n + end < 0 then 0 else n + end) else if end < n then end else n;
    if a < b then s[a..b] else []
  }

  /** `resultadosPaginados`: page `p` holds the rows from `(p-1)*10` up to `p*10`. */
  function Page(rows: seq<Row>, p: int): (r: seq<Row>)
    ensures |r| <= PageSize
    ensures p >= 1 && (p - 1) * PageSize < |rows| ==>
              r == rows[(p - 1) * PageSize..if p * PageSize < |rows| then p * PageSize else |rows|]
    ensures p >= 1 && (p - 1) * PageSize >= |rows| ==> r == []
  {
    Slice(rows, (p - 1) * PageSize, p * PageSize)
  }

  /** Every row lies on exactly one page between 1 and the page count. */
  lemma RowOnPage(rows: seq<Row>, i: int)
    requires 0 <= i < |rows|
    ensures var p := i / PageSize + 1;
      1 <= p <= TotalPages(|rows|) && Page(rows, p)[i % PageSize] == rows[i]
  {
  }

  /** The "previous" button: never below 1. */
  function PrevPage(v: View): (r: View)
    ensures r.pagina == (if v.pagina - 1 > 1 then v.pagina - 1 else 1)
    ensures r.orden == v.orden && r.columna == v.columna && r.busqueda == v.busqueda
  {
    v.(pagina := if v.pagina - 1 > 1 then v.pagina - 1 else 1)
  }

  /** The "next" button: never beyond the last page. */
  function NextPage(v: View, totalPaginas: int): (r: View)
    ensures r.pagina == (if v.pagina + 1 < totalPaginas then v.pagina + 1 else totalPaginas)
    ensures r.orden == v.orden && r.columna == v.columna && r.busqueda == v.busqueda
  {
    v.(pagina := if v.pagina + 1 < totalPaginas then v.pagina + 1 else totalPaginas)
  }

  /** Typing in the search box: new query, back to page 1. */
  function SetSearch(v: View, query: string): (r: View)
    ensures r.busqueda == query && r.pagina == 1 && r.orden == v.orden && r.columna == v.columna
  {
    v.(busqueda := query, pagina := 1)
  }

  /** Both buttons keep a page that is in range in range. */
  lemma NavigationStaysInRange(v: View, totalPaginas: int)
    requires 1 <= v.pagina <= totalPaginas
    ensures 1 <= PrevPage(v).pagina <= totalPaginas
    ensures 1 <= NextPage(v, totalPaginas).pagina <= totalPaginas
  {
  }

  /** What the table shows for a view: search, sort, then the current page. */
  function Visible(rows: seq<Row>, v: View): (r: seq<Row>)
    ensures |r| <= PageSize
    ensures forall x :: x in r ==> x in rows && Matches(x, v.busqueda)
  {
    var sorted := Sort(Search(rows, v.busqueda), v.columna, v.orden);
    var r := Page(sorted, v.pagina);
    assert forall x :: x in r ==> x in multiset(sorted);
    r
  }

  // ---------------------------------------------------------------- status cell

  /** The status text: "Pendiente" until completed, then the verdict or "No especificado". */
  function StatusLabel(r: Row): (s: string)
    ensures !r.completado ==> s == "Pendiente"
    ensures r.completado && r.cumplimiento != "" ==> s == r.cumplimiento
    ensures r.completado && r.cumplimiento == "" ==> s == "No especificado"
  {
    if !r.completado then "Pendiente" else if r.cumplimiento != "" then r.cumplimiento else "No especificado"
  }

  datatype Badge = GrayBadge | EmeraldBadge | AmberBadge | RedBadge

  /** `getClaseCumplimiento`: grey until completed, then by the lower-cased verdict. */
  function BadgeOf(r: Row): (b: Badge)
    ensures !r.completado ==> b == GrayBadge
    ensures b == EmeraldBadge <==> r.completado && Lower(r.cumplimiento) == "cumple"
    ensures b == AmberBadge <==> r.completado && Lower(r.cumplimiento) == "cumple parcialmente"
    ensures b == RedBadge <==> r.completado && Lower(r.cumplimiento) == "no cumple"
  {
    if !r.completado then GrayBadge
    else
      var v := Lower(r.cumplimiento);
      if v == "cumple" then EmeraldBadge
      else if v == "cumple parcialmente" then AmberBadge
      else if v == "no cumple" then RedBadge
      else GrayBadge
  }
}
