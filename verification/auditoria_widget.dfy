/**
 * The dashboard card list of `src/components/Dashboard/AuditoriaWidget.tsx`: flattening the
 * audit records, the URL slug of a title, the per-audit completed count, progress and
 * colour. The completed count as written looks the results index up by the bare controller
 * id; `CompletedAsWritten` models that and `Completed` the lookup by the index's own key.
 */
module AuditoriaWidget {
  import opened Wrappers
  import opened Text
  import opened Percent
  import opened ResultIndex

  // ---------------------------------------------------------------- slugify

  /** A character `slugify` keeps: `[a-z0-9]`. */
  predicate IsSlugChar(c: char) { IsLowerAlnum(c) }

  /** Only `[a-z0-9-]`. */
  predicate SlugCharset(t: string) {
    forall i :: 0 <= i < |t| ==> IsSlugChar(t[i]) || t[i] == '-'
  }

  /** No two dashes in a row. */
  predicate NoDoubleDash(t: string) {
    forall i :: 0 <= i < |t| - 1 ==> !(t[i] == '-' && t[i + 1] == '-')
  }

  /** A well-formed slug: `[a-z0-9-]` only, no dash at either end, no two dashes in a row. */
  predicate IsSlug(t: string) {
    SlugCharset(t) && NoDoubleDash(t) && (t != [] ==> t[0] != '-' && t[|t| - 1] != '-')
  }

  /** The characters of `s` that `slugify` keeps, in order. */
  function Kept(s: string): (r: string)
    ensures forall i :: 0 <= i < |r| ==> IsSlugChar(r[i])
  {
    if s == [] then [] else (if IsSlugChar(s[0]) then [s[0]] else []) + Kept(s[1..])
  }

  /** Length of the leading run of characters `slugify` replaces. */
  function RunLength(s: string): (k: nat)
    ensures k <= |s|
    ensures forall i :: 0 <= i < k ==> !IsSlugChar(s[i])
    ensures k == |s| || IsSlugChar(s[k])
  {
    if s != [] && !IsSlugChar(s[0]) then 1 + RunLength(s[1..]) else 0
  }

  /** `.replace(/[^a-z0-9]+/g, '-')`: every maximal run of other characters becomes one dash. */
  function Dashify(s: string): (r: string)
    ensures r == [] <==> s == []
    ensures s != [] ==> (r[0] == '-' <==> !IsSlugChar(s[0]))
    ensures SlugCharset(r) && NoDoubleDash(r)
    decreases |s|
  {
    if s == [] then []
    else if IsSlugChar(s[0]) then [s[0]] + Dashify(s[1..])
    else "-" + Dashify(s[RunLength(s)..])
  }

  /**
   * The replacement read one character at a time: a kept character is copied, and a replaced
   * one becomes a dash only when it opens its run, that is when the character before it was
   * kept or it is the first (`afterKept` starts true).
   */
  function DashChars(s: string, afterKept: bool): (r: string)
    ensures |r| <= |s|
  {
    if s == [] then []
    else if IsSlugChar(s[0]) then [s[0]] + DashChars(s[1..], true)
    else (if afterKept then "-" else "") + DashChars(s[1..], false)
  }

  /** Inside a run nothing is emitted until the next kept character. */
  lemma {:induction false} DashCharsSkipsRun(s: string)
    ensures DashChars(s, false) == DashChars(s[RunLength(s)..], false)
    decreases |s|
  {
    if s != [] && !IsSlugChar(s[0]) {
      DashCharsSkipsRun(s[1..]);
      assert s[1..][RunLength(s[1..])..] == s[RunLength(s)..];
      assert DashChars(s, false) == "" + DashChars(s[1..], false);
    }
  }

  /** `Dashify` agrees with the character-wise reading on every input. */
  lemma {:induction false} DashifyMatchesChars(s: string)
    ensures Dashify(s) == DashChars(s, true)
    decreases |s|
  {
    if s != [] {
      if IsSlugChar(s[0]) {
        DashifyMatchesChars(s[1..]);
      } else {
        var k := RunLength(s);
        DashifyMatchesChars(s[k..]);
        DashCharsSkipsRun(s[1..]);
        assert s[1..][RunLength(s[1..])..] == s[k..];
        var t := s[k..];
        assert t == [] || IsSlugChar(t[0]);
        assert DashChars(t, false) == DashChars(t, true);
      }
    }
  }

  /** Kept characters at the front pass through `Dashify` unchanged. */
  lemma {:induction false} DashifyKeepsWord(w: string, t: string)
    requires forall i :: 0 <= i < |w| ==> IsSlugChar(w[i])
    ensures Dashify(w + t) == w + Dashify(t)
    decreases |w|
  {
    if w != [] {
      assert (w + t)[0] == w[0] && (w + t)[1..] == w[1..] + t;
      DashifyKeepsWord(w[1..], t);
      assert [w[0]] + (w[1..] + Dashify(t)) == w + Dashify(t);
    } else {
      assert w + t == t;
    }
  }

  /**
   * A word, then a non-empty run of replaced characters, then what follows: the run becomes
   * exactly one dash between the word and the rest.
   */
  lemma DashifyRun(w: string, sep: string, t: string)
    requires forall i :: 0 <= i < |w| ==> IsSlugChar(w[i])
    requires sep != [] && forall i :: 0 <= i < |sep| ==> !IsSlugChar(sep[i])
    requires t == [] || IsSlugChar(t[0])
    ensures Dashify(w + sep + t) == w + "-" + Dashify(t)
  {
    assert w + sep + t == w + (sep + t);
    DashifyKeepsWord(w, sep + t);
    DashifyRunStart(sep, t);
    assert w + ("-" + Dashify(t)) == w + "-" + Dashify(t);
  }

  /** A leading run of replaced characters becomes one dash in front of the rest. */
  lemma DashifyRunStart(sep: string, t: string)
    requires sep != [] && forall i :: 0 <= i < |sep| ==> !IsSlugChar(sep[i])
    requires t == [] || IsSlugChar(t[0])
    ensures Dashify(sep + t) == "-" + Dashify(t)
  {
    var x := sep + t;
    assert x[0] == sep[0];
    RunLengthOf(sep, t);
    assert x[|sep|..] == t;
  }

  lemma {:induction false} RunLengthOf(sep: string, t: string)
    requires forall i :: 0 <= i < |sep| ==> !IsSlugChar(sep[i])
    requires t == [] || IsSlugChar(t[0])
    ensures RunLength(sep + t) == |sep|
    decreases |sep|
  {
    if sep != [] {
      assert (sep + t)[1..] == sep[1..] + t;
      RunLengthOf(sep[1..], t);
    } else {
      assert sep + t == t;
    }
  }

  function DropLeadingDashes(s: string): (r: string)
    ensures |r| <= |s| && r == s[|s| - |r|..]
    ensures r == [] || r[0] != '-'
    ensures forall i :: 0 <= i < |s| - |r| ==> s[i] == '-'
  {
    if s != [] && s[0] == '-' then DropLeadingDashes(s[1..]) else s
  }

  function DropTrailingDashes(s: string): (r: string)
    ensures |r| <= |s| && r == s[..|r|]
    ensures r == [] || r[|r| - 1] != '-'
    ensures forall i :: |r| <= i < |s| ==> s[i] == '-'
  {
    if s != [] && s[|s| - 1] == '-' then DropTrailingDashes(s[..|s| - 1]) else s
  }

  /** `.replace(/^-+|-+$/g, '')`. */
  function StripDashes(s: string): (r: string)
    ensures r == [] || (r[0] != '-' && r[|r| - 1] != '-')
  {
    DropTrailingDashes(DropLeadingDashes(s))
  }

  /** Stripping the edge dashes of a dashified string leaves a well-formed slug. */
  lemma StripDashesSlug(d: string)
    requires SlugCharset(d) && NoDoubleDash(d)
    ensures IsSlug(StripDashes(d))
  {
    var t := DropLeadingDashes(d);
    var r := DropTrailingDashes(t);
    assert forall i :: 0 <= i < |r| ==> r[i] == d[i + |d| - |t|];
  }

  /** `slugify`: lower-case, trim, collapse every run of other characters to a dash, strip edge dashes. */
  function Slugify(text: string): (r: string)
    ensures IsSlug(r)
  {
    StripDashesSlug(Dashify(Trim(Lower(text))));
    StripDashes(Dashify(Trim(Lower(text))))
  }

  /**
   * Two words of `[a-z0-9]` joined by any non-empty run of other characters (no upper-case
   * letter among them, which lower-casing would turn into a kept one) slugify to the words
   * joined by one dash: "informe 2024" gives "informe-2024".
   */
  lemma SlugifyJoins(w1: string, sep: string, w2: string)
    requires w1 != [] && forall i :: 0 <= i < |w1| ==> IsSlugChar(w1[i])
    requires w2 != [] && forall i :: 0 <= i < |w2| ==> IsSlugChar(w2[i])
    requires sep != [] && forall i :: 0 <= i < |sep| ==> !IsSlugChar(sep[i]) && !('A' <= sep[i] <= 'Z')
    ensures Slugify(w1 + sep + w2) == w1 + "-" + w2
  {
    var s := w1 + sep + w2;
    JoinedIsLower(w1, sep, w2);
    TrimKeepsEnds(s);
    DashifyRun(w1, sep, w2);
    DashifyKeepsWord(w2, []);
    assert w2 + [] == w2;
    StripKeepsEnds(w1 + "-" + w2);
  }

  lemma JoinedIsLower(w1: string, sep: string, w2: string)
    requires w1 != [] && forall i :: 0 <= i < |w1| ==> IsSlugChar(w1[i])
    requires w2 != [] && forall i :: 0 <= i < |w2| ==> IsSlugChar(w2[i])
    requires forall i :: 0 <= i < |sep| ==> !('A' <= sep[i] <= 'Z')
    ensures Lower(w1 + sep + w2) == w1 + sep + w2
    ensures !IsWhitespace((w1 + sep + w2)[0]) && !IsWhitespace((w1 + sep + w2)[|w1 + sep + w2| - 1])
  {
    var s := w1 + sep + w2;
    forall i | 0 <= i < |s| ensures !('A' <= s[i] <= 'Z') {
      if i < |w1| { assert s[i] == w1[i]; }
      else if i < |w1| + |sep| { assert s[i] == sep[i - |w1|]; }
      else { assert s[i] == w2[i - |w1| - |sep|]; }
    }
    LowerOfLowercase(s);
    assert s[0] == w1[0] && s[|s| - 1] == w2[|w2| - 1];
  }

  /** A string that neither starts nor ends with whitespace is its own trim. */
  lemma TrimKeepsEnds(s: string)
    requires s != [] && !IsWhitespace(s[0]) && !IsWhitespace(s[|s| - 1])
    ensures Trim(s) == s
  {
    assert TrimStart(s) == s;
  }

  /** A string that neither starts nor ends with a dash keeps all its dashes. */
  lemma StripKeepsEnds(d: string)
    requires d != [] && d[0] != '-' && d[|d| - 1] != '-'
    ensures StripDashes(d) == d
  {
    assert DropLeadingDashes(d) == d;
  }

  lemma {:induction false} KeptAppend(s: string, t: string)
    ensures Kept(s + t) == Kept(s) + Kept(t)
  {
    if s != [] {
      var h := if IsSlugChar(s[0]) then [s[0]] else [];
      assert (s + t)[0] == s[0] && (s + t)[1..] == s[1..] + t;
      KeptAppend(s[1..], t);
      assert Kept(s + t) == h + (Kept(s[1..]) + Kept(t));
      assert h + (Kept(s[1..]) + Kept(t)) == (h + Kept(s[1..])) + Kept(t);
    } else {
      assert s + t == t;
    }
  }

  lemma {:induction false} KeptNone(s: string)
    requires forall i :: 0 <= i < |s| ==> !IsSlugChar(s[i])
    ensures Kept(s) == []
  {
    if s != [] {
      KeptNone(s[1..]);
    }
  }

  /** Dropping a prefix of which `slugify` keeps nothing changes nothing kept. */
  lemma KeptSuffix(s: string, k: nat)
    requires k <= |s| && forall i :: 0 <= i < k ==> !IsSlugChar(s[i])
    ensures Kept(s[k..]) == Kept(s)
  {
    assert s == s[..k] + s[k..];
    KeptAppend(s[..k], s[k..]);
    KeptNone(s[..k]);
  }

  lemma KeptPrefix(s: string, k: nat)
    requires k <= |s| && forall i :: k <= i < |s| ==> !IsSlugChar(s[i])
    ensures Kept(s[..k]) == Kept(s)
  {
    assert s == s[..k] + s[k..];
    KeptAppend(s[..k], s[k..]);
    KeptNone(s[k..]);
  }

  lemma {:induction false} DashifyKeeps(s: string)
    ensures Kept(Dashify(s)) == Kept(s)
    decreases |s|
  {
    if s != [] {
      if IsSlugChar(s[0]) {
        DashifyKeeps(s[1..]);
        KeptAppend([s[0]], Dashify(s[1..]));
      } else {
        var k := RunLength(s);
        DashifyKeeps(s[k..]);
        KeptAppend("-", Dashify(s[k..]));
        KeptSuffix(s, k);
      }
    }
  }

  lemma TrimKeeps(s: string)
    ensures Kept(Trim(s)) == Kept(s)
  {
    var a := TrimStart(s);
    KeptSuffix(s, |s| - |a|);
    KeptPrefix(a, |TrimEnd(a)|);
  }

  lemma StripKeeps(d: string)
    ensures Kept(StripDashes(d)) == Kept(d)
  {
    var t := DropLeadingDashes(d);
    KeptSuffix(d, |d| - |t|);
    KeptPrefix(t, |DropTrailingDashes(t)|);
  }

  /** The slug holds exactly the letters and digits of the lower-cased title, in order. */
  lemma SlugifyKeeps(text: string)
    ensures Kept(Slugify(text)) == Kept(Lower(text))
  {
    var l := Lower(text);
    TrimKeeps(l);
    DashifyKeeps(Trim(l));
    StripKeeps(Dashify(Trim(l)));
  }

  /** A string of slug characters and single dashes is left alone by `Dashify`. */
  lemma {:induction false} DashifyFixes(t: string)
    requires SlugCharset(t) && NoDoubleDash(t)
    ensures Dashify(t) == t
    decreases |t|
  {
    if t != [] {
      assert SlugCharset(t[1..]) && NoDoubleDash(t[1..]);
      DashifyFixes(t[1..]);
      if !IsSlugChar(t[0]) {
        assert RunLength(t) == 1;
      }
    }
  }

  /** A well-formed slug is its own slug. */
  lemma SlugFixpoint(t: string)
    requires IsSlug(t)
    ensures Slugify(t) == t
  {
    LowerOfLowercase(t);
    TrimNoWhitespace(t);
    DashifyFixes(t);
    if t != [] {
      StripKeepsEnds(t);
    }
    assert Slugify(t) == StripDashes(Dashify(Trim(Lower(t))));
  }

  /** `slugify` is idempotent. */
  lemma SlugifyIdempotent(text: string)
    ensures Slugify(Slugify(text)) == Slugify(text)
  {
    SlugFixpoint(Slugify(text));
  }

  // ---------------------------------------------------------------- audit records

  datatype Controlador = Controlador(id: int)

  /** The fields of an audit record; `controladors` is optional. */
  datatype AuditFields = AuditFields(id: Option<int>, title: string, state: string, controladors: Option<seq<Controlador>>)

  /** A record as the API sends it, wrapped in `attributes` or flat. */
  datatype Item = Wrapped(id: int, attributes: AuditFields) | Bare(id: int, fields: AuditFields)

  /** A flattened audit. */
  datatype AuditData = AuditData(id: int, title: string, state: string, controladors: Option<seq<Controlador>>)

  /** The `map` over the response: a wrapped record takes the outer id and drops `attributes.id`. */
  function Flatten(item: Item): (a: AuditData)
    ensures a.id == item.id
    ensures item.Wrapped? ==> a.title == item.attributes.title && a.state == item.attributes.state
                              && a.controladors == item.attributes.controladors
  {
    match item
    case Wrapped(id, f) => AuditData(id, f.title, f.state, f.controladors)
    case Bare(id, f) => AuditData(id, f.title, f.state, f.controladors)
  }

  /** The id inside `attributes` never reaches the flattened record. */
  lemma FlattenIgnoresInnerId(id: int, f: AuditFields, inner: Option<int>)
    ensures Flatten(Wrapped(id, f.(id := inner))) == Flatten(Wrapped(id, f))
  {
  }

  /** `auditoria.controladors?.length || 0`. */
  function TotalControls(a: AuditData): (n: nat)
    ensures a.controladors.None? ==> n == 0
    ensures a.controladors.Some? ==> n == |a.controladors.value|
  {
    match a.controladors
    case None => 0
    case Some(cs) => |cs|
  }

  // ---------------------------------------------------------------- completed count

  /** The filter as written: `controladorId && resultados[controladorId]?.tipo !== undefined`. */
  predicate CompletedAsWrittenAt(c: Controlador, index: Index) {
    c.id != 0 && IntToString(c.id) in index
  }

  function CompletedAsWritten(cs: seq<Controlador>, index: Index): (n: nat)
    ensures n <= |cs|
    ensures n == 0 <==> forall i :: 0 <= i < |cs| ==> !CompletedAsWrittenAt(cs[i], index)
  {
    if cs == [] then 0
    else (if CompletedAsWrittenAt(cs[0], index) then 1 else 0) + CompletedAsWritten(cs[1..], index)
  }

  /** Every key the results index can hold is of the form `<auditoriaId>-<controladorId>`. */
  predicate IndexWellKeyed(index: Index) {
    forall k :: k in index ==> WellKeyed(k, index[k])
  }

  /** The empty index, and every index a refresh leaves, is well keyed. */
  lemma RefreshWellKeyed(current: Index, response: Response)
    requires IndexWellKeyed(current)
    ensures IndexWellKeyed(Refresh(current, response))
  {
  }

  /** The count as written is always zero: no key of the index is a bare id. */
  lemma CompletedAsWrittenIsZero(cs: seq<Controlador>, index: Index)
    requires IndexWellKeyed(index)
    ensures CompletedAsWritten(cs, index) == 0
  {
    forall i | 0 <= i < |cs| ensures !CompletedAsWrittenAt(cs[i], index) {
      if IntToString(cs[i].id) in index {
        var e := index[IntToString(cs[i].id)];
        KeyIsNotANumber(e.auditoriaId, e.controladorId, cs[i].id);
      }
    }
  }

  /** The intended lookup: a result of this audit for this controller is in the index. */
  predicate CompletedAt(c: Controlador, auditId: int, index: Index) {
    c.id != 0 && ResultKey(auditId, c.id) in index
  }

  function Completed(cs: seq<Controlador>, auditId: int, index: Index): (n: nat)
    ensures n <= |cs|
    ensures n == |cs| <==> forall i :: 0 <= i < |cs| ==> CompletedAt(cs[i], auditId, index)
  {
    if cs == [] then 0
    else (if CompletedAt(cs[0], auditId, index) then 1 else 0) + Completed(cs[1..], auditId, index)
  }

  /**
   * Against an index built from result records, a controller counts as completed exactly
   * when some admitted record names this audit and this controller.
   */
  lemma CompletedAtMeans(c: Controlador, auditId: int, items: seq<ApiResult>)
    ensures CompletedAt(c, auditId, Build(items)) <==>
              c.id != 0 && exists i :: Names(items, i, auditId, c.id)
  {
    BuildKeys(items);
    forall i | 0 <= i < |items| ensures Produces(items, i, ResultKey(auditId, c.id)) <==> Names(items, i, auditId, c.id) {
      ProducesNames(items, i, auditId, c.id);
    }
  }

  /** `Math.round(completed / total * 100)` when there are controllers, else 0. */
  function CardProgress(completed: nat, total: nat): (p: nat)
    ensures completed <= total ==> p <= 100
    ensures total == 0 ==> p == 0
    ensures total > 0 ==> 2 * total * p <= 200 * completed + total < 2 * total * p + 2 * total
  {
    if total > 0 then
      RoundPercentAtMost100(completed, total);
      RoundPercent(completed, total)
    else 0
  }

  datatype Color = Red | Yellow | Green

  /** `getProgressColor` of the card: red below 30, yellow below 70, green from 70. */
  function ProgressColor(p: int): (c: Color)
    ensures c == Red <==> p < 30
    ensures c == Yellow <==> 30 <= p < 70
    ensures c == Green <==> 70 <= p
  {
    if p < 30 then Red else if p < 70 then Yellow else Green
  }

  /** What one card shows. */
  datatype Card = Card(completed: nat, total: nat, progress: nat, color: Color, slug: string)

  /** One card, with the completed count looked up by the index's own key. */
  function CardOf(a: AuditData, index: Index): (c: Card)
    ensures c.total == TotalControls(a) && c.completed <= c.total
    ensures c.progress <= 100 && c.color == ProgressColor(c.progress)
    ensures IsSlug(c.slug)
    ensures a.controladors.Some? ==> c.completed == Completed(a.controladors.value, a.id, index)
  {
    var completed := match a.controladors
      case None => 0
      case Some(cs) => Completed(cs, a.id, index);
    var p := CardProgress(completed, TotalControls(a));
    Card(completed, TotalControls(a), p, ProgressColor(p), Slugify(a.title))
  }

  /** The card as written: the completed count is the bare-id lookup. */
  function CardAsWritten(a: AuditData, index: Index): (c: Card)
    ensures c.completed <= c.total && c.progress <= 100
  {
    var completed := match a.controladors
      case None => 0
      case Some(cs) => CompletedAsWritten(cs, index);
    var p := CardProgress(completed, TotalControls(a));
    Card(completed, TotalControls(a), p, ProgressColor(p), Slugify(a.title))
  }

  /** As written, every card of a non-empty audit shows 0 % in red, whatever has been evaluated. */
  lemma CardAsWrittenShowsNothing(a: AuditData, index: Index)
    requires IndexWellKeyed(index)
    ensures CardAsWritten(a, index).completed == 0
    ensures CardAsWritten(a, index).progress == 0 && CardAsWritten(a, index).color == Red
  {
    if a.controladors.Some? {
      CompletedAsWrittenIsZero(a.controladors.value, index);
      if TotalControls(a) > 0 {
        RoundPercentEnds(TotalControls(a));
      }
    }
  }
}
