/**
 * The helpers of `src/components/Auditoria/utils.ts`: the progress and status colours, the
 * assigned-user line, the slug-to-title conversion and the days-left count. The clock is
 * the parameter `diff`, the milliseconds from now to the end date.
 */
module AuditoriaUtils {
  import opened Wrappers
  import opened Text

  /** The four colour bands of a percentage, from best to worst. */
  datatype Band = Emerald | Amber | Orange | Red

  /** A band's rank: 3 for emerald down to 0 for red. */
  function Rank(b: Band): nat {
    match b
    case Emerald => 3
    case Amber => 2
    case Orange => 1
    case Red => 0
  }

  /** `getProgressColor`: emerald from 75, amber from 50, orange from 25, red below. */
  function ProgressColor(progreso: int): (b: Band)
    ensures b == Emerald <==> progreso >= 75
    ensures b == Amber <==> 50 <= progreso < 75
    ensures b == Orange <==> 25 <= progreso < 50
    ensures b == Red <==> progreso < 25
  {
    if progreso >= 75 then Emerald
    else if progreso >= 50 then Amber
    else if progreso >= 25 then Orange
    else Red
  }

  /** A higher percentage never gets a worse colour. */
  lemma ProgressColorMonotone(p: int, q: int)
    requires p <= q
    ensures Rank(ProgressColor(p)) <= Rank(ProgressColor(q))
  {
  }

  datatype StatusStyle = AmberStatus | EmeraldStatus | SlateStatus

  /** `getStatusColor`: by the lower-cased state, slate for anything unrecognised or missing. */
  function StatusColor(estado: Option<string>): (c: StatusStyle)
    ensures c == AmberStatus <==> estado.Some? && (Lower(estado.value) == "en progreso" || Lower(estado.value) == "in_progress")
    ensures c == EmeraldStatus <==> estado.Some? && (Lower(estado.value) == "completada" || Lower(estado.value) == "completed")
  {
    match estado
    case None => SlateStatus
    case Some(e) =>
      var v := Lower(e);
      if v == "en progreso" || v == "in_progress" then AmberStatus
      else if v == "completada" || v == "completed" then EmeraldStatus
      else SlateStatus
  }

  /** Case does not matter to `getStatusColor`. */
  lemma StatusColorIgnoresCase(e: string)
    ensures StatusColor(Some(e)) == StatusColor(Some(Lower(e)))
  {
    assert Lower(Lower(e)) == Lower(e);
  }

  // ---------------------------------------------------------------- users

  /** An assigned user; an empty string stands for a missing field. */
  datatype User = User(username: string, email: string)

  /** `user.username || user.email || 'Usuario desconocido'`. */
  function DisplayName(u: User): (s: string)
    ensures s != ""
    ensures u.username != "" ==> s == u.username
    ensures u.username == "" && u.email != "" ==> s == u.email
  {
    if u.username != "" then u.username else if u.email != "" then u.email else "Usuario desconocido"
  }

  function DisplayNames(us: seq<User>): (r: seq<string>)
    ensures |r| == |us| && forall i :: 0 <= i < |us| ==> r[i] == DisplayName(us[i])
  {
    if us == [] then [] else [DisplayName(us[0])] + DisplayNames(us[1..])
  }

  /** `getUserNames`: a fixed text without users, otherwise every user's name joined by ", ". */
  function UserNames(users: Option<seq<User>>): (s: string)
    ensures users.None? || users.value == [] ==> s == "Sin usuarios asignados"
    ensures users.Some? && users.value != [] ==> s == Join(DisplayNames(users.value), ", ")
  {
    if users.None? || users.value == [] then "Sin usuarios asignados"
    else Join(DisplayNames(users.value), ", ")
  }

  /** The line starts with the first user's name, so it is never empty. */
  lemma {:induction false} UserNamesStartsWithFirst(users: seq<User>)
    requires users != []
    ensures StartsWith(UserNames(Some(users)), DisplayName(users[0]))
  {
    var names := DisplayNames(users);
    if |names| > 1 {
      assert Join(names, ", ") == names[0] + (", " + Join(names[1..], ", "));
    }
  }

  // ---------------------------------------------------------------- slug to title

  /** `word.charAt(0).toUpperCase() + word.slice(1)`. */
  function Capitalize(w: string): (r: string)
    ensures |r| == |w|
  {
    if w == [] then [] else [UpperChar(w[0])] + w[1..]
  }

  function CapitalizeAll(ws: seq<string>): (r: seq<string>)
    ensures |r| == |ws| && forall i :: 0 <= i < |ws| ==> r[i] == Capitalize(ws[i])
  {
    if ws == [] then [] else [Capitalize(ws[0])] + CapitalizeAll(ws[1..])
  }

  /** `slugToTitle`: split on dashes, capitalise each word, join with spaces. */
  function SlugToTitle(slug: string): string {
    if slug == "" then "" else Join(CapitalizeAll(Split(slug, '-')), " ")
  }

  /**
   * The same conversion, one character at a time: a dash becomes a space, the first
   * character of each word is upper-cased, everything else is kept.
   */
  function TitleChars(s: string, atStart: bool): (r: string)
    ensures |r| == |s|
    ensures forall i :: 0 <= i < |s| ==>
              r[i] == (if s[i] == '-' then ' '
                       else if (if i == 0 then atStart else s[i - 1] == '-') then UpperChar(s[i])
                       else s[i])
  {
    if s == [] then []
    else
      var c := if s[0] == '-' then ' ' else if atStart then UpperChar(s[0]) else s[0];
      var rest := TitleChars(s[1..], s[0] == '-');
      var r := [c] + rest;
      forall i | 0 <= i < |s|
        ensures r[i] == (if s[i] == '-' then ' '
                         else if (if i == 0 then atStart else s[i - 1] == '-') then UpperChar(s[i])
                         else s[i])
      {
        if i == 0 {
          assert r[0] == c;
        } else {
          var t := s[1..];
          assert r[i] == rest[i - 1] && t[i - 1] == s[i];
          if i >= 2 {
            assert t[i - 2] == s[i - 1];
          }
        }
      }
      r
  }

  lemma JoinConsFirst(c: char, w: string, ws: seq<string>)
    ensures Join([[c] + w] + ws, " ") == [c] + Join([w] + ws, " ")
  {
    var a := [[c] + w] + ws;
    var b := [w] + ws;
    assert a[1..] == ws && b[1..] == ws;
    if ws != [] {
      assert Join(a, " ") == ([c] + w) + " " + Join(ws, " ");
      assert Join(b, " ") == w + " " + Join(ws, " ");
    }
  }

  lemma {:induction false} TitleCharsMatch(s: string)
    ensures Join(CapitalizeAll(Split(s, '-')), " ") == TitleChars(s, true)
    ensures var ws := Split(s, '-'); Join([ws[0]] + CapitalizeAll(ws[1..]), " ") == TitleChars(s, false)
  {
    if s != [] {
      TitleCharsMatch(s[1..]);
      var rest := Split(s[1..], '-');
      var ws := Split(s, '-');
      if s[0] == '-' {
        assert ws == [[]] + rest;
        assert ws[1..] == rest;
        assert CapitalizeAll(ws) == [[]] + CapitalizeAll(rest);
        assert Join(CapitalizeAll(ws), " ") == [] + " " + Join(CapitalizeAll(rest), " ");
        assert [ws[0]] + CapitalizeAll(ws[1..]) == CapitalizeAll(ws);
      } else {
        assert ws == [[s[0]] + rest[0]] + rest[1..];
        assert ws[1..] == rest[1..];
        assert CapitalizeAll(ws) == [[UpperChar(s[0])] + rest[0]] + CapitalizeAll(rest[1..]);
        JoinConsFirst(UpperChar(s[0]), rest[0], CapitalizeAll(rest[1..]));
        JoinConsFirst(s[0], rest[0], CapitalizeAll(rest[1..]));
        assert rest == [rest[0]] + rest[1..];
      }
    }
  }

  /**
   * The title has the slug's length; each dash becomes a space and each character that
   * starts a word is upper-cased, the rest are kept.
   */
  lemma SlugToTitleChars(slug: string)
    ensures var t := SlugToTitle(slug);
      && |t| == |slug|
      && forall i :: 0 <= i < |slug| ==>
           t[i] == (if slug[i] == '-' then ' '
                    else if i == 0 || slug[i - 1] == '-' then UpperChar(slug[i])
                    else slug[i])
  {
    TitleCharsMatch(slug);
  }

  // ---------------------------------------------------------------- days left

  const MillisPerDay := 1000 * 60 * 60 * 24

  /**
   * `calcularDiasRestantes`: 0 without an end date; otherwise the milliseconds left,
   * rounded up to whole days and never below 0. An unparsable date (`diff` is `None`,
   * JavaScript's NaN) propagates as `None`.
   */
  function DiasRestantes(fechaFin: string, diff: Option<int>): (r: Option<nat>)
    ensures fechaFin == "" ==> r == Some(0)
    ensures fechaFin != "" ==> (r.Some? <==> diff.Some?)
    ensures fechaFin != "" && diff.Some? && diff.value > 0 ==>
              MillisPerDay * (r.value - 1) < diff.value <= MillisPerDay * r.value
    ensures fechaFin != "" && diff.Some? && diff.value <= 0 ==> r == Some(0)
  {
    if fechaFin == "" then Some(0)
    else match diff
      case None => None
      case Some(d) =>
        var days := -((-d) / MillisPerDay);
        Some(if days > 0 then days else 0)
  }
}
