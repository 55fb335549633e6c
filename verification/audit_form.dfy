/**
 * The three-step audit-creation wizard of `src/components/Dashboard/AuditCreationForm.tsx`:
 * set-toggle selection of users and controllers, step navigation and its gate, the
 * validation helper, the submit path, and the grouping of controllers by ISO category.
 * The token lookup and the POST request are inputs; the wizard's React state is `Wizard`.
 */
module AuditForm {
  import opened Wrappers
  import opened Text
  import opened Seqs

  // ---------------------------------------------------------------- selection

  predicate NoDup(xs: seq<int>) {
    forall i, j :: 0 <= i < j < |xs| ==> xs[i] != xs[j]
  }

  /** `xs.filter(y => y !== x)`. */
  function Remove(xs: seq<int>, x: int): (r: seq<int>)
    ensures |r| <= |xs| && x !in r
    ensures forall y :: y != x ==> (y in r <==> y in xs)
    ensures x !in xs ==> r == xs
    ensures NoDup(xs) ==> NoDup(r)
  {
    if xs == [] then []
    else if xs[0] == x then Remove(xs[1..], x)
    else
      var rest := Remove(xs[1..], x);
      assert NoDup(xs) ==> xs[0] !in xs[1..] && NoDup(xs[1..]) by {
        if NoDup(xs) {
          forall i | 0 <= i < |xs[1..]| ensures xs[1..][i] != xs[0] { assert xs[1..][i] == xs[i + 1]; }
        }
      }
      [xs[0]] + rest
  }

  /**
   * `handleUserToggle` / `handleControllerToggle`: an id already selected is removed
   * (every occurrence), any other id is appended.
   */
  function Toggle(xs: seq<int>, x: int): (r: seq<int>)
    ensures x in r <==> x !in xs
    ensures forall y :: y != x ==> (y in r <==> y in xs)
    ensures x !in xs ==> r == xs + [x]
    ensures NoDup(xs) ==> NoDup(r)
  {
    if x in xs then Remove(xs, x) else xs + [x]
  }

  lemma {:induction false} RemoveAppended(xs: seq<int>, x: int)
    requires x !in xs
    ensures Remove(xs + [x], x) == xs
  {
    if xs != [] {
      assert (xs + [x])[1..] == xs[1..] + [x];
      RemoveAppended(xs[1..], x);
    } else {
      assert Remove([x], x) == Remove([], x);
    }
  }

  /** Toggling twice restores the selection: exactly for an unselected id, as a set otherwise. */
  lemma ToggleTwice(xs: seq<int>, x: int)
    ensures forall y :: y in Toggle(Toggle(xs, x), x) <==> y in xs
    ensures x !in xs ==> Toggle(Toggle(xs, x), x) == xs
  {
    if x !in xs {
      RemoveAppended(xs, x);
    }
  }

  /** `toggleCategory`: flips one category's flag, a missing one counting as collapsed. */
  function ToggleCategory(m: map<string, bool>, category: string): (r: map<string, bool>)
    ensures category in r && r[category] == !(category in m && m[category])
    ensures forall c :: c != category ==> (c in r <==> c in m) && (c in m ==> r[c] == m[c])
  {
    m[category := !(category in m && m[category])]
  }

  lemma ToggleCategoryTwice(m: map<string, bool>, category: string)
    requires category in m
    ensures ToggleCategory(ToggleCategory(m, category), category) == m
  {
  }

  // ---------------------------------------------------------------- records

  /** The fields of a controller record; an empty string stands for a missing field. */
  datatype ControllerFields = ControllerFields(code: string, title: string, ask: string, description: string, kind: string)

  /** A controller as sent: fields under `attributes`, under `data`, or at the top level. */
  datatype Controller = Controller(id: int, attributes: Option<ControllerFields>, data: Option<ControllerFields>,
                                   own: ControllerFields)

  /** `f` shows the fields of `d`, with a missing type shown as "A". */
  predicate Shows(f: ControllerFields, d: ControllerFields) {
    && f.code == d.code && f.title == d.title && f.ask == d.ask && f.description == d.description
    && (d.kind != "" ==> f.kind == d.kind)
    && (d.kind == "" ==> f.kind == "A")
  }

  /** `getControllerData`: `attributes`, else `data`, else the record itself; the type defaults to "A". */
  function ControllerData(c: Controller): (f: ControllerFields)
    ensures f.kind != ""
    ensures c.attributes.Some? ==> Shows(f, c.attributes.value)
    ensures c.attributes.None? && c.data.Some? ==> Shows(f, c.data.value)
    ensures c.attributes.None? && c.data.None? ==> Shows(f, c.own)
  {
    var d := if c.attributes.Some? then c.attributes.value else if c.data.Some? then c.data.value else c.own;
    d.(kind := if d.kind != "" then d.kind else "A")
  }

  /**
   * The read fields are a fixpoint: a controller rebuilt from them, in any of the three
   * places, reads back the same.
   */
  lemma ControllerDataFixpoint(c: Controller, empty: ControllerFields)
    ensures ControllerData(Controller(c.id, Some(ControllerData(c)), None, empty)) == ControllerData(c)
    ensures ControllerData(Controller(c.id, None, Some(ControllerData(c)), empty)) == ControllerData(c)
    ensures ControllerData(Controller(c.id, None, None, ControllerData(c))) == ControllerData(c)
  {
  }

  /** The category a controller is grouped under. */
  function KindOf(c: Controller): string {
    ControllerData(c).kind
  }

  datatype UserFields = UserFields(username: string, email: string)

  datatype User = User(id: int, attributes: Option<UserFields>, data: Option<UserFields>, own: UserFields)

  /** `getUserData`: the shown name falls back to the e-mail and then to "Usuario". */
  function UserData(u: User): (r: (int, UserFields))
    ensures r.0 == u.id && r.1.username != ""
    ensures var d := if u.attributes.Some? then u.attributes.value else if u.data.Some? then u.data.value else u.own;
      && (d.username != "" ==> r.1.username == d.username)
      && (d.username == "" && d.email != "" ==> r.1.username == d.email)
      && r.1.email == d.email
  {
    var d := if u.attributes.Some? then u.attributes.value else if u.data.Some? then u.data.value else u.own;
    (u.id, UserFields(if d.username != "" then d.username else if d.email != "" then d.email else "Usuario", d.email))
  }

  // ---------------------------------------------------------------- grouping

  type Groups = seq<(string, seq<Controller>)>

  predicate UniqueGroups(gs: Groups) {
    forall i, j :: 0 <= i < j < |gs| ==> gs[i].0 != gs[j].0
  }

  /** The controllers under key `k`, or none. */
  function GroupOf(gs: Groups, k: string): seq<Controller> {
    if gs == [] then []
    else if gs[|gs| - 1].0 == k then gs[|gs| - 1].1
    else GroupOf(gs[..|gs| - 1], k)
  }

  /** `grouped[type].push(controller)`, creating the group at the end if it is new. */
  function AddTo(gs: Groups, k: string, c: Controller): (r: Groups)
    ensures |r| == |gs| || |r| == |gs| + 1
  {
    if gs == [] then [(k, [c])]
    else if gs[|gs| - 1].0 == k then gs[..|gs| - 1] + [(k, gs[|gs| - 1].1 + [c])]
    else AddTo(gs[..|gs| - 1], k, c) + [gs[|gs| - 1]]
  }

  /** `groupControllersByType`. */
  function GroupByKind(cs: seq<Controller>): Groups {
    if cs == [] then [] else AddTo(GroupByKind(cs[..|cs| - 1]), KindOf(cs[|cs| - 1]), cs[|cs| - 1])
  }

  /** The controllers of kind `k`, in order. */
  function OfKind(cs: seq<Controller>, k: string): (r: seq<Controller>)
    ensures |r| <= |cs|
  {
    if cs == [] then []
    else OfKind(cs[..|cs| - 1], k) + (if KindOf(cs[|cs| - 1]) == k then [cs[|cs| - 1]] else [])
  }

  /** The group keys, in order of creation. */
  function Keys(gs: Groups): set<string> {
    if gs == [] then {} else Keys(gs[..|gs| - 1]) + {gs[|gs| - 1].0}
  }

  lemma {:induction false} KeysMeans(gs: Groups)
    ensures forall k :: k in Keys(gs) <==> exists i :: 0 <= i < |gs| && gs[i].0 == k
  {
    if gs != [] {
      var front := gs[..|gs| - 1];
      KeysMeans(front);
      forall k | k in Keys(gs) ensures exists i :: 0 <= i < |gs| && gs[i].0 == k {
        if k in Keys(front) {
          var i :| 0 <= i < |front| && front[i].0 == k;
          assert gs[i] == front[i];
        } else {
          assert gs[|gs| - 1].0 == k;
        }
      }
      forall k, i | 0 <= i < |gs| && gs[i].0 == k ensures k in Keys(gs) {
        if i < |gs| - 1 {
          assert front[i] == gs[i];
        }
      }
    }
  }

  lemma {:induction false} AddToSpec(gs: Groups, k: string, c: Controller)
    requires UniqueGroups(gs)
    ensures UniqueGroups(AddTo(gs, k, c))
    ensures Keys(AddTo(gs, k, c)) == Keys(gs) + {k}
    ensures forall k' :: GroupOf(AddTo(gs, k, c), k') == GroupOf(gs, k') + (if k' == k then [c] else [])
  {
    if gs == [] {
      assert Keys(AddTo(gs, k, c)) == Keys([]) + {k};
    } else {
      var front, last := gs[..|gs| - 1], gs[|gs| - 1];
      assert gs == front + [last];
      assert UniqueGroups(front) by {
        forall i, j | 0 <= i < j < |front| ensures front[i].0 != front[j].0 {
          assert front[i] == gs[i] && front[j] == gs[j];
        }
      }
      if last.0 == k {
        var r := AddTo(gs, k, c);
        assert r == front + [(k, last.1 + [c])];
        assert r[..|r| - 1] == front;
        forall i, j | 0 <= i < j < |r| ensures r[i].0 != r[j].0 {
          assert r[i].0 == gs[i].0 && r[j].0 == gs[j].0;
        }
      } else {
        AddToSpec(front, k, c);
        AddToBehind(front, last, k, c);
      }
    }
  }

  /** The step of `AddToSpec` when the last group has another key. */
  lemma AddToBehind(front: Groups, last: (string, seq<Controller>), k: string, c: Controller)
    requires UniqueGroups(front + [last]) && last.0 != k
    requires UniqueGroups(AddTo(front, k, c)) && Keys(AddTo(front, k, c)) == Keys(front) + {k}
    ensures UniqueGroups(AddTo(front, k, c) + [last])
    ensures Keys(AddTo(front, k, c) + [last]) == Keys(front + [last]) + {k}
  {
    var gs := front + [last];
    var mid := AddTo(front, k, c);
    var r := mid + [last];
    assert gs[..|gs| - 1] == front;
    assert r[..|r| - 1] == mid;
    KeysMeans(front);
    KeysMeans(mid);
    assert last.0 !in Keys(front) by {
      forall i | 0 <= i < |front| ensures front[i].0 != last.0 {
        assert front[i] == gs[i] && last == gs[|gs| - 1];
      }
    }
    forall i, j | 0 <= i < j < |r| ensures r[i].0 != r[j].0 {
      if j == |r| - 1 {
        assert r[i] == mid[i] && r[i].0 in Keys(mid);
      } else {
        assert r[i] == mid[i] && r[j] == mid[j];
      }
    }
  }

  /**
   * Every controller lands in exactly the group of its kind: each group is the
   * subsequence of controllers of that kind, the keys are the kinds that occur, and no key
   * repeats.
   */
  lemma {:induction false} GroupByKindSpec(cs: seq<Controller>)
    ensures UniqueGroups(GroupByKind(cs))
    ensures forall k :: GroupOf(GroupByKind(cs), k) == OfKind(cs, k)
    ensures forall k :: k in Keys(GroupByKind(cs)) <==> exists i :: 0 <= i < |cs| && KindOf(cs[i]) == k
  {
    if cs != [] {
      var front := cs[..|cs| - 1];
      GroupByKindSpec(front);
      AddToSpec(GroupByKind(front), KindOf(cs[|cs| - 1]), cs[|cs| - 1]);
      forall i | 0 <= i < |front| ensures front[i] == cs[i] {}
    }
  }

  // ---------------------------------------------------------------- validation

  /** `/^\d{4}-\d{2}-\d{2}$/`. */
  predicate IsDateShape(s: string) {
    |s| == 10 && s[4] == '-' && s[7] == '-'
    && forall i :: 0 <= i < 10 && i != 4 && i != 7 ==> IsDigit(s[i])
  }

  datatype FormData = FormData(
    title: string, description: string, startDate: string, endDate: string, state: string,
    users: seq<int>, controladors: seq<int>)

  /** The complaints `validateFormData` can make. */
  datatype FormError = MissingTitle | MissingDescription | BadStartDate | BadEndDate | StartAfterEnd | BadState

  /** The message of each complaint. */
  function Message(e: FormError): string {
    match e
    case MissingTitle => "El título es obligatorio"
    case MissingDescription => "La descripción es obligatoria"
    case BadStartDate => "Fecha de inicio inválida"
    case BadEndDate => "Fecha de fin inválida"
    case StartAfterEnd => "La fecha de inicio no puede ser posterior a la fecha de fin"
    case BadState => "Estado inválido"
  }

  /** The states `validateFormData` accepts. */
  const FormStates: seq<string> := ["pending", "in_progress", "completed"]

  /** `if (cond) errors.push(e)`. */
  function Flag(errors: seq<FormError>, cond: bool, e: FormError): (r: seq<FormError>)
    ensures |r| <= |errors| + 1
    ensures forall x :: x in r <==> x in errors || (cond && x == e)
  {
    if cond then errors + [e] else errors
  }

  /** The complaints for six failed checks, in the order `validateFormData` makes them. */
  function Collect(noTitle: bool, noDescription: bool, badStart: bool, badEnd: bool, startAfterEnd: bool,
                   badState: bool): (errors: seq<FormError>)
    ensures MissingTitle in errors <==> noTitle
    ensures MissingDescription in errors <==> noDescription
    ensures BadStartDate in errors <==> badStart
    ensures BadEndDate in errors <==> badEnd
    ensures StartAfterEnd in errors <==> startAfterEnd
    ensures BadState in errors <==> badState
    ensures |errors| <= 6
  {
    var e1 := Flag([], noTitle, MissingTitle);
    var e2 := Flag(e1, noDescription, MissingDescription);
    var e3 := Flag(e2, badStart, BadStartDate);
    var e4 := Flag(e3, badEnd, BadEndDate);
    var e5 := Flag(e4, startAfterEnd, StartAfterEnd);
    Flag(e5, badState, BadState)
  }

  /**
   * `validateFormData`, with the date comparison `new Date(start) > new Date(end)` given as
   * `startAfterEnd`. The list checks cannot fail for lists of numbers and are not modelled.
   */
  function ValidateFormData(d: FormData, startAfterEnd: bool): (errors: seq<FormError>)
    ensures MissingTitle in errors <==> Trim(d.title) == ""
    ensures MissingDescription in errors <==> Trim(d.description) == ""
    ensures BadStartDate in errors <==> !IsDateShape(d.startDate)
    ensures BadEndDate in errors <==> !IsDateShape(d.endDate)
    ensures StartAfterEnd in errors <==> startAfterEnd
    ensures BadState in errors <==> d.state !in FormStates
    ensures |errors| <= 6
  {
    Collect(Trim(d.title) == "", Trim(d.description) == "", !IsDateShape(d.startDate), !IsDateShape(d.endDate),
            startAfterEnd, d.state !in FormStates)
  }

  /**
   * A title or description is reported missing exactly when every character of it is one
   * `trim` removes, Unicode spacing such as the ideographic space included.
   */
  lemma ValidateBlankMeans(d: FormData, startAfterEnd: bool)
    ensures MissingTitle in ValidateFormData(d, startAfterEnd) <==>
              forall i :: 0 <= i < |d.title| ==> IsWhitespace(d.title[i])
    ensures MissingDescription in ValidateFormData(d, startAfterEnd) <==>
              forall i :: 0 <= i < |d.description| ==> IsWhitespace(d.description[i])
    ensures d.title == "\U{3000}" ==> MissingTitle in ValidateFormData(d, startAfterEnd)
  {
    TrimEmpty(d.title);
    TrimEmpty(d.description);
  }

  // ---------------------------------------------------------------- wizard

  datatype Wizard = Wizard(step: int, data: FormData, saving: bool, error: Option<string>, closed: bool)

  const InitialData := FormData("", "", "", "", "pending", [], [])
  const Initial := Wizard(1, InitialData, false, None, false)

  /** The states the submit path accepts. */
  const SubmitStates: seq<string> := ["En Progreso", "Completada"]

  const NoTokenMessage := "No se encontró el token de autenticación"
  const InvalidStateMessage := "Estado inválido. Debe ser uno de: En Progreso, Completada"
  const CreateFailedMessage := "Error al crear auditoría"

  /** The body of the POST. */
  datatype Payload = Payload(
    title: string, description: string, startDate: string, endDate: string, state: string,
    users: seq<int>, controladors: seq<int>)

  /** How the POST ends; an empty message stands for one the error does not carry. */
  datatype PostOutcome = PostOk | PostFailed(message: string)

  predicate StepInRange(w: Wizard) { 1 <= w.step <= 3 }

  /** `isStepValid`. */
  predicate IsStepValid(w: Wizard) {
    if w.step == 1 then w.data.title != "" && w.data.description != "" && w.data.startDate != "" && w.data.endDate != ""
    else if w.step == 2 then |w.data.controladors| > 0
    else w.step == 3
  }

  /** `validControladors`: the selected ids that exist among the available controllers. */
  function ValidControladors(selected: seq<int>, available: seq<Controller>): (r: seq<int>)
    ensures IsSubseq(r, selected)
    ensures forall i :: 0 <= i < |r| ==> r[i] in selected && exists c :: c in available && c.id == r[i]
    ensures forall i :: 0 <= i < |selected| && (exists c :: c in available && c.id == selected[i]) ==> selected[i] in r
  {
    var ids := set c | c in available :: c.id;
    Filter(selected, id => id in ids)
  }

  /** One more selected id is kept exactly when some available controller has it. */
  lemma ValidControladorsAppend(selected: seq<int>, x: int, available: seq<Controller>)
    ensures ValidControladors(selected + [x], available) ==
              ValidControladors(selected, available) + (if exists c :: c in available && c.id == x then [x] else [])
  {
    var ids := set c | c in available :: c.id;
    FilterAppend(selected, [x], id => id in ids);
    assert x in ids <==> exists c :: c in available && c.id == x;
  }

  /** `handlePrevious`. */
  function Previous(w: Wizard): (r: Wizard)
    ensures r.step == (if w.step > 1 then w.step - 1 else w.step)
    ensures r.data == w.data && r.saving == w.saving && r.error == w.error
    ensures StepInRange(w) ==> StepInRange(r)
  {
    if w.step > 1 then w.(step := w.step - 1) else w
  }

  /**
   * `handleNext`: below step 3 it only advances; at step 3 it submits. Without a token, or
   * with a state other than "En Progreso" / "Completada", it records an error and sends
   * nothing; otherwise it sends the form with the valid controllers and closes on success.
   */
  function Next(w: Wizard, hasToken: bool, available: seq<Controller>, outcome: PostOutcome)
    : (r: (Wizard, Option<Payload>))
    ensures w.step < 3 ==> r == (w.(step := w.step + 1), None)
    ensures StepInRange(w) ==> StepInRange(r.0)
    ensures w.step >= 3 ==> r.0.step == w.step && r.0.data == w.data && !r.0.saving
    ensures r.1.Some? <==> w.step >= 3 && hasToken && w.data.state in SubmitStates
    ensures r.1.Some? ==> r.1.value.state == w.data.state && r.1.value.users == w.data.users
                          && r.1.value.controladors == ValidControladors(w.data.controladors, available)
    ensures w.step >= 3 && !hasToken ==> r.0.error == Some(NoTokenMessage)
    ensures w.step >= 3 && hasToken && w.data.state !in SubmitStates ==> r.0.error == Some(InvalidStateMessage)
    ensures r.0.closed <==> w.closed || (r.1.Some? && outcome.PostOk?)
  {
    if w.step < 3 then (w.(step := w.step + 1), None)
    else if !hasToken then (w.(saving := false, error := Some(NoTokenMessage)), None)
    else if w.data.state !in SubmitStates then (w.(saving := false, error := Some(InvalidStateMessage)), None)
    else
      var d := w.data;
      var p := Payload(d.title, d.description, d.startDate, d.endDate, d.state, d.users,
                       ValidControladors(d.controladors, available));
      match outcome
      case PostOk => (w.(saving := false, error := None, closed := true), Some(p))
      case PostFailed(m) =>
        (w.(saving := false, error := Some(if m != "" then m else CreateFailedMessage)), Some(p))
  }

  /** The "next" button: disabled while the step is invalid or a save is running. */
  function ClickNext(w: Wizard, hasToken: bool, available: seq<Controller>, outcome: PostOutcome)
    : (r: (Wizard, Option<Payload>))
    ensures !IsStepValid(w) || w.saving ==> r == (w, None)
    ensures StepInRange(w) ==> StepInRange(r.0)
    ensures r.1.Some? ==> w.step == 3 && w.data.state in SubmitStates
  {
    if !IsStepValid(w) || w.saving then (w, None) else Next(w, hasToken, available, outcome)
  }

  /** Step 2 can only be left forwards with at least one controller selected. */
  lemma LeaveStep2NeedsController(w: Wizard, hasToken: bool, available: seq<Controller>, outcome: PostOutcome)
    requires w.step == 2 && !w.saving
    ensures ClickNext(w, hasToken, available, outcome).0.step == 3 <==> |w.data.controladors| > 0
  {
  }

  /** The initial state "pending" is never submitted. */
  lemma InitialStateRejected(w: Wizard, available: seq<Controller>, outcome: PostOutcome)
    requires w.step == 3 && w.data.state == InitialData.state
    ensures Next(w, true, available, outcome) == (w.(saving := false, error := Some(InvalidStateMessage)), None)
  {
  }

  /** The state rules of `validateFormData` and of the submit path share no state. */
  lemma StateRulesDisjoint(s: string)
    ensures !(s in FormStates && s in SubmitStates)
  {
  }

  // ---------------------------------------------------------------- state options

  /** An option of the state `<select>`: its value and its caption. */
  datatype StateOption = StateOption(value: string, caption: string)

  /** The options as written: the "Completada" option carries the value "Competada". */
  const StateOptionsAsWritten: seq<StateOption> :=
    [StateOption("Competada", "Completada"), StateOption("En Progreso", "En Progreso")]

  /** The options as intended: each value equals its caption. */
  const StateOptions: seq<StateOption> :=
    [StateOption("Completada", "Completada"), StateOption("En Progreso", "En Progreso")]

  /** A wizard at step 3 whose state was picked from option `o`. */
  function Picked(w: Wizard, o: StateOption): Wizard {
    w.(step := 3, data := w.data.(state := o.value))
  }

  /** As written, choosing "Completada" in the select always ends in the invalid-state error. */
  lemma CompletadaOptionRejected(w: Wizard, available: seq<Controller>, outcome: PostOutcome)
    ensures StateOptionsAsWritten[0].caption == "Completada"
    ensures Next(Picked(w, StateOptionsAsWritten[0]), true, available, outcome).1.None?
    ensures Next(Picked(w, StateOptionsAsWritten[0]), true, available, outcome).0.error == Some(InvalidStateMessage)
  {
  }

  /** With the corrected options every choice is accepted and submitted under its caption. */
  lemma EveryOptionSubmits(w: Wizard, i: int, available: seq<Controller>, outcome: PostOutcome)
    requires 0 <= i < |StateOptions|
    ensures Next(Picked(w, StateOptions[i]), true, available, outcome).1.Some?
    ensures Next(Picked(w, StateOptions[i]), true, available, outcome).1.value.state == StateOptions[i].caption
  {
  }
}
