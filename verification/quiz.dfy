/**
 * The training questionnaire of `src/pages/dashboard/modulos-capacitacion/index.tsx`: one
 * answer per question out of "Sí", "Medianamente" and "No", a grade out of 10 once every
 * question is answered, a recommendation and colour by grade band, and a lock until reset.
 *
 * Grades are exact rationals: a "Medianamente" is worth half a point, so the model counts
 * half-points and divides once.
 */
module Quiz {
  import opened Wrappers
  import Percent

  /** A grade: JavaScript's NaN arises when there are no questions to divide by. */
  datatype Grade = NaN | Num(value: real)

  datatype Quiz = Quiz(
    preguntas: seq<int>,            // the question ids, in display order
    respuestas: map<int, string>,
    nota: Option<Grade>,
    advertencia: string,
    recomendacion: string,
    bloqueado: bool)

  const IncompleteWarning := "Por favor responde todas las preguntas antes de calcular la nota."

  function Loaded(preguntas: seq<int>): Quiz {
    Quiz(preguntas, map[], None, "", "", false)
  }

  /** Every answer belongs to a question on display. */
  predicate Valid(q: Quiz) {
    forall id | id in q.respuestas :: id in q.preguntas
  }

  function Answered(q: Quiz): nat { |q.respuestas.Keys| }

  /** `handleChange`: records an answer and clears the warning, unless the quiz is locked. */
  function HandleChange(q: Quiz, id: int, valor: string): (q': Quiz)
    ensures q.bloqueado ==> q' == q
    ensures !q.bloqueado ==> q'.respuestas == q.respuestas[id := valor] && q'.advertencia == ""
    ensures q'.preguntas == q.preguntas && q'.nota == q.nota && q'.bloqueado == q.bloqueado
    ensures Valid(q) && id in q.preguntas ==> Valid(q')
  {
    if q.bloqueado then q
    else q.(respuestas := q.respuestas[id := valor], advertencia := "")
  }

  // ---------------------------------------------------------------- grading

  /** The half-points of one answer: "Sí" 2, "Medianamente" 1, anything else or none 0. */
  function HalfPoints(respuesta: Option<string>): (h: nat)
    ensures h <= 2
  {
    if respuesta == Some("Sí") then 2
    else if respuesta == Some("Medianamente") then 1
    else 0
  }

  function AnswerOf(respuestas: map<int, string>, id: int): Option<string> {
    if id in respuestas then Some(respuestas[id]) else None
  }

  /** The sum of the half-points over the questions, in half-points. */
  function TotalHalves(ids: seq<int>, respuestas: map<int, string>): nat {
    if ids == [] then 0 else HalfPoints(AnswerOf(respuestas, ids[0])) + TotalHalves(ids[1..], respuestas)
  }

  /** `(total / preguntas.length) * 10`, with `total` counted in half-points. */
  function GradeOf(ids: seq<int>, respuestas: map<int, string>): Grade {
    if |ids| == 0 then NaN
    else Num((5 * TotalHalves(ids, respuestas)) as real / (|ids| as real))
  }

  lemma {:induction false} TotalHalvesBound(ids: seq<int>, respuestas: map<int, string>)
    ensures TotalHalves(ids, respuestas) <= 2 * |ids|
  {
    if ids != [] {
      TotalHalvesBound(ids[1..], respuestas);
    }
  }

  lemma {:induction false} TotalHalvesAllYes(ids: seq<int>, respuestas: map<int, string>)
    requires forall id | id in ids :: AnswerOf(respuestas, id) == Some("Sí")
    ensures TotalHalves(ids, respuestas) == 2 * |ids|
  {
    if ids != [] {
      assert ids[0] in ids;
      TotalHalvesAllYes(ids[1..], respuestas);
    }
  }

  /** With at least one question, the grade lies between 0 and 10. */
  lemma GradeBounds(ids: seq<int>, respuestas: map<int, string>)
    requires ids != []
    ensures GradeOf(ids, respuestas).Num?
    ensures 0.0 <= GradeOf(ids, respuestas).value <= 10.0
  {
    TotalHalvesBound(ids, respuestas);
    var n := |ids| as real;
    var h := TotalHalves(ids, respuestas) as real;
    RealDivAtMost(5.0 * h, n, 10.0);
  }

  lemma RealDivAtMost(a: real, b: real, c: real)
    requires b > 0.0 && a <= c * b
    ensures a / b <= c
  {
  }

  /** Answering "Sí" everywhere earns the full 10. */
  lemma GradeAllYes(ids: seq<int>, respuestas: map<int, string>)
    requires ids != []
    requires forall id | id in ids :: AnswerOf(respuestas, id) == Some("Sí")
    ensures GradeOf(ids, respuestas) == Num(10.0)
  {
    TotalHalvesAllYes(ids, respuestas);
    var n := |ids| as real;
    assert (5 * (2 * |ids|)) as real == 10.0 * n;
    assert (10.0 * n) / n == 10.0;
  }

  // ---------------------------------------------------------------- bands

  /** The four grade bands; NaN fails every `<` comparison and lands in the top one. */
  datatype Level = Critical | Effort | Good | Excellent

  function LevelOf(g: Grade): (l: Level)
    ensures g.Num? ==> (l == Critical <==> g.value < 5.0)
    ensures g.Num? ==> (l == Effort <==> 5.0 <= g.value < 7.0)
    ensures g.Num? ==> (l == Good <==> 7.0 <= g.value < 9.0)
    ensures g.Num? ==> (l == Excellent <==> 9.0 <= g.value)
    ensures g.NaN? ==> l == Excellent
  {
    match g
    case NaN => Excellent
    case Num(x) => if x < 5.0 then Critical else if x < 7.0 then Effort else if x < 9.0 then Good else Excellent
  }

  function Recommendation(l: Level): string {
    match l
    case Critical => "Nivel crítico. Es necesario implementar mejoras urgentes."
    case Effort => "Se están haciendo esfuerzos, pero aún hay áreas críticas que deben mejorarse."
    case Good => "Buen nivel de cumplimiento. Continúa reforzando los puntos débiles."
    case Excellent => "Excelente cumplimiento. Sigue así."
  }

  /** `getNotaColor`: gray without a grade, then red, yellow, blue and green by band. */
  function NotaColor(nota: Option<Grade>): string {
    match nota
    case None => "bg-gray-200"
    case Some(g) => ColorOf(LevelOf(g))
  }

  function ColorOf(l: Level): string {
    match l
    case Critical => "bg-red-500"
    case Effort => "bg-yellow-500"
    case Good => "bg-blue-500"
    case Excellent => "bg-green-500"
  }

  /** `getEmoji`: none without a grade, then one face per band. */
  function Emoji(nota: Option<Grade>): string {
    match nota
    case None => ""
    case Some(g) => EmojiOf(LevelOf(g))
  }

  function EmojiOf(l: Level): string {
    match l
    case Critical => "😟"
    case Effort => "😐"
    case Good => "🙂"
    case Excellent => "😄"
  }

  /**
   * The recommendation, the colour and the emoji draw the same lines: two grades get the
   * same recommendation exactly when they get the same colour, and exactly when they get
   * the same emoji.
   */
  lemma SameBands(g: Grade, g': Grade)
    ensures Recommendation(LevelOf(g)) == Recommendation(LevelOf(g')) <==> LevelOf(g) == LevelOf(g')
    ensures NotaColor(Some(g)) == NotaColor(Some(g')) <==> LevelOf(g) == LevelOf(g')
    ensures Emoji(Some(g)) == Emoji(Some(g')) <==> LevelOf(g) == LevelOf(g')
  {
    var l, l' := LevelOf(g), LevelOf(g');
    if l != l' {
      Distinct(l, l');
    }
  }

  lemma Distinct(l: Level, l': Level)
    requires l != l'
    ensures Recommendation(l) != Recommendation(l')
    ensures ColorOf(l) != ColorOf(l')
    ensures EmojiOf(l) != EmojiOf(l')
  {
    RecommendationDistinct(l, l');
    ColorDistinct(l, l');
    EmojiDistinct(l, l');
  }

  lemma RecommendationDistinct(l: Level, l': Level)
    requires l != l'
    ensures Recommendation(l) != Recommendation(l')
  {
    RecommendationLength(l);
    RecommendationLength(l');
  }

  lemma ColorDistinct(l: Level, l': Level)
    requires l != l'
    ensures ColorOf(l) != ColorOf(l')
  {
    ColorLength(l);
    ColorLength(l');
  }

  lemma EmojiDistinct(l: Level, l': Level)
    requires l != l'
    ensures EmojiOf(l) != EmojiOf(l')
  {
    EmojiCode(l);
    EmojiCode(l');
  }

  function LevelIndex(l: Level): nat {
    match l
    case Critical => 0
    case Effort => 1
    case Good => 2
    case Excellent => 3
  }

  lemma RecommendationLength(l: Level)
    ensures |Recommendation(l)| == [57, 77, 67, 34][LevelIndex(l)]
  {
  }

  lemma ColorLength(l: Level)
    ensures |ColorOf(l)| == [10, 13, 11, 12][LevelIndex(l)]
  {
  }

  lemma EmojiCode(l: Level)
    ensures |EmojiOf(l)| == 1
    ensures EmojiOf(l)[0] as int == [0x1F61F, 0x1F610, 0x1F642, 0x1F604][LevelIndex(l)]
  {
  }

  // ---------------------------------------------------------------- submit and reset

  /**
   * `handleSubmit`: with fewer answers than questions, only the warning is set; otherwise the
   * grade and recommendation are computed and the quiz locks.
   */
  function HandleSubmit(q: Quiz): (q': Quiz)
    ensures Answered(q) < |q.preguntas| ==> q' == q.(advertencia := IncompleteWarning)
    ensures Answered(q) >= |q.preguntas| ==>
              && q'.nota == Some(GradeOf(q.preguntas, q.respuestas))
              && q'.recomendacion == Recommendation(LevelOf(q'.nota.value))
              && q'.bloqueado
              && q'.respuestas == q.respuestas
  {
    if Answered(q) < |q.preguntas| then q.(advertencia := IncompleteWarning)
    else
      var g := GradeOf(q.preguntas, q.respuestas);
      q.(nota := Some(g), recomendacion := Recommendation(LevelOf(g)), bloqueado := true)
  }

  /** `todasRespondidas`: at least one question and as many answers as questions. */
  predicate AllAnswered(q: Quiz) {
    |q.preguntas| > 0 && Answered(q) == |q.preguntas|
  }

  /** The "Calcular nota" button: enabled only when all is answered and nothing is locked. */
  function ClickSubmit(q: Quiz): (q': Quiz)
    ensures !AllAnswered(q) || q.bloqueado ==> q' == q
  {
    if AllAnswered(q) && !q.bloqueado then HandleSubmit(q) else q
  }

  /** A grade reached through the button is a number between 0 and 10, and the quiz locks. */
  lemma ClickedGradeInRange(q: Quiz)
    requires AllAnswered(q) && !q.bloqueado
    ensures var q' := ClickSubmit(q);
      && q'.bloqueado
      && q'.nota.Some? && q'.nota.value.Num?
      && 0.0 <= q'.nota.value.value <= 10.0
  {
    GradeBounds(q.preguntas, q.respuestas);
  }

  /** `handleReset`: clears answers, grade, recommendation and warning, and unlocks. */
  function HandleReset(q: Quiz): (q': Quiz)
    ensures q' == Loaded(q.preguntas)
    ensures !q'.bloqueado && q'.nota.None? && q'.respuestas == map[] && Valid(q')
  {
    q.(respuestas := map[], nota := None, recomendacion := "", advertencia := "", bloqueado := false)
  }

  /** Once locked, answering changes nothing until the quiz is reset. */
  lemma LockedUntilReset(q: Quiz, id: int, valor: string)
    requires AllAnswered(q) && !q.bloqueado
    ensures var s := ClickSubmit(q);
      && HandleChange(s, id, valor) == s
      && HandleChange(HandleReset(s), id, valor).respuestas == map[id := valor]
  {
  }

  // ---------------------------------------------------------------- answer progress

  lemma {:induction false} CardOfSeqSet(s: seq<int>)
    ensures |set x | x in s| <= |s|
  {
    if s != [] {
      CardOfSeqSet(s[1..]);
      assert (set x | x in s) == (set x | x in s[1..]) + {s[0]};
    }
  }

  /** `progresoRespuestas`: the rounded share of answered questions, 0 without questions. */
  function AnswerProgress(q: Quiz): (p: nat)
    ensures |q.preguntas| == 0 ==> p == 0
    ensures |q.preguntas| > 0 ==> 2 * |q.preguntas| * p <= 200 * Answered(q) + |q.preguntas| < 2 * |q.preguntas| * p + 2 * |q.preguntas|
  {
    if |q.preguntas| > 0 then Percent.RoundPercent(Answered(q), |q.preguntas|) else 0
  }

  /** While answers belong to shown questions, progress never exceeds 100, and reaches it when all are answered. */
  lemma AnswerProgressBounds(q: Quiz)
    requires Valid(q)
    ensures AnswerProgress(q) <= 100
    ensures AllAnswered(q) ==> AnswerProgress(q) == 100
  {
    forall id | id in q.respuestas.Keys
      ensures id in set x | x in q.preguntas
    {
      assert id in q.preguntas;
    }
    CardOfSeqSet(q.preguntas);
    SubsetCard(q.respuestas.Keys, set x | x in q.preguntas);
    if |q.preguntas| > 0 {
      Percent.RoundPercentAtMost100(Answered(q), |q.preguntas|);
      if AllAnswered(q) {
        Percent.RoundPercentEnds(|q.preguntas|);
      }
    }
  }

  lemma SubsetCard(a: set<int>, b: set<int>)
    requires a <= b
    ensures |a| <= |b|
  {
    assert b == a + (b - a);
  }
}
