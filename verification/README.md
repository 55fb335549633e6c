# ISO 27001 audit dashboard — functional core in Dafny

This project models the pure rules of a browser dashboard for ISO/IEC 27001 audits and
proves properties of them. The rules covered are:

- the compliance summary of an audit: evaluated, pending and per-verdict counts, per-domain
  and per-category tallies, completeness and compliance percentages;
- the verdict normaliser and the filter over results;
- the browser-storage progress cache and its clamped progress formula;
- the audit-state hook that loads an audit and suggests its next state;
- the results index keyed `<auditoriaId>-<controladorId>` and the dashboard card that reads it;
- the audit-creation wizard;
- the results table's search, stable sort and pagination;
- the training quiz;
- the audit picker;
- the domain bar chart;
- the classification helpers of the PDF report;
- the summary card;
- the circular progress ring;
- the navigation bar's scroll behaviour.

One Dafny module corresponds to each source file:

- `AuditoriaResultados` models `useAuditoriaResultados.ts`;
- `ProgressUtils` models `progressUtils.ts`;
- `AuditoriaState` models `useAuditoriaState.ts`;
- `ResultIndex` models `ResultadosContext.tsx`;
- `AuditoriaWidget` models `AuditoriaWidget.tsx`;
- `AuditForm` models `AuditCreationForm.tsx`;
- `ResultsTable` models `TablaResultados.tsx`;
- `AuditoriaUtils` models `Auditoria/utils.ts`;
- `Quiz` models `modulos-capacitacion/index.tsx`;
- `Selector` models `AuditoriaSelector.tsx`;
- `DomainChart` models `GraficoDominio.tsx`;
- `PdfReport` models `pdfService.ts`;
- `SummaryCard` models `ResumenCard.tsx`;
- `ProgressRing` models `CircularProgressBar.tsx`;
- `Navbar` models `Navbar.tsx`.

Five helper modules stand in for JavaScript built-ins:

- `Wrappers`: `Option`.
- `Seqs`: filter, count and subsequence.
- `Text`:
  - ASCII `toLowerCase`/`toUpperCase`, `trim`, `includes`, `split`, `join`;
  - number printing;
  - a code-point string order.
- `Percent`: `Math.round(a / b * 100)` as exact integer arithmetic.
- `Json`: the flat objects `JSON.stringify` writes and `JSON.parse` reads back.

Modelling conventions:

- **Percentages.** `Math.round(a / b * 100)` for `a >= 0`, `b > 0` is the natural number `r`
  with `2br <= 200a + b < 2br + 2b`. A weight of 0.5 is kept exact by counting in half units.
- **Browser storage.** Storage is a `map<string, string>`. Every HTTP exchange is an input datatype.
- **Clock.** The clock is a parameter.
- **JavaScript semantics, made explicit:**
  - JavaScript truthiness and `||` fallbacks are written as functions.
  - NaN is a `Grade` case.
  - A filter that would throw a `TypeError` returns `None`.

## Model

| member | source | states |
|---|---|---|
| AuditoriaResultados.VerdictOfTipo | src/hooks/useAuditoriaResultados.ts:328-342 | the four `tipo` spellings map, compared in lower case, to cumple / no cumple / cumple parcialmente / no aplica, each iff its spelling matches, and nothing else maps |
| AuditoriaResultados.NormalizeVerdict | src/hooks/useAuditoriaResultados.ts:324-343 | a recognised `tipo` decides the verdict; otherwise a completed result is "no evaluado" and an open one has none; "no evaluado" implies completed |
| AuditoriaResultados.Normalize | src/hooks/useAuditoriaResultados.ts:319-343 | a result is completed iff `fechaEvaluacion` is truthy; its verdict is the normalised one; its observations fall back to "" |
| AuditoriaResultados.DomainForType | src/hooks/useAuditoriaResultados.ts:266-285 | a missing type gives "Sin dominio", an unknown letter gives "Tipo X", never the empty name |
| AuditoriaResultados.DomainForTypeDistinct | src/hooks/useAuditoriaResultados.ts:269-281 | the letters A-D name four different domains, none of the "Tipo X" form |
| AuditoriaResultados.Register | src/hooks/useAuditoriaResultados.ts:97-114 | every entry the control loop creates starts with no evaluated result and no compliant count |
| AuditoriaResultados.RegisterTotal | src/hooks/useAuditoriaResultados.ts:92-119 | the per-key totals add up to the number of controls |
| AuditoriaResultados.RegisterUnique | src/hooks/useAuditoriaResultados.ts:97-114 | no key gets two entries |
| AuditoriaResultados.RegisterCovers | src/hooks/useAuditoriaResultados.ts:92-94 | every control's domain (or "Sin dominio") and category (or "Sin categoría") has an entry |
| AuditoriaResultados.RegisterSound | src/hooks/useAuditoriaResultados.ts:92-119 | every entry is the key of some control |
| AuditoriaResultados.HalvesOf | src/hooks/useAuditoriaResultados.ts:141-159 | "cumple" is worth two half units (one compliant control), "cumple parcialmente" one half unit, any other verdict nothing |
| AuditoriaResultados.Finish | src/hooks/useAuditoriaResultados.ts:191-203 | an entry's percentage is the rounded compliant share of its evaluated results once it has one, else stays 0 |
| AuditoriaResultados.FinishAllSum | src/hooks/useAuditoriaResultados.ts:191-203 | computing the percentages changes no total and no evaluated count |
| AuditoriaResultados.CompletitudAsWritten | src/hooks/useAuditoriaResultados.ts:175-178 | completeness as written: rounded `evaluados / (total - noAplica)` when that is positive, else 0 |
| AuditoriaResultados.Completitud | src/hooks/useAuditoriaResultados.ts:175-178 | corrected completeness over applicable controls; at most 100, and exactly 100 when every control is evaluated |
| AuditoriaResultados.Cumplimiento | src/hooks/useAuditoriaResultados.ts:180-187 | rounded `(cumplidos + parciales / 2) / (evaluados - noAplica)` when applicable controls and applicable evaluated results exist, else 0; at most 100 |
| AuditoriaResultados.Summarize | src/hooks/useAuditoriaResultados.ts:75-207 | the summary as written: completeness is rounded `evaluados / (total - noAplica)` (0 without applicable controls) and compliance is rounded `(cumplidos + parciales / 2) / (evaluados - noAplica)` under the source's guards |
| AuditoriaResultados.SummarizeCorrected | src/hooks/useAuditoriaResultados.ts:175-178 | the corrected summary differs only in completeness, which counts applicable evaluated results and is at most 100 when results do not outnumber controls |
| AuditoriaResultados.CompletitudAsWrittenAtLeastCorrected | src/hooks/useAuditoriaResultados.ts:175-178 | the program's completeness is never below the corrected one, and equals it when no result is "no aplica" |
| AuditoriaResultados.ProcessCounts | src/hooks/useAuditoriaResultados.ts:122-172 | every result adds one to exactly one of the evaluated and pending counts |
| AuditoriaResultados.ProcessVerdicts | src/hooks/useAuditoriaResultados.ts:123-167 | a verdict is counted only for a completed result, so the four verdict counts never exceed the evaluated count |
| AuditoriaResultados.ProcessTallies | src/hooks/useAuditoriaResultados.ts:126-159 | the result loop keeps every tally's key and total and at most two half units per evaluated result |
| AuditoriaResultados.StepEntry | src/hooks/useAuditoriaResultados.ts:126-159 | one completed result with its control adds one evaluated result and its half units to exactly its own domain and category entries |
| AuditoriaResultados.SummaryCounts | src/hooks/useAuditoriaResultados.ts:75-188 | the summary's total is the number of controls, evaluated plus pending is the number of results, the verdicts fit in the evaluated count, and compliance is at most 100 |
| AuditoriaResultados.SummaryTallies | src/hooks/useAuditoriaResultados.ts:92-203 | domain totals and category totals each add up to the number of controls, every entry percentage is at most 100, and no key is lost or added |
| AuditoriaResultados.Select | src/hooks/useAuditoriaResultados.ts:642-656 | a filter keeps exactly the results it selects, as an order-preserving subsequence |
| AuditoriaResultados.FilterResults | src/hooks/useAuditoriaResultados.ts:639-658 | each filter id selects its results in order; an unknown id keeps all |
| AuditoriaResultados.PendingEvaluatedSplit | src/hooks/useAuditoriaResultados.ts:643-654 | "pendientes" and "evaluados" split the results between them |
| AuditoriaResultados.FilterCountsMatchProcess | src/hooks/useAuditoriaResultados.ts:122-172 | the loop's pending and evaluated counts are the sizes of the matching filters, and so is the compliant count once every evaluated result has its control |
| AuditoriaResultados.SummaryMatchesFilters | src/hooks/useAuditoriaResultados.ts:639-658 | the summary's pending, evaluated and compliant counts equal the sizes of the lists the matching filters show |
| AuditoriaResultados.CompletitudAsWrittenExceeds100 | src/hooks/useAuditoriaResultados.ts:175-178 | four controls, all evaluated, two not applicable: completeness 200 as written, 100 corrected |
| Percent.RoundPercent | src/utils/progressUtils.ts:147 | the integer rounding of `a / b * 100` is characterised by `2br <= 200a + b < 2br + 2b` |
| Percent.RoundPercentAtMost100 | src/utils/progressUtils.ts:147 | a share of at most the whole rounds to at most 100 |
| Percent.RoundPercentMono | src/utils/progressUtils.ts:147 | a larger numerator never rounds lower |
| Json.ParseEncodeObject | src/utils/progressUtils.ts:36 | parsing what `JSON.stringify` wrote gives back the same flat object |
| ProgressUtils.Key | src/utils/progressUtils.ts:35 | the key is `auditoria_` + id + `_progreso`, from which the id can be read back |
| ProgressUtils.KeyInjective | src/utils/progressUtils.ts:35 | two audits share a key only if they are the same audit |
| ProgressUtils.Save | src/utils/progressUtils.ts:18-51 | an empty id returns false and leaves storage alone; otherwise exactly the audit's key is written, non-empty, and the call returns true |
| ProgressUtils.Load | src/utils/progressUtils.ts:54-94 | an empty id, a missing key or an empty entry gives null with storage untouched; an entry that parses with both numeric fields is returned, storage untouched, and a value is returned only from such an entry; any other entry is removed and gives null; no other key changes |
| ProgressUtils.Clear | src/utils/progressUtils.ts:163-178 | succeeds iff the id is non-empty and removes exactly that audit's key |
| ProgressUtils.ClampedProgress | src/utils/progressUtils.ts:142-147 | the percentage is in [0, 100]; it is the rounded share for in-range counts; it is 0 when nothing is evaluated; it is 100 whenever at least one control is evaluated and the count reaches the total, a total of 0 or less counting as 1 |
| ProgressUtils.UpdateAfterEvaluation | src/utils/progressUtils.ts:132-160 | an empty id gives {0, 0}; otherwise the evaluated count is clamped at 0, the progress is the clamped percentage, and loading afterwards returns exactly the result |
| ProgressUtils.CalculateProgress | src/utils/progressUtils.ts:97-129 | an empty id gives {0, 0}; a cached value is returned unchanged; otherwise {100, total} is cached and returned |
| ProgressUtils.LoadAfterSave | src/utils/progressUtils.ts:29-36 | saving then loading the same audit returns exactly what was saved |
| ProgressUtils.LoadEvictsUnparsable | src/utils/progressUtils.ts:85-89 | text that is not JSON is removed and reads as null |
| ProgressUtils.LoadEvictsMalformed | src/utils/progressUtils.ts:75-79 | a document without two numeric fields is removed and reads as null |
| ProgressUtils.ClearThenLoad | src/utils/progressUtils.ts:169-172 | after clearing an audit it reads as null while every other audit reads as before |
| ProgressUtils.SaveKeepsOthers | src/utils/progressUtils.ts:35-36 | saving one audit never changes what another audit loads |
| AuditoriaState.EvaluatedCount | src/hooks/useAuditoriaState.ts:77-79 | the count of results with a present, non-blank date: 0 iff none has one, all iff all have one |
| AuditoriaState.IsEvaluatedMeans | src/hooks/useAuditoriaState.ts:78 | a date counts iff it holds a non-whitespace character |
| AuditoriaState.UnicodeBlankNotEvaluated | src/hooks/useAuditoriaState.ts:78 | a date of only Unicode spacing (ideographic space, line separator, no-break space) does not count, one with a digit does |
| AuditoriaState.SuggestState | src/hooks/useAuditoriaState.ts:91-97 | "Completada" iff progress is 100 and the state is not already that; "En Progreso" iff 0 < progress < 100 and the state is not already that; never the current state |
| AuditoriaState.FailFetch | src/hooks/useAuditoriaState.ts:98-109 | the error path forgets the audit, zeroes the counters, drops the suggestion and removes only this audit's cache entry |
| AuditoriaState.Fetch | src/hooks/useAuditoriaState.ts:30-113 | no id does nothing; a found audit sets total, evaluated count, progress in [0, 100], the suggestion, and a cache entry that loads back as (progress, evaluated); every failure takes the error path |
| AuditoriaState.UpdateState | src/hooks/useAuditoriaState.ts:115-172 | without an id or loaded audit it only sets the error and sends nothing; otherwise it sends the new state when a token exists and adopts the refreshed audit on success |
| AuditoriaState.FetchKeepsOtherAudits | src/hooks/useAuditoriaState.ts:88 | loading one audit never changes another audit's cached progress |
| ResultIndex.Resolve | src/context/ResultadosContext.tsx:60-67 | an id resolves from `rel.id`, then `rel.data.id`, then a bare number |
| ResultIndex.Admit | src/context/ResultadosContext.tsx:69-83 | a record is admitted iff both ids are truthy and `tipo` is one of the four accepted strings, under the key of its own ids, with `documentId` falling back to `String(id)` ("null" for a null id, "undefined" for a missing one) |
| ResultIndex.IdString | src/context/ResultadosContext.tsx:79 | `String(id)` gives "undefined" exactly for a missing id, "null" exactly for a null id, and the decimal digits for a number |
| ResultIndex.IdStringInjective | src/context/ResultadosContext.tsx:79 | two record ids print the same iff they are the same |
| ResultIndex.Refresh | src/context/ResultadosContext.tsx:38-89 | a missing token or a non-array payload leaves the index unchanged; otherwise a key is present iff some record is admitted under it, and each entry sits under its own key |
| ResultIndex.BuildKeys | src/context/ResultadosContext.tsx:56-87 | a key is in the index iff some record is admitted under it |
| ResultIndex.BuildWellKeyed | src/context/ResultadosContext.tsx:76-83 | every entry is stored under the key built from its own ids |
| ResultIndex.BuildLastWins | src/context/ResultadosContext.tsx:58-83 | of several records under one key, the last one in response order is kept |
| ResultIndex.ResultKeyInjective | src/context/ResultadosContext.tsx:76 | two keys are equal iff both ids are |
| ResultIndex.KeyIsNotANumber | src/context/ResultadosContext.tsx:76 | no key is the printed form of a single number |
| ResultIndex.NoBareIdKey | src/context/ResultadosContext.tsx:56-87 | looking the index up by a bare id never finds an entry |
| AuditoriaWidget.Slugify | src/components/Dashboard/AuditoriaWidget.tsx:88-94 | the slug has only `[a-z0-9-]`, no dash at either end and no two dashes in a row |
| AuditoriaWidget.SlugifyKeeps | src/components/Dashboard/AuditoriaWidget.tsx:88-94 | the slug's letters and digits are exactly those of the lower-cased text, in order |
| AuditoriaWidget.SlugifyJoins | src/components/Dashboard/AuditoriaWidget.tsx:88-94 | two `[a-z0-9]` words around any run of other characters (upper-case ASCII aside) give the words joined by one dash, e.g. "informe 2024" gives "informe-2024" |
| AuditoriaWidget.SlugifyIdempotent | src/components/Dashboard/AuditoriaWidget.tsx:88-94 | slugifying a slug changes nothing |
| AuditoriaWidget.Dashify | src/components/Dashboard/AuditoriaWidget.tsx:92 | the output has only `[a-z0-9-]` and no two dashes in a row, is empty iff the input is, and starts with a dash iff the input starts with a replaced character |
| AuditoriaWidget.DashifyMatchesChars | src/components/Dashboard/AuditoriaWidget.tsx:92 | on every input the replacement equals the character-wise reading: kept characters are copied and each replaced character that opens a run becomes one dash, the rest of the run nothing |
| AuditoriaWidget.DashifyRun | src/components/Dashboard/AuditoriaWidget.tsx:92 | a word, a non-empty run of replaced characters and what follows give the word, one dash, then the rest replaced |
| AuditoriaWidget.StripDashes | src/components/Dashboard/AuditoriaWidget.tsx:93 | the result neither starts nor ends with a dash |
| AuditoriaWidget.Flatten | src/components/Dashboard/AuditoriaWidget.tsx:62-71 | a wrapped record keeps the outer id and the inner fields |
| AuditoriaWidget.FlattenIgnoresInnerId | src/components/Dashboard/AuditoriaWidget.tsx:64 | the id inside `attributes` never reaches the flattened record |
| AuditoriaWidget.TotalControls | src/components/Dashboard/AuditoriaWidget.tsx:140 | the number of controllers, 0 when the list is missing |
| AuditoriaWidget.CompletedAsWritten | src/components/Dashboard/AuditoriaWidget.tsx:141-146 | the bare-id count is at most the number of controllers, and 0 iff no controller is found by its bare id |
| AuditoriaWidget.CompletedAsWrittenIsZero | src/components/Dashboard/AuditoriaWidget.tsx:144 | against any index the results context can hold, the bare-id count is always 0 |
| AuditoriaWidget.RefreshWellKeyed | src/context/ResultadosContext.tsx:56-89 | every index a refresh leaves has only `<audit>-<controller>` keys |
| AuditoriaWidget.Completed | src/components/Dashboard/AuditoriaWidget.tsx:141-146 | the corrected count is at most the number of controllers, and all iff every controller has a result for this audit |
| AuditoriaWidget.CompletedAtMeans | src/components/Dashboard/AuditoriaWidget.tsx:141-146 | a controller counts iff some admitted record names this audit and this controller |
| AuditoriaWidget.CardProgress | src/components/Dashboard/AuditoriaWidget.tsx:148 | rounded completed share of the total, 0 without controllers, at most 100 |
| AuditoriaWidget.ProgressColor | src/components/Dashboard/AuditoriaWidget.tsx:131-135 | red below 30, yellow in [30, 70), green from 70 |
| AuditoriaWidget.CardOf | src/components/Dashboard/AuditoriaWidget.tsx:139-201 | completed at most total, progress at most 100 with its colour, a well-formed slug |
| AuditoriaWidget.CardAsWrittenShowsNothing | src/components/Dashboard/AuditoriaWidget.tsx:140-149 | as written, every card shows 0 completed, 0 % and red |
| AuditForm.Remove | src/components/Dashboard/AuditCreationForm.tsx:155 | removes every occurrence of the id and nothing else, keeping a duplicate-free list duplicate-free |
| AuditForm.Toggle | src/components/Dashboard/AuditCreationForm.tsx:152-166 | the id becomes selected iff it was not; an absent id is appended; other ids keep their membership; no duplicates appear |
| AuditForm.ToggleTwice | src/components/Dashboard/AuditCreationForm.tsx:152-166 | toggling twice restores membership, and restores the list exactly for an unselected id |
| AuditForm.ToggleCategory | src/components/Dashboard/AuditCreationForm.tsx:168-173 | flips one category's flag, a missing one counting as collapsed, and leaves the rest alone |
| AuditForm.ToggleCategoryTwice | src/components/Dashboard/AuditCreationForm.tsx:168-173 | flipping a present category twice restores the map |
| AuditForm.ControllerData | src/components/Dashboard/AuditCreationForm.tsx:293-303 | the fields are read from `attributes`, else from `data`, else from the record itself; in each case a missing type becomes "A" |
| AuditForm.ControllerDataFixpoint | src/components/Dashboard/AuditCreationForm.tsx:293-303 | a controller rebuilt from the read fields, in any of the three places, reads back the same |
| AuditForm.UserData | src/components/Dashboard/AuditCreationForm.tsx:284-291 | the name falls back to the e-mail and then to "Usuario"; it is never empty |
| AuditForm.AddToSpec | src/components/Dashboard/AuditCreationForm.tsx:309-317 | adding a controller appends it to its own group only, creating the group if new |
| AuditForm.GroupByKindSpec | src/components/Dashboard/AuditCreationForm.tsx:306-320 | each group is the in-order list of controllers of its type, the keys are exactly the types that occur, and no key repeats |
| AuditForm.ValidateFormData | src/components/Dashboard/AuditCreationForm.tsx:176-199 | each complaint is reported iff its check fails: blank title, blank description, a date not `YYYY-MM-DD`, start after end, a state outside pending/in_progress/completed |
| AuditForm.ValidateBlankMeans | src/components/Dashboard/AuditCreationForm.tsx:179-180 | the title or description is reported missing iff every character is one `trim` removes, so an ideographic-space title is rejected |
| AuditForm.ValidControladors | src/components/Dashboard/AuditCreationForm.tsx:215-217 | the submitted controllers are the order-preserving subsequence of the selected ids that exist among the available ones |
| AuditForm.ValidControladorsAppend | src/components/Dashboard/AuditCreationForm.tsx:215-217 | one more selected id is kept iff some available controller has it, after the ones already kept |
| AuditForm.Previous | src/components/Dashboard/AuditCreationForm.tsx:266-268 | goes back one step only above step 1 and keeps the step in [1, 3] |
| AuditForm.Next | src/components/Dashboard/AuditCreationForm.tsx:201-263 | below step 3 it advances; at step 3 it sends the form only with a token and a state of "En Progreso" or "Completada", and otherwise records the matching error |
| AuditForm.ClickNext | src/components/Dashboard/AuditCreationForm.tsx:270-281 | the button does nothing while the step is invalid or a save runs |
| AuditForm.LeaveStep2NeedsController | src/components/Dashboard/AuditCreationForm.tsx:270-281 | step 2 is left forwards iff a controller is selected |
| AuditForm.InitialStateRejected | src/components/Dashboard/AuditCreationForm.tsx:220-225 | the form's initial state "pending" is rejected with an error and no request |
| AuditForm.StateRulesDisjoint | src/components/Dashboard/AuditCreationForm.tsx:189-221 | no state passes both the validation list and the submit list |
| AuditForm.CompletadaOptionRejected | src/components/Dashboard/AuditCreationForm.tsx:384-387 | as written, picking the "Completada" option always ends in the invalid-state error |
| AuditForm.EveryOptionSubmits | src/components/Dashboard/AuditCreationForm.tsx:384-387 | with corrected option values, every choice is submitted under its caption |
| ResultsTable.CambiarOrden | src/components/Resultados/TablaResultados.tsx:31-38 | the current column flips the order; another column is selected ascending |
| ResultsTable.CambiarOrdenTwice | src/components/Resultados/TablaResultados.tsx:31-38 | clicking the current column twice restores the view |
| ResultsTable.Search | src/components/Resultados/TablaResultados.tsx:81-93 | keeps exactly the rows whose code, name, description or observations contain the query case-insensitively, in order |
| ResultsTable.SearchEmpty | src/components/Resultados/TablaResultados.tsx:81-93 | an empty query keeps every row |
| ResultsTable.SearchAppend | src/components/Resultados/TablaResultados.tsx:81-93 | one more row is listed iff it matches, after the rows already listed, so duplicates are counted |
| ResultsTable.Sort | src/components/Resultados/TablaResultados.tsx:96-132 | the sorted list is a permutation of the input |
| ResultsTable.SortSorted | src/components/Resultados/TablaResultados.tsx:96-132 | the sorted list is ordered by the chosen column and direction |
| ResultsTable.SortStable | src/components/Resultados/TablaResultados.tsx:96-132 | rows with equal keys keep their relative order |
| ResultsTable.DescIsReversedAsc | src/components/Resultados/TablaResultados.tsx:131 | descending order is the ascending comparator with its operands swapped |
| ResultsTable.TotalPages | src/components/Resultados/TablaResultados.tsx:135 | the page count is `ceil(n / 10)` |
| ResultsTable.Page | src/components/Resultados/TablaResultados.tsx:136-139 | page p shows rows `(p-1)*10` up to `min(p*10, n)`, at most 10 |
| ResultsTable.RowOnPage | src/components/Resultados/TablaResultados.tsx:135-139 | every row appears on a page between 1 and the page count |
| ResultsTable.NavigationStaysInRange | src/components/Resultados/TablaResultados.tsx:296-307 | the previous and next buttons keep an in-range page in range |
| ResultsTable.SetSearch | src/components/Resultados/TablaResultados.tsx:172-175 | typing a query resets the view to page 1 |
| ResultsTable.Visible | src/components/Resultados/TablaResultados.tsx:81-139 | the shown rows are at most 10, all from the input and all matching the query |
| ResultsTable.StatusLabel | src/components/Resultados/TablaResultados.tsx:268-270 | "Pendiente" until completed, then the verdict or "No especificado" |
| ResultsTable.BadgeOf | src/components/Resultados/TablaResultados.tsx:61-78 | grey until completed, then emerald, amber or red iff the lower-cased verdict is cumple, cumple parcialmente or no cumple |
| AuditoriaUtils.ProgressColor | src/components/Auditoria/utils.ts:6-11 | emerald from 75, amber in [50, 75), orange in [25, 50), red below |
| AuditoriaUtils.ProgressColorMonotone | src/components/Auditoria/utils.ts:6-11 | a higher percentage never gets a worse colour |
| AuditoriaUtils.StatusColor | src/components/Auditoria/utils.ts:13-27 | amber iff the lower-cased state is "en progreso"/"in_progress", emerald iff "completada"/"completed", slate otherwise |
| AuditoriaUtils.StatusColorIgnoresCase | src/components/Auditoria/utils.ts:14 | the colour does not depend on case |
| AuditoriaUtils.DisplayName | src/components/Auditoria/utils.ts:33 | the username, else the e-mail, else "Usuario desconocido" |
| AuditoriaUtils.UserNames | src/components/Auditoria/utils.ts:29-34 | "Sin usuarios asignados" without users, otherwise every user's name joined by ", " |
| AuditoriaUtils.UserNamesStartsWithFirst | src/components/Auditoria/utils.ts:29-34 | the line starts with the first user's name |
| AuditoriaUtils.SlugToTitleChars | src/components/Auditoria/utils.ts:36-43 | the title has the slug's length, each dash becomes a space, each word's first character is upper-cased, the rest are kept |
| AuditoriaUtils.TitleCharsMatch | src/components/Auditoria/utils.ts:36-43 | split-capitalise-join equals the character-wise conversion |
| AuditoriaUtils.DiasRestantes | src/components/Auditoria/utils.ts:60-71 | 0 without an end date; otherwise the milliseconds left rounded up to whole days, never negative; an unparsable date gives NaN |
| ProgressRing.RingColorOf | src/components/Auditoria/CircularProgressBar.tsx:13-16 | emerald from 75, amber in [50, 75), orange in [25, 50), red below |
| ProgressRing.RingMatchesUtils | src/components/Auditoria/CircularProgressBar.tsx:13-16 | the ring's bands coincide with the audit utilities' `getProgressColor` |
| Quiz.HandleChange | src/pages/dashboard/modulos-capacitacion/index.tsx:34-38 | a locked quiz ignores the change; otherwise the answer is recorded and the warning cleared |
| Quiz.HandleSubmit | src/pages/dashboard/modulos-capacitacion/index.tsx:40-74 | too few answers only set the warning; otherwise the grade and its recommendation are set and the quiz is locked |
| Quiz.GradeBounds | src/pages/dashboard/modulos-capacitacion/index.tsx:50-57 | with questions, the grade is a number in [0, 10] |
| Quiz.GradeAllYes | src/pages/dashboard/modulos-capacitacion/index.tsx:50-57 | all "Sí" answers give exactly 10 |
| Quiz.TotalHalvesBound | src/pages/dashboard/modulos-capacitacion/index.tsx:50-55 | each answer scores at most one point |
| Quiz.LevelOf | src/pages/dashboard/modulos-capacitacion/index.tsx:61-69 | bands below 5, [5, 7), [7, 9) and from 9; NaN falls in the last |
| Quiz.SameBands | src/pages/dashboard/modulos-capacitacion/index.tsx:61-102 | recommendation, colour and emoji agree iff the grades are in the same band |
| Quiz.Distinct | src/pages/dashboard/modulos-capacitacion/index.tsx:61-102 | different bands get different recommendations, colours and emojis |
| Quiz.ClickSubmit | src/pages/dashboard/modulos-capacitacion/index.tsx:212 | the button does nothing until every question is answered, or while locked |
| Quiz.ClickedGradeInRange | src/pages/dashboard/modulos-capacitacion/index.tsx:40-74 | a submit with all answers locks the quiz with a grade in [0, 10] |
| Quiz.HandleReset | src/pages/dashboard/modulos-capacitacion/index.tsx:76-82 | clears answers, grade, recommendation and warning, and unlocks |
| Quiz.LockedUntilReset | src/pages/dashboard/modulos-capacitacion/index.tsx:35-82 | after a submit answers are ignored until a reset, after which they are taken again |
| Quiz.AnswerProgress | src/pages/dashboard/modulos-capacitacion/index.tsx:105-107 | rounded share of answered questions, 0 without questions |
| Quiz.AnswerProgressBounds | src/pages/dashboard/modulos-capacitacion/index.tsx:105-107 | the answer progress is at most 100, and 100 once all are answered |
| Selector.Normalize | src/components/Resultados/AuditoriaSelector.tsx:53-61 | fields come from `attributes` first, then the top level; the title falls back to "Auditoría #id" and is never empty |
| Selector.NormalizeFlat | src/components/Resultados/AuditoriaSelector.tsx:53-61 | normalising an already normalised audit changes nothing |
| Selector.FetchDone | src/components/Resultados/AuditoriaSelector.tsx:34-81 | errors are shown with the list kept; a list replaces the audits; loading ends |
| Selector.AutoSelect | src/components/Resultados/AuditoriaSelector.tsx:66-68 | the first audit is selected iff nothing is selected and the list is non-empty |
| Selector.Search | src/components/Resultados/AuditoriaSelector.tsx:84-87 | throws iff some audit neither matches by title nor has a string `documentId` (`undefined` and `null` both throw); otherwise keeps exactly the audits matching by title or id, in order |
| Selector.SearchEmpty | src/components/Resultados/AuditoriaSelector.tsx:84-87 | an empty term keeps every audit |
| Selector.SearchAppend | src/components/Resultados/AuditoriaSelector.tsx:84-87 | one more audit makes the search throw iff it throws on that audit, and is kept iff it matches, after the audits already kept |
| Selector.FindSelected | src/components/Resultados/AuditoriaSelector.tsx:90 | finds the first audit whose `documentId` is strictly equal to the selection, an `undefined` or `null` selection matching an audit with the same missing id, and reports none exactly when no audit has it |
| Selector.AutoSelectShowsFirst | src/components/Resultados/AuditoriaSelector.tsx:66-90 | the audit proposed after loading is the one the picker shows, even when its `documentId` is `undefined` |
| Selector.PickedIsFound | src/components/Resultados/AuditoriaSelector.tsx:178-181 | any audit clicked in the filtered list is found in the full list under its own `documentId` |
| Selector.BadgeOf | src/components/Resultados/AuditoriaSelector.tsx:93-104 | emerald iff completada/completed, amber iff en progreso/in_progress, case-insensitively |
| Selector.BadgeMatchesStatusColor | src/components/Resultados/AuditoriaSelector.tsx:93-104 | the badge and the audit utilities' status colour agree on every state |
| Selector.StateLabel | src/components/Resultados/AuditoriaSelector.tsx:193 | the state, or "Pendiente" when it is falsy |
| Selector.StateLabelMatchesBadge | src/components/Resultados/AuditoriaSelector.tsx:192-193 | a falsy state reads "Pendiente" on a grey badge, a "Pendiente" label is always grey, and a coloured badge shows its own state text |
| DomainChart.MatchPrefix | src/components/Resultados/GraficoDominio.tsx:32 | finds the prefix of shape `[A-Z]\d*\.` when one exists, and reports that no prefix has the shape otherwise |
| DomainChart.FormatDomain | src/components/Resultados/GraficoDominio.tsx:31-44 | the matched prefix; otherwise names over 15 characters become 12 plus "..." (15 long) and shorter names are kept |
| DomainChart.FormatDomainShort | src/components/Resultados/GraficoDominio.tsx:31-44 | a formatted name is a prefix code or at most 15 long, and starts the original |
| DomainChart.FormatPrefixFixed | src/components/Resultados/GraficoDominio.tsx:31-36 | a name that is a prefix code is kept as it is |
| DomainChart.ColorOf | src/components/Resultados/GraficoDominio.tsx:47-53 | emerald from 90, green from 70, amber from 50, orange from 30, red below |
| DomainChart.ColorMonotone | src/components/Resultados/GraficoDominio.tsx:47-53 | the colour is monotone in the percentage |
| DomainChart.BarOf | src/components/Resultados/GraficoDominio.tsx:18-28 | a bar passes the tally through with a formatted name and the compliant count rounded |
| DomainChart.SortBars | src/components/Resultados/GraficoDominio.tsx:28 | sorting yields a permutation of the bars |
| DomainChart.ChartDataSpec | src/components/Resultados/GraficoDominio.tsx:18-28 | one bar per tally, each built from a tally, in ascending name order |
| PdfReport.EstadoText | src/services/pdfService.ts:173-180 | EXCELENTE from 75, ACEPTABLE in [50, 75), REGULAR in [25, 50), INSUFICIENTE below |
| PdfReport.EstadoGeneral | src/services/pdfService.ts:434-443 | the same four bands, as the report's sentence |
| PdfReport.VerdictsAgree | src/services/pdfService.ts:434-443 | the two verdicts and the audit utilities' colour share their bands |
| PdfReport.BarFill | src/services/pdfService.ts:160-166 | green from 75, yellow in [50, 75), red below 50 |
| PdfReport.BarFillAgrees | src/services/pdfService.ts:160-180 | the bar is green with "EXCELENTE" and emerald progress, yellow with "ACEPTABLE" and amber, red with the two lower labels |
| PdfReport.DomainTable | src/services/pdfService.ts:269-284 | one row per domain, or exactly one placeholder row when there are none |
| PdfReport.DomainTableOfSummary | src/services/pdfService.ts:269-284 | on a summary, the placeholder appears iff there are no controls; otherwise there is one row per registered domain, with its evaluated/total counts and a percentage of at most 100 |
| PdfReport.StatusText | src/services/pdfService.ts:355 | "Pendiente" until completed, then the verdict itself, or "No especificado" without one |
| PdfReport.StatusAgreesWithTable | src/services/pdfService.ts:340-356 | the report's status text is the results table's label, and its green/yellow/red/grey colour is the table's emerald/amber/red/grey badge |
| PdfReport.StatusFill | src/services/pdfService.ts:339-348 | green, yellow and red fill iff the completed result is cumple, partial or no cumple |
| PdfReport.ResultTable | src/services/pdfService.ts:335-366 | one row per result with its status, or exactly one placeholder row when there are none |
| PdfReport.ResultTableMatchesTable | src/services/pdfService.ts:335-366 | each report row's status column is what the results table shows for that result |
| PdfReport.CriticalDomains | src/services/pdfService.ts:466-474 | a domain is listed iff it has evaluated results and a percentage below 50 |
| PdfReport.Recommendations | src/services/pdfService.ts:476-492 | items are numbered 1..n; the priority item comes first iff there are critical domains, followed by the four general items |
| PdfReport.GeneralNumbering | src/services/pdfService.ts:479-492 | the general items start at 2 iff some domain is critical, else at 1 |
| PdfReport.FilenameOfIsoDate | src/services/pdfService.ts:569-570 | the file name is `Informe_ISO27001_YYYYMMDD.pdf` for an ISO date |
| PdfReport.RemoveDashes | src/services/pdfService.ts:570 | no dash remains |
| SummaryCard.ProgressColor | src/components/Resultados/ResumenCard.tsx:34-40 | emerald from 90, green from 70, amber from 50, orange from 30, red below |
| SummaryCard.ProgressColorMonotone | src/components/Resultados/ResumenCard.tsx:34-40 | the colour is monotone in the percentage |
| SummaryCard.SameBandsAsChart | src/components/Resultados/ResumenCard.tsx:34-40 | the card and the domain chart use the same bands |
| SummaryCard.Options | src/components/Resultados/ResumenCard.tsx:43-51 | exactly seven options, each with its matching count |
| SummaryCard.OptionsUnderstood | src/hooks/useAuditoriaResultados.ts:642-656 | only "todos" falls to the filter's default branch, and the options select pairwise different filters |
| SummaryCard.OptionCountsMatchFilters | src/components/Resultados/ResumenCard.tsx:43-51 | the evaluated and pending counts shown equal the sizes of the lists their filters show |
| SummaryCard.ClickShowsItsResults | src/components/Resultados/ResumenCard.tsx:117-131 | after a click on a button exactly that button is highlighted; "Todos" lists every result, and "Evaluados", "Pendientes" (and "Cumplidos" once every evaluated result has its control) list as many results as the button counts |
| Navbar.ToggleMenu | src/components/Navbar.tsx:13-15 | flips the menu and changes nothing else |
| Navbar.ToggleMenuTwice | src/components/Navbar.tsx:13-15 | toggling twice is the identity |
| Navbar.OnScroll | src/components/Navbar.tsx:19-39 | below 100 the bar shows; from 100 it shows iff the position did not grow; the last position becomes the current one |
| Navbar.ScrollAllLast | src/components/Navbar.tsx:19-39 | after any run of scroll events visibility depends only on the last two positions |
| Navbar.SameSpotShows | src/components/Navbar.tsx:34-36 | a repeated position always shows the bar |

## Left out

- Network: all HTTP requests, bearer tokens and cookies. Responses and token presence are
  inputs, and `setTimeout` delays, React effects and toasts are not modelled.
- Logging: every `console` call.
- Rendering: JSX, the SVG geometry of the progress ring and the card, the chart libraries'
  configuration, and jsPDF drawing.
- Floating point: `Math.round` is modelled on exact rationals. A binary rounding error at an
  exact .5 tie in the source is not modelled. Stored progress values are integers. The JSON
  parser accepts only flat objects of integers, strings without escapes, booleans and null,
  and treats floats and strings with escapes (`\"`, `\u00e9`) as unparsable. `Load`
  therefore evicts an entry that `JSON.parse` would accept when it holds one of these. `Save`
  never writes such an entry.
- `formatearFecha` (src/components/Auditoria/utils.ts:45-58) and other locale date
  formatting: locale- and clock-dependent.
- Dates and `Date.now()`: the date comparison of `validateFormData` is the input
  `startAfterEnd`, and `Date.now()` is the input `now` (timestamp) or `diff` (days left).
- The recursive untyped-object search and its random-id fallbacks in
  src/hooks/useAuditoriaResultados.ts:505-604: nondeterministic. A control is an input of
  the normaliser.
- Control loading: the control-loading requests of `cargarDatos` and the field fallbacks of
  each control's code, name and description are not modelled. The domain-letter mapping is
  modelled.
- `calculateProgressFromCounts`: imported by src/hooks/useAuditoriaState.ts:7 but not
  defined in progressUtils.ts. It is modelled as the clamp of
  `updateProgressAfterEvaluation` (src/utils/progressUtils.ts:142-147).
- Storage failures: `localStorage` quota errors and the `try/catch` around storage access
  are not modelled, so writes always succeed.
- AuditoriaResultados tallies: the per-domain and per-category lists keep insertion order.
  `Object.keys` lists integer-like keys ("5", "10") first in ascending numeric order, so
  for a domain or category named like an integer the display order differs.
- Text.Lower: case mapping is ASCII only. Accented letters are not case-folded, and
  `localeCompare` is modelled as code-point order (Text.StrLe), with no locale collation.
- DomainChart.FormatDomain: strings are sequences of Unicode scalar values, while `.length`
  and `substring` count UTF-16 code units. For names with characters outside the Basic
  Multilingual Plane the 15/12 cut falls at a different place, and the model cannot split a
  surrogate pair as the source can.
- AuditForm.ValidateFormData: the two array checks are not modelled. They cannot fail for
  lists of numbers.
- Quiz.HandleSubmit: the 800 ms delay before the result is shown is not modelled; the state
  after it is.
- PdfReport.Filename: for strings that are not ISO dates only the prefix and the length
  bound are stated. FilenameOfIsoDate states the full name for ISO dates.
- PdfReport.ResultRow: only the status column is stated. The other four columns copy text
  fields.
- Quiz.GradeBounds: the grade is an exact rational. The source's floating-point division
  can differ from it in the last bit.

## Findings

| source | as written | input that shows it | evidently intended | confidence | as-written member | corrected member |
|---|---|---|---|---|---|---|
| src/hooks/useAuditoriaResultados.ts:175-178 | completeness divides all evaluated results, including not-applicable ones, by the applicable controls only | 4 controls, all evaluated, 2 of them "no aplica": completeness 200 % | evaluated applicable results over applicable controls, at most 100 % | high (not executed) | AuditoriaResultados.CompletitudAsWrittenExceeds100 | AuditoriaResultados.Completitud |
| src/components/Dashboard/AuditoriaWidget.tsx:144 | the card looks results up by the bare controller id | any audit with controllers, against any index the results context builds (keys are `<audit>-<controller>`) | look up `${auditoria.id}-${controlador.id}` | high (not executed) | AuditoriaWidget.CompletedAsWrittenIsZero | AuditoriaWidget.CompletedAtMeans |
| src/components/Dashboard/AuditCreationForm.tsx:385 | the state option's value is "Competada" | choosing "Completada" at step 3 and submitting | value "Completada", which the submit check accepts | high (not executed) | AuditForm.CompletadaOptionRejected | AuditForm.EveryOptionSubmits |
