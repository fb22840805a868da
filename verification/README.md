# Fourth-down decision engine and play classifiers

This project models two pure pieces of a football analytics repository.

**The fourth-down engine** is `fourth_down_decision` in
`3rd_4th_down/2025/situationalExp.py`. Given the score, the time left, the
yards to go and the yard line, it values three actions in expected points
(EP): going for it, punting and kicking a field goal. It uses a fixed cubic
EP curve, a conversion-rate table and a step function for field-goal
makes. Under two minutes with a lead or a deficit, a late-game rule makes
the choice. Otherwise the action with the highest EP wins, and ties go to
the earliest of Punt, GO, Kick. The engine returns the decision with one
extra figure:

- for Punt, a net punt distance meant to be the one at which punting
  draws level with the best other action. Because of a sign slip (see
  "Findings"), the figure the code computes is not that distance;
- for Kick, the make percentage at which kicking draws level, unless the
  clamp to [0, 100] binds;
- for GO, nothing.

**The play classifiers** come from `misc/12downs/analysis.py`:

- `_to_bool` reads a flag column written as 1/0, Y/N, True/False or left
  blank;
- `classify_type` puts a play into Scramble, Pass, Run or Other;
- `classify_style` gives a play a style within its type. For a run, this
  means matching substrings in the run concept.

Both source files are pure computations, so the model is made of
datatypes, functions and lemmas. The numbers are exact `real`s. The EP
coefficients are the decimal literals of the source.

The EP cubic turns out to be strictly increasing on the whole real line,
because B² < 3AC (`ExpectedPoints.CubicStrictlyIncreasing`), so it takes
each value at most once. This is what makes the breakeven figures
meaningful:

- a finite corrected punt figure is the threshold: short of a touchback, a
  net punt is worth at least the best other action exactly when it reaches
  the figure, and a positive figure is the unique breakeven net distance
  (`Thresholds.PuntThresholdBreakeven`, `FourthDown.PuntFigureBreaksEven`);
- with a complete root finder, an unreachable corrected figure means no
  net punt short of a touchback breaks even (`Thresholds.PuntThresholdUnreachable`);
- a positive punt figure as written, the kind the engine returns, is the
  distance at which punting is worth minus the best other value
  (`Thresholds.PuntThresholdAsWrittenSolvesWrongSign`,
  `FourthDown.PuntFigureAsWritten`);
- when a sure make reaches the best other value, the kick figure is the
  breakeven make percentage; otherwise it is 100 and no make rate draws
  level (`Thresholds.KickThresholdBreakeven`, `FourthDown.KickFigureBreaksEven`).

The polynomial root finder (`np.roots`) is a parameter of type
`RootSolver`: a function from the constant term to the list of real
roots. Lemmas that need it assume only that it is sound (everything it
reports is a root) or complete (it reports every real root).

The engine has two failure paths, and both are modelled as `Err` values:

- a yard line outside [1, 99] raises a `ValueError` before anything is
  computed. This is `FieldPositionOutOfRange`;
- in the Kick branch with `a_term <= 0`, the code assigns `needed_pct` but
  returns `needed_p_make`, which was never assigned. Python raises a
  `NameError` (an `UnboundLocalError`). This is `NeededPMakeUnbound`.
  `FourthDown.FourthDownDecision` fails this way exactly when that branch is
  reached. `FourthDown.KickATermPositive` shows that the branch cannot be
  reached for any kickoff spot at or behind the 80; the default spot is the
  27.

`FourthDown.FourthDownDecision` is the engine as written.
`FourthDown.FourthDownDecisionCorrected` returns the same verdict except that
a Punt carries the corrected figure.

Where the code and its documentation disagree, the model follows the code:

- `get_p_conv` looks every distance above 10 up under the key 10, so it
  yields 0.29 there, not the 0.25 a reader of the default might expect. The
  default 0.25 is reached only for distances below 1;
- the comment on line 85 says the roots solve `-ep(fp) == max_other`, but
  the code hands the solver the constant `d - max_other`. The engine
  returns the figure the code computes; see "Findings".

## Model

| member | source | states |
|---|---|---|
| ExpectedPoints.Clamp | 3rd_4th_down/2025/situationalExp.py:20 | the clamped yard line lies in [1, 99], equals the input inside that range and is the nearer bound outside it |
| ExpectedPoints.ClampIdempotent | 3rd_4th_down/2025/situationalExp.py:20 | clamping twice is clamping once |
| ExpectedPoints.EpClampsBelow | 3rd_4th_down/2025/situationalExp.py:19-21 | every yard line at or behind the 1 is valued as the 1 |
| ExpectedPoints.EpClampsAbove | 3rd_4th_down/2025/situationalExp.py:19-21 | every yard line at or beyond the 99 is valued as the 99 |
| ExpectedPoints.Ep | 3rd_4th_down/2025/situationalExp.py:19-21 | the cubic at the clamped yard line; its properties are stated by EpClampsBelow, EpClampsAbove, EpMonotone, EpStrictlyIncreasing, EpInjective and EpRange |
| ExpectedPoints.SlopeFactorPositive | 3rd_4th_down/2025/situationalExp.py:17 | with the four coefficients, the divided difference of the cubic is positive for every pair of points |
| ExpectedPoints.CubicStrictlyIncreasing | 3rd_4th_down/2025/situationalExp.py:17-21 | the unclamped EP cubic is strictly increasing on all reals, so it has at most one real root for any constant |
| ExpectedPoints.EpMonotone | 3rd_4th_down/2025/situationalExp.py:19-21 | EP never decreases as the yard line moves forward |
| ExpectedPoints.EpStrictlyIncreasing | 3rd_4th_down/2025/situationalExp.py:19-21 | inside [1, 99], EP strictly increases |
| ExpectedPoints.EpInjective | 3rd_4th_down/2025/situationalExp.py:19-21 | inside [1, 99], two yard lines with the same EP are the same |
| ExpectedPoints.EpRange | 3rd_4th_down/2025/situationalExp.py:19-21 | every EP value lies between the values at the 1 and the 99, about -0.296 and 5.922 |
| Probabilities.Min | 3rd_4th_down/2025/situationalExp.py:26 | the smaller of two integers: at most both, and equal to one of them |
| Probabilities.ConversionProbability | 3rd_4th_down/2025/situationalExp.py:24-26 | the result is in (0, 1); it is the table entry for 1 to 10 yards and 0.29 above 10; it is the 0.25 default exactly when fewer than 1 yard is to go |
| Probabilities.ConversionNonIncreasing | 3rd_4th_down/2025/situationalExp.py:24-26 | from 1 yard on, more yards to go never give a higher conversion rate |
| Probabilities.MakeProbability | 3rd_4th_down/2025/situationalExp.py:29-34 | the result is one of the five levels; it is 0.95 exactly below 30 yards, 0.90 exactly from 30 to 39, 0.80 exactly from 40 to 49, 0.65 exactly from 50 to 59 and 0.40 exactly from 60 yards |
| Probabilities.MakeNonIncreasing | 3rd_4th_down/2025/situationalExp.py:29-34 | a longer kick never has a higher make probability |
| Outcomes.LabelsDistinct | 3rd_4th_down/2025/situationalExp.py:72 | the decisions are reported as "Punt", "GO" and "Kick", and no two decisions share a name |
| Outcomes.RealMax | 3rd_4th_down/2025/situationalExp.py:84 | the larger of two values: at least both, and equal to one of them |
| ActionValues.WithDefaults | 3rd_4th_down/2025/situationalExp.py:3-4 | the default net punt is 40 yards and the default kickoff spot is the 27 |
| ActionValues.PointDiff | 3rd_4th_down/2025/situationalExp.py:13 | our score minus theirs; the late-game lemmas Selection.LateLeading, FourthDown.LateLeadDecision and FourthDown.LateDeficitDecision state how its sign decides |
| ActionValues.FieldGoalDistance | 3rd_4th_down/2025/situationalExp.py:14 | the yards to the goal line plus 17; FourthDown.LateLeadDecision and FourthDown.LateDeficitDecision state its 50- and 55-yard limits as the yard lines 67 and 62 |
| ActionValues.GoValue | 3rd_4th_down/2025/situationalExp.py:41 | the GO value; ActionValues.GoValueBetween states that it lies between a sure failure and a sure conversion |
| ActionValues.GoSpot | 3rd_4th_down/2025/situationalExp.py:40 | after a conversion the offense is at the yard line plus the yards to go, capped at the 99 |
| ActionValues.GoValueBetween | 3rd_4th_down/2025/situationalExp.py:36-41 | going for it is worth something between a sure failure and a sure conversion |
| ActionValues.PuntSpot | 3rd_4th_down/2025/situationalExp.py:44-47 | a punt carrying past the goal line leaves the opponent at the 20, otherwise at 100 - fp - net; the spot is never negative, and at most 99 for a valid yard line and a non-negative net |
| ActionValues.PuntValue | 3rd_4th_down/2025/situationalExp.py:48 | the punt value; ActionValues.PuntValueMonotone and Thresholds.PuntThresholdBreakeven state how it depends on the net distance |
| ActionValues.PuntValueMonotone | 3rd_4th_down/2025/situationalExp.py:43-48 | short of a touchback, a longer net punt is never worth less |
| ActionValues.MissSpot | 3rd_4th_down/2025/situationalExp.py:51 | after a miss the opponent takes over at the kick spot 107 - fp, but never inside their 20 |
| ActionValues.KickValue | 3rd_4th_down/2025/situationalExp.py:54 | the kick value; ActionValues.KickValueLinear and ActionValues.KickValueBetween state its linear form and its bounds |
| ActionValues.KickValueLinear | 3rd_4th_down/2025/situationalExp.py:51-54 | the kick value is the linear function p·a_term + b_term of the make probability, with the a_term and b_term of lines 103-104 |
| ActionValues.KickValueBetween | 3rd_4th_down/2025/situationalExp.py:50-54 | for a make probability in [0, 1], the kick is worth something between a sure miss and a sure make |
| ActionValues.ValuesOf | 3rd_4th_down/2025/situationalExp.py:36-54 | the kick is valued at the estimated make probability for its distance, as p·a_term + b_term |
| Selection.FirstMax | 3rd_4th_down/2025/situationalExp.py:76-77 | the chosen action is in the table and no other action has a higher value; every action listed before it has a strictly lower value, so the first action to reach the maximum wins |
| Selection.MaxEpChoice | 3rd_4th_down/2025/situationalExp.py:76-77 | the choice has the highest value; it is Punt when punting is at least as good as both others, GO when going is strictly better than punting and at least as good as kicking, and Kick when kicking is strictly better than both |
| Selection.Choose | 3rd_4th_down/2025/situationalExp.py:57-77 | the selection rule; Selection.LateLeading, LateTrailingKick, LateTrailingOtherwise, LateGameIgnoresValues and ChooseMaximises state each of its branches |
| Selection.LateLeading | 3rd_4th_down/2025/situationalExp.py:57-62 | under two minutes with a lead, the choice is Kick when the kick is 50 yards or shorter and Punt otherwise |
| Selection.LateTrailingKick | 3rd_4th_down/2025/situationalExp.py:63-66 | under two minutes and down by 3 or less, with a kick of 55 yards or shorter, the choice is Kick |
| Selection.LateTrailingOtherwise | 3rd_4th_down/2025/situationalExp.py:63-70 | under two minutes and trailing, outside that case, the choice is GO when down by 8 or less and Punt otherwise |
| Selection.LateGameIgnoresValues | 3rd_4th_down/2025/situationalExp.py:57-70 | under two minutes with a non-zero score difference, the action values make no difference, and a kick longer than 55 yards is never chosen |
| Selection.ChooseMaximises | 3rd_4th_down/2025/situationalExp.py:71-77 | with two minutes or more left, or a tied score, the chosen action has the highest value |
| Thresholds.ValidRoots | 3rd_4th_down/2025/situationalExp.py:87 | the kept roots are exactly the reported roots in [1, 99] |
| Thresholds.Largest | 3rd_4th_down/2025/situationalExp.py:91 | the maximum of a non-empty list is in it and is at least every element |
| Thresholds.PuntThresholdFromRoots | 3rd_4th_down/2025/situationalExp.py:87-98 | the figure is never empty; it is unreachable exactly when no root lies in [1, 99]; otherwise it is max(0, 100 - fp - largest root) and lies in [0, 99 - fp], so the touchback test is never reached |
| Thresholds.PuntThresholdAsWritten | 3rd_4th_down/2025/situationalExp.py:83-99 | the punt figure with the constant term the source passes; a finite figure lies in [0, 99 - fp] |
| Thresholds.PuntThreshold | 3rd_4th_down/2025/situationalExp.py:83-99 | the punt figure with the constant term of the breakeven equation; a finite figure lies in [0, 99 - fp] |
| Thresholds.PuntRoot | 3rd_4th_down/2025/situationalExp.py:85-92 | a finite figure comes from a root r in [1, 99] with EP(r) equal to D minus the constant term, and equals max(0, 100 - fp - r) |
| Thresholds.PuntThresholdBreakeven | 3rd_4th_down/2025/situationalExp.py:84-92 | for the corrected figure t and any net punt n short of a touchback: punting is worth at least the best other action exactly when n >= t, and a positive t breaks even exactly |
| Thresholds.PuntThresholdUnreachable | 3rd_4th_down/2025/situationalExp.py:88-89 | with a complete solver, an unreachable corrected figure means no yard line in [1, 99] and no net punt short of the goal line breaks even |
| Thresholds.PuntThresholdAsWrittenSolvesWrongSign | 3rd_4th_down/2025/situationalExp.py:86 | a positive figure as written is the net punt worth minus the best other value, not the best other value |
| Thresholds.Clamp01 | 3rd_4th_down/2025/situationalExp.py:108 | the result is in [0, 1], equals the input inside it, and is the nearer bound outside it |
| Thresholds.KickThreshold | 3rd_4th_down/2025/situationalExp.py:101-109 | the branch fails, with the unbound-variable error, exactly when a_term <= 0; otherwise the figure is in [0, 100], and when the clamp does not bind, (figure / 100)·a_term + b_term equals the best other value |
| Thresholds.KickThresholdBreakeven | 3rd_4th_down/2025/situationalExp.py:102-108 | if a sure make reaches the best other value, a make probability p in [0, 1] reaches it exactly when 100·p is at least the figure; if not, the figure is 100 and no such p reaches it |
| FourthDown.Decide | 3rd_4th_down/2025/situationalExp.py:57-77 | the selection rule applied to a situation; FourthDown.LateLeadDecision, LateDeficitDecision and MaxValueDecision state it in terms of the score, the yard line and the values |
| FourthDown.BestOther | 3rd_4th_down/2025/situationalExp.py:84 | the best value among the other two actions: at least each of them, and attained by one of them |
| FourthDown.FourthDownDecision | 3rd_4th_down/2025/situationalExp.py:3-109 | a yard line outside [1, 99] is rejected, and only such a yard line; otherwise the decision is the selection rule's; GO and only GO carries no figure; a Punt carries the punt figure as written for the best other value, which is unreachable or in [0, 99 - fp]; a Kick figure is in [0, 100]; the unbound-variable error happens exactly when Kick is chosen with a_term <= 0 |
| FourthDown.FourthDownDecisionCorrected | 3rd_4th_down/2025/situationalExp.py:83-99 | the same outcome as the engine as written, except that a Punt carries the corrected punt figure |
| FourthDown.PuntFigureAsWritten | 3rd_4th_down/2025/situationalExp.py:86 | when the engine punts with a positive finite figure t, a net punt of t yards is worth minus the best other value, not the best other value |
| FourthDown.KickATermPositive | 3rd_4th_down/2025/situationalExp.py:103-105 | with a kickoff spot at or behind the 80, a_term is positive |
| FourthDown.DecisionSucceedsForValidInput | 3rd_4th_down/2025/situationalExp.py:10-11 | a yard line in [1, 99] with a kickoff spot at or behind the 80 always yields a verdict |
| FourthDown.PuntFigureBreaksEven | 3rd_4th_down/2025/situationalExp.py:83-99 | when the corrected engine punts with a finite figure, a net punt short of a touchback is worth at least the best other action exactly when it reaches the figure, and a positive figure draws level |
| FourthDown.KickFigure | 3rd_4th_down/2025/situationalExp.py:101-109 | when the engine kicks, a_term is positive and the reported figure is the kick threshold for that situation |
| FourthDown.KickValueBreakeven | 3rd_4th_down/2025/situationalExp.py:101-109 | the breakeven law of the kick threshold, restated with the kick value at p and at a sure make |
| FourthDown.KickFigureBreaksEven | 3rd_4th_down/2025/situationalExp.py:101-109 | when the engine kicks and a sure make reaches the best other value, the kick at make probability p is worth at least that value exactly when 100·p reaches the figure; otherwise the figure is 100 and no p in [0, 1] does |
| FourthDown.LateLeadDecision | 3rd_4th_down/2025/situationalExp.py:57-62 | under two minutes with a lead: Kick from the opponent's 33 or closer, Punt from further out |
| FourthDown.LateDeficitDecision | 3rd_4th_down/2025/situationalExp.py:63-70 | under two minutes and trailing: Kick when down by 3 or less from the opponent's 38 or closer, else GO when down by 8 or less, else Punt |
| FourthDown.MaxValueDecision | 3rd_4th_down/2025/situationalExp.py:71-77 | with two minutes or more left, or a tied score, the decision is the max-EP choice and no action is worth more |
| FourthDown.EndZonesRejected | 3rd_4th_down/2025/situationalExp.py:10-11 | a yard line of 0 or 100 is rejected |
| FourthDown.MidfieldFourthAndTwo | 3rd_4th_down/2025/situationalExp.py:36-81 | tied at midfield with ten minutes left on 4th and 2, GO is worth about 0.324, Punt about -0.128 and Kick about -0.083, so the verdict is GO with no figure |
| FourthDown.LateLeadFieldGoal | 3rd_4th_down/2025/situationalExp.py:101-109 | up by ten at the opponent's 30 with a minute left, the verdict is Kick, with a breakeven make percentage between 45.39 and 45.40 |
| FourthDown.LateDeficitPunt | 3rd_4th_down/2025/situationalExp.py:63-70 | down by ten at midfield with a minute left, the verdict is Punt, and the best other value is about -0.0736 |
| FourthDown.LateDeficitPuntFigure | 3rd_4th_down/2025/situationalExp.py:86 | in that situation the engine reports the figure as written and the corrected engine the corrected figure; when the root finder reports a root in [1, 99], the figure as written lies between 44 and 45 yards and does not break even, and the corrected figure lies between 41 and 42 yards and does |
| Text.StripStart | misc/12downs/analysis.py:24 | the result is a suffix of the input; everything dropped is whitespace; the result is empty or starts with a non-space |
| Text.StripEnd | misc/12downs/analysis.py:24 | the result is a prefix of the input; everything dropped is whitespace; the result is empty or ends with a non-space |
| Text.Strip | misc/12downs/analysis.py:24 | the right strip of the left strip; Text.StripIgnoresPadding and Text.StripLower state its properties, and Text.StripStart and Text.StripEnd the two halves |
| Text.LowerChar | misc/12downs/analysis.py:24 | an ASCII capital becomes the small letter that upper-cases back to it; every other character is unchanged; whitespace stays whitespace and no ASCII capital comes out |
| Text.UpperChar | misc/12downs/analysis.py:157 | an ASCII small letter becomes the capital 32 code points below it; every other character is unchanged; no ASCII small letter comes out |
| Text.Lower | misc/12downs/analysis.py:24 | the result has the input's length and each character is lower-cased |
| Text.Upper | misc/12downs/analysis.py:157 | the result has the input's length and each character is upper-cased |
| Text.LowerIdempotent | misc/12downs/analysis.py:24 | lower-casing twice is lower-casing once |
| Text.StripStartSkipsSpace | misc/12downs/analysis.py:24 | leading whitespace makes no difference to the left strip |
| Text.StripStartAppend | misc/12downs/analysis.py:24 | once the left strip has reached a non-space, text after it is kept |
| Text.StripEndSkipsSpace | misc/12downs/analysis.py:24 | trailing whitespace makes no difference to the right strip |
| Text.StripIgnoresPadding | misc/12downs/analysis.py:24 | whitespace padding on either side does not change the stripped text |
| Text.StripStartLower | misc/12downs/analysis.py:24 | the left strip and lower-casing commute |
| Text.StripEndLower | misc/12downs/analysis.py:24 | the right strip and lower-casing commute |
| Text.StripLower | misc/12downs/analysis.py:24 | strip-then-lower equals lower-then-strip |
| Text.Contains | misc/12downs/analysis.py:158 | the substring test holds exactly when the substring occurs at some position |
| PlayClassify.ToBool | misc/12downs/analysis.py:20-29 | a flag reads as true exactly when its stripped, lower-cased text is one of "1", "y", "yes", "true", "t" |
| PlayClassify.ToBoolIgnoresCase | misc/12downs/analysis.py:24 | texts that agree after lower-casing read the same |
| PlayClassify.ToBoolIgnoresPadding | misc/12downs/analysis.py:24 | surrounding whitespace does not change the reading |
| PlayClassify.ToBoolFalseOtherwise | misc/12downs/analysis.py:27-29 | an explicit false word, or any text that is not a true word, reads as false |
| PlayClassify.ToBoolWord | misc/12downs/analysis.py:24-25 | a text without surrounding whitespace reads as true exactly when its lower-case form is a true word |
| PlayClassify.ToBoolPaddedTrue | misc/12downs/analysis.py:24-26 | " True" followed by a newline reads as true |
| PlayClassify.ToBoolUpperFalse | misc/12downs/analysis.py:27-28 | "FALSE" reads as false |
| PlayClassify.ToBoolMissing | misc/12downs/analysis.py:29 | a missing value, printed as "nan", reads as false |
| PlayClassify.TypeLabelsDistinct | misc/12downs/analysis.py:131-139 | the four type labels are distinct |
| PlayClassify.StyleLabelsDistinct | misc/12downs/analysis.py:142-167 | every style label is one of the twelve, and no two styles share a label |
| PlayClassify.ClassifyType | misc/12downs/analysis.py:131-139 | a scramble is Scramble whatever the run/pass code; otherwise the type is Pass exactly for "P", Run exactly for "R", and Other for anything else |
| PlayClassify.ClassifyStyle | misc/12downs/analysis.py:142-167 | the style is a pass style exactly for a pass, a run style exactly for a run, Scramble exactly for a scramble and Other exactly for Other |
| PlayClassify.PassStylePriority | misc/12downs/analysis.py:144-153 | a pass is Screen, Play Action, RPO or Deep by the first flag set in that order, and Standard exactly when none is |
| PlayClassify.RunStylePriority | misc/12downs/analysis.py:154-164 | a run is Draw when flagged; otherwise Inside Zone, Outside Zone (outside or wide zone) or Gap/Power/Counter by the first concept test that matches the upper-cased concept, and Other Run exactly when none does |
| PlayClassify.StyleReadsOnlyItsOwnFields | misc/12downs/analysis.py:142-164 | a pass style depends only on the four pass flags, a run style only on the draw flag and the case-folded run concept |
| PlayClassify.Classify | misc/12downs/analysis.py:131-167 | the style column is Scramble exactly for scrambles, a pass style exactly for "P" plays that are not scrambles, and a run style exactly for such "R" plays |
| PlayClassify.RunConceptExamples | misc/12downs/analysis.py:157-164 | for an undrawn run, "Inside Zone" is Inside Zone, "wide zone" is Outside Zone, "Duo" is Gap/Power/Counter and "nan" is Other Run |

## Left out

- The polynomial root finder is a parameter, not an algorithm. Its floating-point roots, and the test that the imaginary part is exactly zero, are replaced by exact real roots. Lemmas that need it assume a sound or a complete solver.
- Floating point: all arithmetic is on exact reals. The two `round(..., 1)` calls on the returned figures are left out, so figures are unrounded. `float('inf')` is the `Infinite` figure.
- Python's dynamic typing is left out: the engine's inputs are integers (score, yards to go, yard line) and reals (time, net punt, kickoff spot). `str(x)` in `_to_bool` is taken as already applied, so the flag parser works on text.
- Text.Lower: case mapping covers ASCII letters only. Python's `lower` also maps other alphabets. Stripping, by contrast, uses Python's full whitespace set.
- Text.Upper: case mapping covers ASCII letters only. Python's `upper` also maps other alphabets and can change a string's length.
- Text.LowerChar: maps only the ASCII capitals A to Z, for the same reason as Text.Lower.
- Text.UpperChar: maps only the ASCII small letters a to z, for the same reason as Text.Upper.
- FourthDown.FourthDownDecision: the engine returns the punt figure as the code computes it; the breakeven law holds only for FourthDown.FourthDownDecisionCorrected (see "Findings").
- `classify_style` reads `play_type` as text. The model takes the `PlayType` value from `classify_type`, which only ever produces the four labels. Any other text would be classified as Other in the source too.
- `row.get` defaults for a missing run/pass code or run concept are not modelled separately. A missing value is the empty string, or "nan" once converted to text.
- Everything else in `misc/12downs/analysis.py` is not part of this model: CSV loading, column cleaning, season filtering, charts and file output. The same holds for the scripts around the engine in `3rd_4th_down/`.

## Findings

| source | as written | input that shows it | evidently intended | confidence | as-written member | corrected member |
|---|---|---|---|---|---|---|
| 3rd_4th_down/2025/situationalExp.py:86 | the root finder gets the constant term `d + (-max_other)`, so the roots solve ep(x) == max_other; the punt figure then makes punting worth -max_other, not max_other | 0-10 score, 1 minute left, 4th and 5 at midfield, defaults: the engine punts with max_other ≈ -0.0736; the figure as written lies between 44 and 45 yards and does not break even, while the breakeven distance lies between 41 and 42 yards | the constant term `d + max_other`, so the roots solve -ep(x) == max_other, as the comment on line 85 says | high, not executed | Thresholds.PuntThresholdAsWritten | Thresholds.PuntThreshold |

`Thresholds.PuntThresholdAsWrittenSolvesWrongSign` and
`FourthDown.PuntFigureAsWritten` state what the figure as written satisfies
in general. `FourthDown.LateDeficitPuntFigure` brackets both figures for the
input above. `FourthDown.FourthDownDecision` returns the figure as written,
as the program does. `FourthDown.FourthDownDecisionCorrected` returns the
corrected `Thresholds.PuntThreshold`, and `Thresholds.PuntThresholdBreakeven`
and `FourthDown.PuntFigureBreaksEven` prove the breakeven law for it.
