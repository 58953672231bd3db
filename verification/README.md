# Tax Filing Frenzy — a Dafny model of the game core

The browser game *Tax Filing Frenzy* (`game-simplified.js`, class
`TaxFilingGame`) deals tax forms (the federal IRS Form 941 and five
state forms), one form at a time. The player starts a form, types
values copied from a reference board, reviews the form against
per-field format rules and submits it. Points come from accuracy and
remaining time; levels bring a new template and ten extra seconds. The
difficulty table's time limit is applied only when a game
starts (45 seconds at level 1).
When the clock runs out, a rating is shown and the player's profile and
the fifty-entry leaderboard are updated.

This project models that core in Dafny and proves properties of the
model:

- `text.dfy` (`Text`): JavaScript white space, `trim`, regex-style
  character removal, and digit strings with their values.
- `validation.dfy` (`Validation`): the eleven validation rules of the
  field switch, each a character-level matcher. For the seven pattern
  rules (EIN, SSN, phone, e-mail, ZIP, currency and percentage), two
  lemmas show that the matcher accepts exactly the strings its regular
  expression describes. The number matcher is its pattern written out,
  and `YearValues` lists the eleven strings the year rule accepts.
- `answers.dfy` (`Answers`): `isAnswerCorrect`. It includes an
  exact-arithmetic model of `parseFloat`'s grammar for decimal literals,
  and the currency, phone and case-insensitive comparisons.
- `scoring.dfy` (`Scoring`): the form score, the 80% threshold, the
  level-up test, the game-over percentage and rating, and the piggy
  bonuses.
- `forms.dfy` (`Forms`): the difficulty table, the six templates, the
  template cycle, the required-first field selection, and the in-place
  Fisher–Yates shuffle on an `array`.
- `rankings.dfy` (`Rankings`): the profile update, the stable descending
  sort and the leaderboard update.
- `game.dfy` (`Game`): the class `TaxFilingGame`. Its fields are the ones
  the source updates in place. Its methods are `fillForm`,
  `validateField`, `addError`/`clearErrors`, `reviewForm`, `submitForm`,
  `levelUp`, `generateNewForm`, `startGame`/`startTimer`, the timer
  tick, `gameOver`, `handlePiggyClick`, `updateScoreAndSave` and
  `saveUserProfile`.

The form goes Empty → Filled (`FillForm`) → Reviewed (`ReviewForm`,
when every field passes). It is scored by `SubmitForm` and replaced by
`GenerateNewForm`. These behaviours of the code are modelled as written:

- The state `'submitted'` exists but is never entered. After a submission
  the form stays Reviewed, so it can be submitted again until the next
  form is dealt (`Game.SubmitTwice`).
- The inputs stay editable after a review. `ValidateField` stores the
  trimmed value whatever the form's state.
- "X is required" is only reported while the form is Reviewed.
  `reviewForm` runs while the form is Filled, so a review rejected for a
  missing value reports no message (`Game.ReviewErrorsSpec`).
- The level rises once the game-wide count of submitted forms reaches
  twice the level, not after a number of forms within the level.
- Levelling up only adds ten seconds to the clock (`LevelUp`). The time
  column of the difficulty table is read only by `startTimer`, and that
  runs only from `startGame`, at level 1. So the shorter limits of levels
  2 to 10 never take effect.
- `reviewForm`'s `forEach` is modelled as a loop (`ValidateInputs`) over
  the callback (`ReviewInput`). The scoring loop of `submitForm` is
  `CountAnswers`. The counter reset of `startGame` is `ResetCounters`.

With the shipped tables the optional-field shuffle never takes effect.
Every template has five fields, all required, and every level allows at
least six (`Forms.ShippedTemplatesShownWhole`). The selection and the
shuffle are still modelled and proved in general.

Ambient inputs become parameters:

- `Date.parse` becomes the predicate `parsesAsDate`, held by the game
  object.
- `Math.random` becomes a sequence of draws with `draws[i] <= i`.
- The DOM inputs read by `reviewForm` become a sequence of raw strings.
- The stored profile and leaderboard are passed in as values.

## Model

| member | source | states |
|---|---|---|
| Text.Trim | game-simplified.js:504 | the trimmed value neither starts nor ends with white space, and is empty exactly when the input is all white space |
| Text.TrimIsSlice | game-simplified.js:504 | trimming keeps a contiguous middle slice of the input; only white space is cut on either side |
| Text.TrimIdempotent | game-simplified.js:798 | trimming an already trimmed value changes nothing |
| Text.RemoveSpec | game-simplified.js:802-803 | a global `replace` of a character class leaves none of its characters, and leaves a string without them unchanged |
| Text.RemoveConcat | game-simplified.js:810 | removing characters distributes over concatenation |
| Text.ToLowerAscii | game-simplified.js:798 | lower-casing keeps the length, turns each letter A to Z into its lower-case letter, keeps every other character, and leaves no upper-case ASCII letter |
| Text.TrimIgnoresPadding | game-simplified.js:798 | white space added before or after a value does not change its trimmed form |
| Text.DigitsValueAppend | game-simplified.js:802-803 | the value of two digit strings read one after the other is the first shifted by the length of the second plus the second |
| Validation.EinFromParts | game-simplified.js:525-527 | two digits, a hyphen and seven digits form a valid EIN |
| Validation.EinSplit | game-simplified.js:525-527 | every valid EIN is two digits, a hyphen and seven digits |
| Validation.SsnFromParts | game-simplified.js:528-530 | `ddd-dd-dddd` is a valid SSN |
| Validation.SsnSplit | game-simplified.js:528-530 | every valid SSN has the form `ddd-dd-dddd` |
| Validation.PhoneFromParts | game-simplified.js:531-533 | `(ddd) ddd-dddd` is a valid phone number |
| Validation.PhoneSplit | game-simplified.js:531-533 | every valid phone number has the form `(ddd) ddd-dddd` |
| Validation.EmailFromParts | game-simplified.js:534-536 | three non-empty parts without white space or `@`, joined as `l@d1.d2`, form a valid address |
| Validation.EmailSplit | game-simplified.js:534-536 | every valid address splits as `l@d1.d2` into such parts |
| Validation.ZipFromParts | game-simplified.js:537-539 | five digits, optionally followed by a hyphen and four digits, form a valid ZIP code |
| Validation.ZipSplit | game-simplified.js:537-539 | every valid ZIP code has one of those two forms |
| Validation.CurrencyFromParts | game-simplified.js:540-542 | digits, optionally followed by a dot and two digits, form a valid amount |
| Validation.CurrencySplit | game-simplified.js:540-542 | every valid amount has one of those two forms |
| Validation.PercentageFromParts | game-simplified.js:546-548 | digits with an optional dot and digits, then `%`, form a valid percentage |
| Validation.PercentageSplit | game-simplified.js:546-548 | every valid percentage has that form |
| Validation.NumberShape | game-simplified.js:543-545 | definition: the number rule accepts a non-empty string of ASCII digits, the pattern `^\d+$` written out |
| Validation.YearShape | game-simplified.js:549-551 | definition: four digits whose value, read as `parseInt` reads it, lies in 2020..2030 |
| Validation.YearValues | game-simplified.js:549-551 | the year rule accepts exactly the strings "2020" to "2030" |
| Validation.RuleAccepts | game-simplified.js:524-560 | definition: the `switch` on the rule tag, one matcher per case (`Ein`…`Year` by their shape predicates, `date` by `parsesAsDate` on a non-empty value, `required` and unlisted tags accept everything) |
| Validation.ValueAccepted | game-simplified.js:524-562 | definition: the escape for `value === ''`: a value raises no format error when it is empty or its rule accepts it |
| Validation.AcceptedValues | game-simplified.js:524-562 | the empty value raises no format error under any rule, `date` included; `required` and unlisted tags accept everything; `number` and `year` accept only non-empty digit strings |
| Answers.ParseFloat | game-simplified.js:802-803 | definition: `parseFloat` skips leading white space, reads an optional sign, `Infinity` or the longest decimal literal, and gives NaN when none is found; exact decimals stand for doubles |
| Answers.StripCurrency | game-simplified.js:802-803 | definition: `replace(/[$,]/g, '')` (properties in `StripCurrencyIdempotent`, `GroupingIgnored`, `CurrencyHasNoMarks`) |
| Answers.StripPhone | game-simplified.js:809 | definition: `replace(/[\s\-\(\)]/g, '')` (properties in `StripFormattedPhone`) |
| Answers.Normalize | game-simplified.js:798 | definition: lower-casing followed by trimming (properties in `CaseAndPaddingIgnored`) |
| Answers.IsAnswerCorrect | game-simplified.js:796-814 | definition: currency answers by parsed amounts within a cent, phone answers by their stripped text, all others by their normalised text; its properties are the lemmas below |
| Answers.WithinCentSymmetric | game-simplified.js:804 | the distance test `Math.abs(a - b) < 0.01` is symmetric |
| Answers.AnswerSymmetric | game-simplified.js:796-814 | `isAnswerCorrect(a, b, rule) == isAnswerCorrect(b, a, rule)` for every rule |
| Answers.AnswerReflexivity | game-simplified.js:796-814 | outside currency fields every answer matches itself; a currency answer in which no number is found matches nothing |
| Answers.CaseAndPaddingIgnored | game-simplified.js:813 | outside currency and phone fields, an answer that differs from the reference only in the case of ASCII letters, typed with any white space before or after it, is correct |
| Answers.CurrencyHasNoMarks | game-simplified.js:801-803 | a value the currency rule accepts is unchanged by removing `$` and `,` |
| Answers.ParseFloatOfDigits | game-simplified.js:802-803 | `parseFloat` of text starting with a digit reads an unsigned decimal literal |
| Answers.ParseCurrency | game-simplified.js:802-803 | `parseFloat` of an accepted currency value gives exactly its amount in cents |
| Answers.WithinCentOfCents | game-simplified.js:804 | between such numbers, the distance test is equality of cents |
| Answers.CurrencyAnswerIsCentEquality | game-simplified.js:800-805 | in the exact-decimal model, two accepted currency values match exactly when their amounts in cents are equal |
| Answers.AnswerMatchesItself | game-simplified.js:796-814 | a reference value matches itself (a currency one when it is an accepted amount) |
| Answers.StripCurrencyIdempotent | game-simplified.js:802 | removing `$` and `,` a second time removes nothing more |
| Answers.GroupingIgnored | game-simplified.js:802 | a thousands separator between two mark-free parts is removed, and nothing else is |
| Answers.CurrencyAnswerOfStripped | game-simplified.js:800-805 | a currency answer is judged only on what remains once `$` and `,` are removed |
| Answers.SameWholePart | game-simplified.js:802-803 | two accepted amounts with the same whole part differ in cents by exactly the difference of their two fraction digits |
| Answers.PlainAmounts | game-simplified.js:540-542 | "18750.00" and "18750.02" are accepted amounts, two cents apart |
| Answers.CurrencyExamples | game-simplified.js:800-805 | in the exact-decimal model, "18,750.00"-style grouping never changes a verdict, while "18750.02" does not match "18750.00" (doubles agree on this pair) |
| Answers.StripFormattedPhone | game-simplified.js:809-810 | stripping `(a) b-c` leaves the stripped parts, concatenated |
| Answers.PhonePunctuationIgnored | game-simplified.js:808-811 | a phone number written `(ddd) ddd-dddd` matches the same digits written bare |
| Scoring.FormPoints | game-simplified.js:764-768 | definition: 100 plus the accuracy bonus plus `max(0, 2 × timeLeft)` (bounds in `FormPointsBounds`) |
| Scoring.CountsAsCorrect | game-simplified.js:773 | definition: accuracy ≥ 0.8, stated without division as 5 × correct ≥ 4 × scored with at least one scored field |
| Scoring.LevelUpDue | game-simplified.js:784-785 | definition: the game-wide count of submitted forms has reached twice the level |
| Scoring.BonusQuotient | game-simplified.js:764-766 | `⌊50c/s⌋` lies between 0 and 50 and reaches 50 only when c = s |
| Scoring.AccuracyBonus | game-simplified.js:764-766 | the bonus is the floor of 50 × accuracy, at most 50, and is 50 exactly when every scored field is correct |
| Scoring.FormPointsBounds | game-simplified.js:765-768 | a form earns between 100 and 150 points plus the speed bonus, with the top reached exactly when every scored field is correct |
| Scoring.PerfectFormExample | game-simplified.js:765-768 | a perfect form with 30 seconds left earns 210 points |
| Scoring.GameOverAccuracy | game-simplified.js:847 | the game-over percentage is at most 100, and it is the rounding of 100 × correct / completed |
| Scoring.RatingFor | game-simplified.js:861-873 | definition: the four ratings by the thresholds 90/1000, 70/500 and 50/200, checked in that order (monotonic by `RatingMonotonic`) |
| Scoring.RatingMonotonic | game-simplified.js:861-873 | a better accuracy and a higher score never earn a lower rating |
| Scoring.PiggyBonus | game-simplified.js:1386-1393 | every piggy, known or not, adds between 15 and 50 points and between 2 and 8 seconds |
| Forms.SelectTemplate | game-simplified.js:294-296 | definition: the template at index (level − 1) mod 6 of the form sequence (periodic by `TemplateCycle`) |
| Forms.DifficultyFor | game-simplified.js:100-113 | the difficulty row is row min(level − 1, 9); each row allows level + 3 fields |
| Forms.TemplateCycle | game-simplified.js:284-295 | the template repeats every six levels |
| Forms.FederalFormFirst | game-simplified.js:284-295 | levels 1 and 7 get IRS Form 941 |
| Forms.DifficultyMonotonic | game-simplified.js:100-113 | a higher level never allows more time or fewer fields in the table; the time column is only consulted by `StartTimer`, at game start |
| Forms.OptionalOf | game-simplified.js:314 | the optional fields number the fields minus the required ones |
| Forms.SplitByRequired | game-simplified.js:313-314 | the required and optional filters together keep every field exactly once |
| Forms.PartsByRequired | game-simplified.js:313-314 | the required filter keeps only required fields, the optional filter only optional ones |
| Forms.SelectFields | game-simplified.js:307-319 | definition: the template when it fits the limit, otherwise the required fields followed by a prefix of the shuffled optional ones (shape in `SelectFieldsSpec`) |
| Forms.SelectFieldsSpec | game-simplified.js:307-319 | a template within the limit is shown whole and in order; otherwise the required fields come first in template order, followed by the first max(0, limit − #required) shuffled optional fields |
| Forms.SelectedFromTemplate | game-simplified.js:307-319 | a form never shows a field the template lacks, or more copies of a field than the template has |
| Forms.ShippedTemplateShape | game-simplified.js:115-203 | each of the six templates has five fields, all required |
| Forms.ShippedTemplatesShownWhole | game-simplified.js:115-203 | at every level the chosen template is shown whole, with no optional fields to shuffle |
| Forms.NoOptionalFields | game-simplified.js:314 | a template whose fields are all required has no optional fields |
| Forms.ShortTemplateShownWhole | game-simplified.js:307-319 | a five-field all-required template is shown whole when the level allows four or more fields |
| Forms.SwapPermutes | game-simplified.js:341 | a swap of two cells only reorders the sequence |
| Forms.ShuffledIsPermutation | game-simplified.js:338-343 | whatever the random draws, the shuffle only reorders its input |
| Forms.ShuffleArray | game-simplified.js:338-343 | `shuffleArray` leaves the array equal to the Fisher–Yates shuffle of its old contents under the draws, and a permutation of them |
| Rankings.RecordGame | game-simplified.js:1826-1833 | the profile's best score becomes max(best, score), with one more game counted; name and avatar are kept |
| Rankings.FindByName | game-simplified.js:1723 | `findIndex` on the name returns the first entry with that name, or none when no entry has it |
| Rankings.WithGame | game-simplified.js:1723-1741 | definition: the player's first entry raised to this score and counted once more, or a new entry copied from the profile appended (properties in `PlayerKept`, `OthersUnchanged`) |
| Rankings.SortByScore | game-simplified.js:1744 | definition: a stable insertion sort by best score, highest first (properties in `SortIsSorted`, `SortIsPermutation`, `SortIsStable`) |
| Rankings.InsertKeepsSorted | game-simplified.js:1744 | inserting into a list sorted by best score keeps it sorted |
| Rankings.InsertHead | game-simplified.js:1744 | an insertion adds exactly the inserted entry |
| Rankings.InsertKeepsOrder | game-simplified.js:1744 | entries with the same best score keep their order across an insertion |
| Rankings.SortIsSorted | game-simplified.js:1744 | the sort orders the entries by best score, highest first |
| Rankings.SortIsPermutation | game-simplified.js:1744 | the sort only reorders the entries |
| Rankings.SortIsStable | game-simplified.js:1744 | the sort is stable: ties keep their prior order |
| Rankings.Top | game-simplified.js:1745 | `slice(0, 50)` keeps a prefix of exactly min(length, 50) entries |
| Rankings.UpdateRankings | game-simplified.js:1717-1748 | with no player the leaderboard is unchanged; otherwise it is the update of the player's first entry (or an appended entry), sorted and cut to fifty, and is sorted with at most fifty entries |
| Rankings.PlayerKept | game-simplified.js:1717-1748 | a leaderboard that had room keeps the player, with a best score of at least this game's score |
| Rankings.OthersUnchanged | game-simplified.js:1717-1748 | before the cut, every other player's entries appear exactly as often as before |
| Game.WithError | game-simplified.js:587-591 | `addError` adds the message only if absent: never a duplicate, and nothing else is lost or added |
| Game.FieldMessage | game-simplified.js:513-566 | definition: the message `validateField` reports for a trimmed value in a given form state (stated in `FieldMessageSpec`) |
| Game.CheckField | game-simplified.js:501-566 | definition: what `validateField` stores, returns and reports for one raw input (stated in `ReviewCheckSpec` and `ValidateField`) |
| Game.FieldMessageSpec | game-simplified.js:513-566 | a field reports a message exactly when it fails and either its value has the wrong format or the form is Reviewed; a missing required value is silent before review |
| Game.ReviewCheckSpec | game-simplified.js:501-566 | a check during a review stores the trimmed input, passes exactly when the value is accepted by its rule or is empty in an optional field, and reports only "Invalid format" for a non-empty rejected value |
| Game.PrefixStoresValues | game-simplified.js:701-705 | after k fields the stored values are the k trimmed inputs, with every other stored value kept |
| Game.PrefixAllValid | game-simplified.js:712-714 | `allValid` holds exactly when every field so far passed and no required one was empty |
| Game.PrefixRequiredCount | game-simplified.js:708-710 | the required-filled count never exceeds the number of required fields, and equals it exactly when none of them is empty |
| Game.PrefixErrors | game-simplified.js:701-705 | the error list has no duplicates and holds exactly the messages the checks reported |
| Game.PrefixSilent | game-simplified.js:587-591 | checks that report nothing leave the error list empty |
| Game.ReviewStoresInputs | game-simplified.js:694-716 | a review stores every input, trimmed, and keeps every other stored value |
| Game.ReviewErrorsSpec | game-simplified.js:694-716 | a review lists exactly the "Invalid format" messages of the fields with a rejected non-empty value, each once, and no "is required" message |
| Game.ReviewVerdict | game-simplified.js:717-729 | definition: a missing required value first, then an invalid value, otherwise accepted (stated in `ReviewVerdictSpec`) |
| Game.ReviewVerdictSpec | game-simplified.js:717-729 | a review is accepted exactly when every field passes; it is rejected for a missing value exactly when some required trimmed input is empty |
| Game.AcceptedReviewHasNoErrors | game-simplified.js:695-729 | an accepted review leaves no message listed |
| Game.CorrectCount | game-simplified.js:751-762 | never more fields are correct than are scored |
| Game.AllScoredCorrect | game-simplified.js:751-762 | when every scored field matches its reference, the correct count equals the scored count |
| Game.ReferenceAnswersAllCorrect | game-simplified.js:751-762 | a form filled with its own reference values scores every field as correct |
| Game.SelectFormFields | game-simplified.js:302-319 | the chosen fields are the required-first selection with the optional fields shuffled by the draws, and that shuffle is a permutation |
| Game.TaxFilingGame.constructor | game-simplified.js:6-14 | a new game is on the menu at level 1, with score 0, 30 seconds, no forms counted and no form (an empty field list) in state Empty |
| Game.TaxFilingGame.AddError | game-simplified.js:587-591 | the error list gains the message only if it was absent |
| Game.TaxFilingGame.ClearErrors | game-simplified.js:593-595 | the error list is emptied |
| Game.TaxFilingGame.FillForm | game-simplified.js:677-684 | only an empty form becomes Filled; any other state is unchanged, and the game stays valid |
| Game.TaxFilingGame.ValidateField | game-simplified.js:501-581 | the trimmed value is stored in any state, the message is reported as `FieldMessageSpec` says, and the result is whether the field passes |
| Game.TaxFilingGame.StoreValue | game-simplified.js:506-507 | the trimmed value is stored under the field's index and no other stored value changes; the game invariant is kept |
| Game.TaxFilingGame.ReportCheck | game-simplified.js:512-566 | the error list gains the field's message exactly as `FieldMessage` gives it for the current form state, and the result is whether the field passes its rule |
| Game.TaxFilingGame.ReviewInput | game-simplified.js:701-715 | one step of the review loop takes the stored values, the error list and both tallies one field further |
| Game.TaxFilingGame.ValidateInputs | game-simplified.js:700-715 | the review loop leaves the stored values, the errors and the tallies of a review of every field |
| Game.TaxFilingGame.ReviewForm | game-simplified.js:694-729 | a form that is not Filled is untouched; otherwise the errors are cleared first, every input is checked, and the form becomes Reviewed exactly when the verdict is Accepted |
| Game.TaxFilingGame.LevelUp | game-simplified.js:816-820 | one level more and ten seconds more, and the game stays valid |
| Game.TaxFilingGame.CountAnswers | game-simplified.js:747-762 | the scoring loop counts the scored fields and the correct ones |
| Game.TaxFilingGame.SubmitForm | game-simplified.js:744-794 | a form that is not Reviewed is untouched; otherwise the score gains the form's points, one more form is counted (and one more correct form iff accuracy ≥ 0.8), and the level and clock rise iff the game-wide count reaches twice the level; the form stays Reviewed |
| Game.TaxFilingGame.GenerateNewForm | game-simplified.js:282-331 | the new form shows the selected fields of the level's template, with nothing entered, no errors and state Empty |
| Game.TaxFilingGame.StartTimer | game-simplified.js:248-255 | the clock is set to the level's time limit |
| Game.TaxFilingGame.ResetCounters | game-simplified.js:205-227 | the game is Playing at level 1, with score and counters at 0 and no form |
| Game.TaxFilingGame.StartGame | game-simplified.js:205-231 | a new game starts Playing at level 1, with zeroed counters, the level's first form and its time limit, keeping the player's records |
| Game.TaxFilingGame.SaveUserProfile | game-simplified.js:1607-1612 | with a player the leaderboard is updated from their profile; otherwise it is unchanged |
| Game.TaxFilingGame.UpdateScoreAndSave | game-simplified.js:1826-1835 | with a player the profile records the game and the leaderboard follows; otherwise nothing changes |
| Game.TaxFilingGame.GameOver | game-simplified.js:843-882 | the game ends, reporting the rounded percentage of correct forms and the rating, and the player's records are updated |
| Game.TaxFilingGame.Tick | game-simplified.js:260-279 | one second less; the game ends exactly when no time is left, and then the report carries the rounded accuracy and its rating, the profile records the game and the leaderboard is updated; otherwise the records are untouched |
| Game.TaxFilingGame.HandlePiggyClick | game-simplified.js:1382-1397 | only while Playing does a piggy add its points and seconds |
| Game.SubmitTwice | game-simplified.js:744-791 | a reviewed form can be submitted twice, and both submissions count with at least 100 points each |

## Left out

- Rendering, CSS classes, animations, character messages, the start
  and game-over screens, and the keyboard handlers: they are
  presentation only. `startGame` returns early when its game screen is
  missing; the model assumes the screen exists.
- Audio: it has no effect on the game state.
- `localStorage` and JSON persistence. The profile and the leaderboard
  are values held by the game object; `getRankings` and the storage
  writes are not part of this model.
- `setInterval`/`setTimeout`. The tick is the method `Tick`, called
  while a game is played. The deferred `generateNewForm` after a
  submission or a level-up is `GenerateNewForm`, called by the caller.
  `SubmitForm` and `LevelUp` do not deal the next form.
- `Math.random`: the shuffle takes the draws as a parameter, and the
  distribution of the shuffle is not modelled.
- `Date.parse`: the `date` rule uses the uninterpreted predicate
  `parsesAsDate`.
- `Date.now` form ids, `lastPlayed` timestamps, form titles and numbers
  in the dealt form, and `createUserProfile`.
- `toLowerCase` is modelled for ASCII letters only. White space follows
  JavaScript's full `\s` set.
- Answers.WithinCentOfCents: floating-point arithmetic is idealised.
  `parseFloat` results are exact decimals, and `Math.abs(a - b) < 0.01`
  is decided exactly. With doubles, two amounts one cent apart often
  differ by slightly less than 0.01: 18750.01 − 18750.00 is
  0.00999999999839929, and 0.03 − 0.02 is 0.009999999999999998.
- Answers.CurrencyAnswerIsCentEquality: holds of the exact-decimal model
  only. The program accepts "18750.01" for "18750.00". Among the twelve
  shipped currency references, an answer one cent above is accepted for
  eight (125000.00, 18750.00, 85000.00, 95000.00, 78000.00, 67000.00,
  2043.50 and 89000.00) and rejected for four (2890.00, 5700.00, 2106.00
  and 2403.00). So the program does not make one cent matter, although
  the comparison is evidently meant to.
- Answers.CurrencyExamples: its rejected pair is two cents apart, where
  the model and the doubles agree. The one-cent pair "18750.01" against
  "18750.00" is rejected by the model but accepted by the program.
- Game.TaxFilingGame.constructor: the source starts with no form at all.
  The model stands for it with an empty field list in state Empty, so
  actions on that missing form before `startGame` (which the program's
  screens do not offer) are not modelled as failures.
- Scoring.AccuracyBonus: `Math.floor(accuracy * 50)` is the exact floor
  of 50c/s, not the floor of a rounded double.
- Scoring.GameOverAccuracy: `Math.round` of the percentage is exact
  rounding half up of 100 × correct / completed, without double rounding.
- Game.TaxFilingGame.Tick: the clock only runs while the game is
  Playing. The cleared interval after game over is not modelled.
- Game.TaxFilingGame.ValidateField: the field is passed in with its
  position, instead of being looked up by element id.
