# AI workout and diet planner: the deterministic core

The planner is a Streamlit page. It collects a student's profile, asks a language model
for a seven-day workout and meal plan, and then splits the free-text reply into three
sections: workout, meal and motivation. It also exports sections to PDF, computes health
metrics, and runs a small chat assistant. This project models the parts of it that are
plain logic, and proves properties of them.

- **Extractor** (`extractor.dfy`): the reply extractor of `app.py`. `parse_sections` runs
  four stages in order:
  - literal markers;
  - heading-line patterns for missing or short spans;
  - a split into thirds on blank lines;
  - the collapse of the motivation to one line.

  `ensure_section_text` re-extracts a short section from the stored reply.
- **Page** (`page.dfy`): the rest of the page that is not user interface:
  - the character clean-up before a PDF export;
  - the page's own BMI;
  - the prompt, as far as the headings it asks for are concerned.
  - a reply laid out as the prompt asks, traced through all four stages of the extractor.
- **Utils** (`utils.py`, in `utils.dfy`):
  - BMI, BMR (Mifflin-St Jeor), TDEE and calorie targets;
  - profile validation;
  - workout durations and their round trip;
  - sets and reps and exercise-line extraction;
  - the weekly schedule.
- **AiServices** (`aiservices.dfy`):
  - how the five reply parsers of `ai_services.py` cut a fenced JSON block out of a model
    reply, and what each returns around it;
  - the chat assistant's conversation history, as a class whose methods update it.
- **PyStr** (`pystr.dfy`) and **Wrappers** (`wrappers.dfy`) are support modules:
  - PyStr defines the Python string operations the source relies on: `find` returning -1,
    slicing with negative indices, `strip`, `split`, `join`, `splitlines`, `lower`, and
    `\d+` runs;
  - Wrappers defines `Option`.

Each function or method that updates state step by step is written as a method:
`parse_sections`, `_sanitize_for_pdf`, `validate_user_inputs`,
`extract_exercises_from_text`, `parse_workout_duration`, `_parse_insights_response`, and
the chat class. Each of these methods is proved equal to a specification function, and
the properties are proved about that function.

Three things are parameters of the model rather than part of it:

- The stored full reply that `ensure_section_text` reads from the session state.
- The model call, a `string -> string` function. The service already turns a failed call
  into "".
- `json.loads`, a `string -> Option<Json>` function whose `None` is the exception it raises.

## Model

| member | source | states |
|---|---|---|
| Utils.RoundHalfEven | utils.py:81 | `round(x)` is within 0.5 of `x`, and an exact tie goes to the even neighbour |
| Utils.Round1 | utils.py:37 | `round(x, 1)` is a whole number of tenths within 0.05 of `x`; when `x` lies exactly half-way between two tenths, the even one is taken |
| Utils.Trunc | utils.py:97 | `int(x)` truncates toward zero: the floor for non-negative `x`, minus the floor of `-x` otherwise, and always within 1 of `x` |
| Utils.BmiCategory | utils.py:28-35 | each category holds exactly on its half-open band: below 18.5, [18.5, 25), [25, 30), 30 and above |
| Utils.CalculateBmi | utils.py:22-37 | a height of 0 or less gives (0.0, "Invalid height"); otherwise the category comes from the unrounded weight/(height/100)^2, and the value is a whole number of tenths within 0.05 of that BMI, the even tenth on an exact tie |
| Utils.CalculateBmiExamples | test_app.py:12-27 | 170 cm with 70, 50 and 80 kg gives (24.2, Normal), (17.3, Underweight) and (27.7, Overweight) |
| Utils.CategoryIgnoresRounding | utils.py:28-37 | a BMI of 24.97 is shown as 25.0 and still categorised "Normal" |
| Utils.RoundQuarters | utils.py:58 | rounding a whole number of quarters gives the nearest integer, with ties to even |
| Utils.CalculateBmr | utils.py:53-58 | the result is the Mifflin-St Jeor estimate (10w + 6.25h - 5a + 5 for "male" in any case, - 161 otherwise), to the nearest integer, and an estimate ending in .5 goes to the even integer |
| Utils.BmrMaleMinusOther | utils.py:53-58 | for the same weight, height and age, the male BMR exceeds any non-male BMR by exactly 166, after rounding too |
| Utils.BmrOtherIsFemale | utils.py:55-56 | "Other" takes the female formula |
| Utils.CalculateBmrExamples | test_app.py:29-39 | (70, 170, 25, Male) lies in (1600, 1800) and (60, 160, 25, Female) in (1200, 1400) |
| Utils.ActivityMultiplier | utils.py:72-80 | a level in the table gets its own multiplier; any other level gets 1.2; every multiplier lies between 1.2 and 1.9 |
| Utils.CalculateTdee | utils.py:72-81 | the TDEE is within 0.5 of BMR times the level's multiplier, and an exact tie goes to the even integer |
| Utils.UnknownLevelIsSedentary | utils.py:80 | a level outside the table is treated exactly like "Sedentary" |
| Utils.CalculateTdeeExample | test_app.py:41-45 | a BMR of 1500 at "Moderate" gives 2325 |
| Utils.CalculateCalorieGoals | utils.py:95-110 | the daily target is `int(tdee + delta)`, with delta -500 for "Weight Loss", +300 for "Muscle Gain" and 0 otherwise (exact, case-sensitive match); `deficit` is absent only for "Muscle Gain" and `surplus` only for "Weight Loss"; every other goal records a deficit of 0 and a surplus of 0 |
| Utils.CalorieTargetFollowsGoal | utils.py:95-110 | for a whole-number TDEE and each goal the form offers, the target is TDEE - 500, TDEE + 300 or TDEE itself |
| Utils.ValidateUserInputs | utils.py:260-280 | the errors are the full ordered list of every check (none short-circuits), and the profile is valid iff that list is empty |
| Utils.MissingFieldErrorsOfRequired | utils.py:263-266 | the presence messages come in the order name, age, height_cm, weight_kg, goal, one for each falsy field |
| Utils.ValidIffComplete | utils.py:260-280 | a profile is valid iff every required field is truthy and age, height and weight lie in their inclusive ranges |
| Utils.RequiredMessageInjective | utils.py:266 | different fields never share a presence message |
| Utils.MissingFieldErrorsIff | utils.py:264-266 | a field's presence message is issued iff the field is listed and is falsy |
| Utils.RequiredMessageIff | utils.py:263-266 | for each required field, "<field> is required" is among the errors iff the field is missing or falsy |
| Utils.RangeMessageIff | utils.py:269-278 | each range message is among the errors iff its inclusive range check fails (an absent value reads as 0) |
| Utils.MissingFieldOf | utils.py:264-266 | every presence message names a listed field |
| Utils.MissingAgeTwoMessages | utils.py:265-270 | a missing age gives both "age is required" and the age-range message |
| Utils.ValidationExamples | test_app.py:47-83 | the valid profile gives no error; age 5 gives exactly the age message; a missing goal gives "goal is required" |
| Utils.DurationMinutes | utils.py:123-128 | a text with no digit reads as 0 minutes |
| Utils.ParseWorkoutDuration | utils.py:123-144 | the accumulated total equals the minutes `DurationMinutes` reads from the lowered, stripped text |
| Utils.ParseMinutesShape | utils.py:140-142 | a number followed by a tail with no digit and no 'h' reads as that number of minutes |
| Utils.ParseHoursShape | utils.py:132-139 | when the text has an 'h', the first number counts hours and the next one, if any, minutes |
| Utils.ParseHoursMinutes | utils.py:132-139 | "<h>h <m>m" reads as 60h + m |
| Utils.RoundTripMinutes | utils.py:239-240 | "<m> minutes" (m < 60) parses back to m |
| Utils.RoundTripWholeHours | utils.py:241-245 | "<h> hour" and "<h> hours" parse back to 60h |
| Utils.RoundTripHoursMinutes | utils.py:241-247 | "<h>h <r>m" parses back to 60h + r |
| Utils.DurationRoundTrip | utils.py:239-247 | parsing a formatted duration gives back every m >= 0 |
| Utils.FormatDuration | utils.py:229-247 | under an hour the text is "<m> minutes", a whole number of hours "<h> hour" or "<h> hours", otherwise "<h>h <r>m"; by `RoundTripMinutes`, `RoundTripWholeHours`, `RoundTripHoursMinutes` and `DurationRoundTrip`, parsing each form gives back the minutes |
| Utils.RunEnd | utils.py:190 | the `\d+` run from a position stays inside the text, is all digits, and is greedy: the character after it, if any, is not a digit |
| Utils.SkipSpaces | utils.py:190 | the `\s*` run from a position stays inside the text, is all whitespace, and is greedy: the character after it, if any, is not whitespace |
| Utils.FirstCountAt | utils.py:194 | the search returns -1 or a match of `(\d+)\s*<kw>` at or after its start |
| Utils.FirstCountAtFirst | utils.py:194 | the search skips no earlier match |
| Utils.ExtractSetsRepsNone | utils.py:189-195 | the result is None iff the lowered text has no match anywhere |
| Utils.ExtractSetsRepsLeftmost | utils.py:189-195 | the leftmost match decides: its digits are the number returned |
| Utils.CountAtDigits | utils.py:190-192 | a digit run that starts a number and is followed by a space and the keyword is a match whose number is that run |
| Utils.ExtractSetsOfPhrase | utils.py:189-195 | in "<a> sets of <b> reps" the sets target gives a |
| Utils.ExtractRepsOfPhrase | utils.py:191-195 | in "<a> sets of <b> reps" the reps target gives b |
| Utils.NoRepInFirstPart | utils.py:192-194 | no "rep" match starts before b in that phrase |
| Utils.ExtractSetsReps | utils.py:178-195 | by `ExtractSetsRepsNone` the result is None iff the lowered text has no match of `(\d+)\s*set` (or `rep`); by `ExtractSetsRepsLeftmost` otherwise it is the number of the leftmost match; `ExtractSetsOfPhrase` and `ExtractRepsOfPhrase` read "<a> sets of <b> reps" as a and b |
| Utils.ExerciseName | utils.py:168 | the name is the stripped text before the first '-' when there is one, otherwise the whole line |
| Utils.ExerciseLines | utils.py:160-166 | every kept line is stripped and is an exercise line: not empty, not starting with '#' or '*', and naming one of the five keywords |
| Utils.ExerciseLinesComplete | utils.py:160-173 | no exercise line of the text is dropped |
| Utils.ExercisesOf | utils.py:167-173 | one entry per exercise line |
| Utils.ExercisesOfSnoc | utils.py:173 | appending a line appends its entry at the end, so the order is kept |
| Utils.ExerciseOf | utils.py:167-172 | the entry of one line: by `ExtractedExercises` it carries the line itself, the name of `ExerciseName`, and the sets and reps of `ExtractSetsReps` |
| Utils.ExtractExercisesFromText | utils.py:157-175 | the loop returns the entries of the exercise lines of the '\n'-split text, in order |
| Utils.ExtractedExercises | utils.py:160-173 | each entry describes a stripped exercise line, and carries that line's name, sets and reps |
| Utils.FrequencyDays | utils.py:212-220 | an unknown frequency counts as 3 days and "Daily" as 7; every count lies between 3 and 7 |
| Utils.GenerateWeeklySchedule | utils.py:209-226 | the schedule is the prefix of length min(n, len) of the given days, Monday to Sunday by default |
| Extractor.MarkerSpanOrder | app.py:104-111 | markers in the wrong order give an empty span; a non-empty span is the stripped text from its marker, included, up to the next marker |
| Extractor.MarkerTailNonEmpty | app.py:112-113 | the motivation span is non-empty iff "3. motivation" occurs in the lowered reply |
| Extractor.MarkerSections | app.py:104-113 | the first stage: the motivation span is non-empty iff the lowered reply holds "3. motivation"; by `MarkerSpanOrder` a non-empty workout or meal span is the stripped text from its marker up to the next one |
| Extractor.FindHeading | app.py:116-118 | the search returns a line index within its bounds |
| Extractor.FindHeadingFound | app.py:116-118 | an index below the limit is a heading line |
| Extractor.FindHeadingIs | app.py:117 | the search returns exactly the first heading line, or the limit |
| Extractor.FindHeadingFirst | app.py:117 | no line before the one returned is a heading line |
| Extractor.NoHeadingLineFound | app.py:117-118 | the search for the opening heading fails iff no line but the last is a heading line |
| Extractor.CaptureNone | app.py:116-118 | a section pattern has no match iff there is no heading line followed by a newline |
| Extractor.CaptureSpec | app.py:121 | the capture runs from the line after the first heading line up to the first closing heading line at least two lines further on, or to the end |
| Extractor.TailSpec | app.py:133 | the motivation capture is everything after the first heading line |
| Extractor.ThirdsBounds | app.py:142-144 | with n >= 3 parts the `max` guards never apply, and the slices [0, n//3), [n//3, 2n//3) and [2n//3, n) are each non-empty |
| Extractor.ThirdsSections | app.py:139-146 | a span that is already filled is never overwritten |
| Extractor.ThirdsRebuild | app.py:140-144 | when all three spans come from the thirds, joining them with "\n\n" gives back the text |
| Extractor.JoinThirds | app.py:142-144 | the three slices, joined, partition the parts |
| Extractor.KeptLines | app.py:150 | the collapse keeps at most one line per line of the text |
| Extractor.KeptLinesLast | app.py:150-152 | the last kept line is the last non-blank line, with the bullet characters trimmed |
| Extractor.KeptLinesEmpty | app.py:150-151 | no line is kept iff every line is blank |
| Extractor.KeptLinesNoLineBreak | app.py:150 | a kept line holds no line break |
| Extractor.SplitLinesAllBlank | app.py:150-151 | a text whose lines are all blank is blank |
| Extractor.CollapseLastLine | app.py:149-152 | the motivation becomes its last non-blank line trimmed of bullets, with no line break; a last line made only of bullets collapses to "" |
| Extractor.CollapseShape | app.py:149-152 | the collapsed motivation is one line, or the unchanged blank motivation |
| Extractor.CollapseMotivation | app.py:148-152 | the last kept line of the motivation, or the motivation itself when no line is kept; by `CollapseLastLine` that is the last non-blank line trimmed of bullets, and by `CollapseShape` the result is one line or the unchanged blank text |
| Extractor.ParseSections | app.py:96-154 | the method's three results are the four-stage cascade of the specification functions |
| Extractor.HeadingFallback | app.py:120-136 | the second stage equals its specification: a short or empty span is refined with its label; the motivation is refined only when empty |
| Extractor.ThirdsFallback | app.py:139-146 | the third stage equals its specification |
| Extractor.ParsedEmpty | app.py:96-154 | an empty reply gives ("", "", "") |
| Extractor.Unstructured | app.py:139-146 | a reply with no marker, no heading line and fewer than three parts gives (reply, "", ""), the reply unstripped |
| Extractor.LongSpansKept | app.py:108-143 | a marker span of 120 characters or more is final: no later stage changes it |
| Extractor.HeadingStage | app.py:120-130 | a short span is replaced, with its label, only by a non-empty capture; otherwise the short span survives |
| Extractor.MotivationPatternOnlyWithoutMarker | app.py:132-136 | with the literal motivation marker present, the motivation pattern is never used |
| Extractor.ParsedMotivationShape | app.py:149-152 | the final motivation is one line, or blank |
| Extractor.ParsedSections | app.py:96-154 | `parse_sections` as the composition of its four stages; `ParseSections` computes it, and `ParsedEmpty`, `Unstructured`, `LongSpansKept`, `HeadingStage` and `Page.StructuredReplyParsed` state what it gives |
| Extractor.EnsureKeepsLongText | app.py:159-161 | the stripped text is returned when it has 200 characters or more, when no reply is stored, or for any other section; so the function is idempotent on long text |
| Extractor.EnsureMatchesParse | app.py:163-168 | a short section is re-extracted as exactly what `parse_sections` put under its label, without the label |
| Extractor.EnsureFallsBackToFull | app.py:163-168 | without a heading line, a short workout or meal becomes the stored reply, verbatim |
| Extractor.EnsureSectionText | app.py:157-169 | a displayed text of fewer than 200 characters for the workout or meal section is re-extracted from the stored reply; `EnsureKeepsLongText`, `EnsureMatchesParse` and `EnsureFallsBackToFull` state its three cases |
| Page.ReplaceChar | app.py:185 | replacing one character keeps the length |
| Page.Latin1 | app.py:187-188 | the latin-1 round trip never lengthens the text |
| Page.SanitizeForPdf | app.py:172-188 | the replacement loop followed by the latin-1 filter computes `Sanitized` |
| Page.Latin1Only | app.py:187-188 | the latin-1 filter leaves only code points up to U+00FF |
| Page.Latin1Keeps | app.py:187-188 | latin-1 text passes the filter unchanged |
| Page.TranslateKeepsLatin1 | app.py:174-185 | a table whose keys are all above U+00FF leaves latin-1 characters alone |
| Page.SanitizedIsLatin1 | app.py:186-188 | the clean-up output holds only code points up to U+00FF |
| Page.SanitizeKeepsLatin1 | app.py:172-188 | latin-1 text, and so ASCII text, comes out unchanged |
| Page.SanitizeIdempotent | app.py:172-188 | cleaning twice is cleaning once |
| Page.TranslateKey | app.py:184-185 | in a table with distinct keys and no value that is also a key, each key maps to its own value |
| Page.TranslateNoKey | app.py:184-185 | a character that is no key is unchanged |
| Page.SanitizeReplaces | app.py:174-185 | each glyph of the table comes out as its replacement |
| Page.Sanitized | app.py:172-188 | the clean-up: `SanitizedIsLatin1` shows the output is latin-1, `SanitizeKeepsLatin1` that latin-1 text is unchanged, `SanitizeReplaces` that each glyph becomes its replacement, `SanitizeIdempotent` that a second pass changes nothing |
| Page.ComputeBmi | app.py:231-244 | the page's BMI agrees with `calculate_bmi` on every input |
| Page.BuildPromptIsBody | app.py:63-86 | stripping removes exactly the template's outer newlines |
| Page.BuildPrompt | app.py:63-86 | the stripped template: by `BuildPromptIsBody` it is the template without its outer newlines, and by `PromptAsksForHeadings` it asks for the three heading lines in order |
| Page.WorkoutHeadingMatches | app.py:81 | the workout heading asked for is a heading line of the workout pattern, and lowered it contains "1. workout" |
| Page.MealHeadingMatches | app.py:82 | the meal heading asked for is a heading line of the meal pattern, and lowered it contains "2. meal" |
| Page.MotivationHeadingMatches | app.py:83 | the motivation heading asked for is a heading line of the motivation pattern, and lowered it contains "3. motivation" |
| Page.PromptAsksForHeadings | app.py:80-83 | the prompt holds the three heading lines, in order, each on a line of its own |
| Page.StructuredReplyParsed | app.py:96-154 | a short reply laid out as the prompt asks ("1. Workout Plan", one line, "2. Meal Plan", one line, "3. Motivation Quote", one line), whose workout line is not itself a meal heading, comes out of `parse_sections` as ("Workout Plan\n" + workout, "Meal Plan\n" + meal, the quote trimmed of bullets) |
| Page.LayoutParsed | app.py:96-154 | the same for any three title lines that both the marker search and the heading patterns find, as long as the text before the third title is under 120 characters and the workout line is not itself a meal heading |
| Page.LayoutSpans | app.py:104-111 | on that layout both marker spans end at a title, so neither is longer than the text before the motivation title |
| Page.LayoutCaptures | app.py:115-130 | on that layout the workout pattern captures the workout line and the meal pattern the meal line |
| Page.LayoutTail | app.py:112-152 | on that layout the motivation tail is non-empty and collapses to the quote trimmed of bullets |
| AiServices.Get | ai_services.py:156-161 | `get` returns the stored value when the key is present, else the default |
| AiServices.FencedJson | ai_services.py:134-137 | the slice is absent iff the reply has no "```json"; `FencedJsonCases` gives the slice in each case of the closing fence, and `FencedJsonRoundTrip` shows the block comes back exactly |
| AiServices.LoadFenced | ai_services.py:132-142 | the decoded fenced block, or the parser's fallback when there is no fence or the block does not decode; `DictParsersFallback` and `DictParsersRoundTrip` state both cases |
| AiServices.ParseWorkoutResponse | ai_services.py:130-142 | by `DictParsersFallback`, {"raw_response": reply} without a decodable block; by `DictParsersRoundTrip`, the decoded block otherwise |
| AiServices.ParseTimingResponse | ai_services.py:177-188 | by `DictParsersFallback`, {"recommendation": reply} without a decodable block; by `DictParsersRoundTrip`, the decoded block otherwise |
| AiServices.ParseNutritionResponse | ai_services.py:251-262 | by `DictParsersFallback`, {"raw_response": reply} without a decodable block; by `DictParsersRoundTrip`, the decoded block otherwise |
| AiServices.ParseRecommendationsResponse | ai_services.py:312-325 | by `RecommendationsCases`, the one wrapped recommendation unless the block decodes to an object, whose "recommendations" entry (or []) is returned |
| AiServices.FencedJsonCases | ai_services.py:134-137 | the block starts right after the first "```json"; it ends at the next "```", or, with none, before the reply's last character |
| AiServices.FencedJsonHasNoFence | ai_services.py:135-137 | a block cut before a closing fence holds no fence |
| AiServices.FencedJsonRoundTrip | ai_services.py:134-138 | a reply built as prefix, "```json", body, "```", suffix gives back exactly the body, when the body holds no fence |
| AiServices.UnclosedFenceDropsLastChar | ai_services.py:136-137 | an unclosed block running to the end of the reply loses its last character |
| AiServices.DictParsersFallback | ai_services.py:130-142 | with no fence, or a block that does not decode, the workout and nutrition parsers return {"raw_response": reply} and the timing parser {"recommendation": reply} |
| AiServices.DictParsersRoundTrip | ai_services.py:134-138 | a fenced block that decodes is returned as decoded by the workout, nutrition and timing parsers |
| AiServices.RecommendationsCases | ai_services.py:312-325 | no fence, a block that does not decode, or a non-object gives the one wrapped recommendation; an object gives its "recommendations" entry, or [] without one |
| AiServices.InsightOf | ai_services.py:155-162 | a missing title reads "Insight" and a missing priority "medium" |
| AiServices.InsightsOfData | ai_services.py:152-173 | what a decoded value gives: by `InsightsOfObjects` one insight per object of the "insights" list, by `InsightsStopAtNonObject` the fallback after the first item that is not an object; the fallback alone for a value that cannot be iterated |
| AiServices.Insights | ai_services.py:144-175 | `_parse_insights_response`: `ParseInsightsResponse` computes it, and `InsightsEdgeCases` shows no fence gives [] and an undecodable block only the fallback |
| AiServices.ParseInsightsResponse | ai_services.py:144-175 | the appending loop computes `Insights`: one insight per decoded object, with the fallback where parsing raises |
| AiServices.InsightsOfObjects | ai_services.py:154-163 | a list of objects gives one insight per object, in order, and no fallback |
| AiServices.InsightsStopAtNonObject | ai_services.py:154-173 | an item that is not an object ends the list: the insights before it, then the fallback |
| AiServices.InsightsEdgeCases | ai_services.py:146-175 | no fence gives []; a block that does not decode gives only the fallback |
| AiServices.Rendered | ai_services.py:383-384 | an entry is shown as "User: " for the role "user" and "AI Coach: " for any other role |
| AiServices.LastEntries | ai_services.py:382 | the window is the last min(6, n) entries, in order |
| AiServices.HistoryLines | ai_services.py:381-384 | one shown line per entry of the window |
| AiServices.HistoryBlock | ai_services.py:376-386 | by `NoHistoryIff` the placeholder appears iff the history is empty, and by `HistoryWindowOnly` only the last six entries are shown |
| AiServices.ChatPromptCarries | ai_services.py:352-367 | the chat prompt holds the formatted history and the user's message verbatim |
| AiServices.ChatPrompt | ai_services.py:342-367 | the chat prompt; by `ChatPromptCarries` it holds the formatted history and the user's message verbatim |
| AiServices.ChatSession.constructor | ai_services.py:331-333 | a new session has an empty history |
| AiServices.ChatSession.ChatWithAi | ai_services.py:335-374 | the history grows by exactly the user entry and then the assistant entry; the model sees a history that already holds the new message |
| AiServices.ChatSession.FormatConversationHistory | ai_services.py:376-386 | the formatted text is the placeholder for an empty history, otherwise the window's lines joined by "\n" |
| AiServices.ChatSession.ResetConversation | ai_services.py:388-390 | the history is empty afterwards, so the next format gives the placeholder |
| AiServices.NoHistoryIff | ai_services.py:378-386 | the placeholder appears iff the history is empty |
| AiServices.HistoryWindowOnly | ai_services.py:382 | entries older than the last six never reach the prompt |
| AiServices.LatestMessageLast | ai_services.py:339-359 | the current turn's message is the last line of the history the model sees |

## Left out

- User interface, session plumbing, CSV saving, PDF layout and the data URI are not modelled: `configure_page`, `sidebar_form`, `init_session_state`, `main`, `save_to_csv_if_requested`, `generate_pdf_bytes` and `build_data_uri_pdf` in app.py; ui_components.py; ai_dashboard.py. They only render or do I/O.
- The model calls are not modelled: `call_gemini`, `configure_gemini`, `AIService.__init__`/`generate_content` and the `generate_*` prompt builders. The chat assistant takes the model as a `string -> string` parameter, so the only prompt it fixes is the chat prompt.
- `json.loads` is an opaque parameter. Decoded objects are maps, so key order and duplicate keys are not modelled. The insight fields are `Json` values, unchecked, as in the dataclass.
- `create_progress_summary` (pandas means) is not modelled.
- Floats are exact reals. `round` rounds the exact value with ties to even. Binary representation error is not modelled: a value whose decimal tie is not exact in binary may round the other way.
- `lower()` is ASCII-only, and a digit is '0'..'9'. The model relies on `lower()` keeping the length, since indices found in the lowered text slice the original.
- The heading regexes are modelled line by line. A heading line is one whose first non-whitespace character is the ordinal and whose rest mentions the keyword; it must be followed by a newline. Two things are not modelled:
  - a `\s*` that crosses a newline between the ordinal and the keyword;
  - the trailing whitespace of a capture, which `strip` removes anyway.
- `splitlines` in the motivation collapse splits at every line-break character. A "\r\n" pair, or a trailing break, gives extra empty pieces that the blank-line filter drops at once, so the kept lines are the same.
- The glyphs of the PDF replacement table and of the motivation's bullet set appear garbled in the source. They are read as U+2022, U+2013, U+2014, U+25CF, U+2714, U+2726, U+2705 and U+2717. The lemmas about the collapse and the clean-up hold for any bullet set and any table whose keys lie above U+00FF.
- `build_prompt` raises `KeyError` for a missing profile field. The profile here is a record, so every field is present, and values are already text.
- The chat context is a map from text to text; non-text context values are not modelled.
- `validate_user_inputs` is modelled on profiles whose numbers are integers. Comparing a text value with a number would raise; that case is not modelled.
