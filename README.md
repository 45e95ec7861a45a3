# JudgeMeNot core, modelled in Dafny

JudgeMeNot is a tabulation system for pageants and quiz bees. An
administrator creates events, segments (pageant) or rounds (quiz),
criteria and contestants. Judges score pageant contestants per criterion.
A tabulator records quiz answers as correct or wrong. A public leaderboard
shows the live standings.

This project models the logic of the services and screens that hold the
system's decisions:

- `quiz_service.dfy`: the quiz ledger.
  - A round is added with its points per question.
  - An answer is upserted under its (contestant, round, question) key.
  - Live totals are summed per contestant and sorted highest first, stably.
- `contestant_service.dfy`: the contestant registry.
  - Candidate numbers are unique per event and gender.
  - The listing is filtered and ordered by candidate number.
  - Deletion is by primary key.
- `admin_service.dfy`: user and event creation. Usernames are unique and only the password hash is stored.
- `pageant_config_view.dfy`: the pageant configuration screen.
  - Weight normalisation and the preliminary total with its tolerance band.
  - The final-round lock and the dialog choice of an activation toggle.
  - The CONFIRM checks and the segment and criteria save handlers.
  - The qualifier and eliminated preview.
- `admin_config_view.dfy`: the administrator's configuration screen.
  - Which screen an event gets.
  - The total weight over all segments with exact comparisons.
  - The save handlers of the segment, criteria and round forms.
- `viewer_dashboard.dfy`: the leaderboard.
  - The overall or last-round mode and the round's allow-list filter.
  - Podium and list ranks, and the gallery's back button.
- `judge_view.dfy`: the judge's scoring form, its validation loop and the count of saved scores.
- `main_app.dfy`: routing by route and session, redirects, login and logout.
- Shared pieces:
  - `models.dfy` holds the entities and an in-memory store with one table and one auto-increment counter per entity.
  - `weights.dfy` holds the percent-or-fraction weight convention.
  - `sorting.dfy` holds a stable sort by key.
  - `text.dfy` holds the string built-ins the code relies on: strip, upper, substring test, split, join, `int()` on text and on floats.
  - `wrappers.dfy` holds the Option type and the (success, message) reply.

The services change the database, so each one is a method that updates the
tables of a `Models.Store` object. It is proved against a function that
says what the tables become. The screens keep `nonlocal` state:
`PageantConfigView.ConfigScreen`, `JudgeView.ScoringForm`,
`ViewerDashboard.LeaderboardScreen` and `MainApp.Page` are classes whose
methods update those fields. The loops of the source are methods with
loop invariants:

- the weight totals;
- `build_list`;
- the judge's validation and saving loops;
- the live-score tally;
- the leaderboard's list rows.

In these places the code does something a reader might not expect; the
model follows the code:

- The weight normaliser does not reject negative entries.
- The live standings include contestants of every status.
- The pageant screen ignores final segments in its total, while the administrator screen counts them.
  `AdminConfigView.ChecksDisagreeOnWeightedFinal` shows an event that one screen calls complete and the other 60%.
- A wrong answer (`is_correct` false) is recorded with 0 points even when the round id names no segment.
  Only a correct answer dereferences the round, so only that case fails.

## Model

| member | source | states |
|---|---|---|
| Weights.Normalize | views/config/pageant_config_view.py:312 | an entry above 1 is a percentage: the weight times 100 gives the entry back; an entry up to 1 is kept as it is |
| Weights.NormalizeInUnitRange | views/config/pageant_config_view.py:312 | entries from 0 to 100 become weights from 0 to 1 |
| Weights.PercentAndFractionAgree | views/admin_config_view.py:107-111 | "50" and "0.5" give the same weight: a percentage above 1 and its fraction normalise alike |
| Weights.NormalizeIdempotent | views/config/pageant_config_view.py:334 | normalising a normalised entry (up to 100) changes nothing |
| Models.FindSegment | services/quiz_service.py:44 | the primary-key lookup finds a segment iff one has that id, and returns a stored segment with that id |
| QuizService.AddRound | services/quiz_service.py:7-24 | exactly one segment is appended, with the given points, question count and order and weight 0; the store invariants hold |
| QuizService.PointsFor | services/quiz_service.py:44-45 | a correct answer is worth the round's points per question, a wrong one 0; the lookup fails only for a correct answer to a missing round |
| QuizService.KeyIndex | services/quiz_service.py:37-41 | the first row with the (contestant, round, question) key, or none when no row has it |
| QuizService.SubmitAnswer | services/quiz_service.py:30-65 | a failed lookup returns (False, the error text) and leaves the scores as they were; otherwise (True, "Answer recorded.") and the scores become the keyed upsert; the id counter advances by one exactly when a new row is appended; keys, ids and counters stay valid |
| QuizService.UpsertKeepsStoreInvariants | services/quiz_service.py:47-60 | after an upsert the keys are still unique and ids unique and below the counter, which advances only on append |
| QuizService.UpsertRecordsAnswer | services/quiz_service.py:47-60 | after an upsert exactly one row holds the key, and it holds the latest correctness, value and scorer |
| QuizService.UpsertKeepsOthers | services/quiz_service.py:37-62 | rows with other keys are unchanged in place; the table grows by one exactly when the key was absent |
| QuizService.ResubmitOverwrites | services/quiz_service.py:47-60 | submitting the same key twice equals submitting only the second answer (last write wins, no duplicate row) |
| QuizService.EventPointsAppend | services/quiz_service.py:82-85 | an appended row adds its contribution to a contestant's event sum |
| QuizService.EventPointsUpdate | services/quiz_service.py:82-85 | an updated row replaces its old contribution by its new one |
| QuizService.UpsertMovesTotal | services/quiz_service.py:45-60 | recording an answer moves only the answering contestant's total in the round's event, by the new value minus the old one |
| QuizService.Tally | services/quiz_service.py:79-91 | one entry per contestant, in query order |
| QuizService.GetLiveScores | services/quiz_service.py:69-94 | one entry per contestant of the event (any status) holding the int of its event points; non-increasing totals; equal totals keep query order |
| Sorting.SortBy | services/quiz_service.py:93 | the result is a permutation of the input, sorted by the key |
| Sorting.SortByStable | services/quiz_service.py:93 | elements with equal keys keep their relative order |
| ContestantService.AddContestant | services/contestant_service.py:6-28 | a taken (event, number, gender) gives (False, "Candidate #n (g) already exists.") and no change; otherwise one contestant is appended and uniqueness is preserved |
| ContestantService.AddBlocksOnlyItsTriple | services/contestant_service.py:10-14 | after adding, a triple is taken iff it was taken before or is the new contestant's, so the same number stays free for another gender or event |
| ContestantService.Matching | services/contestant_service.py:37-39 | exactly the event's rows, and only 'Active' ones when asked |
| ContestantService.GetContestants | services/contestant_service.py:34-40 | exactly the event's contestants ('Active' only iff active_only), ascending by candidate number, a permutation of the filtered rows |
| ContestantService.Without | services/contestant_service.py:47-49 | the rows are those of the table except the one with the id |
| ContestantService.WithoutRemovesOne | services/contestant_service.py:47-51 | with unique ids, deleting an existing id removes exactly one row, a missing id none |
| ContestantService.WithoutKeepsInvariants | services/contestant_service.py:47-50 | deletion keeps ids unique and below the counter and candidate numbers unique |
| ContestantService.DeleteContestant | services/contestant_service.py:44-52 | an existing id is removed with (True, "Deleted."); a missing id gives (False, "Not found.") and no change |
| AdminService.GetAllUsers | services/admin_service.py:7-12 | every stored user and nothing else |
| AdminService.GetAllEvents | services/admin_service.py:40-45 | every stored event and nothing else |
| AdminService.CreateUser | services/admin_service.py:14-34 | a taken username gives (False, "Username already exists.") and no change; otherwise one active user with the hash of the password is appended; usernames stay unique |
| AdminService.UsernameLookupAfterAdd | services/admin_service.py:18-19 | after adding a user a username is taken iff it was before or is the new user's |
| AdminService.CreateEvent | services/admin_service.py:47-57 | one event with the given name and type and status 'Active' is appended |
| PageantConfigView.SumPrelimWeights | views/config/pageant_config_view.py:52-56 | the loop's total is the sum of the weights of the non-final segments |
| PageantConfigView.PrelimWeightIgnoresFinals | views/config/pageant_config_view.py:54-56 | adding or changing a final segment never moves the preliminary total |
| PageantConfigView.PrelimStatus | views/config/pageant_config_view.py:143-148 | over iff above 1.0001, under iff below 0.999, complete in between; the shown percentage is the truncated total times 100 |
| PageantConfigView.FirstActive | views/config/pageant_config_view.py:205 | the first active segment, or none when no segment is active |
| PageantConfigView.FinalLock | views/config/pageant_config_view.py:204-212 | while the first active segment is a final round, pressing any other segment is refused with the lock message, and pressing that segment or "Deactivate All" is never refused |
| PageantConfigView.DialogChoice | views/config/pageant_config_view.py:214-224 | past the lock: no-op iff nothing pressed and nothing active; strict dialog iff something is active; simple dialog iff a segment is pressed and none is active |
| PageantConfigView.NoFinalNoLock | views/config/pageant_config_view.py:208-212 | without an active final segment no toggle is refused |
| PageantConfigView.FinalConfirmIsStricter | views/config/pageant_config_view.py:238-240 | text that final activation accepts, the strict dialog accepts too |
| PageantConfigView.StrictAcceptsPadded | views/config/pageant_config_view.py:170-172 | the strict dialog accepts " confirm ", which final activation refuses |
| PageantConfigView.ConfigScreen.RequestToggleStatus | views/config/pageant_config_view.py:197-224 | the pressed segment is remembered and the decision is the toggle decision |
| PageantConfigView.ConfigScreen.ConfirmSimple | views/config/pageant_config_view.py:154-156 | the simple dialog toggles the remembered segment of this event |
| PageantConfigView.ConfigScreen.ValidateStrict | views/config/pageant_config_view.py:170-175 | typing in the CONFIRM field stores the text and enables Proceed iff the stripped, upper-cased text is CONFIRM |
| PageantConfigView.ConfigScreen.ConfirmStrict | views/config/pageant_config_view.py:177-180 | as written: Proceed goes through iff the button is enabled, toggles the remembered segment and clears the field, but leaves the button enabled |
| PageantConfigView.ConfigScreen.ConfirmStrictReset | views/config/pageant_config_view.py:170-180 | corrected: while button and field agree, Proceed goes through iff the field's text passes the CONFIRM check; clearing the field disables the button again, so they keep agreeing |
| PageantConfigView.EmptyTextIsNotConfirm | views/config/pageant_config_view.py:171-172 | an empty field never passes the CONFIRM check |
| PageantConfigView.ProceedsOnEmptyText | views/config/pageant_config_view.py:177-180 | after typing any text that passes the CONFIRM check and proceeding once, a second press proceeds while the field is empty, text that fails the check |
| PageantConfigView.ResetRequiresRetyping | views/config/pageant_config_view.py:170-180 | with the reset, the same two presses proceed once and then are refused |
| PageantConfigView.ConfigScreen.OpenAddSegment | views/config/pageant_config_view.py:361-369 | the segment form is in add mode |
| PageantConfigView.ConfigScreen.OpenEditSegment | views/config/pageant_config_view.py:371-381 | the segment form edits the chosen segment |
| PageantConfigView.ConfigScreen.OpenAddCriteria | views/config/pageant_config_view.py:383-390 | the criteria form adds to the chosen segment |
| PageantConfigView.ConfigScreen.OpenEditCriteria | views/config/pageant_config_view.py:392-399 | the criteria form edits the chosen criterion |
| PageantConfigView.ConfigScreen.SaveSegment | views/config/pageant_config_view.py:308-329 | bad input gives "Invalid Input" and no call; a final segment is saved with weight 0 and the entered qualifier count, others with the normalised weight and count 0; an update while editing, else an add at order 1 |
| PageantConfigView.ConfigScreen.SaveCriteria | views/config/pageant_config_view.py:331-347 | bad input gives "Invalid Weight"; otherwise the normalised weight is sent as an update while editing, else as an add to the selected segment |
| PageantConfigView.EditUnchangedRoundTrip | views/config/pageant_config_view.py:376 | in exact arithmetic, saving an edit form unchanged keeps a stored 2%..100%, but turns a stored 1% into 100% |
| PageantConfigView.BuildList | views/config/pageant_config_view.py:253-263 | an empty ranking adds nothing; otherwise both lists get the heading, then the qualifier and eliminated lines of the ranking |
| PageantConfigView.FinalPreview | views/config/pageant_config_view.py:265-269 | male then female sections in both lists; a "No scores recorded yet." note exactly when both ranking lists are empty |
| PageantConfigView.LinesRanks | views/config/pageant_config_view.py:257-263 | qualifier lines carry ranks 1..limit, eliminated lines ranks above the limit, never beyond the list |
| PageantConfigView.LinesCount | views/config/pageant_config_view.py:257-263 | min(limit, n) qualifiers (none for a limit of 0 or less), the rest eliminated |
| PageantConfigView.LinesPartition | views/config/pageant_config_view.py:257-263 | entry i is shown as rank i+1 among the qualifiers iff i < limit, among the eliminated otherwise |
| AdminConfigView.ScreenFor | views/admin_config_view.py:24-247 | a missing event yields only the "Event not found!" screen; a "Pageant" event gets the pageant configuration, any other type the quiz one (each an iff) |
| AdminConfigView.SumTotalWeight | views/admin_config_view.py:51-54 | the loop's total is the sum of the weights of all segments |
| AdminConfigView.TotalIsPrelimPlusFinals | views/admin_config_view.py:53-54 | this total is the preliminary total plus the weights of final segments |
| AdminConfigView.ConfigStatus | views/admin_config_view.py:94-99 | over iff above 1, under iff below 1, complete iff exactly 1; percentage truncated |
| AdminConfigView.ExactCompleteIsWithinBand | views/admin_config_view.py:94-99 | complete here implies complete on the pageant screen, but not the converse |
| AdminConfigView.ChecksDisagreeOnWeightedFinal | views/admin_config_view.py:53-54 | 30% + 30% + a 40% final: complete here, "60%, add more" on the pageant screen |
| AdminConfigView.SaveSegment | views/admin_config_view.py:104-123 | bad input gives "Invalid Weight" and no call; otherwise an add at order 1 with the normalised weight |
| AdminConfigView.SaveCriteria | views/admin_config_view.py:125-144 | bad input gives "Invalid Weight"; otherwise an add to the selected segment with the normalised weight |
| AdminConfigView.SaveRound | views/admin_config_view.py:203-216 | "Invalid Input" iff either number fails to parse; otherwise a round add at order 1 with both numbers |
| ViewerDashboard.GoBackRoute | views/viewer_dashboard.py:19-33 | Admin/AdminViewer go to /admin, Judge to /judge, Tabulator to /tabulator, anyone else to /login (each an iff) |
| ViewerDashboard.LastSegment | views/viewer_dashboard.py:132 | none iff the event has no segment; otherwise an event segment whose order index is the highest |
| ViewerDashboard.ModeLabelTellsMode | views/viewer_dashboard.py:137-148 | the label starts with "ROUND: " iff the last segment is final or named Final/Clincher |
| ViewerDashboard.ParsePieces | views/viewer_dashboard.py:144 | at most one id per piece |
| ViewerDashboard.NonBlank | views/viewer_dashboard.py:144 | the pieces kept by the `if x.strip()` filter: non-blank pieces of the input, no more of them than there are pieces |
| ViewerDashboard.ParsePiecesValues | views/viewer_dashboard.py:144 | a successful parse holds, in order, the integer of every non-blank piece and nothing else |
| ViewerDashboard.ParsePiecesFails | views/viewer_dashboard.py:144 | parsing fails iff some non-blank piece is not an integer |
| ViewerDashboard.AllowListRoundTrip | views/viewer_dashboard.py:144 | ids written with commas read back as the same list |
| ViewerDashboard.BlankAllowListIsEmpty | views/viewer_dashboard.py:143-145 | a list of blanks and commas is truthy yet admits nobody |
| ViewerDashboard.Allowed | views/viewer_dashboard.py:145 | exactly the scores whose contestant is listed |
| ViewerDashboard.AllowedAppend | views/viewer_dashboard.py:145 | filtering distributes over concatenation, so relative order is kept |
| ViewerDashboard.AllowedEveryone | views/viewer_dashboard.py:145 | a list admitting every contestant changes nothing |
| ViewerDashboard.FinalScores | views/viewer_dashboard.py:117-152 | cumulative mode shows the overall scores unfiltered; round mode shows the round's scores, filtered iff the allow-list text is non-empty, and fails iff that list does not parse; a filtered board holds exactly the round's scores whose contestant is allowed, in order, under the round's upper-cased name |
| ViewerDashboard.PodiumCards | views/viewer_dashboard.py:195-205 | the podium holds the first min(3, n) results at their ranks |
| ViewerDashboard.RowCards | views/viewer_dashboard.py:207-209 | row i holds result i+3 at rank i+4 |
| ViewerDashboard.EveryResultRankedOnce | views/viewer_dashboard.py:166-209 | every result is shown once, with rank = position + 1 |
| ViewerDashboard.RanksDistinct | views/viewer_dashboard.py:196-209 | shown ranks are pairwise distinct, even for equal scores |
| ViewerDashboard.LeaderboardScreen.Refresh | views/viewer_dashboard.py:154-228 | title set; on failure nothing else changes; the status names the mode; empty results show only the no-scores notice; otherwise the podium and the ranked rows |
| ViewerDashboard.LeaderboardScreen.GoBack | views/viewer_dashboard.py:241-244 | polling stops and the route is the gallery |
| JudgeView.Classify | views/judge_view.py:191-208 | blank iff the stripped text is empty; not a number iff it does not parse; accepted iff 0 <= value <= max, with that value |
| JudgeView.EachInputOnce | views/judge_view.py:188-208 | every input lands in exactly one of errors and valid scores |
| JudgeView.AcceptedInputsAreSent | views/judge_view.py:203-205 | every accepted input's (criterion, value) is among the valid scores |
| JudgeView.SentPairsWereAccepted | views/judge_view.py:188-208 | every valid score comes from an accepted input with that criterion and value |
| JudgeView.NoErrorsMeansAllAccepted | views/judge_view.py:212-218 | with no error, there is one valid score per criterion |
| JudgeView.SuccessesAtMostCalls | views/judge_view.py:217-220 | the saved count is at most the number of calls, and equal iff every call succeeded |
| JudgeView.PrefillResubmits | views/judge_view.py:153-158 | a never-scored criterion is reported missing; an earlier in-range score whose text reads back is resent unchanged |
| JudgeView.ScoringForm.CheckFields | views/judge_view.py:184-208 | every field gets its message and the errors and valid scores are those of the inputs |
| JudgeView.ScoringForm.SubmitClick | views/judge_view.py:183-222 | any error: no call and the fix-errors notice; otherwise one call per criterion in order, the saved count is the successes, at most the number of criteria |
| JudgeView.SendScores | views/judge_view.py:216-222 | one call per valid pair, in order; the count is the successes |
| MainApp.Decide | main.py:13-60 | login routes always show login; /admin needs a user id and Admin/AdminViewer; event routes need Admin and an integer last component; anything else goes to /login |
| MainApp.Resolve | main.py:13-62 | after redirects: the dashboard only for Admin/AdminViewer, an event only for Admin, the login view iff the route is a login route |
| MainApp.UnauthorisedEndsAtLogin | main.py:31-37 | without a user id every route ends on the login page |
| MainApp.EventLinkOpensEvent | main.py:41-51 | "/admin/event/" + n opens event n for an Admin |
| MainApp.MissingIdBacksOff | main.py:52-54 | an event route without an id brings an Admin back to the dashboard, with the page's snack bar set to "Invalid Event ID" (not opened) |
| MainApp.Page.Go | main.py:13-62 | the route and the single view are those of the resolved navigation; the snack bar is set to "Invalid Event ID" iff the navigation set it, and is never opened |
| MainApp.Page.GoOpeningNotice | main.py:52-54 | corrected: as `Go`, and the snack bar is also opened iff the navigation set it |
| MainApp.InvalidIdNoticeNotShown | main.py:52-54 | as written: any navigation that sets "Invalid Event ID" leaves no snack bar open |
| MainApp.CorrectedNoticeShown | main.py:52-54 | with the bar opened, the same navigation shows the notice |
| MainApp.Page.OnLoginSuccess | main.py:69-77 | the session holds id, role and name; an Admin with a non-zero (truthy) id lands on the dashboard, any other role on the login page |
| MainApp.Page.OnLogout | main.py:79-81 | the session is empty and the login page shows |

## Left out

- Persistence, sessions of the database, commits and rollbacks: the store is an in-memory object. Exceptions a commit could raise (the `(False, str(e))` paths) are not modelled.
- The database schema (models/all_models.py) is not part of this model.
  - A contestant's initial status "Active" and the absence of foreign-key checks are assumptions of the model.
  - In particular, a wrong answer to an unknown round is stored.
- QuizService.AddRound: the defaults of a new round (not active, not final, qualifier limit 0, no participant list) are assumed column defaults.
- Models.Store: the scores table holds only quiz rows (a score without a criterion); pageant judge scores are written by the scoring service, which is not part of this model.
- AdminService.CreateUser: usernames are compared exactly. Under a case-insensitive database collation "Admin" and "admin" would clash; the model lets both in.
- ContestantService.AddContestant: gender is compared exactly. Under a case-insensitive collation "female" would clash with a stored "Female"; the model lets both in.
- Ties of an ORDER BY (`order_by(candidate_number)`, `order_by(order_index.desc())`) are broken by table order. A database may break them differently.
- Float parsing (`float()`) and IEEE rounding: weights and scores are reals. Parsed form fields arrive as `Option<real>`/`Option<int>`, and the judge form takes the parser as a parameter.
  NaN and infinities are not modelled, so a "nan" score is not accepted as the source would accept it.
- PageantConfigView.EditUnchangedRoundTrip: holds in exact arithmetic only. With binary floating point, `int(w * 100)` of a stored 0.29, 0.57 or 0.58 gives one less, so those weights drop by one percent on an unchanged save.
- Text.Strip, Text.Upper: only ASCII whitespace and ASCII letters. Python also strips Unicode spaces such as U+00A0 and upper-cases letters such as "ß" to "SS" and "ﬁ" to "FI".
- PageantConfigView.StrictConfirmValid: with the ASCII-only strip, "CONFIRM" followed by U+00A0 is refused in the model but accepted by the screen.
- JudgeView.Classify: with the ASCII-only strip, a judge field holding only U+00A0 counts as filled in the model, while the screen treats it as blank.
- ViewerDashboard.ParsePieces: with the ASCII-only strip, a piece holding only U+00A0 makes the parse fail in the model, while the screen skips it.
- `int()` on text covers ASCII digits with an optional sign and surrounding whitespace. Underscores and non-ASCII digits are not modelled.
- Rendering of reals in messages (`Max {max_val}`, scores on the leaderboard, the judge form's prefill) is a datatype or a parameter, not a string.
- bcrypt: the hash function and its random salt are parameters of `AdminService.CreateUser`.
- The pageant, event and authentication services are not part of this model: segment activation, final-round activation, rankings, segment and criteria writes, judge scoring.
  The screens' calls to them are returned as request values, or taken as inputs (the active segment, the rankings, the result of `submit_score`).
- `JudgeView.SendScores` takes the scoring service's answer as a function of (criterion, value). It does not model that the answer could depend on the database.
- The viewer passes a round id to `get_live_scores`, which the shown quiz service does not accept. The leaderboard therefore takes the overall and round scores as inputs.
- The polling thread, its sleep and its swallowing of exceptions in the leaderboard are left out. A failed refresh is modelled as "nothing after the title changes".
- The event gallery's cards, the judge's event and candidate lists, and all layout, colours, dialogs and page updates are left out. The back-stack pop handler of the shell is left out too.
- The input dictionary of the judge form is keyed by criterion id. The model takes its items as a sequence and does not model two criteria sharing an id.
- The sign-up and quiz-configuration forms and the seeding script are not part of this model.

## Findings

| source | as written | input that shows it | evidently intended | confidence | as-written member | corrected member |
|---|---|---|---|---|---|---|
| views/config/pageant_config_view.py:177-180 | after a confirmed strict toggle the field is cleared but Proceed stays enabled | type CONFIRM, press Proceed, open the strict dialog again and press Proceed with the field empty | each strict toggle needs CONFIRM typed: clearing the field also disables Proceed | not executed | PageantConfigView.ProceedsOnEmptyText | PageantConfigView.ConfigScreen.ConfirmStrictReset |
| main.py:53 | `page.snack_bar` is set to "Invalid Event ID" but never opened, while the other screens show notices with `page.open(...)` | as an Admin, go to "/admin/event/" | the notice is opened, as with `page.open(ft.SnackBar(...))` | not executed | MainApp.InvalidIdNoticeNotShown | MainApp.Page.GoOpeningNotice |
