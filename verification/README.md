# Exam draft editor — a Dafny model

This project models the exam draft editor of the `ExamForm` component in
`src/components/create-exam.tsx`. The editor holds a title, a description, an
ordered list of multiple-choice questions and the exam settings (invite code,
free or paid, price). Its handlers edit that list. Its submit handler checks
the draft in a fixed order and then either shows an error, opens the settings
dialog, or hands one record to the store.

Every handler is a pure function from the current state to the next one:

- `text.dfy` — `Text`: the blank test behind `trim()`. It covers the WhiteSpace
  and LineTerminator code points that ECMAScript's `String.prototype.trim`
  strips.
- `exam.dfy` — `Exam`: the `Question`, `ExamSettings` and draft records, the
  2-option and 6-option bounds, and the invariants the editor keeps. It also
  holds the point total that `reduce` computes and the `parseInt(...) || 1`
  points coercion.
- `questions.dfy` — `Questions`: `addQuestion`, `removeQuestion`,
  `updateQuestion`, `updateOption`, `addOption` and `removeOption`.
- `settings.dfy` — `Settings`: the free/paid choice, which forces the price to
  0 for a free exam, and the checks made by the dialog's Confirm button.
- `submission.dfy` — `Submission`: the decision `handleSubmit` takes and the
  record it builds.
- `editor.dfy` — `ExamForm`: the whole form as a state machine. It holds the
  draft, whether the dialog is open and the last notification. Its parts are
  `handleSubmit` with the store's answer, `Confirm`, one `Step` per user
  action, and the invariant that every state reachable from the mounted form
  satisfies.

Inputs that the source takes from outside are parameters:

- The new question's id, which the source reads from `Date.now()`.
- The result of `parseInt` on the points field: an integer or NaN. `parseInt`
  can also return an infinity, which the model leaves out (see "## Left out").
- The already-parsed price.
- The invite code typed in or generated.
- The store's answer to the insert: `Stored` or `StoreFailed`.

In several places the code is looser than it first appears. The model follows the code:

- `updateOption` writes `newOptions[index]` without a range check. The model
  therefore requires that the index names an existing option. It does not
  treat an out-of-range index as a no-op.
- Points are only kept away from 0. The coercion turns 0 and NaN into 1, but a
  negative number is kept. The invariant says `points != 0`, not
  `points > 0`.
- `updateQuestion` stores any `correctOption` it is given. The index is valid
  only because the radio buttons offer nothing else. That guarantee is a
  precondition of the invariant lemmas (`FieldFits`, `UiCanSend`), not of the
  handler.
- The invite code is checked with `!inviteCode`, without `trim()`. A code made
  only of spaces is accepted.
- The check that a paid exam has a positive price is made only by the Confirm
  button. The form's own submit button does not make it. A complete paid
  exam with a price of 0 is stored when it reaches the store that way: the
  author sets a code in the dialog, dismisses the dialog, and submits again.
  `SubmitIgnoresPrice` and `DismissedDialogLeavesPaidWithoutPrice` state this.
- With duplicate ids, the handlers edit every question with that id and
  `removeQuestion` removes all of them. This is how `map` and `filter` behave.
  Uniqueness is kept only when each new id is fresh, and that freshness is a
  precondition of the invariant lemmas.
- If the Confirm button refuses, the dialog stays open. The click handler
  calls `preventDefault()`, and that stops the surrounding close control from
  closing the dialog.

## Model

| member | source | states |
|---|---|---|
| Text.BlankIffAllSpace | src/components/create-exam.tsx:130 | `!s.trim()` holds exactly when every character of `s` is a space or line terminator |
| Exam.CoercePoints | src/components/create-exam.tsx:263 | the points input never yields 0: NaN and 0 become 1, and every other integer, including a negative one, is kept |
| Exam.TotalPoints | src/components/create-exam.tsx:162 | the `reduce` total of the question points; when every question is worth at least one point, the total is at least the number of questions |
| Exam.TotalPointsIsSum | src/components/create-exam.tsx:162 | folding from the left, as `reduce` does, gives the same total as adding the points from the first question on |
| Exam.TotalPointsAppend | src/components/create-exam.tsx:162 | the `reduce` total over a concatenation is the sum of the two totals |
| Exam.TotalPointsSamePoints | src/components/create-exam.tsx:162 | the total depends only on the questions' points: lists with equal points position by position have equal totals |
| Exam.TotalPointsChangeOne | src/components/create-exam.tsx:162 | changing one question's points moves the total by exactly the difference |
| Questions.NewQuestion | src/components/create-exam.tsx:71-77 | a new question has the given id, empty text, four empty options, the first option selected and 1 point, and it is well formed |
| Questions.AddQuestion | src/components/create-exam.tsx:68-79 | exactly one question is appended at the end, the earlier ones are kept in order, and the total grows by 1 |
| Questions.AddQuestionKeepsWellFormed | src/components/create-exam.tsx:68-79 | with an id no question has yet, adding a question keeps every question well formed and all ids distinct |
| Questions.RemoveQuestion | src/components/create-exam.tsx:81-83 | the result holds exactly the questions whose id differs from the one removed; an absent id changes nothing |
| Questions.RemoveQuestionAppend | src/components/create-exam.tsx:82 | removal distributes over concatenation, so the remaining questions keep their order |
| Questions.RemoveQuestionAt | src/components/create-exam.tsx:82 | with unique ids, removing the id at position k is the list with position k cut out, one shorter |
| Questions.RemoveQuestionLowersTotal | src/components/create-exam.tsx:81-83 | with unique ids, removing a question lowers the total by that question's points |
| Questions.RemoveQuestionKeepsUniqueIds | src/components/create-exam.tsx:82 | removing questions never makes two ids equal |
| Questions.RemoveQuestionKeepsWellFormed | src/components/create-exam.tsx:81-83 | removing a question keeps the list well formed |
| Questions.UpdateQuestion | src/components/create-exam.tsx:85-89 | only questions with the id change, and only in the named field, which takes the value as given; order, ids and every other question stay the same; an absent id changes nothing |
| Questions.UpdateQuestionKeepsWellFormed | src/components/create-exam.tsx:85-89 | a field update keeps the list well formed when the points are not 0 and the answer index names an option |
| Questions.UpdatePointsMovesTotal | src/components/create-exam.tsx:85-89 | with unique ids, setting a question's points moves the total by the new points minus the old |
| Questions.UpdateOption | src/components/create-exam.tsx:91-100 | for an index inside the options, only that option of the matching questions takes the new text; the count and all other options and fields are kept; other questions are unchanged |
| Questions.UpdateOptionKeepsWellFormed | src/components/create-exam.tsx:91-100 | editing an option keeps the list well formed |
| Questions.AddOption | src/components/create-exam.tsx:102-109 | a matching question below 6 options gains one empty option at the end; at 6 it is unchanged; no count goes above 6; other questions are unchanged |
| Questions.AddOptionKeepsWellFormed | src/components/create-exam.tsx:102-109 | adding an option keeps the list well formed |
| Questions.Without | src/components/create-exam.tsx:114 | filtering out index i removes exactly one occurrence of that option, keeps the earlier ones in place and shifts the later ones down by one; an index naming no option removes nothing |
| Questions.ShiftedCorrect | src/components/create-exam.tsx:115-116 | removing an option at or before the selected one moves the selection one earlier, floored at 0; removing a later option leaves the selection alone; a selection is never moved later, never by more than one, and never below 0 |
| Questions.RemoveOption | src/components/create-exam.tsx:111-121 | a matching question with more than 2 options loses option i and re-clamps its answer; at 2 it is unchanged; no count drops below 2; other questions are unchanged |
| Questions.WithoutOptionKeepsWellFormed | src/components/create-exam.tsx:111-121 | removing an option at any index keeps the question within 2 to 6 options with a valid selected answer |
| Questions.WithoutOptionKeepsSelectedAnswer | src/components/create-exam.tsx:114-117 | removing another option keeps the same answer text selected; removing the selected option selects the one before it, or the next one when it was first |
| Questions.RemoveOptionKeepsWellFormed | src/components/create-exam.tsx:111-121 | removing an option keeps the list well formed |
| Questions.OptionEditsKeepTotalPoints | src/components/create-exam.tsx:85-121 | adding an option, removing an option at any index, and editing a question's text or selected answer never change the point total |
| Questions.UpdateOptionKeepsTotalPoints | src/components/create-exam.tsx:91-100 | editing an existing option's text never changes the point total |
| Settings.ChoosePricing | src/components/create-exam.tsx:364-368 | choosing paid keeps the price typed so far; choosing free forces it to 0; so the price is 0 unless the exam is paid |
| Settings.SetInviteCode | src/components/create-exam.tsx:351 | the invite code input, like the Generate button at line 125, replaces only the code; paid flag and price are kept, and so is the rule that a free exam has price 0 |
| Settings.SetPrice | src/components/create-exam.tsx:405 | the price input replaces only the price; the result keeps the rule that a free exam has price 0 exactly when the exam is paid or the new price is 0 |
| Settings.ConfirmCheck | src/components/create-exam.tsx:420-427 | Confirm passes exactly when there is an invite code and, for a paid exam, a positive price; a missing code is reported before a missing price |
| Submission.IncompleteQuestion | src/components/create-exam.tsx:145-147 | defines the question the editor refuses to save: a blank text after `trim()`, or some option blank after `trim()`; characterised by `CompleteIffFilledIn` |
| Submission.ReadyToSave | src/components/create-exam.tsx:130-152 | defines a draft that passes all four submit checks: a title that is not blank, at least one question, a non-empty invite code and no incomplete question; characterised by `ReadyToSaveIffFilledIn` |
| Submission.CompleteIffFilledIn | src/components/create-exam.tsx:145-147 | a question passes the completeness check exactly when its text and each option hold a visible character |
| Submission.ReadyToSaveIffFilledIn | src/components/create-exam.tsx:128-152 | the four submit checks pass exactly when the title, every question text and every option hold a visible character, there is a question, and the invite code is not empty |
| Submission.RecordOf | src/components/create-exam.tsx:158-166 | the record carries the draft's fields, the sum of the question points as the total, and a price of 0 when the exam is free |
| Submission.Submit | src/components/create-exam.tsx:128-154 | the checks run in order: blank title, then no questions, then a missing invite code (open the dialog), then an incomplete question; a record is built exactly when the draft is ready to save |
| ExamForm.HandleSubmit | src/components/create-exam.tsx:128-186 | only the missing-code case opens the dialog; a ready draft that is stored resets to the empty draft with a success notice; every other outcome, a failed store included, keeps the draft |
| ExamForm.Confirm | src/components/create-exam.tsx:418-430 | refused settings show their error and change nothing else; accepted settings close the dialog and run submit, which cannot reopen it; the draft changes only when settings and draft are acceptable and the store succeeds |
| ExamForm.Step | src/components/create-exam.tsx:191-430 | one user action of the rendered form: only submit and Confirm show a notification; the dialog opens only when submit asks for the settings; closing the dialog keeps the draft; the questions change only through the question controls, the settings only through the dialog's inputs, the title and description only through their own inputs; submit and Confirm change the draft only by emptying it after a ready draft is stored |
| ExamForm.StepKeepsInvariant | src/components/create-exam.tsx:68-121 | every action the form can produce keeps questions well formed with unique ids and keeps a free exam's price at 0 |
| ExamForm.RunKeepsInvariant | src/components/create-exam.tsx:68-121 | any sequence of such actions keeps the invariant |
| ExamForm.ReachableStatesSatisfyInvariant | src/components/create-exam.tsx:51-60 | every state reachable from the freshly mounted form satisfies the invariant |
| ExamForm.MidtermIsStored | src/components/create-exam.tsx:158-180 | the free "Midterm" exam with one 5-point question is stored with total 5, price 0 and is_paid false, and the form is emptied |
| ExamForm.SubmitIgnoresPrice | src/components/create-exam.tsx:140-154 | a complete paid draft with a price of 0 or less is stored by submit, although Confirm would refuse its settings |
| ExamForm.DismissedDialogLeavesPaidWithoutPrice | src/components/create-exam.tsx:140-143 | the sequence submit, choose paid, type a code, dismiss the dialog leaves a paid draft with price 0 that the next submit stores |

## Left out

- Rendering, styling, the `Button` component, the Radix widgets and the page
  files are presentation only.
- The next.js and wallet configuration files hold no logic.
- The store insert call is a network call. Its answer is the `StoreResult`
  parameter, and the model does not perform the call.
- The record's `questions` field is sent as the output of `JSON.stringify`. The
  model keeps the list itself and does not model the serialisation.
- `generateInviteCode` draws from `Math.random`. Its effect is `EditInviteCode`
  with whatever code it drew.
- The notification's three-second dismissal timer and the `isSubmitting`
  in-flight flag are timing and async plumbing. The model keeps the last
  notification shown.
- `parseFloat` on the price input parses floating-point text. The price is a
  `real` that has already been parsed. NaN has already become 0, so
  `!price || price <= 0` is `price <= 0`.
- The `min` attributes on the number inputs rely on the browser's constraint
  validation, and the form library may add its own checks. Neither is
  modelled.
- `updateQuestion` can be called with the `id` or `options` field. The form
  never does this, so only text, points and the answer index are modelled.
- The free/paid radio group is modelled as a two-valued choice. The source
  compares strings, but the group only ever sends "free" or "paid".
- Each handler works on the state it sees when it runs. The stale-closure
  effects of several events inside one render are not modelled.
- Exam.TotalPoints: the source's points and total are JavaScript numbers, which
  are doubles and exact only up to 2^53. The model adds unbounded integers, so
  for totals past 2^53 the record's `totalPoints` is the exact sum. The
  program would store the rounded double instead. The same holds for
  `Submission.RecordOf`.
- Exam.CoercePoints: `parseInt` of a very long digit string returns an
  infinity. That value is truthy, so `|| 1` keeps it as the points. The model's
  parse result is an integer or NaN, so infinite points are not modelled.
- Questions.UpdateOption: requires the index to name an existing option of
  every matching question, because the source writes past the end of the
  array when the index is out of range.
