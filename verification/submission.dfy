/** The decision `handleSubmit` takes about the current draft: refuse with an
    error, ask for the settings, or build the record it hands to the store.
 */
module Submission {
  import opened Exam
  import opened Text

  /** A question the editor will not save: blank text or a blank option.
      (`!q.text.trim() || q.options.some(opt => !opt.trim())`) */
  predicate IncompleteQuestion(q: Question) {
    IsBlank(q.text) || exists j :: 0 <= j < |q.options| && IsBlank(q.options[j])
  }

  /** The row handed to the store. `questions` travels serialised as JSON;
      the model keeps the list itself. */
  datatype ExamRecord = ExamRecord(
    title: string,
    description: string,
    questions: seq<Question>,
    totalPoints: int,
    inviteCode: string,
    isPaid: bool,
    price: real
  )

  datatype Decision = Reject(reason: Reason) | AskSettings | Persist(record: ExamRecord)

  /** What a draft must satisfy before it may be stored: a title, at least one
      question, every question text and every option filled in, and an invite
      code. */
  predicate ReadyToSave(d: Draft) {
    && !IsBlank(d.title)
    && |d.questions| > 0
    && d.settings.inviteCode != ""
    && forall k :: 0 <= k < |d.questions| ==> !IncompleteQuestion(d.questions[k])
  }

  /** A string holds at least one character that `trim()` keeps. */
  predicate FilledIn(s: string) {
    exists i :: 0 <= i < |s| && !IsSpace(s[i])
  }

  lemma FilledInIffNotBlank(s: string)
    ensures FilledIn(s) <==> !IsBlank(s)
  {
    BlankIffAllSpace(s);
  }

  /** A question is complete exactly when its text and each of its options
      hold a visible character. */
  lemma CompleteIffFilledIn(q: Question)
    ensures !IncompleteQuestion(q) <==>
      FilledIn(q.text) && forall j :: 0 <= j < |q.options| ==> FilledIn(q.options[j])
  {
    FilledInIffNotBlank(q.text);
    forall j | 0 <= j < |q.options| ensures FilledIn(q.options[j]) <==> !IsBlank(q.options[j]) {
      FilledInIffNotBlank(q.options[j]);
    }
  }

  /** A draft is ready to save exactly when its title, every question text
      and every option hold a visible character, it has a question, and the
      invite code is not empty (spaces alone count as a code). */
  lemma ReadyToSaveIffFilledIn(d: Draft)
    ensures ReadyToSave(d) <==>
      && FilledIn(d.title)
      && |d.questions| > 0
      && d.settings.inviteCode != ""
      && forall k :: 0 <= k < |d.questions| ==>
           && FilledIn(d.questions[k].text)
           && forall j :: 0 <= j < |d.questions[k].options| ==> FilledIn(d.questions[k].options[j])
  {
    FilledInIffNotBlank(d.title);
    forall k | 0 <= k < |d.questions| {
      CompleteIffFilledIn(d.questions[k]);
    }
  }

  /** The record built from a draft: its fields, the sum of the question
      points, and a price of 0 for a free exam. */
  function RecordOf(d: Draft): (rec: ExamRecord)
    ensures rec.title == d.title && rec.description == d.description
    ensures rec.questions == d.questions
    ensures rec.totalPoints == TotalPoints(d.questions)
    ensures rec.inviteCode == d.settings.inviteCode && rec.isPaid == d.settings.isPaid
    ensures rec.isPaid ==> rec.price == d.settings.price
    ensures !rec.isPaid ==> rec.price == 0.0
  {
    ExamRecord(
      d.title,
      d.description,
      d.questions,
      TotalPoints(d.questions),
      d.settings.inviteCode,
      d.settings.isPaid,
      if d.settings.isPaid then d.settings.price else 0.0)
  }

  /** `handleSubmit` up to the store call. The checks run in a fixed order
      and the first failing one decides; the settings are asked for before the
      questions are checked; a record is built exactly when the draft is ready
      to save. */
  function Submit(d: Draft): (r: Decision)
    ensures r == Reject(BlankTitle) <==> IsBlank(d.title)
    ensures r == Reject(NoQuestions) <==> !IsBlank(d.title) && d.questions == []
    ensures r == AskSettings <==>
      !IsBlank(d.title) && d.questions != [] && d.settings.inviteCode == ""
    ensures r == Reject(IncompleteQuestions) <==>
      && !IsBlank(d.title) && d.questions != [] && d.settings.inviteCode != ""
      && exists k :: 0 <= k < |d.questions| && IncompleteQuestion(d.questions[k])
    ensures r.Persist? <==> ReadyToSave(d)
    ensures r.Persist? ==> r.record == RecordOf(d)
    ensures r.Reject? ==> r.reason in {BlankTitle, NoQuestions, IncompleteQuestions}
  {
    if IsBlank(d.title) then Reject(BlankTitle)
    else if |d.questions| == 0 then Reject(NoQuestions)
    else if d.settings.inviteCode == "" then AskSettings
    else if exists k :: 0 <= k < |d.questions| && IncompleteQuestion(d.questions[k]) then
      Reject(IncompleteQuestions)
    else Persist(RecordOf(d))
  }
}
