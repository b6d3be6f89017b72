/** The `ExamForm` component as a state machine: the draft, whether the
    settings dialog is open, and the last notification shown. Every user
    action is an event; `Step` gives the next state.
 */
module ExamForm {
  import opened Exam
  import opened Text
  import opened Questions
  import opened Settings
  import opened Submission

  /** The last notification shown. Dismissal after three seconds is not
      modelled. */
  datatype Notice = NoNotice | Error(reason: Reason) | Saved

  /** What the store answered to the insert; the call itself is outside the
      model. */
  datatype StoreResult = Stored | StoreFailed

  datatype EditorState = EditorState(draft: Draft, settingsOpen: bool, notice: Notice)

  const InitialState := EditorState(InitialDraft, false, NoNotice)

  /** `handleSubmit`: an error notification, the settings dialog, or one
      store call. A stored draft is reset to the empty draft; a failed store
      keeps the draft so that the author can try again. */
  function HandleSubmit(e: EditorState, result: StoreResult): (r: EditorState)
    ensures r.settingsOpen <==> e.settingsOpen || Submit(e.draft) == AskSettings
    ensures ReadyToSave(e.draft) && result == Stored ==> r.draft == InitialDraft && r.notice == Saved
    ensures !(ReadyToSave(e.draft) && result == Stored) ==> r.draft == e.draft
    ensures ReadyToSave(e.draft) && result == StoreFailed ==> r.notice == Error(SaveFailed)
    ensures Submit(e.draft).Reject? ==> r.notice == Error(Submit(e.draft).reason)
    ensures Submit(e.draft) == AskSettings ==> r.notice == e.notice
  {
    match Submit(e.draft)
    case Reject(reason) => e.(notice := Error(reason))
    case AskSettings => e.(settingsOpen := true)
    case Persist(_) =>
      if result == Stored then e.(draft := InitialDraft, notice := Saved)
      else e.(notice := Error(SaveFailed))
  }

  /** The dialog's Confirm button: it checks the invite code and the paid
      price, and only then closes the dialog and runs `handleSubmit`, which
      cannot ask for the settings again. */
  function Confirm(e: EditorState, result: StoreResult): (r: EditorState)
    ensures !SettingsAccepted(e.draft.settings) ==>
      r == e.(notice := Error(ConfirmCheck(e.draft.settings).reason))
    ensures SettingsAccepted(e.draft.settings) ==>
      !r.settingsOpen && r == HandleSubmit(e.(settingsOpen := false), result)
    ensures r.draft != e.draft ==>
      && SettingsAccepted(e.draft.settings) && ReadyToSave(e.draft)
      && result == Stored && r.draft == InitialDraft
  {
    match ConfirmCheck(e.draft.settings)
    case Fail(reason) => e.(notice := Error(reason))
    case Pass => HandleSubmit(e.(settingsOpen := false), result)
  }

  /** The editor's user actions. */
  datatype Event =
    | EditTitle(title: string)
    | EditDescription(description: string)
    | AddQuestionClicked(freshId: QuestionId)
    | RemoveQuestionClicked(id: QuestionId)
    | EditQuestionText(id: QuestionId, text: string)
    | EditPoints(id: QuestionId, parsed: ParsedInt)
    | SelectCorrect(id: QuestionId, index: int)
    | EditOption(id: QuestionId, index: int, text: string)
    | AddOptionClicked(id: QuestionId)
    | RemoveOptionClicked(id: QuestionId, index: int)
    | EditInviteCode(code: string)
    | PricingChosen(choice: Pricing)
    | EditPrice(price: real)
    | SubmitClicked(result: StoreResult)
    | ConfirmClicked(result: StoreResult)
    | SettingsClosed

  /** What `Step` needs: an option edit names an existing option. */
  predicate StepDefined(e: EditorState, ev: Event) {
    ev.EditOption? ==>
      forall k :: 0 <= k < |e.draft.questions| && e.draft.questions[k].id == ev.id ==>
        0 <= ev.index < |e.draft.questions[k].options|
  }

  /** One user action. Only submitting shows a notification or opens the
      dialog; the questions change only through the question controls, the
      settings only through the dialog's inputs, and the title and
      description only through their own inputs, except that a successful
      save empties the whole draft. */
  function Step(e: EditorState, ev: Event): (r: EditorState)
    requires StepDefined(e, ev)
    ensures r.notice != e.notice ==> ev.SubmitClicked? || ev.ConfirmClicked?
    ensures r.settingsOpen && !e.settingsOpen ==>
      ev.SubmitClicked? && Submit(e.draft) == AskSettings
    ensures ev.SettingsClosed? ==> r.draft == e.draft
    ensures r.draft != e.draft && (ev.SubmitClicked? || ev.ConfirmClicked?) ==>
      r.draft == InitialDraft && ReadyToSave(e.draft) && ev.result == Stored
    ensures r.draft.questions != e.draft.questions ==>
      || ev.AddQuestionClicked? || ev.RemoveQuestionClicked? || ev.EditQuestionText?
      || ev.EditPoints? || ev.SelectCorrect? || ev.EditOption?
      || ev.AddOptionClicked? || ev.RemoveOptionClicked?
      || ev.SubmitClicked? || ev.ConfirmClicked?
    ensures r.draft.settings != e.draft.settings ==>
      ev.EditInviteCode? || ev.PricingChosen? || ev.EditPrice? || ev.SubmitClicked? || ev.ConfirmClicked?
    ensures r.draft.title != e.draft.title ==> ev.EditTitle? || ev.SubmitClicked? || ev.ConfirmClicked?
    ensures r.draft.description != e.draft.description ==>
      ev.EditDescription? || ev.SubmitClicked? || ev.ConfirmClicked?
  {
    var d := e.draft;
    var qs := d.questions;
    match ev
    case EditTitle(t) => e.(draft := d.(title := t))
    case EditDescription(t) => e.(draft := d.(description := t))
    case AddQuestionClicked(id) => e.(draft := d.(questions := AddQuestion(qs, id)))
    case RemoveQuestionClicked(id) => e.(draft := d.(questions := RemoveQuestion(qs, id)))
    case EditQuestionText(id, t) => e.(draft := d.(questions := UpdateQuestion(qs, id, QuestionText(t))))
    case EditPoints(id, p) => e.(draft := d.(questions := UpdateQuestion(qs, id, Points(CoercePoints(p)))))
    case SelectCorrect(id, c) => e.(draft := d.(questions := UpdateQuestion(qs, id, CorrectOption(c))))
    case EditOption(id, i, t) => e.(draft := d.(questions := UpdateOption(qs, id, i, t)))
    case AddOptionClicked(id) => e.(draft := d.(questions := AddOption(qs, id)))
    case RemoveOptionClicked(id, i) => e.(draft := d.(questions := RemoveOption(qs, id, i)))
    case EditInviteCode(code) => e.(draft := d.(settings := SetInviteCode(d.settings, code)))
    case PricingChosen(choice) => e.(draft := d.(settings := ChoosePricing(d.settings, choice)))
    case EditPrice(p) => e.(draft := d.(settings := SetPrice(d.settings, p)))
    case SubmitClicked(result) => HandleSubmit(e, result)
    case ConfirmClicked(result) => Confirm(e, result)
    case SettingsClosed => e.(settingsOpen := false)
  }

  /** A superset of the events the rendered form can produce: dialog events
      are accepted while the dialog is closed and form events while it is
      open, so the invariant lemmas below cover more than the form can do.
      A new question gets an id no question has yet, the answer radio
      buttons and option inputs only name options the question has, and the
      price input is shown only for a paid exam. */
  predicate UiCanSend(e: EditorState, ev: Event) {
    && StepDefined(e, ev)
    && (ev.AddQuestionClicked? ==> !HasId(e.draft.questions, ev.freshId))
    && (ev.SelectCorrect? ==> FieldFits(e.draft.questions, ev.id, CorrectOption(ev.index)))
    && (ev.EditPrice? ==> e.draft.settings.isPaid)
  }

  /** What the editor keeps true of every state: every question well formed
      with a unique id, and no price on a free exam. */
  predicate Invariant(e: EditorState) {
    WellFormedQuestions(e.draft.questions) && PriceOnlyWhenPaid(e.draft.settings)
  }

  /** Every event the form can produce keeps the invariant. */
  lemma StepKeepsInvariant(e: EditorState, ev: Event)
    requires Invariant(e) && UiCanSend(e, ev)
    ensures Invariant(Step(e, ev))
  {
    var qs := e.draft.questions;
    match ev
    case AddQuestionClicked(id) => AddQuestionKeepsWellFormed(qs, id);
    case RemoveQuestionClicked(id) => RemoveQuestionKeepsWellFormed(qs, id);
    case EditQuestionText(id, t) => UpdateQuestionKeepsWellFormed(qs, id, QuestionText(t));
    case EditPoints(id, p) => UpdateQuestionKeepsWellFormed(qs, id, Points(CoercePoints(p)));
    case SelectCorrect(id, c) => UpdateQuestionKeepsWellFormed(qs, id, CorrectOption(c));
    case EditOption(id, i, t) => UpdateOptionKeepsWellFormed(qs, id, i, t);
    case AddOptionClicked(id) => AddOptionKeepsWellFormed(qs, id);
    case RemoveOptionClicked(id, i) => RemoveOptionKeepsWellFormed(qs, id, i);
    case SubmitClicked(result) => SubmitKeepsInvariant(e, result);
    case ConfirmClicked(result) => SubmitKeepsInvariant(e.(settingsOpen := false), result);
    case _ =>
  }

  /** Submitting either keeps the draft or resets it to the empty draft. */
  lemma SubmitKeepsInvariant(e: EditorState, result: StoreResult)
    requires Invariant(e)
    ensures Invariant(HandleSubmit(e, result))
  {
    var r := HandleSubmit(e, result);
    assert r.draft == e.draft || r.draft == InitialDraft;
  }

  /** A sequence of events the form can produce one after the other. */
  predicate UiRun(e: EditorState, evs: seq<Event>)
    decreases |evs|
  {
    evs == [] || (UiCanSend(e, evs[0]) && UiRun(Step(e, evs[0]), evs[1..]))
  }

  function Run(e: EditorState, evs: seq<Event>): EditorState
    requires UiRun(e, evs)
    decreases |evs|
  {
    if evs == [] then e else Run(Step(e, evs[0]), evs[1..])
  }

  /** Whatever the author does, every question keeps 2 to 6 options, a valid
      selected answer, non-zero points and a unique id, and a free exam keeps
      a price of 0. */
  lemma {:induction false} RunKeepsInvariant(e: EditorState, evs: seq<Event>)
    requires Invariant(e) && UiRun(e, evs)
    ensures Invariant(Run(e, evs))
    decreases |evs|
  {
    if evs != [] {
      StepKeepsInvariant(e, evs[0]);
      RunKeepsInvariant(Step(e, evs[0]), evs[1..]);
    }
  }

  /** Every state reachable from the freshly mounted form satisfies the
      invariant. */
  lemma ReachableStatesSatisfyInvariant(evs: seq<Event>)
    requires UiRun(InitialState, evs)
    ensures Invariant(Run(InitialState, evs))
  {
    RunKeepsInvariant(InitialState, evs);
  }

  // ---------------------------------------------------------------------------
  // Scenarios
  // ---------------------------------------------------------------------------

  /** A string that starts with a visible character is not blank. */
  lemma VisibleIsNotBlank(s: string)
    requires |s| > 0 && !IsSpace(s[0])
    ensures !IsBlank(s)
  {
    BlankIffAllSpace(s);
  }

  /** A free exam with one five-point question "2+2?" whose answer is "4". */
  const MidtermQuestion := Question(1, "2+2?", ["3", "4"], 1, 5)
  const Midterm := Draft("Midterm", "", [MidtermQuestion], ExamSettings("ABC123", false, 0.0))

  lemma MidtermIsReady()
    ensures ReadyToSave(Midterm)
  {
    var q := MidtermQuestion;
    VisibleIsNotBlank(Midterm.title);
    VisibleIsNotBlank(q.text);
    forall j | 0 <= j < |q.options| ensures !IsBlank(q.options[j]) {
      VisibleIsNotBlank(q.options[j]);
    }
    SingleQuestionReady(Midterm);
  }

  lemma SingleQuestionReady(d: Draft)
    requires |d.questions| == 1 && !IsBlank(d.title) && d.settings.inviteCode != ""
    requires !IncompleteQuestion(d.questions[0])
    ensures ReadyToSave(d)
  {
    forall k | 0 <= k < |d.questions| ensures !IncompleteQuestion(d.questions[k]) {
      assert k == 0;
    }
  }

  /** The free midterm is stored with a total of 5 and a price of 0, and the
      form is emptied. */
  lemma MidtermIsStored()
    ensures Submit(Midterm) == Persist(ExamRecord("Midterm", "", [MidtermQuestion], 5, "ABC123", false, 0.0))
    ensures HandleSubmit(EditorState(Midterm, false, NoNotice), Stored) == EditorState(InitialDraft, false, Saved)
  {
    MidtermIsReady();
    TotalPointsSingle(MidtermQuestion);
  }

  /** The price rule lives only on the Confirm button: the form's own submit
      button stores a complete paid exam whatever its price, although Confirm
      would refuse the same settings. */
  lemma SubmitIgnoresPrice(d: Draft)
    requires ReadyToSave(d) && d.settings.isPaid && d.settings.price <= 0.0
    ensures ConfirmCheck(d.settings) == Fail(InvalidPrice)
    ensures Submit(d).Persist? && Submit(d).record.isPaid && Submit(d).record.price <= 0.0
  {
  }

  /** How such a draft arises: the author submits before setting an invite
      code, picks "paid" in the dialog that opens, types a code and dismisses
      the dialog; the next click on the submit button stores the exam as paid
      with a price of 0. */
  lemma DismissedDialogLeavesPaidWithoutPrice(d: Draft, code: string)
    requires ReadyToSave(d.(settings := ExamSettings(code, true, 0.0)))
    requires d.settings == InitialSettings
    ensures var asked := HandleSubmit(EditorState(d, false, NoNotice), Stored);
      var paid := Step(asked, PricingChosen(Paid));
      var coded := Step(paid, EditInviteCode(code));
      var dismissed := Step(coded, SettingsClosed);
      && asked == EditorState(d, true, NoNotice)
      && dismissed.draft == d.(settings := ExamSettings(code, true, 0.0))
      && !dismissed.settingsOpen
      && Submit(dismissed.draft).Persist?
      && Submit(dismissed.draft).record.isPaid && Submit(dismissed.draft).record.price == 0.0
  {
    var d' := d.(settings := ExamSettings(code, true, 0.0));
    AskSettingsOpensDialog(d);
    PaidCodeThenDismiss(EditorState(d, true, NoNotice), code);
    SubmitIgnoresPrice(d');
  }

  lemma AskSettingsOpensDialog(d: Draft)
    requires Submit(d) == AskSettings
    ensures HandleSubmit(EditorState(d, false, NoNotice), Stored) == EditorState(d, true, NoNotice)
  {
  }

  lemma PaidCodeThenDismiss(e: EditorState, code: string)
    ensures var paid := Step(e, PricingChosen(Paid));
      var coded := Step(paid, EditInviteCode(code));
      Step(coded, SettingsClosed)
        == e.(draft := e.draft.(settings := ExamSettings(code, true, e.draft.settings.price)), settingsOpen := false)
  {
  }
}
