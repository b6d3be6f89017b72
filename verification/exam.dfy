/** The exam draft the editor holds in memory: questions, settings, the draft
    as a whole, the invariants the editor keeps, and the derived point total.
 */
module Exam {

  /** An editor keeps between MinOptions and MaxOptions answer options per
      question; a new question starts with NewQuestionOptions of them. */
  const MinOptions: nat := 2
  const MaxOptions: nat := 6
  const NewQuestionOptions: nat := 4

  /** Question ids are millisecond timestamps taken when the question is added. */
  type QuestionId = int

  datatype Question = Question(
    id: QuestionId,
    text: string,
    options: seq<string>,
    correctOption: int,
    points: int
  )

  /** `price` only means something for a paid exam. */
  datatype ExamSettings = ExamSettings(inviteCode: string, isPaid: bool, price: real)

  /** Everything the editor lets the author change. */
  datatype Draft = Draft(
    title: string,
    description: string,
    questions: seq<Question>,
    settings: ExamSettings
  )

  const InitialSettings := ExamSettings("", false, 0.0)

  /** The draft when the editor mounts, and again after a successful save. */
  const InitialDraft := Draft("", "", [], InitialSettings)

  /** Why the editor refused to save, or why a save failed: one per error
      notification it shows. */
  datatype Reason =
    | BlankTitle
    | NoQuestions
    | IncompleteQuestions
    | MissingInviteCode
    | InvalidPrice
    | SaveFailed

  /** The result of `parseInt` on the points field: an integer or NaN. */
  datatype ParsedInt = NotANumber | Integer(value: int)

  /** `parseInt(input) || 1`: NaN and 0 are falsy and become 1, every other
      integer is kept, negative ones included. */
  function CoercePoints(parsed: ParsedInt): (points: int)
    ensures points != 0
    ensures parsed.Integer? && parsed.value != 0 ==> points == parsed.value
    ensures parsed == NotANumber || parsed == Integer(0) ==> points == 1
  {
    match parsed
    case NotANumber => 1
    case Integer(v) => if v == 0 then 1 else v
  }

  /** What the editor keeps true of every question it shows: 2 to 6 options,
      a selected answer that is one of them, and points that are not 0. */
  predicate WellFormedQuestion(q: Question) {
    && MinOptions <= |q.options| <= MaxOptions
    && 0 <= q.correctOption < |q.options|
    && q.points != 0
  }

  predicate UniqueIds(qs: seq<Question>) {
    forall i, j :: 0 <= i < j < |qs| ==> qs[i].id != qs[j].id
  }

  predicate WellFormedQuestions(qs: seq<Question>) {
    && (forall k :: 0 <= k < |qs| ==> WellFormedQuestion(qs[k]))
    && UniqueIds(qs)
  }

  /** `price` is 0 unless the exam is paid. */
  predicate PriceOnlyWhenPaid(s: ExamSettings) {
    !s.isPaid ==> s.price == 0.0
  }

  /** `questions.reduce((sum, q) => sum + q.points, 0)`: a left fold, so the
      last question's points are added last. */
  function TotalPoints(qs: seq<Question>): (total: int)
    ensures (forall k :: 0 <= k < |qs| ==> qs[k].points > 0) ==> total >= |qs|
  {
    if qs == [] then 0 else TotalPoints(qs[..|qs| - 1]) + qs[|qs| - 1].points
  }

  /** The same sum taken from the front: the first question's points plus the
      total of the rest. */
  function SumPoints(qs: seq<Question>): int {
    if qs == [] then 0 else qs[0].points + SumPoints(qs[1..])
  }

  lemma TotalPointsSingle(q: Question)
    ensures TotalPoints([q]) == q.points
  {
    assert [q][..0] == [];
  }

  /** The total of a concatenation is the sum of the totals. */
  lemma {:induction false} TotalPointsAppend(a: seq<Question>, b: seq<Question>)
    ensures TotalPoints(a + b) == TotalPoints(a) + TotalPoints(b)
    decreases |b|
  {
    if b != [] {
      var b' := b[..|b| - 1];
      assert (a + b)[..|a + b| - 1] == a + b';
      TotalPointsAppend(a, b');
    } else {
      assert a + b == a;
    }
  }

  /** Folding from the left, as `reduce` does, gives the same total as
      summing from the front. */
  lemma {:induction false} TotalPointsIsSum(qs: seq<Question>)
    ensures TotalPoints(qs) == SumPoints(qs)
    decreases |qs|
  {
    if qs != [] {
      assert qs == [qs[0]] + qs[1..];
      TotalPointsAppend([qs[0]], qs[1..]);
      TotalPointsSingle(qs[0]);
      TotalPointsIsSum(qs[1..]);
    }
  }

  /** The total depends only on each question's points: edits that keep every
      question's points keep the total. */
  lemma {:induction false} TotalPointsSamePoints(qs: seq<Question>, rs: seq<Question>)
    requires |rs| == |qs|
    requires forall k :: 0 <= k < |qs| ==> rs[k].points == qs[k].points
    ensures TotalPoints(rs) == TotalPoints(qs)
    decreases |qs|
  {
    if qs != [] {
      TotalPointsSamePoints(qs[..|qs| - 1], rs[..|rs| - 1]);
    }
  }

  /** Changing one question's points changes the total by exactly the
      difference. */
  lemma TotalPointsChangeOne(qs: seq<Question>, rs: seq<Question>, k: nat)
    requires |rs| == |qs| && k < |qs|
    requires forall j :: 0 <= j < |qs| && j != k ==> rs[j].points == qs[j].points
    ensures TotalPoints(rs) == TotalPoints(qs) - qs[k].points + rs[k].points
  {
    assert qs == qs[..k] + [qs[k]] + qs[k + 1..];
    assert rs == rs[..k] + [rs[k]] + rs[k + 1..];
    TotalPointsAppend(qs[..k] + [qs[k]], qs[k + 1..]);
    TotalPointsAppend(qs[..k], [qs[k]]);
    TotalPointsAppend(rs[..k] + [rs[k]], rs[k + 1..]);
    TotalPointsAppend(rs[..k], [rs[k]]);
    TotalPointsSamePoints(qs[..k], rs[..k]);
    TotalPointsSamePoints(qs[k + 1..], rs[k + 1..]);
    TotalPointsSingle(qs[k]);
    TotalPointsSingle(rs[k]);
  }
}
