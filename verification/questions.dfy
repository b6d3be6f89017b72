/** The question-list handlers of the exam editor: adding and removing
    questions, editing a question's fields, and editing, adding and removing
    its answer options. Each handler maps the current list to the next one.
 */
module Questions {
  import opened Exam

  /** Some question in `qs` carries `id`. */
  predicate HasId(qs: seq<Question>, id: QuestionId) {
    exists k :: 0 <= k < |qs| && qs[k].id == id
  }

  /** `rs` is `qs` with, at most, the questions whose id is `id` edited: same
      length, same order, same ids, every other question untouched. */
  predicate OnlyMatchingChanged(qs: seq<Question>, rs: seq<Question>, id: QuestionId) {
    && |rs| == |qs|
    && (forall k :: 0 <= k < |qs| ==> rs[k].id == qs[k].id)
    && (forall k :: 0 <= k < |qs| && qs[k].id != id ==> rs[k] == qs[k])
  }

  /** `questions.map(q => q.id === id ? edit(q) : q)`, the shape shared by
      every per-question handler. */
  function MapWhere(qs: seq<Question>, id: QuestionId, edit: Question --> Question): (r: seq<Question>)
    requires forall k :: 0 <= k < |qs| && qs[k].id == id ==> edit.requires(qs[k])
    ensures |r| == |qs|
    ensures forall k :: 0 <= k < |qs| ==> r[k] == if qs[k].id == id then edit(qs[k]) else qs[k]
  {
    seq(|qs|, k requires 0 <= k < |qs| => if qs[k].id == id then edit(qs[k]) else qs[k])
  }

  // ---------------------------------------------------------------------------
  // Adding and removing questions
  // ---------------------------------------------------------------------------

  /** The question `addQuestion` appends: empty text, four empty options, the
      first option selected, one point. */
  function NewQuestion(id: QuestionId): (q: Question)
    ensures q.id == id && q.text == "" && q.correctOption == 0 && q.points == 1
    ensures |q.options| == NewQuestionOptions
    ensures forall j :: 0 <= j < |q.options| ==> q.options[j] == ""
    ensures WellFormedQuestion(q)
  {
    Question(id, "", seq(NewQuestionOptions, _ => ""), 0, 1)
  }

  /** `addQuestion`: the id is the timestamp the source reads from the clock,
      passed in. */
  function AddQuestion(qs: seq<Question>, freshId: QuestionId): (r: seq<Question>)
    ensures |r| == |qs| + 1 && r[..|qs|] == qs
    ensures r[|qs|] == NewQuestion(freshId)
    ensures TotalPoints(r) == TotalPoints(qs) + 1
  {
    var r := qs + [NewQuestion(freshId)];
    assert r[..|r| - 1] == qs;
    r
  }

  /** `removeQuestion`: `questions.filter(q => q.id !== id)`. */
  function RemoveQuestion(qs: seq<Question>, id: QuestionId): (r: seq<Question>)
    ensures |r| <= |qs|
    ensures forall k :: 0 <= k < |r| ==> r[k].id != id
    ensures forall q :: q in r <==> q in qs && q.id != id
    ensures !HasId(qs, id) ==> r == qs
  {
    if qs == [] then []
    else
      var rest := RemoveQuestion(qs[1..], id);
      SplitHead(qs, id);
      if qs[0].id == id then rest else [qs[0]] + rest
  }

  /** A non-empty list is its head followed by its tail, for membership and
      for ids. */
  lemma SplitHead(qs: seq<Question>, id: QuestionId)
    requires qs != []
    ensures qs == [qs[0]] + qs[1..]
    ensures forall q :: q in qs <==> q == qs[0] || q in qs[1..]
    ensures !HasId(qs, id) ==> qs[0].id != id && !HasId(qs[1..], id)
  {
    assert qs == [qs[0]] + qs[1..];
    if HasId(qs[1..], id) {
      var k :| 0 <= k < |qs[1..]| && qs[1..][k].id == id;
      assert qs[k + 1].id == id;
    }
  }

  /** Filtering distributes over concatenation, so the survivors keep their
      relative order. */
  lemma {:induction false} RemoveQuestionAppend(a: seq<Question>, b: seq<Question>, id: QuestionId)
    ensures RemoveQuestion(a + b, id) == RemoveQuestion(a, id) + RemoveQuestion(b, id)
    decreases |a|
  {
    if a == [] {
      assert a + b == b;
    } else {
      TailOfAppend(a, b);
      RemoveQuestionAppend(a[1..], b, id);
    }
  }

  lemma TailOfAppend(a: seq<Question>, b: seq<Question>)
    requires a != []
    ensures (a + b)[0] == a[0] && (a + b)[1..] == a[1..] + b
  {
  }

  /** With unique ids, no question before or after position `k` carries
      the id of the question at `k`. */
  lemma UniqueIdAbsentElsewhere(qs: seq<Question>, k: nat)
    requires k < |qs| && UniqueIds(qs)
    ensures !HasId(qs[..k], qs[k].id) && !HasId(qs[k + 1..], qs[k].id)
  {
    var a, b := qs[..k], qs[k + 1..];
    forall j | 0 <= j < |a| ensures a[j].id != qs[k].id {
      assert a[j] == qs[j];
    }
    forall j | 0 <= j < |b| ensures b[j].id != qs[k].id {
      assert b[j] == qs[k + 1 + j];
    }
  }

  /** With unique ids, removing a present id deletes exactly that one
      question: the list closes up around its position. */
  lemma RemoveQuestionAt(qs: seq<Question>, k: nat)
    requires k < |qs| && UniqueIds(qs)
    ensures RemoveQuestion(qs, qs[k].id) == qs[..k] + qs[k + 1..]
    ensures |RemoveQuestion(qs, qs[k].id)| == |qs| - 1
  {
    var id, a, b := qs[k].id, qs[..k], qs[k + 1..];
    UniqueIdAbsentElsewhere(qs, k);
    RemoveQuestionDropsHead(qs[k], b);
    SplitAt(qs, k);
    RemoveQuestionAppend(a, [qs[k]] + b, id);
  }

  /** The list around position `k`, in both bracketings. */
  lemma SplitAt(qs: seq<Question>, k: nat)
    requires k < |qs|
    ensures qs == qs[..k] + ([qs[k]] + qs[k + 1..])
    ensures qs == (qs[..k] + [qs[k]]) + qs[k + 1..]
  {
  }

  lemma RemoveQuestionDropsHead(q: Question, b: seq<Question>)
    requires !HasId(b, q.id)
    ensures RemoveQuestion([q] + b, q.id) == b
  {
    assert ([q] + b)[1..] == b;
  }

  /** Deleting the question at position `k` lowers the total by its points. */
  lemma TotalPointsWithout(qs: seq<Question>, k: nat)
    requires k < |qs|
    ensures TotalPoints(qs[..k] + qs[k + 1..]) == TotalPoints(qs) - qs[k].points
  {
    var a, b := qs[..k], qs[k + 1..];
    SplitAt(qs, k);
    TotalPointsAppend(a + [qs[k]], b);
    TotalPointsAppend(a, [qs[k]]);
    TotalPointsAppend(a, b);
    TotalPointsSingle(qs[k]);
  }

  /** With unique ids, removing the question at `k` lowers the total by its
      points. */
  lemma RemoveQuestionLowersTotal(qs: seq<Question>, k: nat)
    requires k < |qs| && UniqueIds(qs)
    ensures TotalPoints(RemoveQuestion(qs, qs[k].id)) == TotalPoints(qs) - qs[k].points
  {
    RemoveQuestionAt(qs, k);
    TotalPointsWithout(qs, k);
  }

  // ---------------------------------------------------------------------------
  // Editing a question's fields
  // ---------------------------------------------------------------------------

  /** The three fields the editor's inputs write through `updateQuestion`. */
  datatype Field = QuestionText(text: string) | Points(points: int) | CorrectOption(index: int)

  /** `{ ...q, [field]: value }` */
  function SetField(q: Question, f: Field): Question {
    match f
    case QuestionText(t) => q.(text := t)
    case Points(p) => q.(points := p)
    case CorrectOption(c) => q.(correctOption := c)
  }

  /** `updateQuestion`: the named field of every question with that id takes
      the value as given, without any range check. */
  function UpdateQuestion(qs: seq<Question>, id: QuestionId, f: Field): (r: seq<Question>)
    ensures OnlyMatchingChanged(qs, r, id)
    ensures !HasId(qs, id) ==> r == qs
    ensures forall k :: 0 <= k < |qs| && qs[k].id == id ==>
      && r[k].options == qs[k].options
      && r[k].text == (if f.QuestionText? then f.text else qs[k].text)
      && r[k].points == (if f.Points? then f.points else qs[k].points)
      && r[k].correctOption == (if f.CorrectOption? then f.index else qs[k].correctOption)
  {
    MapWhere(qs, id, q => SetField(q, f))
  }

  // ---------------------------------------------------------------------------
  // Editing the options of a question
  // ---------------------------------------------------------------------------

  /** `updateOption`: writes `newOptions[index]` with no range check, so the
      index must already be one of the question's options. */
  function UpdateOption(qs: seq<Question>, id: QuestionId, index: int, value: string): (r: seq<Question>)
    requires forall k :: 0 <= k < |qs| && qs[k].id == id ==> 0 <= index < |qs[k].options|
    ensures OnlyMatchingChanged(qs, r, id)
    ensures !HasId(qs, id) ==> r == qs
    ensures forall k :: 0 <= k < |qs| && qs[k].id == id ==>
      && |r[k].options| == |qs[k].options|
      && r[k].options[index] == value
      && (forall j :: 0 <= j < |qs[k].options| && j != index ==> r[k].options[j] == qs[k].options[j])
      && r[k].text == qs[k].text && r[k].correctOption == qs[k].correctOption
      && r[k].points == qs[k].points
  {
    MapWhere(qs, id, (q: Question) requires 0 <= index < |q.options| => q.(options := q.options[index := value]))
  }

  /** One more empty option, unless the question already has MaxOptions. */
  function WithExtraOption(q: Question): Question {
    if |q.options| < MaxOptions then q.(options := q.options + [""]) else q
  }

  /** `addOption` */
  function AddOption(qs: seq<Question>, id: QuestionId): (r: seq<Question>)
    ensures OnlyMatchingChanged(qs, r, id)
    ensures !HasId(qs, id) ==> r == qs
    ensures forall k :: 0 <= k < |qs| && qs[k].id == id && |qs[k].options| < MaxOptions ==>
      r[k] == qs[k].(options := qs[k].options + [""])
    ensures forall k :: 0 <= k < |qs| && qs[k].id == id && |qs[k].options| >= MaxOptions ==>
      r[k] == qs[k]
    ensures forall k :: 0 <= k < |qs| && |qs[k].options| <= MaxOptions ==>
      |r[k].options| <= MaxOptions
  {
    MapWhere(qs, id, WithExtraOption)
  }

  /** `options.filter((_, j) => j !== i)`: an index that names no option
      removes nothing. */
  function Without(s: seq<string>, i: int): (r: seq<string>)
    ensures 0 <= i < |s| ==> |r| == |s| - 1
    ensures 0 <= i < |s| ==> forall j :: 0 <= j < i ==> r[j] == s[j]
    ensures 0 <= i < |s| ==> forall j :: i <= j < |r| ==> r[j] == s[j + 1]
    ensures !(0 <= i < |s|) ==> r == s
    ensures 0 <= i < |s| ==> multiset(r) + multiset{s[i]} == multiset(s)
  {
    if 0 <= i < |s| then
      assert s == s[..i] + [s[i]] + s[i + 1..];
      s[..i] + s[i + 1..]
    else s
  }

  /** The selected answer after option `i` is removed: one earlier when `i`
      is at or before it, never below 0. */
  function ShiftedCorrect(c: int, i: int): (r: int)
    ensures c >= i && c > 0 ==> r == c - 1
    ensures c >= i && c <= 0 ==> r == 0
    ensures c < i ==> r == c
    ensures 0 <= c ==> 0 <= r <= c && c - 1 <= r
  {
    if c >= i then (if c - 1 > 0 then c - 1 else 0) else c
  }

  /** Option `i` removed, unless only MinOptions are left. */
  function WithoutOption(q: Question, i: int): Question {
    if |q.options| > MinOptions then
      q.(options := Without(q.options, i), correctOption := ShiftedCorrect(q.correctOption, i))
    else q
  }

  /** `removeOption` */
  function RemoveOption(qs: seq<Question>, id: QuestionId, i: int): (r: seq<Question>)
    ensures OnlyMatchingChanged(qs, r, id)
    ensures !HasId(qs, id) ==> r == qs
    ensures forall k :: 0 <= k < |qs| && qs[k].id == id && |qs[k].options| <= MinOptions ==>
      r[k] == qs[k]
    ensures forall k :: 0 <= k < |qs| && qs[k].id == id && |qs[k].options| > MinOptions ==>
      && r[k].options == Without(qs[k].options, i)
      && r[k].correctOption == ShiftedCorrect(qs[k].correctOption, i)
      && r[k].text == qs[k].text && r[k].points == qs[k].points
    ensures forall k :: 0 <= k < |qs| && |qs[k].options| >= MinOptions ==>
      |r[k].options| >= MinOptions
  {
    MapWhere(qs, id, q => WithoutOption(q, i))
  }

  // ---------------------------------------------------------------------------
  // What removing an option does to the selected answer
  // ---------------------------------------------------------------------------

  /** Removing any option, at any index, keeps a question well formed: the
      count stays at least MinOptions and the selected answer stays a valid
      index into the shortened options. */
  lemma WithoutOptionKeepsWellFormed(q: Question, i: int)
    requires WellFormedQuestion(q)
    ensures WellFormedQuestion(WithoutOption(q, i))
  {
  }

  /** Removing an option other than the selected one keeps the same answer
      text selected; removing the selected one selects the option before it,
      or, when it was the first, the option that followed it. */
  lemma WithoutOptionKeepsSelectedAnswer(q: Question, i: int)
    requires WellFormedQuestion(q) && |q.options| > MinOptions && 0 <= i < |q.options|
    ensures var r := WithoutOption(q, i);
      && (i != q.correctOption ==> r.options[r.correctOption] == q.options[q.correctOption])
      && (i == q.correctOption && i > 0 ==> r.options[r.correctOption] == q.options[i - 1])
      && (i == q.correctOption && i == 0 ==> r.options[r.correctOption] == q.options[1])
  {
  }

  // ---------------------------------------------------------------------------
  // Every handler keeps the list well formed
  // ---------------------------------------------------------------------------

  /** A list edit that only touches matching questions, keeps ids and leaves
      each touched question well formed keeps the whole list well formed. */
  lemma FrameKeepsWellFormed(qs: seq<Question>, rs: seq<Question>, id: QuestionId)
    requires WellFormedQuestions(qs) && OnlyMatchingChanged(qs, rs, id)
    requires forall k :: 0 <= k < |qs| && qs[k].id == id ==> WellFormedQuestion(rs[k])
    ensures WellFormedQuestions(rs)
  {
    forall k | 0 <= k < |rs| ensures WellFormedQuestion(rs[k]) {
      if qs[k].id != id {
        assert rs[k] == qs[k];
      }
    }
  }

  /** `addQuestion` with an id no question has yet keeps the list well formed. */
  lemma AddQuestionKeepsWellFormed(qs: seq<Question>, freshId: QuestionId)
    requires WellFormedQuestions(qs) && !HasId(qs, freshId)
    ensures WellFormedQuestions(AddQuestion(qs, freshId))
  {
    var r := AddQuestion(qs, freshId);
    forall i, j | 0 <= i < j < |r| ensures r[i].id != r[j].id {
      assert r[i] == qs[i];
      if j == |qs| {
        assert r[j].id == freshId;
      } else {
        assert r[j] == qs[j];
      }
    }
  }

  /** Removing questions never makes two ids collide. */
  lemma {:induction false} RemoveQuestionKeepsUniqueIds(qs: seq<Question>, id: QuestionId)
    requires UniqueIds(qs)
    ensures UniqueIds(RemoveQuestion(qs, id))
    decreases |qs|
  {
    if qs != [] {
      var tail := qs[1..];
      assert UniqueIds(tail) by {
        forall i, j | 0 <= i < j < |tail| ensures tail[i].id != tail[j].id {
          assert tail[i] == qs[i + 1] && tail[j] == qs[j + 1];
        }
      }
      RemoveQuestionKeepsUniqueIds(tail, id);
      var rest := RemoveQuestion(tail, id);
      if qs[0].id != id {
        forall m | 0 <= m < |rest| ensures rest[m].id != qs[0].id {
          assert rest[m] in tail;
          var n :| 0 <= n < |tail| && tail[n] == rest[m];
          assert qs[n + 1] == rest[m];
        }
        ConsKeepsUniqueIds(qs[0], rest);
      }
    }
  }

  lemma ConsKeepsUniqueIds(q: Question, rest: seq<Question>)
    requires UniqueIds(rest)
    requires forall m :: 0 <= m < |rest| ==> rest[m].id != q.id
    ensures UniqueIds([q] + rest)
  {
    var r := [q] + rest;
    forall i, j | 0 <= i < j < |r| ensures r[i].id != r[j].id {
      assert r[j] == rest[j - 1];
      if i > 0 {
        assert r[i] == rest[i - 1];
      }
    }
  }

  /** `removeQuestion` keeps the list well formed. */
  lemma RemoveQuestionKeepsWellFormed(qs: seq<Question>, id: QuestionId)
    requires WellFormedQuestions(qs)
    ensures WellFormedQuestions(RemoveQuestion(qs, id))
  {
    var r := RemoveQuestion(qs, id);
    RemoveQuestionKeepsUniqueIds(qs, id);
    forall k | 0 <= k < |r| ensures WellFormedQuestion(r[k]) {
      assert r[k] in qs;
    }
  }

  /** A field value the editor's own inputs can write: points that are not 0
      (the coercion guarantees it) and an answer index that names one of the
      question's options (the radio buttons only offer those). */
  predicate FieldFits(qs: seq<Question>, id: QuestionId, f: Field) {
    match f
    case QuestionText(_) => true
    case Points(p) => p != 0
    case CorrectOption(c) => forall k :: 0 <= k < |qs| && qs[k].id == id ==> 0 <= c < |qs[k].options|
  }

  /** `updateQuestion` keeps the list well formed when the value fits. */
  lemma UpdateQuestionKeepsWellFormed(qs: seq<Question>, id: QuestionId, f: Field)
    requires WellFormedQuestions(qs) && FieldFits(qs, id, f)
    ensures WellFormedQuestions(UpdateQuestion(qs, id, f))
  {
    FrameKeepsWellFormed(qs, UpdateQuestion(qs, id, f), id);
  }

  /** `updateOption` keeps the list well formed. */
  lemma UpdateOptionKeepsWellFormed(qs: seq<Question>, id: QuestionId, index: int, value: string)
    requires WellFormedQuestions(qs)
    requires forall k :: 0 <= k < |qs| && qs[k].id == id ==> 0 <= index < |qs[k].options|
    ensures WellFormedQuestions(UpdateOption(qs, id, index, value))
  {
    FrameKeepsWellFormed(qs, UpdateOption(qs, id, index, value), id);
  }

  /** `addOption` keeps the list well formed: no question goes past MaxOptions. */
  lemma AddOptionKeepsWellFormed(qs: seq<Question>, id: QuestionId)
    requires WellFormedQuestions(qs)
    ensures WellFormedQuestions(AddOption(qs, id))
  {
    FrameKeepsWellFormed(qs, AddOption(qs, id), id);
  }

  /** `removeOption` keeps the list well formed: no question drops below
      MinOptions and every selected answer stays a valid index. */
  lemma RemoveOptionKeepsWellFormed(qs: seq<Question>, id: QuestionId, i: int)
    requires WellFormedQuestions(qs)
    ensures WellFormedQuestions(RemoveOption(qs, id, i))
  {
    var r := RemoveOption(qs, id, i);
    forall k | 0 <= k < |qs| && qs[k].id == id ensures WellFormedQuestion(r[k]) {
      WithoutOptionKeepsWellFormed(qs[k], i);
    }
    FrameKeepsWellFormed(qs, r, id);
  }

  // ---------------------------------------------------------------------------
  // What the handlers do to the point total
  // ---------------------------------------------------------------------------

  /** Adding or removing an option, at any index, and editing a question's
      text or selected answer never change the point total. */
  lemma OptionEditsKeepTotalPoints(qs: seq<Question>, id: QuestionId, i: int, text: string)
    ensures TotalPoints(AddOption(qs, id)) == TotalPoints(qs)
    ensures TotalPoints(RemoveOption(qs, id, i)) == TotalPoints(qs)
    ensures TotalPoints(UpdateQuestion(qs, id, QuestionText(text))) == TotalPoints(qs)
    ensures TotalPoints(UpdateQuestion(qs, id, CorrectOption(i))) == TotalPoints(qs)
  {
    TotalPointsSamePoints(qs, AddOption(qs, id));
    TotalPointsSamePoints(qs, RemoveOption(qs, id, i));
    TotalPointsSamePoints(qs, UpdateQuestion(qs, id, QuestionText(text)));
    TotalPointsSamePoints(qs, UpdateQuestion(qs, id, CorrectOption(i)));
  }

  /** Editing an option's text never changes the point total. */
  lemma UpdateOptionKeepsTotalPoints(qs: seq<Question>, id: QuestionId, i: int, text: string)
    requires forall k :: 0 <= k < |qs| && qs[k].id == id ==> 0 <= i < |qs[k].options|
    ensures TotalPoints(UpdateOption(qs, id, i, text)) == TotalPoints(qs)
  {
    TotalPointsSamePoints(qs, UpdateOption(qs, id, i, text));
  }

  /** With unique ids, setting one question's points moves the total by the
      difference between its new and old points. */
  lemma UpdatePointsMovesTotal(qs: seq<Question>, k: nat, p: int)
    requires k < |qs| && UniqueIds(qs)
    ensures TotalPoints(UpdateQuestion(qs, qs[k].id, Points(p))) == TotalPoints(qs) - qs[k].points + p
  {
    TotalPointsChangeOne(qs, UpdateQuestion(qs, qs[k].id, Points(p)), k);
  }
}
