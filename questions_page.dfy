/** The pending-question page: the list of questions addressed to the user, kept
    current by question-created and question-deleted events. `None` is the null or
    undefined list (both falsy); an empty list is present. */
module QuestionsPage {
  import opened Wrappers
  import opened Dto
  import Lists

  /** The result of `fetchQuestions`, and whether the generic API-error handler ran. */
  datatype FetchResult = FetchResult(questions: Option<seq<QuestionDto>>, reportedError: bool)

  predicate StatusOk(status: int)
  {
    200 <= status <= 299
  }

  /** `fetchQuestions`: 401 yields null quietly; any other non-ok status reports the
      error and yields null; an ok reply yields its parsed body, or null when the body
      does not parse (`body == None`). */
  function FetchQuestions(status: int, body: Option<seq<QuestionDto>>): (r: FetchResult)
    ensures r.questions.Some? <==> StatusOk(status) && body.Some?
    ensures r.questions.Some? ==> r.questions == body
    ensures r.reportedError <==> status != 401 && !StatusOk(status)
  {
    if status == 401 then FetchResult(None, false)
    else if !StatusOk(status) then FetchResult(None, true)
    else FetchResult(body, false)
  }

  /** `onNewQuestionEvent`: prepend to a present list; a missing list becomes empty. */
  function OnNewQuestion(prev: Option<seq<QuestionDto>>, q: QuestionDto): (r: Option<seq<QuestionDto>>)
    ensures r.Some?
    ensures prev.Some? ==> |r.value| == |prev.value| + 1 && r.value[0] == q && r.value[1..] == prev.value
    ensures prev.None? ==> r.value == []
  {
    if prev.Some? then Some([q] + prev.value) else Some([])
  }

  function KeepQuestion(deletedId: int): QuestionDto -> bool
  {
    (q: QuestionDto) => q.id != deletedId
  }

  /** `onDeleteQuestionEvent`: every question with that id goes, the rest keep their
      order, a missing list stays missing. */
  function OnDeleteQuestion(prev: Option<seq<QuestionDto>>, deletedId: int): (r: Option<seq<QuestionDto>>)
    ensures prev.None? <==> r.None?
    ensures r.Some? ==>
      && (forall i :: 0 <= i < |r.value| ==> r.value[i].id != deletedId && r.value[i] in prev.value)
      && (forall i :: 0 <= i < |prev.value| && prev.value[i].id != deletedId ==> prev.value[i] in r.value)
      && Lists.IsSubsequence(r.value, prev.value)
      && (forall q :: multiset(r.value)[q] == (if q.id != deletedId then multiset(prev.value)[q] else 0))
  {
    if prev.Some? then
      Lists.FilterKeepsOrder(prev.value, KeepQuestion(deletedId));
      Lists.FilterMultiset(prev.value, KeepQuestion(deletedId));
      Some(Lists.Filter(prev.value, KeepQuestion(deletedId)))
    else None
  }

  /** The same delete event applied twice gives the list it gives once. */
  lemma OnDeleteQuestionIdempotent(prev: Option<seq<QuestionDto>>, deletedId: int)
    ensures OnDeleteQuestion(OnDeleteQuestion(prev, deletedId), deletedId) == OnDeleteQuestion(prev, deletedId)
  {
    if prev.Some? {
      Lists.FilterIdempotent(prev.value, KeepQuestion(deletedId));
    }
  }

  /** A question that arrives and is then deleted leaves a present list as it was,
      when no question in it had that id. */
  lemma NewThenDelete(prev: seq<QuestionDto>, q: QuestionDto)
    requires forall i :: 0 <= i < |prev| ==> prev[i].id != q.id
    ensures OnDeleteQuestion(OnNewQuestion(Some(prev), q), q.id) == Some(prev)
  {
    var keep := KeepQuestion(q.id);
    assert Lists.Filter([q] + prev, keep) == Lists.Filter(prev, keep) by {
      assert ([q] + prev)[1..] == prev;
    }
    Lists.FilterAllKept(prev, keep);
  }

  /** The first new-question event on a list that never loaded drops that question. */
  lemma NewQuestionOnMissingList(q: QuestionDto)
    ensures OnNewQuestion(None, q) == Some([])
    ensures OnNewQuestion(OnNewQuestion(None, q), q) == Some([q])
  {
    assert [q] + [] == [q];
  }
}
