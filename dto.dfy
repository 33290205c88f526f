/** Optional values: JavaScript's `null`/`undefined` next to a present value. */
module Wrappers {
  datatype Option<+T> = None | Some(value: T) {
    function GetOr(default: T): T
    {
      match this
      case Some(v) => v
      case None => default
    }
  }
}

/** The data-transfer objects the client and the server exchange: the answer form,
    the question and answer records as the client sees them, the signed-in user's
    profile with its partial updates, and the WebSocket events. */
module Dto {
  import opened Wrappers

  /** The three post visibilities of the answer form; `OtherVisibility` stands for a
      form value outside them (the placeholder option, or no default). */
  datatype Visibility = Public | Home | Followers | OtherVisibility

  datatype CreateAnswerDto = CreateAnswerDto(answer: string, nsfwedAnswer: bool, visibility: Visibility)

  datatype QuestionDto = QuestionDto(id: int, question: string, questioner: Option<string>, questioneeHandle: string)

  datatype AnswerDto = AnswerDto(
    id: string, question: string, questioner: Option<string>, answer: string,
    answeredPersonHandle: string, nsfwedAnswer: bool)

  datatype AnswerCreatedPayload = AnswerCreatedPayload(answer: AnswerDto, hideFromMain: bool)

  /** The signed-in user's profile as the client keeps it. */
  datatype MyProfile = MyProfile(
    handle: string, questions: int,
    stopAnonQuestion: bool, stopNewQuestion: bool, stopNotiNewQuestion: bool, stopPostAnswer: bool,
    questionBoxName: string, defaultPostVisibility: Visibility, wordMuteList: seq<string>)

  /** A `Partial<userProfileMeDto>`: `None` is a field the update does not carry. */
  datatype ProfilePatch = ProfilePatch(
    questions: Option<int>,
    stopAnonQuestion: Option<bool>, stopNewQuestion: Option<bool>, stopNotiNewQuestion: Option<bool>,
    stopPostAnswer: Option<bool>, questionBoxName: Option<string>,
    defaultPostVisibility: Option<Visibility>, wordMuteList: Option<seq<string>>)

  const NoChange := ProfilePatch(None, None, None, None, None, None, None, None)

  function QuestionsPatch(n: int): ProfilePatch
  {
    NoChange.(questions := Some(n))
  }

  /** `{ ...prev, ...patch }`: every field the patch carries overrides, the others are kept. */
  function Merge(p: MyProfile, d: ProfilePatch): MyProfile
  {
    MyProfile(
      p.handle,
      d.questions.GetOr(p.questions),
      d.stopAnonQuestion.GetOr(p.stopAnonQuestion),
      d.stopNewQuestion.GetOr(p.stopNewQuestion),
      d.stopNotiNewQuestion.GetOr(p.stopNotiNewQuestion),
      d.stopPostAnswer.GetOr(p.stopPostAnswer),
      d.questionBoxName.GetOr(p.questionBoxName),
      d.defaultPostVisibility.GetOr(p.defaultPostVisibility),
      d.wordMuteList.GetOr(p.wordMuteList))
  }

  /** An update carrying nothing leaves the profile as it was. */
  lemma MergeNoChange(p: MyProfile)
    ensures Merge(p, NoChange) == p
  {
  }

  /** Applying the same update twice is applying it once. */
  lemma MergeIdempotent(p: MyProfile, d: ProfilePatch)
    ensures Merge(Merge(p, d), d) == Merge(p, d)
  {
  }

  /** A question-count update touches the count and nothing else. */
  lemma MergeQuestionsOnly(p: MyProfile, n: int)
    ensures Merge(p, QuestionsPatch(n)) == p.(questions := n)
  {
  }

  /** The `ev_name` tags of the WebSocket envelope. */
  datatype EvName = QuestionCreatedEv | QuestionDeletedEv | AnswerCreatedEv | AnswerDeletedEv | KeepAliveEv

  function EvNameText(k: EvName): string
  {
    match k
    case QuestionCreatedEv => "question-created-event"
    case QuestionDeletedEv => "question-deleted-event"
    case AnswerCreatedEv => "answer-created-event"
    case AnswerDeletedEv => "answer-deleted-event"
    case KeepAliveEv => "keep-alive"
  }

  /** The one decoding step at the socket boundary: a known tag, or nothing. */
  function ParseEvName(s: string): (r: Option<EvName>)
    ensures r.Some? ==> EvNameText(r.value) == s
    ensures r.None? ==> forall k: EvName :: EvNameText(k) != s
  {
    if s == "question-created-event" then Some(QuestionCreatedEv)
    else if s == "question-deleted-event" then Some(QuestionDeletedEv)
    else if s == "answer-created-event" then Some(AnswerCreatedEv)
    else if s == "answer-deleted-event" then Some(AnswerDeletedEv)
    else if s == "keep-alive" then Some(KeepAliveEv)
    else None
  }

  lemma ParseEvNameRoundTrip(k: EvName)
    ensures ParseEvName(EvNameText(k)) == Some(k)
  {
  }

  /** The `data` of each envelope kind. */
  datatype WsEvent =
    | QuestionCreated(question: QuestionDto, question_numbers: int)
    | QuestionDeleted(deleted_id: int, handle: string, question_numbers: int)
    | AnswerCreated(payload: AnswerCreatedPayload)
    | AnswerDeleted(deleted_answer_id: string)
    | KeepAlive

  function KindOf(e: WsEvent): EvName
  {
    match e
    case QuestionCreated(_, _) => QuestionCreatedEv
    case QuestionDeleted(_, _, _) => QuestionDeletedEv
    case AnswerCreated(_) => AnswerCreatedEv
    case AnswerDeleted(_) => AnswerDeletedEv
    case KeepAlive => KeepAliveEv
  }
}
