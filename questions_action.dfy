/** The answer-publication pipeline (`postAnswer`), its two federated adapters
    (`mkMisskeyNote`, `mastodonToot`) and `deleteQuestion`. The verified caller
    handle, the validator's verdict and the federated instance's reply are inputs. */
module QuestionsAction {
  import opened Wrappers
  import opened Text
  import opened Dto
  import opened Store

  const NsfwWarning := "⚠️ この質問はNSFWです！ #neo_quesdon"
  const QuestionerLabel := "質問者:"
  const Hashtag := "#neo_quesdon"

  /** `if (q.questioner)`: an empty questioner name counts as anonymous. */
  predicate HasQuestioner(questioner: Option<string>)
  {
    questioner.Some? && questioner.value != ""
  }

  function QuestionerLine(questioner: Option<string>): string
  {
    if HasQuestioner(questioner) then QuestionerLabel + questioner.value + "\n" else ""
  }

  /** The content warning of the post. */
  function PostTitle(nsfw: bool, question: string): (title: string)
    ensures nsfw ==> title == NsfwWarning
    ensures !nsfw ==> StartsWith(title, "Q: ") && EndsWith(title, " " + Hashtag)
    ensures !nsfw ==> |title| == |question| + 16 && title[3..|title| - 13] == question
  {
    if nsfw then NsfwWarning else "Q: " + question + " " + Hashtag
  }

  /** The question line, which only an NSFW post carries in its body. The label
      has no space after the colon when a questioner line precedes it. */
  function QuestionPart(nsfw: bool, questioner: Option<string>, question: string): string
  {
    if nsfw then (if HasQuestioner(questioner) then "Q:" else "Q: ") + question + "\n" else ""
  }

  lemma ConcatFacts(a: string, b: string)
    ensures StartsWith(a + b, a) && EndsWith(a + b, b) && (a + b)[|a|..] == b
  {
    assert (a + b)[..|a|] == a;
  }

  lemma LayoutOfThree(line: string, qPart: string, aPart: string)
    ensures StartsWith(line + qPart + aPart, line) && EndsWith(line + qPart + aPart, aPart)
    ensures (line + qPart + aPart)[|line|..] == qPart + aPart
  {
    ConcatFacts(line, qPart + aPart);
    ConcatFacts(line + qPart, aPart);
    assert line + (qPart + aPart) == line + qPart + aPart;
  }

  /** What follows the questioner line starts with `Q:` exactly on an NSFW post. */
  lemma QuestionPartLeads(nsfw: bool, questioner: Option<string>, question: string, aPart: string)
    requires StartsWith(aPart, "A:")
    ensures var rest := QuestionPart(nsfw, questioner, question) + aPart;
      && (StartsWith(rest, "Q:") <==> nsfw)
      && (nsfw ==> StartsWith(rest, QuestionPart(nsfw, questioner, question)))
      && rest[0] != QuestionerLabel[0]
  {
    var qPart := QuestionPart(nsfw, questioner, question);
    ConcatFacts(qPart, aPart);
    if nsfw {
      assert qPart[..2] == "Q:";
      assert (qPart + aPart)[..2] == qPart[..2];
    } else {
      assert qPart + aPart == aPart;
    }
  }

  /** The text starts with the questioner label exactly when there is a questioner line. */
  lemma LabelLeads(questioner: Option<string>, rest: string)
    requires |rest| >= 1 && rest[0] != QuestionerLabel[0]
    ensures StartsWith(QuestionerLine(questioner) + rest, QuestionerLabel) <==> HasQuestioner(questioner)
  {
    var line := QuestionerLine(questioner);
    if HasQuestioner(questioner) {
      assert line == QuestionerLabel + questioner.value + "\n";
      assert line[..|QuestionerLabel|] == QuestionerLabel;
      assert (line + rest)[..|QuestionerLabel|] == line[..|QuestionerLabel|];
    } else {
      assert line + rest == rest;
    }
  }

  /** The body of the post. */
  function PostText(nsfw: bool, questioner: Option<string>, question: string, answer: string, answerUrl: string): (text: string)
    ensures EndsWith(text, "A: " + answer + "\n" + Hashtag + " " + answerUrl)
    ensures StartsWith(text, QuestionerLabel) <==> HasQuestioner(questioner)
    ensures StartsWith(text, QuestionerLine(questioner))
    ensures StartsWith(text[|QuestionerLine(questioner)|..], "Q:") <==> nsfw
    ensures nsfw ==> StartsWith(text[|QuestionerLine(questioner)|..], QuestionPart(nsfw, questioner, question))
  {
    var line := QuestionerLine(questioner);
    var qPart := QuestionPart(nsfw, questioner, question);
    var aPart := "A: " + answer + "\n" + Hashtag + " " + answerUrl;
    assert aPart[..2] == "A:";
    LayoutOfThree(line, qPart, aPart);
    QuestionPartLeads(nsfw, questioner, question, aPart);
    LabelLeads(questioner, qPart + aPart);
    assert line + (qPart + aPart) == line + qPart + aPart;
    line + qPart + aPart
  }

  /** Misskey's content-warning limit: more than 100 characters become the first 90 and five dots. */
  function TruncateCw(title: string): (cw: string)
    ensures |cw| <= 100
    ensures |title| <= 100 ==> cw == title
    ensures |title| > 100 ==> |cw| == 95 && cw[..90] == title[..90] && cw[90..] == "....."
  {
    if |title| > 100 then title[..90] + "....." else title
  }

  /** Truncating an already truncated warning changes nothing. */
  lemma TruncateCwIdempotent(title: string)
    ensures TruncateCw(TruncateCw(title)) == TruncateCw(title)
  {
  }

  /** Mastodon has no "home": it folds to "unlisted"; anything unknown becomes "public". */
  function MastodonVisibility(v: Visibility): (t: TootVisibility)
    ensures t == TootPrivate <==> v == Followers
    ensures t == TootUnlisted <==> v == Home
    ensures t == TootPublic <==> v == Public || v == OtherVisibility
  {
    match v
    case Public => TootPublic
    case Home => TootUnlisted
    case Followers => TootPrivate
    case OtherVisibility => TootPublic
  }

  /** What the remote instance replied: an HTTP status, or no reply at all. */
  datatype PostResponse = HttpStatus(code: int) | NetworkError

  datatype AdapterOutcome = Accepted | Revoked | Rejected

  /** 401 and 403 mean the user revoked the access token; any other non-2xx status or
      a network failure is a plain rejection. */
  function Classify(response: PostResponse): (o: AdapterOutcome)
    ensures o == Revoked <==> response.HttpStatus? && (response.code == 401 || response.code == 403)
    ensures o == Accepted <==> response.HttpStatus? && 200 <= response.code <= 299
  {
    match response
    case NetworkError => Rejected
    case HttpStatus(code) =>
      if code == 401 || code == 403 then Revoked
      else if 200 <= code <= 299 then Accepted
      else Rejected
  }

  /** The user table after the reply: on revocation the user's `jwtIndex` becomes the
      loaded value plus one; otherwise nothing changes. */
  function AfterReply(users: map<string, User>, user: User, response: PostResponse): map<string, User>
  {
    if Classify(response) == Revoked && user.handle in users
    then users[user.handle := users[user.handle].(jwtIndex := user.jwtIndex + 1)]
    else users
  }

  /** When the loaded user is the stored one, the reply never lowers any `jwtIndex`,
      raises the user's by exactly one on revocation, touches no other user, and
      leaves the whole table as loaded for any other reply. */
  lemma AfterReplyMonotone(users: map<string, User>, user: User, response: PostResponse)
    requires user.handle in users && users[user.handle] == user
    ensures AfterReply(users, user, response).Keys == users.Keys
    ensures forall h :: h in users ==> users[h].jwtIndex <= AfterReply(users, user, response)[h].jwtIndex
    ensures Classify(response) == Revoked <==> AfterReply(users, user, response)[user.handle].jwtIndex == user.jwtIndex + 1
    ensures forall h :: h in users && h != user.handle ==> AfterReply(users, user, response)[h] == users[h]
    ensures Classify(response) != Revoked ==> AfterReply(users, user, response) == users
  {
  }

  method RecordReply(db: Backend, user: User, response: PostResponse) returns (ok: bool)
    requires db.Valid()
    modifies db
    ensures db.Valid()
    ensures ok <==> Classify(response) == Accepted
    ensures db.State() == old(db.State()).(users := AfterReply(old(db.users), user, response))
  {
    var outcome := Classify(response);
    if outcome == Revoked {
      if user.handle in db.users {
        db.users := db.users[user.handle := db.users[user.handle].(jwtIndex := user.jwtIndex + 1)];
      }
      return false;
    }
    ok := outcome == Accepted;
  }

  /** `mkMisskeyNote`: sends the note with the truncated warning and classifies the reply. */
  method MkMisskeyNote(db: Backend, user: User, title: string, text: string, visibility: Visibility, response: PostResponse)
    returns (ok: bool)
    requires db.Valid()
    modifies db
    ensures db.Valid()
    ensures ok <==> Classify(response) == Accepted
    ensures db.State() == old(db.State()).(
      outbox := old(db.outbox) + [MisskeyNote(user.hostName, TruncateCw(title), text, visibility)],
      users := AfterReply(old(db.users), user, response))
  {
    var cw := TruncateCw(title);
    db.outbox := db.outbox + [MisskeyNote(user.hostName, cw, text, visibility)];
    ok := RecordReply(db, user, response);
  }

  /** `mastodonToot`: sends the status untruncated, with the mapped visibility. */
  method MastodonToot(db: Backend, user: User, title: string, text: string, visibility: Visibility, response: PostResponse)
    returns (ok: bool)
    requires db.Valid()
    modifies db
    ensures db.Valid()
    ensures ok <==> Classify(response) == Accepted
    ensures db.State() == old(db.State()).(
      outbox := old(db.outbox) + [Store.MastodonToot(user.hostName, title, text, MastodonVisibility(visibility))],
      users := AfterReply(old(db.users), user, response))
  {
    db.outbox := db.outbox + [Store.MastodonToot(user.hostName, title, text, MastodonVisibility(visibility))];
    ok := RecordReply(db, user, response);
  }

  datatype PostFailure =
    | InvalidAnswer | QuestionNotFound | NotAddressedToCaller
    | UserNotFound | ServerNotFound | ProfileNotFound | PostFailed

  /** `postAnswer`'s outcomes: an API error response, a thrown error, or success. */
  datatype PostResult = Done(answerId: nat) | ApiError(status: int) | Thrown(reason: PostFailure)

  /** Everything the pipeline loads before its first write. */
  datatype Context = Context(caller: string, q: Question, user: User, server: Server, profile: Profile)

  datatype Preflight = Stop(result: PostResult) | Go(ctx: Context)

  /** `if (!questionId)`: an absent id and the id 0 are both rejected. */
  predicate IdGiven(questionId: Option<int>)
  {
    questionId.Some? && questionId.value != 0
  }

  /** The read-only prefix of `postAnswer`, in the source's order: token, id, validation,
      question lookup, ownership, then the user, its instance and its profile. */
  function CheckRequest(
    questions: map<int, Question>, users: map<string, User>, servers: map<string, Server>,
    profiles: map<string, Profile>, caller: Option<string>, questionId: Option<int>, dtoValid: bool)
    : (p: Preflight)
    ensures p.Stop? ==> !p.result.Done? && p.result != Thrown(PostFailed)
    ensures p == Stop(ApiError(401)) <==> caller.None?
    ensures p == Stop(ApiError(400)) <==> caller.Some? && !IdGiven(questionId)
    ensures p == Stop(Thrown(NotAddressedToCaller)) <==>
      caller.Some? && IdGiven(questionId) && dtoValid && questionId.value in questions
      && questions[questionId.value].questioneeHandle != caller.value
    ensures p.Go? <==>
      && caller.Some? && IdGiven(questionId) && dtoValid && questionId.value in questions
      && questions[questionId.value].questioneeHandle == caller.value
      && caller.value in users && users[caller.value].hostName in servers && caller.value in profiles
    ensures p.Go? ==>
      && caller == Some(p.ctx.caller) && IdGiven(questionId) && dtoValid
      && questionId.value in questions && questions[questionId.value] == p.ctx.q
      && p.ctx.q.questioneeHandle == p.ctx.caller
      && p.ctx.caller in users && users[p.ctx.caller] == p.ctx.user
      && p.ctx.user.hostName in servers && servers[p.ctx.user.hostName] == p.ctx.server
      && p.ctx.caller in profiles && profiles[p.ctx.caller] == p.ctx.profile
  {
    if caller.None? then Stop(ApiError(401))
    else if !IdGiven(questionId) then Stop(ApiError(400))
    else if !dtoValid then Stop(Thrown(InvalidAnswer))
    else if questionId.value !in questions then Stop(Thrown(QuestionNotFound))
    else
      var q := questions[questionId.value];
      var handle := caller.value;
      if q.questioneeHandle != handle then Stop(Thrown(NotAddressedToCaller))
      else if handle !in users then Stop(Thrown(UserNotFound))
      else if users[handle].hostName !in servers then Stop(Thrown(ServerNotFound))
      else if handle !in profiles then Stop(Thrown(ProfileNotFound))
      else Go(Context(handle, q, users[handle], servers[users[handle].hostName], profiles[handle]))
  }

  /** Whether an adapter is called: posting is not switched off and the instance kind has one. */
  predicate Posting(c: Context)
  {
    !c.profile.stopPostAnswer && c.server.instanceType != OtherKind
  }

  function AnswerUrl(webUrl: string, handle: string, id: nat): string
  {
    webUrl + "/main/user/" + handle + "/" + NatToString(id)
  }

  function NewAnswer(c: Context, dto: CreateAnswerDto, id: nat): Answer
  {
    Answer(id, c.q.question, c.q.questioner, dto.answer, c.caller, dto.nsfwedAnswer)
  }

  /** The post the adapter for the user's instance kind sends. */
  function FederatedPostFor(c: Context, dto: CreateAnswerDto, webUrl: string, id: nat): FederatedPost
    requires c.server.instanceType != OtherKind
  {
    var title := PostTitle(dto.nsfwedAnswer, c.q.question);
    var text := PostText(dto.nsfwedAnswer, c.q.questioner, c.q.question, dto.answer, AnswerUrl(webUrl, c.user.handle, id));
    if c.server.instanceType == Mastodon
    then Store.MastodonToot(c.user.hostName, title, text, MastodonVisibility(dto.visibility))
    else MisskeyNote(c.user.hostName, TruncateCw(title), text, dto.visibility)
  }

  /** The state after step 4: unchanged when no adapter is called, otherwise the
      post is in the outbox and a revocation reply has raised the user's `jwtIndex`. */
  function AfterSend(t: Tables, c: Context, dto: CreateAnswerDto, webUrl: string, id: nat, response: PostResponse): Tables
  {
    if Posting(c)
    then t.(outbox := t.outbox + [FederatedPostFor(c, dto, webUrl, id)], users := AfterReply(t.users, c.user, response))
    else t
  }

  /** The state after steps 5 to 7. */
  function AfterSupersede(t: Tables, c: Context, answer: Answer): Tables
  {
    var questions := t.questions - {c.q.id};
    t.(
      questions := questions,
      published := t.published + [
        Publication(QuestionDeletedTopic, QuestionDeletedPayload(c.q.id, c.user.handle, QuestionCount(questions, c.caller))),
        Publication(AnswerCreatedTopic, AnswerPublished(answer))])
  }

  /** `postAnswer` as a function of the backend state before the call. */
  function PostAnswerSpec(
    t: Tables, caller: Option<string>, questionId: Option<int>, dto: CreateAnswerDto,
    dtoValid: bool, webUrl: string, response: PostResponse): (Tables, PostResult)
  {
    var pre := CheckRequest(t.questions, t.users, t.servers, t.profiles, caller, questionId, dtoValid);
    if pre.Stop? then (t, pre.result)
    else
      var c := pre.ctx;
      var id := t.nextAnswerId;
      var answer := NewAnswer(c, dto, id);
      var created := t.(answers := t.answers[id := answer], nextAnswerId := id + 1);
      var sent := AfterSend(created, c, dto, webUrl, id, response);
      if Posting(c) && Classify(response) != Accepted
      then (sent.(answers := sent.answers - {id}), Thrown(PostFailed))
      else (AfterSupersede(sent, c, answer), Done(id))
  }

  /** `postAnswer`: early failures write nothing; otherwise a provisional answer is
      created, a failed federated post deletes it again, and success deletes the
      question and publishes two events (see the lemmas below). */
  method PostAnswer(
    db: Backend, caller: Option<string>, questionId: Option<int>, dto: CreateAnswerDto,
    dtoValid: bool, webUrl: string, response: PostResponse)
    returns (r: PostResult)
    requires db.Valid()
    modifies db
    ensures db.Valid()
    ensures (db.State(), r) == PostAnswerSpec(old(db.State()), caller, questionId, dto, dtoValid, webUrl, response)
  {
    var pre := CheckRequest(db.questions, db.users, db.servers, db.profiles, caller, questionId, dtoValid);
    if pre.Stop? {
      return pre.result;
    }
    var c := pre.ctx;

    // the provisional answer
    var id := db.nextAnswerId;
    var answer := NewAnswer(c, dto, id);
    db.answers := db.answers[id := answer];
    db.nextAnswerId := id + 1;

    var ok := SendPost(db, c, dto, webUrl, id, response);
    if !ok {
      // compensation: the provisional answer is deleted again
      db.answers := db.answers - {id};
      return Thrown(PostFailed);
    }
    Supersede(db, c, answer);
    r := Done(id);
  }

  /** Step 4 of the pipeline: build the post and hand it to the adapter for the
      instance kind, unless posting is switched off or the kind has no adapter. */
  method SendPost(db: Backend, c: Context, dto: CreateAnswerDto, webUrl: string, id: nat, response: PostResponse)
    returns (ok: bool)
    requires db.Valid()
    modifies db
    ensures db.Valid()
    ensures ok <==> !Posting(c) || Classify(response) == Accepted
    ensures db.State() == AfterSend(old(db.State()), c, dto, webUrl, id, response)
  {
    ok := true;
    if !c.profile.stopPostAnswer {
      var answerUrl := AnswerUrl(webUrl, c.user.handle, id);
      var title := PostTitle(dto.nsfwedAnswer, c.q.question);
      var text := PostText(dto.nsfwedAnswer, c.q.questioner, c.q.question, dto.answer, answerUrl);
      match c.server.instanceType {
        case Misskey =>
          ok := MkMisskeyNote(db, c.user, title, text, dto.visibility, response);
        case Cherrypick =>
          ok := MkMisskeyNote(db, c.user, title, text, dto.visibility, response);
        case Mastodon =>
          ok := MastodonToot(db, c.user, title, text, dto.visibility, response);
        case OtherKind =>
      }
    }
  }

  /** Steps 5 to 7: delete the answered question, count the caller's remaining
      questions, publish the deletion and then the new answer. */
  method Supersede(db: Backend, c: Context, answer: Answer)
    requires db.Valid()
    modifies db
    ensures db.Valid()
    ensures db.State() == AfterSupersede(old(db.State()), c, answer)
  {
    db.questions := db.questions - {c.q.id};
    var count := QuestionCount(db.questions, c.caller);
    db.published := db.published + [Publication(QuestionDeletedTopic, QuestionDeletedPayload(c.q.id, c.user.handle, count))];
    db.published := db.published + [Publication(AnswerCreatedTopic, AnswerPublished(answer))];
  }

  /** A request stopped before the first write changes nothing. */
  lemma PostAnswerEarlyExit(
    t: Tables, caller: Option<string>, questionId: Option<int>, dto: CreateAnswerDto,
    dtoValid: bool, webUrl: string, response: PostResponse)
    requires CheckRequest(t.questions, t.users, t.servers, t.profiles, caller, questionId, dtoValid).Stop?
    ensures PostAnswerSpec(t, caller, questionId, dto, dtoValid, webUrl, response).0 == t
    ensures !PostAnswerSpec(t, caller, questionId, dto, dtoValid, webUrl, response).1.Done?
  {
  }

  /** No adapter is called when posting is off or the instance kind has none. */
  lemma PostAnswerWithoutAdapter(
    t: Tables, caller: Option<string>, questionId: Option<int>, dto: CreateAnswerDto,
    dtoValid: bool, webUrl: string, response: PostResponse)
    requires
      var pre := CheckRequest(t.questions, t.users, t.servers, t.profiles, caller, questionId, dtoValid);
      pre.Go? && !Posting(pre.ctx)
    ensures
      var (t', r) := PostAnswerSpec(t, caller, questionId, dto, dtoValid, webUrl, response);
      t'.outbox == t.outbox && t'.users == t.users && r == Done(t.nextAnswerId)
  {
  }

  /** Compensation: when the federated post fails, exactly the one post was sent, no
      answer survives, the question is still open, nothing is published, and the error
      is surfaced; a plain rejection changes no user, a revocation only as `AfterReply`. */
  lemma PostAnswerCompensation(
    t: Tables, caller: Option<string>, questionId: Option<int>, dto: CreateAnswerDto,
    dtoValid: bool, webUrl: string, response: PostResponse)
    requires WellFormed(t)
    requires
      var pre := CheckRequest(t.questions, t.users, t.servers, t.profiles, caller, questionId, dtoValid);
      pre.Go? && Posting(pre.ctx) && Classify(response) != Accepted
    ensures
      var pre := CheckRequest(t.questions, t.users, t.servers, t.profiles, caller, questionId, dtoValid);
      var (t', r) := PostAnswerSpec(t, caller, questionId, dto, dtoValid, webUrl, response);
      && r == Thrown(PostFailed)
      && t'.answers == t.answers && t'.questions == t.questions && t'.published == t.published
      && t'.outbox == t.outbox + [FederatedPostFor(pre.ctx, dto, webUrl, t.nextAnswerId)]
      && (Classify(response) == Rejected ==> t'.users == t.users)
      && (Classify(response) == Revoked ==> t'.users == AfterReply(t.users, pre.ctx.user, response))
  {
    var id := t.nextAnswerId;
    assert id !in t.answers;
    var pre := CheckRequest(t.questions, t.users, t.servers, t.profiles, caller, questionId, dtoValid);
    var answer := NewAnswer(pre.ctx, dto, id);
    assert t.answers[id := answer] - {id} == t.answers;
  }

  /** Success: the stored answer copies the question and questioner and names the
      caller; the question is gone; exactly two events are published, the deletion
      (with the count taken after the delete) before the new answer. */
  lemma PostAnswerSuccess(
    t: Tables, caller: Option<string>, questionId: Option<int>, dto: CreateAnswerDto,
    dtoValid: bool, webUrl: string, response: PostResponse)
    requires WellFormed(t)
    requires PostAnswerSpec(t, caller, questionId, dto, dtoValid, webUrl, response).1.Done?
    ensures
      var (t', r) := PostAnswerSpec(t, caller, questionId, dto, dtoValid, webUrl, response);
      var qid := questionId.value;
      var q := t.questions[qid];
      && caller.Some? && IdGiven(questionId) && qid in t.questions && q.questioneeHandle == caller.value
      && r.answerId == t.nextAnswerId
      && t'.answers == t.answers[r.answerId := Answer(r.answerId, q.question, q.questioner, dto.answer, caller.value, dto.nsfwedAnswer)]
      && qid !in t'.questions
      && t'.questions == t.questions - {q.id}
      && |t'.published| == |t.published| + 2
      && t'.published[..|t.published|] == t.published
      && t'.published[|t.published|] == Publication(QuestionDeletedTopic, QuestionDeletedPayload(q.id, caller.value, QuestionCount(t'.questions, caller.value)))
      && t'.published[|t.published| + 1] == Publication(AnswerCreatedTopic, AnswerPublished(t'.answers[r.answerId]))
  {
  }

  /** An accepted post: exactly one post goes to the outbox, no user changes, and the
      request succeeds with the provisional answer's id. */
  lemma PostAnswerAccepted(
    t: Tables, caller: Option<string>, questionId: Option<int>, dto: CreateAnswerDto,
    dtoValid: bool, webUrl: string, response: PostResponse)
    requires
      var pre := CheckRequest(t.questions, t.users, t.servers, t.profiles, caller, questionId, dtoValid);
      pre.Go? && Posting(pre.ctx) && Classify(response) == Accepted
    ensures
      var pre := CheckRequest(t.questions, t.users, t.servers, t.profiles, caller, questionId, dtoValid);
      var (t', r) := PostAnswerSpec(t, caller, questionId, dto, dtoValid, webUrl, response);
      && r == Done(t.nextAnswerId)
      && t'.outbox == t.outbox + [FederatedPostFor(pre.ctx, dto, webUrl, t.nextAnswerId)]
      && t'.users == t.users
  {
  }

  /** `jwtIndex` never decreases, whatever the outcome. */
  lemma PostAnswerJwtIndexMonotone(
    t: Tables, caller: Option<string>, questionId: Option<int>, dto: CreateAnswerDto,
    dtoValid: bool, webUrl: string, response: PostResponse)
    requires WellFormed(t)
    ensures
      var t' := PostAnswerSpec(t, caller, questionId, dto, dtoValid, webUrl, response).0;
      && t'.users.Keys == t.users.Keys
      && forall h :: h in t.users ==> t.users[h].jwtIndex <= t'.users[h].jwtIndex
  {
    var pre := CheckRequest(t.questions, t.users, t.servers, t.profiles, caller, questionId, dtoValid);
    if pre.Go? {
      AfterReplyMonotone(t.users, pre.ctx.user, response);
    }
  }

  /** A revocation reply raises the caller's `jwtIndex` by exactly one and still fails the request. */
  lemma PostAnswerRevocation(
    t: Tables, caller: Option<string>, questionId: Option<int>, dto: CreateAnswerDto,
    dtoValid: bool, webUrl: string, response: PostResponse)
    requires WellFormed(t)
    requires
      var pre := CheckRequest(t.questions, t.users, t.servers, t.profiles, caller, questionId, dtoValid);
      pre.Go? && Posting(pre.ctx) && Classify(response) == Revoked
    ensures
      var (t', r) := PostAnswerSpec(t, caller, questionId, dto, dtoValid, webUrl, response);
      r == Thrown(PostFailed) && t'.users[caller.value].jwtIndex == t.users[caller.value].jwtIndex + 1
  {
  }

  datatype DeleteFailure = TokenRejected | NoSuchQuestion | NotDeletable

  datatype DeleteResult = QuestionRemoved | DeleteThrown(reason: DeleteFailure)

  /** `deleteQuestion`: removes the caller's own question and publishes one
      `question-deleted-event` with the count taken after the delete; every failure
      leaves the backend untouched. */
  method DeleteQuestion(db: Backend, caller: Option<string>, id: int) returns (r: DeleteResult)
    requires db.Valid()
    modifies db
    ensures db.Valid()
    ensures r == DeleteThrown(TokenRejected) <==> caller.None?
    ensures r == DeleteThrown(NoSuchQuestion) <==> caller.Some? && id !in old(db.questions)
    ensures r == QuestionRemoved <==>
      caller.Some? && id in old(db.questions) && old(db.questions)[id].questioneeHandle == caller.value
    ensures r != QuestionRemoved ==> db.State() == old(db.State())
    ensures r == QuestionRemoved ==>
      db.State() == old(db.State()).(
        questions := old(db.questions) - {id},
        published := old(db.published) + [
          Publication(QuestionDeletedTopic, QuestionDeletedPayload(id, caller.value, QuestionCount(old(db.questions) - {id}, caller.value)))])
  {
    if caller.None? {
      return DeleteThrown(TokenRejected);
    }
    var handle := caller.value;
    if id !in db.questions {
      return DeleteThrown(NoSuchQuestion);
    }
    if db.questions[id].questioneeHandle != handle {
      return DeleteThrown(NotDeletable);
    }
    db.questions := db.questions - {id};
    var count := QuestionCount(db.questions, handle);
    db.published := db.published + [Publication(QuestionDeletedTopic, QuestionDeletedPayload(id, handle, count))];
    r := QuestionRemoved;
  }
}
