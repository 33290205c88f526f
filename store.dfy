/** The server's external state as the server actions see it: the database tables
    (questions, answers, users, profiles, known instances), the key-value store's
    login-session keys, the publish/subscribe broker (every publication appended to
    a log, in order) and the requests sent to federated instances (an outbox). */
module Store {
  import opened Wrappers
  import opened Dto

  datatype Question = Question(id: int, question: string, questioner: Option<string>, questioneeHandle: string)

  /** An answer keeps copies of the question text and questioner taken when it is created. */
  datatype Answer = Answer(
    id: nat, question: string, questioner: Option<string>, answer: string,
    answeredPersonHandle: string, nsfwedAnswer: bool)

  /** `jwtIndex` is the session generation: raising it invalidates every issued session token. */
  datatype User = User(
    handle: string, account: string, accountLower: string, hostName: string,
    name: seq<string>, token: string, userId: string, jwtIndex: int)

  datatype Profile = Profile(account: string, avatarUrl: string, name: seq<string>, stopPostAnswer: bool)

  datatype InstanceKind = Misskey | Cherrypick | Mastodon | OtherKind

  datatype Server = Server(instanceType: InstanceKind)

  datatype TootVisibility = TootPublic | TootUnlisted | TootPrivate

  /** A note (Misskey, CherryPick) or a status (Mastodon) sent to the user's instance. */
  datatype FederatedPost =
    | MisskeyNote(host: string, cw: string, text: string, visibility: Visibility)
    | MastodonToot(host: string, spoilerText: string, status: string, tootVisibility: TootVisibility)

  datatype BrokerPayload =
    | QuestionDeletedPayload(deleted_id: int, handle: string, question_numbers: nat)
    | AnswerPublished(answer: Answer)

  datatype Publication = Publication(topic: string, payload: BrokerPayload)

  const QuestionDeletedTopic := "question-deleted-event"
  const AnswerCreatedTopic := "answer-created-event"

  /** The number of open questions addressed to `handle`. */
  function QuestionCount(qs: map<int, Question>, handle: string): nat
  {
    |set id | id in qs && qs[id].questioneeHandle == handle|
  }

  /** Deleting one of a user's open questions lowers that user's count by exactly one. */
  lemma QuestionCountAfterDelete(qs: map<int, Question>, id: int, handle: string)
    requires id in qs && qs[id].questioneeHandle == handle
    ensures QuestionCount(qs - {id}, handle) == QuestionCount(qs, handle) - 1
  {
    var before := set i | i in qs && qs[i].questioneeHandle == handle;
    var after := set i | i in qs - {id} && (qs - {id})[i].questioneeHandle == handle;
    assert after == before - {id};
  }

  /** A snapshot of every part of the backend, to state what an action leaves alone. */
  datatype Tables = Tables(
    questions: map<int, Question>, answers: map<nat, Answer>, nextAnswerId: nat,
    users: map<string, User>, profiles: map<string, Profile>, servers: map<string, Server>,
    sessions: set<string>, published: seq<Publication>, outbox: seq<FederatedPost>)

  /** Questions and answers are stored under their own ids, every answer id was
      handed out before, users are stored under their handles, and every user has
      exactly one profile. */
  ghost predicate WellFormed(t: Tables)
  {
    && (forall id :: id in t.questions ==> t.questions[id].id == id)
    && (forall id :: id in t.answers ==> id < t.nextAnswerId && t.answers[id].id == id)
    && (forall h :: h in t.users ==> t.users[h].handle == h)
    && t.users.Keys == t.profiles.Keys
  }

  class Backend {
    var questions: map<int, Question>
    var answers: map<nat, Answer>
    var nextAnswerId: nat            // the id the next created answer receives
    var users: map<string, User>     // keyed by handle
    var profiles: map<string, Profile>  // keyed by handle
    var servers: map<string, Server>    // keyed by instance host
    var sessions: set<string>        // login-session keys held in the key-value store
    var published: seq<Publication>  // broker publications, oldest first
    var outbox: seq<FederatedPost>   // posts sent to federated instances, oldest first

    ghost predicate Valid()
      reads this
    {
      WellFormed(State())
    }

    function State(): Tables
      reads this
    {
      Tables(questions, answers, nextAnswerId, users, profiles, servers, sessions, published, outbox)
    }

    constructor ()
      ensures Valid()
      ensures State() == Tables(map[], map[], 0, map[], map[], map[], {}, [], [])
    {
      questions, answers, nextAnswerId := map[], map[], 0;
      users, profiles, servers := map[], map[], map[];
      sessions, published, outbox := {}, [], [];
    }
  }
}
