/** The main layout's state reducers: notifications, the answer feed with its
    pagination cursor, and the profile context. Each handler maps the previous
    state to the next one. */
module MainLayout {
  import opened Wrappers
  import opened Dto
  import Lists

  /** A notification payload; `UnknownNoti` is any other `notification_name`. */
  datatype Noti =
    | AnswerOnMyQuestion(answerId: string)
    | ReadAllNotifications
    | DeleteAllNotifications
    | UnknownNoti(name: string)

  datatype NotificationBox = NotificationBox(notifications: seq<Noti>, unread_count: int)

  function Notes(prev: Option<NotificationBox>): seq<Noti>
  {
    if prev.Some? then prev.value.notifications else []
  }

  function Unread(prev: Option<NotificationBox>): int
  {
    if prev.Some? then prev.value.unread_count else 0
  }

  /** `onNotiEv`. */
  function OnNotiEv(prev: Option<NotificationBox>, n: Noti): (r: Option<NotificationBox>)
    ensures n.UnknownNoti? ==> r == prev
    ensures !n.UnknownNoti? ==> r.Some?
    ensures n.AnswerOnMyQuestion? ==>
      r.Some? && r.value.notifications == [n] + Notes(prev) && r.value.unread_count == Unread(prev) + 1
    ensures n.ReadAllNotifications? ==>
      r.Some? && r.value.notifications == Notes(prev) && r.value.unread_count == 0
    ensures n.DeleteAllNotifications? ==> r == Some(NotificationBox([], 0))
  {
    match n
    case AnswerOnMyQuestion(_) => Some(NotificationBox([n] + Notes(prev), Unread(prev) + 1))
    case ReadAllNotifications => Some(NotificationBox(Notes(prev), 0))
    case DeleteAllNotifications => Some(NotificationBox([], 0))
    case UnknownNoti(_) => prev
  }

  function ApplyNotis(prev: Option<NotificationBox>, ns: seq<Noti>): Option<NotificationBox>
    decreases |ns|
  {
    if ns == [] then prev else ApplyNotis(OnNotiEv(prev, ns[0]), ns[1..])
  }

  function Reverse<T>(s: seq<T>): (r: seq<T>)
    ensures |r| == |s|
  {
    if s == [] then [] else Reverse(s[1..]) + [s[0]]
  }

  /** A run of answer notifications on top of a read box counts each one exactly
      once and lists them newest first. */
  lemma {:induction false} AnswerNotisCount(prev: Option<NotificationBox>, ns: seq<Noti>)
    requires forall i :: 0 <= i < |ns| ==> ns[i].AnswerOnMyQuestion?
    ensures ns != [] ==> ApplyNotis(prev, ns).Some?
    ensures Unread(ApplyNotis(prev, ns)) == Unread(prev) + |ns|
    ensures Notes(ApplyNotis(prev, ns)) == Reverse(ns) + Notes(prev)
    decreases |ns|
  {
    if ns != [] {
      var next := OnNotiEv(prev, ns[0]);
      AnswerNotisCount(next, ns[1..]);
      assert ns == [ns[0]] + ns[1..];
      assert Reverse(ns) == Reverse(ns[1..]) + [ns[0]];
    }
  }

  /** Reading all leaves nothing unread and keeps the notifications listed. */
  lemma ReadAllClearsCount(prev: Option<NotificationBox>)
    ensures Unread(ApplyNotis(prev, [ReadAllNotifications])) == 0
    ensures Notes(ApplyNotis(prev, [ReadAllNotifications])) == Notes(prev)
  {
    assert [ReadAllNotifications][1..] == [];
  }

  /** The answer feed and its pagination state. `answers == None` is the null feed. */
  datatype Feed = Feed(answers: Option<seq<AnswerDto>>, loading: bool, untilId: Option<string>)

  const InitialFeedState := Feed(None, true, None)

  function Ids(s: seq<AnswerDto>): seq<string>
  {
    Lists.Map(s, (a: AnswerDto) => a.id)
  }

  /** The first page (`sort: DESC, limit: 25`): an empty page ends loading with an
      empty feed; otherwise the feed is the page and the cursor its last id. */
  function InitialFetch(page: seq<AnswerDto>): (f: Feed)
    ensures page == [] ==> f == Feed(Some([]), false, None)
    ensures page != [] ==> f.answers == Some(page) && f.loading && f.untilId == Some(page[|page| - 1].id)
  {
    if page == [] then Feed(Some([]), false, None)
    else Feed(Some(page), true, Some(page[|page| - 1].id))
  }

  /** `onFetchMoreEv` receiving a page. */
  function OnFetchMore(f: Feed, page: seq<AnswerDto>): (r: Feed)
    ensures page == [] ==> r == f.(loading := false)
    ensures page != [] ==>
      && r.loading == f.loading && r.untilId == Some(page[|page| - 1].id)
      && (f.answers.None? ==> r.answers.None?)
      && (f.answers.Some? ==> r.answers.Some? && |r.answers.value| == |f.answers.value| + |page|
                               && r.answers.value[..|f.answers.value|] == f.answers.value
                               && r.answers.value[|f.answers.value|..] == page)
  {
    if page == [] then f.(loading := false)
    else f.(answers := if f.answers.Some? then Some(f.answers.value + page) else None,
            untilId := Some(page[|page| - 1].id))
  }

  /** Once a non-empty page is appended, the cursor is the id of the feed's last answer. */
  lemma FetchMoreCursorIsLast(f: Feed, page: seq<AnswerDto>)
    requires page != [] && f.answers.Some?
    ensures var r := OnFetchMore(f, page);
      r.untilId == Some(Lists.Last(r.answers.value).id)
  {
  }

  /** `onAnswerCreated`. */
  function OnAnswerCreated(answers: Option<seq<AnswerDto>>, p: AnswerCreatedPayload): (r: Option<seq<AnswerDto>>)
    ensures p.hideFromMain ==> r == answers
    ensures !p.hideFromMain && answers.Some? ==> r == Some([p.answer] + answers.value)
    ensures !p.hideFromMain && answers.None? ==> r == Some([])
  {
    if p.hideFromMain then answers
    else if answers.Some? then Some([p.answer] + answers.value)
    else Some([])
  }

  /** On a null feed a visible answer is dropped: the feed becomes empty, not [answer]. */
  lemma NullFeedDropsAnswer(p: AnswerCreatedPayload)
    requires !p.hideFromMain
    ensures OnAnswerCreated(None, p) == Some([])
    ensures p.answer !in OnAnswerCreated(None, p).value
  {
  }

  function KeepAnswer(deletedId: string): AnswerDto -> bool
  {
    (a: AnswerDto) => a.id != deletedId
  }

  function KeepNoti(deletedId: string): Noti -> bool
  {
    (n: Noti) => !n.AnswerOnMyQuestion? || n.answerId != deletedId
  }

  /** `onAnswerDeleted` on the feed: every answer with that id goes, the rest keep
      their order, a null feed stays null. */
  function DeleteFromFeed(answers: Option<seq<AnswerDto>>, deletedId: string): (r: Option<seq<AnswerDto>>)
    ensures answers.None? <==> r.None?
    ensures r.Some? ==>
      && (forall i :: 0 <= i < |r.value| ==> r.value[i].id != deletedId && r.value[i] in answers.value)
      && (forall i :: 0 <= i < |answers.value| && answers.value[i].id != deletedId ==> answers.value[i] in r.value)
      && Lists.IsSubsequence(r.value, answers.value)
      && (forall a :: multiset(r.value)[a] == (if a.id != deletedId then multiset(answers.value)[a] else 0))
  {
    if answers.Some? then
      Lists.FilterKeepsOrder(answers.value, KeepAnswer(deletedId));
      Lists.FilterMultiset(answers.value, KeepAnswer(deletedId));
      Some(Lists.Filter(answers.value, KeepAnswer(deletedId)))
    else None
  }

  /** `onAnswerDeleted` on the notification box: only answer notifications for that
      id go; the unread count drops by one on every call. An absent box stays absent. */
  function DeleteFromNotis(prev: Option<NotificationBox>, deletedId: string): (r: Option<NotificationBox>)
    ensures prev.None? <==> r.None?
    ensures r.Some? ==>
      && r.value.unread_count == prev.value.unread_count - 1
      && (forall i :: 0 <= i < |r.value.notifications| ==>
            KeepNoti(deletedId)(r.value.notifications[i]) && r.value.notifications[i] in prev.value.notifications)
      && (forall i :: 0 <= i < |prev.value.notifications| && KeepNoti(deletedId)(prev.value.notifications[i]) ==>
            prev.value.notifications[i] in r.value.notifications)
      && Lists.IsSubsequence(r.value.notifications, prev.value.notifications)
      && (forall n :: multiset(r.value.notifications)[n] ==
            (if KeepNoti(deletedId)(n) then multiset(prev.value.notifications)[n] else 0))
  {
    if prev.Some? then
      Lists.FilterKeepsOrder(prev.value.notifications, KeepNoti(deletedId));
      Lists.FilterMultiset(prev.value.notifications, KeepNoti(deletedId));
      Some(NotificationBox(Lists.Filter(prev.value.notifications, KeepNoti(deletedId)), prev.value.unread_count - 1))
    else None
  }

  /** Deleting the same answer twice leaves the feed as deleting it once. */
  lemma DeleteFromFeedIdempotent(answers: Option<seq<AnswerDto>>, deletedId: string)
    ensures DeleteFromFeed(DeleteFromFeed(answers, deletedId), deletedId) == DeleteFromFeed(answers, deletedId)
  {
    if answers.Some? {
      Lists.FilterIdempotent(answers.value, KeepAnswer(deletedId));
    }
  }

  /** The notification list is idempotent too, but the unread count drops again; it
      can go below zero, even when no notification matched. */
  lemma DeleteFromNotisCountNotIdempotent(deletedId: string)
    ensures var once := DeleteFromNotis(Some(NotificationBox([], 0)), deletedId);
      var twice := DeleteFromNotis(once, deletedId);
      once.value.notifications == twice.value.notifications == []
      && once.value.unread_count == -1 && twice.value.unread_count == -2
  {
  }

  /** For any box, a repeated delete keeps the list and lowers the count once more. */
  lemma DeleteFromNotisRepeat(prev: NotificationBox, deletedId: string)
    ensures var once := DeleteFromNotis(Some(prev), deletedId).value;
      var twice := DeleteFromNotis(Some(once), deletedId).value;
      twice.notifications == once.notifications && twice.unread_count == once.unread_count - 1
  {
    Lists.FilterIdempotent(prev.notifications, KeepNoti(deletedId));
  }

  /** An answer created and then deleted leaves an existing feed as it was, when the
      feed held no answer with that id. */
  lemma CreateThenDelete(answers: seq<AnswerDto>, p: AnswerCreatedPayload)
    requires !p.hideFromMain
    requires forall i :: 0 <= i < |answers| ==> answers[i].id != p.answer.id
    ensures DeleteFromFeed(OnAnswerCreated(Some(answers), p), p.answer.id) == Some(answers)
  {
    var keep := KeepAnswer(p.answer.id);
    assert Lists.Filter([p.answer] + answers, keep) == Lists.Filter(answers, keep) by {
      assert ([p.answer] + answers)[1..] == answers;
    }
    Lists.FilterAllKept(answers, keep);
  }

  /** The layout's profile context and its own question count (0 until known). */
  datatype ProfileState = ProfileState(profile: Option<MyProfile>, questionsNum: int, loginChecked: bool)

  /** The initial profile fetch. */
  function ProfileFetched(fetched: Option<MyProfile>): (s: ProfileState)
    ensures s.profile == fetched && s.loginChecked
    ensures s.questionsNum == (if fetched.Some? then fetched.value.questions else 0)
  {
    ProfileState(fetched, if fetched.Some? then fetched.value.questions else 0, true)
  }

  /** `onProfileUpdateEvent`. */
  function OnProfileUpdate(s: ProfileState, patch: ProfilePatch): (r: ProfileState)
    ensures s.profile.None? <==> r.profile.None?
    ensures r.profile.Some? ==> r.profile.value == Merge(s.profile.value, patch)
    ensures patch.questions.None? ==> r.questionsNum == s.questionsNum
    ensures patch.questions.Some? ==> r.questionsNum == patch.questions.value
    ensures r.loginChecked == s.loginChecked
  {
    s.(profile := if s.profile.Some? then Some(Merge(s.profile.value, patch)) else None,
       questionsNum := patch.questions.GetOr(s.questionsNum))
  }

  /** A count-only update keeps every other profile field. */
  lemma CountUpdateKeepsProfile(s: ProfileState, n: int)
    requires s.profile.Some?
    ensures OnProfileUpdate(s, QuestionsPatch(n)).profile == Some(s.profile.value.(questions := n))
    ensures OnProfileUpdate(s, QuestionsPatch(n)).questionsNum == n
  {
    MergeQuestionsOnly(s.profile.value, n);
  }
}
