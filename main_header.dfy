/** The page header's connection supervisor and WebSocket event dispatch. A periodic
    supervisor tick reconnects a dead socket at most five times, probes a live one,
    and stops itself after the fifth retry; opening a socket resets the retry count.
    Decoded events are forwarded to the in-page event bus. */
module MainHeader {
  import opened Wrappers
  import opened Dto

  const MaxRetries: nat := 5
  const BasePeriod: nat := 5000
  const PeriodStep: nat := 2000

  /** `WebSocket.readyState` 0..3. */
  datatype ReadyState = Connecting | Open | Closing | Closed

  /** `WebSocket.close()`: a connecting or open socket starts closing; otherwise nothing happens. */
  function CloseSocket(s: ReadyState): (r: ReadyState)
    ensures r == Closing || r == Closed
    ensures s == Closing || s == Closed ==> r == s
  {
    match s
    case Connecting => Closing
    case Open => Closing
    case Closing => Closing
    case Closed => Closed
  }

  /** The supervisor's own state: the retry counter, whether its interval is still
      armed, and how many connections have been opened so far. */
  datatype Supervisor = Supervisor(retries: nat, active: bool, attempts: nat)

  /** One tick of the interval. A cleared interval never fires. With the socket
      absent or CLOSED, fewer than five retries reconnect and count one more retry;
      otherwise the supervisor clears itself. A live socket is probed instead. */
  function TickSpec(s: Supervisor, socketDown: bool): (s': Supervisor)
    ensures s'.attempts <= s.attempts + 1
    ensures s'.attempts == s.attempts + 1 <==> s.active && socketDown && s.retries < MaxRetries
    ensures !s.active ==> s' == s
  {
    if !s.active then s
    else if socketDown then
      (if s.retries < MaxRetries then s.(retries := s.retries + 1, attempts := s.attempts + 1)
       else s.(active := false))
    else s
  }

  /** Ticks with no successful open in between; `downs[i]` says whether the socket
      was absent or CLOSED at tick i. */
  function Run(s: Supervisor, downs: seq<bool>): Supervisor
    decreases |downs|
  {
    if downs == [] then s else Run(TickSpec(s, downs[0]), downs[1..])
  }

  /** Between two successful opens at most five reconnections happen in all,
      however the ticks interleave with the socket's state. */
  lemma {:induction false} AtMostFiveReconnects(s: Supervisor, downs: seq<bool>)
    requires s.retries <= MaxRetries
    ensures Run(s, downs).retries <= MaxRetries
    ensures Run(s, downs).attempts - s.attempts <= MaxRetries - s.retries
    ensures Run(s, downs).attempts - s.attempts == Run(s, downs).retries - s.retries
    decreases |downs|
  {
    if downs != [] {
      AtMostFiveReconnects(TickSpec(s, downs[0]), downs[1..]);
    }
  }

  function AllDown(n: nat): (downs: seq<bool>)
    ensures |downs| == n && forall i :: 0 <= i < n ==> downs[i]
  {
    if n == 0 then [] else [true] + AllDown(n - 1)
  }

  /** With the socket dead at every tick, starting from a fresh counter: five ticks
      reconnect five times, and the sixth tick makes no attempt and stops the supervisor. */
  lemma {:induction false} SixthTickGivesUp(s: Supervisor)
    requires s.active && s.retries == 0
    ensures Run(s, AllDown(5)) == s.(retries := 5, attempts := s.attempts + 5)
    ensures Run(s, AllDown(6)) == s.(retries := 5, attempts := s.attempts + 5, active := false)
  {
    var s5 := s.(retries := 5, attempts := s.attempts + 5);
    RunAllDown(s, 5);
    assert Run(s, AllDown(5)) == s5;
    RunSplitLast(s, AllDown(5), true);
    assert AllDown(6) == AllDown(5) + [true];
  }

  lemma {:induction false} RunAllDown(s: Supervisor, n: nat)
    requires s.active && s.retries + n <= MaxRetries
    ensures Run(s, AllDown(n)) == s.(retries := s.retries + n, attempts := s.attempts + n)
    decreases n
  {
    if n > 0 {
      assert AllDown(n)[1..] == AllDown(n - 1);
      RunAllDown(TickSpec(s, true), n - 1);
    }
  }

  lemma {:induction false} RunSplitLast(s: Supervisor, downs: seq<bool>, d: bool)
    ensures Run(s, downs + [d]) == TickSpec(Run(s, downs), d)
    decreases |downs|
  {
    if downs == [] {
      assert [] + [d] == [d];
    } else {
      assert (downs + [d])[1..] == downs[1..] + [d];
      RunSplitLast(TickSpec(s, downs[0]), downs[1..], d);
    }
  }

  /** What the header hands to the in-page event bus. */
  datatype BusEvent =
    | ProfileUpdateReq(patch: ProfilePatch)
    | QuestionCreatedReq(question: QuestionDto, question_numbers: int)
    | QuestionDeletedReq(deleted_id: int, handle: string, question_numbers: int)
    | AnswerCreatedForward(payload: AnswerCreatedPayload)

  /** The header component's state. `profile` is the parent's profile state, written
      through the `setUserProfile` prop. */
  class Header {
    var profile: Option<MyProfile>
    var questionsNum: Option<int>
    var loginChecked: bool
    var sockets: seq<ReadyState>   // every socket this header created, oldest first
    var current: Option<nat>       // `websocket.current` as an index into sockets; None is null
    var retries: nat               // `ws_retry_counter`
    var supervising: bool          // the retry interval is armed
    var period: nat                // the interval's period, fixed when it is armed
    var probes: nat                // liveness probes sent
    var toastShown: bool
    var toastTimerArmed: bool
    var bus: seq<BusEvent>         // events handed to the in-page bus, oldest first

    /** At most one socket is held: every socket but the current one is closing or
        closed. The retry counter never exceeds five. */
    ghost predicate Valid()
      reads this
    {
      && (current.Some? ==> current.value < |sockets|)
      && (forall i :: 0 <= i < |sockets| && Some(i) != current ==> sockets[i] in {Closing, Closed})
      && retries <= MaxRetries
    }

    predicate SocketDown()
      reads this
      requires Valid()
    {
      current.None? || sockets[current.value] == Closed
    }

    function Sup(): Supervisor
      reads this
    {
      Supervisor(retries, supervising, |sockets|)
    }

    constructor ()
      ensures Valid()
      ensures profile.None? && questionsNum.None? && !loginChecked
      ensures sockets == [] && current.None? && retries == 0 && !supervising && probes == 0
      ensures !toastShown && !toastTimerArmed && bus == []
    {
      profile, questionsNum, loginChecked := None, None, false;
      sockets, current, retries, supervising, period, probes := [], None, 0, false, 0, 0;
      toastShown, toastTimerArmed, bus := false, false, [];
    }

    /** The first profile fetch: the profile (or nothing) is stored, the count taken
        from it, and the login counts as checked. */
    method ProfileFetched(fetched: Option<MyProfile>)
      requires Valid()
      modifies this
      ensures Valid()
      ensures profile == fetched && loginChecked
      ensures questionsNum == (if fetched.Some? then Some(fetched.value.questions) else None)
      ensures sockets == old(sockets) && current == old(current) && retries == old(retries)
      ensures supervising == old(supervising) && period == old(period) && probes == old(probes) && bus == old(bus)
      ensures toastShown == old(toastShown) && toastTimerArmed == old(toastTimerArmed)
    {
      profile := fetched;
      questionsNum := if fetched.Some? then Some(fetched.value.questions) else None;
      loginChecked := true;
    }

    /** `webSocketManager`: close the held socket, if any, and open a new one. */
    method Connect()
      requires Valid()
      modifies this
      ensures Valid()
      ensures |sockets| == |old(sockets)| + 1 && current == Some(|old(sockets)|)
      ensures sockets[|old(sockets)|] == Connecting
      ensures old(current).None? ==> sockets[..|old(sockets)|] == old(sockets)
      ensures old(current).Some? ==>
        sockets[..|old(sockets)|] == old(sockets)[old(current).value := CloseSocket(old(sockets)[old(current).value])]
      ensures retries == old(retries) && supervising == old(supervising) && period == old(period)
      ensures probes == old(probes) && bus == old(bus) && profile == old(profile) && questionsNum == old(questionsNum)
      ensures loginChecked == old(loginChecked) && toastShown == old(toastShown) && toastTimerArmed == old(toastTimerArmed)
    {
      if current.Some? {
        sockets := sockets[current.value := CloseSocket(sockets[current.value])];
      }
      sockets := sockets + [Connecting];
      current := Some(|sockets| - 1);
    }

    /** The effect keyed on `loginChecked`: nothing before the login is checked, then
        the interval is armed with the period computed once from the counter, and a
        first connection is opened. */
    method Start()
      requires Valid()
      modifies this
      ensures Valid()
      ensures !old(loginChecked) ==> unchanged(this)
      ensures old(loginChecked) ==>
        && supervising && period == BasePeriod + old(retries) * PeriodStep
        && retries == old(retries) && |sockets| == |old(sockets)| + 1 && current == Some(|old(sockets)|)
        && sockets[|old(sockets)|] == Connecting
        && sockets[..|old(sockets)|] ==
             (if old(current).Some? then old(sockets)[old(current).value := CloseSocket(old(sockets)[old(current).value])]
              else old(sockets))
      ensures profile == old(profile) && questionsNum == old(questionsNum) && loginChecked == old(loginChecked)
      ensures probes == old(probes) && bus == old(bus)
      ensures toastShown == old(toastShown) && toastTimerArmed == old(toastTimerArmed)
    {
      if !loginChecked {
        return;
      }
      period := BasePeriod + retries * PeriodStep;
      supervising := true;
      Connect();
    }

    /** One firing of the interval. */
    method Tick()
      requires Valid()
      modifies this
      ensures Valid()
      ensures Sup() == TickSpec(old(Sup()), old(SocketDown()))
      ensures period == old(period) && profile == old(profile) && questionsNum == old(questionsNum) && bus == old(bus)
      ensures !old(supervising) ==> unchanged(this)
      ensures old(supervising) && old(SocketDown()) && old(retries) < MaxRetries ==>
        && |sockets| == |old(sockets)| + 1
        && current == Some(|old(sockets)|) && sockets[|old(sockets)|] == Connecting && probes == old(probes)
        && sockets[..|old(sockets)|] ==
             (if old(current).Some? then old(sockets)[old(current).value := CloseSocket(old(sockets)[old(current).value])]
              else old(sockets))
      ensures loginChecked == old(loginChecked) && toastShown == old(toastShown) && toastTimerArmed == old(toastTimerArmed)
      ensures old(supervising) && old(SocketDown()) && old(retries) >= MaxRetries ==>
        sockets == old(sockets) && current == old(current) && probes == old(probes)
      ensures old(supervising) && !old(SocketDown()) ==>
        sockets == old(sockets) && current == old(current) && probes == old(probes) + 1
    {
      if !supervising {
        return;
      }
      if current.None? || sockets[current.value] == Closed {
        if retries < MaxRetries {
          retries := retries + 1;
          Connect();
        } else {
          supervising := false;
          return;
        }
      } else {
        probes := probes + 1;
      }
    }

    /** `onopen` of the held socket: it is OPEN and the retry counter is reset. */
    method SocketOpened()
      requires Valid()
      requires current.Some? && sockets[current.value] == Connecting
      modifies this
      ensures Valid()
      ensures retries == 0 && sockets == old(sockets)[old(current).value := Open] && current == old(current)
      ensures supervising == old(supervising) && period == old(period) && probes == old(probes) && bus == old(bus)
      ensures profile == old(profile) && questionsNum == old(questionsNum) && loginChecked == old(loginChecked)
      ensures toastShown == old(toastShown) && toastTimerArmed == old(toastTimerArmed)
    {
      sockets := sockets[current.value := Open];
      retries := 0;
    }

    /** `onclose` / `onerror` of the held socket: it is CLOSED; nothing else changes. */
    method SocketClosed()
      requires Valid()
      requires current.Some?
      modifies this
      ensures Valid()
      ensures sockets == old(sockets)[old(current).value := Closed] && current == old(current)
      ensures retries == old(retries) && supervising == old(supervising) && period == old(period)
      ensures probes == old(probes) && bus == old(bus)
      ensures profile == old(profile) && questionsNum == old(questionsNum) && loginChecked == old(loginChecked)
      ensures toastShown == old(toastShown) && toastTimerArmed == old(toastTimerArmed)
    {
      sockets := sockets[current.value := Closed];
    }

    /** The header's own `onProfileUpdateEvent`: an absent profile stays absent, a
        present one takes the update's fields; the count is replaced only when the
        update carries one. */
    method OnProfileUpdate(patch: ProfilePatch)
      requires Valid()
      modifies this
      ensures Valid()
      ensures profile == (if old(profile).Some? then Some(Merge(old(profile).value, patch)) else None)
      ensures questionsNum == (if patch.questions.Some? then patch.questions else old(questionsNum))
      ensures sockets == old(sockets) && current == old(current) && retries == old(retries)
      ensures supervising == old(supervising) && period == old(period) && probes == old(probes) && bus == old(bus)
      ensures toastShown == old(toastShown) && toastTimerArmed == old(toastTimerArmed) && loginChecked == old(loginChecked)
    {
      if profile.Some? {
        profile := Some(Merge(profile.value, patch));
      }
      if patch.questions.Some? {
        questionsNum := patch.questions;
      }
    }

    /** The message handler: decode `ev_name` once and dispatch. Profile updates are
        also delivered to the header's own listener, which the bus calls synchronously. */
    method OnMessage(evName: string, data: WsEvent)
      requires Valid()
      requires ParseEvName(evName).Some? ==> ParseEvName(evName).value == KindOf(data)
      modifies this
      ensures Valid()
      ensures sockets == old(sockets) && current == old(current) && retries == old(retries)
      ensures supervising == old(supervising) && period == old(period) && probes == old(probes)
      ensures loginChecked == old(loginChecked)
      ensures ParseEvName(evName).None? || data.AnswerDeleted? || data.KeepAlive? ==> unchanged(this)
      ensures ParseEvName(evName).Some? && data.QuestionCreated? ==>
        && questionsNum == Some(data.question_numbers)
        && profile == (if old(profile).Some? then Some(old(profile).value.(questions := data.question_numbers)) else None)
        && bus == old(bus) + [ProfileUpdateReq(QuestionsPatch(data.question_numbers)), QuestionCreatedReq(data.question, data.question_numbers)]
        && toastShown && toastTimerArmed
      ensures ParseEvName(evName).Some? && data.QuestionDeleted? ==>
        && questionsNum == Some(data.question_numbers)
        && profile == (if old(profile).Some? then Some(old(profile).value.(questions := data.question_numbers)) else None)
        && bus == old(bus) + [ProfileUpdateReq(QuestionsPatch(data.question_numbers)), QuestionDeletedReq(data.deleted_id, data.handle, data.question_numbers)]
        && !toastShown && toastTimerArmed == old(toastTimerArmed)
      ensures ParseEvName(evName).Some? && data.AnswerCreated? ==>
        && bus == old(bus) + [AnswerCreatedForward(data.payload)]
        && questionsNum == old(questionsNum) && profile == old(profile)
        && toastShown == old(toastShown) && toastTimerArmed == old(toastTimerArmed)
    {
      var kind := ParseEvName(evName);
      if kind.None? {
        return;
      }
      match data {
        case QuestionCreated(question, n) =>
          bus := bus + [ProfileUpdateReq(QuestionsPatch(n))];
          OnProfileUpdate(QuestionsPatch(n));
          bus := bus + [QuestionCreatedReq(question, n)];
          toastTimerArmed := true;
          toastShown := true;
        case QuestionDeleted(deletedId, handle, n) =>
          bus := bus + [ProfileUpdateReq(QuestionsPatch(n))];
          OnProfileUpdate(QuestionsPatch(n));
          bus := bus + [QuestionDeletedReq(deletedId, handle, n)];
          toastShown := false;
        case AnswerCreated(payload) =>
          bus := bus + [AnswerCreatedForward(payload)];
        case AnswerDeleted(_) =>
        case KeepAlive =>
      }
    }

    /** Unmount: the toast timer and the interval are cleared; the held socket is
        closed only when it is OPEN. */
    method Teardown()
      requires Valid()
      modifies this
      ensures Valid()
      ensures !toastTimerArmed && !supervising
      ensures current == old(current) && retries == old(retries) && probes == old(probes) && bus == old(bus)
      ensures profile == old(profile) && questionsNum == old(questionsNum) && loginChecked == old(loginChecked)
      ensures toastShown == old(toastShown) && period == old(period)
      ensures old(current).Some? && old(sockets)[old(current).value] == Open ==>
        sockets == old(sockets)[old(current).value := Closing]
      ensures !(old(current).Some? && old(sockets)[old(current).value] == Open) ==> sockets == old(sockets)
    {
      toastTimerArmed := false;
      supervising := false;
      if current.Some? && sockets[current.value] == Open {
        sockets := sockets[current.value := CloseSocket(sockets[current.value])];
      }
    }
  }
}
