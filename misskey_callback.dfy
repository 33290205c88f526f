/** The Misskey login callback: the one-time login session is consumed, the access
    token and user are fetched from the instance, the user and profile rows are
    upserted under the handle `@username@host`, and a session token is issued with
    the stored session generation. */
module MisskeyCallback {
  import opened Wrappers
  import opened Text
  import opened Store

  const SessionPrefix := "login/misskey/"

  datatype LoginRequest = LoginRequest(misskeyHost: string, callbackToken: string)

  /** The fields of the instance's user object that the login reads. */
  datatype MiUser = MiUser(id: string, username: string, name: Option<string>, avatarUrl: Option<string>)

  /** The instance's reply to the user-key exchange. `NoBody` is a non-ok reply or a
      null body; otherwise `user` is `None` when it is not an object, and also when it
      is `null`, which passes the object test and then throws on its first field access
      (the state is the same: the session is consumed and nothing is written), and
      `accessToken` is `None` when it is not a string. */
  datatype MiReply = NoBody | Body(user: Option<MiUser>, accessToken: Option<string>)

  datatype DbPayload = DbPayload(
    account: string, accountLower: string, hostName: string, handle: string,
    name: seq<string>, avatarUrl: string, accessToken: string, userId: string)

  /** The signed session token's claims. */
  datatype Jwt = Jwt(host: string, handle: string, jwtIndex: int)

  datatype LoginFailure = InvalidRequest | NoSession | TokenGetFail | BadUserOrToken

  datatype LoginResult =
    | LoggedIn(user: MiUser, jwt: Jwt, serverCookie: string)
    | LoginFailed(failure: LoginFailure)

  function SessionKey(callbackToken: string): string
  {
    SessionPrefix + callbackToken
  }

  function UserHandle(username: string, host: string): (h: string)
    ensures StartsWith(h, "@" + username + "@") && EndsWith(h, host)
    ensures |h| == |username| + |host| + 2
  {
    "@" + username + "@" + host
  }

  /** The stored display name: the emoji-resolved `name ?? username`, or `[username]`
      when that resolves to nothing. */
  function DisplayName(u: MiUser, host: string, resolveName: (string, string) -> seq<string>): (n: seq<string>)
    ensures |n| >= 1
    ensures var resolved := resolveName(u.name.GetOr(u.username), host);
      n == (if resolved == [] then [u.username] else resolved)
  {
    var resolved := resolveName(u.name.GetOr(u.username), host);
    if resolved == [] then [u.username] else resolved
  }

  function Payload(u: MiUser, token: string, host: string, resolveName: (string, string) -> seq<string>): DbPayload
  {
    DbPayload(u.username, Lower(u.username), host, UserHandle(u.username, host),
      DisplayName(u, host, resolveName), u.avatarUrl.GetOr(""), token, u.id)
  }

  /** The upserted user row: an existing row takes the new name, token and user id;
      a new row takes every payload field and generation 0. */
  function UpsertUser(users: map<string, User>, p: DbPayload): User
  {
    if p.handle in users then users[p.handle].(name := p.name, token := p.accessToken, userId := p.userId)
    else User(p.handle, p.account, p.accountLower, p.hostName, p.name, p.accessToken, p.userId, 0)
  }

  function UpsertProfile(profiles: map<string, Profile>, p: DbPayload): Profile
  {
    if p.handle in profiles then profiles[p.handle].(account := p.account, avatarUrl := p.avatarUrl, name := p.name)
    else Profile(p.account, p.avatarUrl, p.name, false)
  }

  /** `login` as a function of the backend state before the call. */
  function LoginSpec(
    t: Tables, req: LoginRequest, reqValid: bool, reply: MiReply,
    resolveName: (string, string) -> seq<string>): (Tables, LoginResult)
  {
    if !reqValid then (t, LoginFailed(InvalidRequest))
    else
      var host := Lower(req.misskeyHost);
      var key := SessionKey(req.callbackToken);
      if key !in t.sessions then (t, LoginFailed(NoSession))
      else
        var t1 := t.(sessions := t.sessions - {key});
        if host !in t1.servers || reply.NoBody? then (t1, LoginFailed(TokenGetFail))
        else if reply.user.None? || reply.accessToken.None? then (t1, LoginFailed(BadUserOrToken))
        else
          var p := Payload(reply.user.value, reply.accessToken.value, host, resolveName);
          var user := UpsertUser(t1.users, p);
          var t2 := t1.(users := t1.users[p.handle := user],
                        profiles := t1.profiles[p.handle := UpsertProfile(t1.profiles, p)]);
          (t2, LoggedIn(reply.user.value, Jwt(host, p.handle, user.jwtIndex), host))
  }

  /** `pushDB`: the user row and its profile are created or updated together. */
  method PushDB(db: Backend, p: DbPayload)
    requires db.Valid()
    modifies db
    ensures db.Valid()
    ensures db.State() == old(db.State()).(
      users := old(db.users)[p.handle := UpsertUser(old(db.users), p)],
      profiles := old(db.profiles)[p.handle := UpsertProfile(old(db.profiles), p)])
  {
    var user := UpsertUser(db.users, p);
    var profile := UpsertProfile(db.profiles, p);
    db.users := db.users[p.handle := user];
    db.profiles := db.profiles[p.handle := profile];
  }

  /** `login`. The instance's reply and the emoji name resolver are inputs, as is the
      outcome of validating the request. */
  method Login(
    db: Backend, req: LoginRequest, reqValid: bool, reply: MiReply,
    resolveName: (string, string) -> seq<string>)
    returns (r: LoginResult)
    requires db.Valid()
    modifies db
    ensures db.Valid()
    ensures (db.State(), r) == LoginSpec(old(db.State()), req, reqValid, reply, resolveName)
  {
    if !reqValid {
      return LoginFailed(InvalidRequest);
    }
    var loginReq := req.(misskeyHost := Lower(req.misskeyHost));
    var key := SessionKey(loginReq.callbackToken);
    if key !in db.sessions {
      return LoginFailed(NoSession);
    }
    db.sessions := db.sessions - {key};

    if loginReq.misskeyHost !in db.servers || reply.NoBody? {
      return LoginFailed(TokenGetFail);
    }
    if reply.user.None? || reply.accessToken.None? {
      return LoginFailed(BadUserOrToken);
    }
    var user := reply.user.value;
    var p := Payload(user, reply.accessToken.value, loginReq.misskeyHost, resolveName);
    PushDB(db, p);

    var stored := db.users[p.handle];
    r := LoggedIn(user, Jwt(loginReq.misskeyHost, p.handle, stored.jwtIndex), loginReq.misskeyHost);
  }

  /** A rejected request or a missing session changes nothing. */
  lemma LoginEarlyExit(
    t: Tables, req: LoginRequest, reqValid: bool, reply: MiReply, resolveName: (string, string) -> seq<string>)
    requires !reqValid || SessionKey(req.callbackToken) !in t.sessions
    ensures LoginSpec(t, req, reqValid, reply, resolveName).0 == t
    ensures LoginSpec(t, req, reqValid, reply, resolveName).1.LoginFailed?
  {
  }

  /** Once the session check passes the session is gone, whatever happens next. */
  lemma LoginConsumesSession(
    t: Tables, req: LoginRequest, reply: MiReply, resolveName: (string, string) -> seq<string>)
    requires SessionKey(req.callbackToken) in t.sessions
    ensures LoginSpec(t, req, true, reply, resolveName).0.sessions == t.sessions - {SessionKey(req.callbackToken)}
  {
  }

  /** A second login with the same callback token fails, with any reply, and changes nothing. */
  lemma SecondLoginFails(
    t: Tables, req: LoginRequest, reply1: MiReply, reply2: MiReply, resolveName: (string, string) -> seq<string>)
    ensures var t1 := LoginSpec(t, req, true, reply1, resolveName).0;
      LoginSpec(t1, req, true, reply2, resolveName) == (t1, LoginFailed(NoSession))
  {
    var key := SessionKey(req.callbackToken);
    var t1 := LoginSpec(t, req, true, reply1, resolveName).0;
    if key in t.sessions {
      LoginConsumesSession(t, req, reply1, resolveName);
    }
    assert key !in t1.sessions;
  }

  /** A failed login writes no user or profile row and publishes nothing. */
  lemma FailedLoginWritesNoUser(
    t: Tables, req: LoginRequest, reqValid: bool, reply: MiReply, resolveName: (string, string) -> seq<string>)
    requires LoginSpec(t, req, reqValid, reply, resolveName).1.LoginFailed?
    ensures var t' := LoginSpec(t, req, reqValid, reply, resolveName).0;
      t' == t.(sessions := t'.sessions) && t'.sessions <= t.sessions
  {
  }

  /** A successful login: the host is lower-cased, the handle is `@username@host`, the
      server cookie is the host, and the stored rows carry the resolved name and the
      avatar (or ""). */
  lemma LoginSuccess(
    t: Tables, req: LoginRequest, reqValid: bool, reply: MiReply, resolveName: (string, string) -> seq<string>)
    requires LoginSpec(t, req, reqValid, reply, resolveName).1.LoggedIn?
    ensures var (t', r) := LoginSpec(t, req, reqValid, reply, resolveName);
      var host := Lower(req.misskeyHost);
      var u := reply.user.value;
      && reqValid && host in t.servers
      && r.user == u
      && r.jwt.host == host && IsLowerCase(r.jwt.host) && r.serverCookie == host
      && r.jwt.handle == "@" + u.username + "@" + host
      && r.jwt.handle in t'.users && r.jwt.handle in t'.profiles
      && t'.users[r.jwt.handle].name == DisplayName(u, host, resolveName)
      && t'.users[r.jwt.handle].token == reply.accessToken.value
      && t'.users[r.jwt.handle].userId == u.id
      && t'.profiles[r.jwt.handle].avatarUrl == u.avatarUrl.GetOr("")
      && t'.profiles[r.jwt.handle].name == DisplayName(u, host, resolveName)
      && r.jwt.jwtIndex == t'.users[r.jwt.handle].jwtIndex
      && (forall h :: h in t.users && h != r.jwt.handle ==> h in t'.users && t'.users[h] == t.users[h])
  {
    LowerIsLowerCase(req.misskeyHost);
  }

  /** Logging in again as a known user changes only its name, token and user id, and
      its profile's account, avatar and name; the token is issued with the stored
      generation, so sessions revoked earlier stay revoked. */
  lemma ReturningUser(
    t: Tables, req: LoginRequest, reqValid: bool, reply: MiReply, resolveName: (string, string) -> seq<string>)
    requires WellFormed(t)
    requires LoginSpec(t, req, reqValid, reply, resolveName).1.LoggedIn?
    requires LoginSpec(t, req, reqValid, reply, resolveName).1.jwt.handle in t.users
    ensures var (t', r) := LoginSpec(t, req, reqValid, reply, resolveName);
      var h := r.jwt.handle;
      var old_ := t.users[h];
      var new_ := t'.users[h];
      && new_.handle == old_.handle && new_.hostName == old_.hostName
      && new_.accountLower == old_.accountLower && new_.account == old_.account
      && new_.jwtIndex == old_.jwtIndex && r.jwt.jwtIndex == old_.jwtIndex
      && t'.profiles[h].stopPostAnswer == t.profiles[h].stopPostAnswer
  {
  }

  /** A first login creates the user with every payload field, generation 0, and a
      matching profile. */
  lemma NewUser(
    t: Tables, req: LoginRequest, reqValid: bool, reply: MiReply, resolveName: (string, string) -> seq<string>)
    requires WellFormed(t)
    requires LoginSpec(t, req, reqValid, reply, resolveName).1.LoggedIn?
    requires LoginSpec(t, req, reqValid, reply, resolveName).1.jwt.handle !in t.users
    ensures var (t', r) := LoginSpec(t, req, reqValid, reply, resolveName);
      var host := Lower(req.misskeyHost);
      var u := reply.user.value;
      var name := DisplayName(u, host, resolveName);
      && t'.users[r.jwt.handle] == User(r.jwt.handle, u.username, Lower(u.username), host, name,
                                        reply.accessToken.value, u.id, 0)
      && t'.profiles[r.jwt.handle] == Profile(u.username, u.avatarUrl.GetOr(""), name, false)
      && r.jwt.jwtIndex == 0
  {
  }
}
