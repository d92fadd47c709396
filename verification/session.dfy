/** The session store (lib/auth/session.ts). A session row is created on sign-in,
    touched on every successful validation, and only ever switched to inactive:
    no operation removes a row. The token column is unique and every session
    belongs to an existing account, as the store's constraints guarantee. */
module Sessions {
  import opened Base
  import opened Accounts
  import Tokens
  import Fingerprint

  const SessionExpiryHours: int := 24
  const RememberMeDays: int := 30

  datatype Session = Session(
    id: nat,
    userId: nat,
    deviceId: string,
    device: Fingerprint.DeviceInfo,
    token: string,
    expiresAt: Time,
    isActive: bool,
    revokedAt: Option<Time>,
    lastActivityAt: Option<Time>)

  /** The store's constraints: unique account ids, unique session tokens,
      and every session's owner exists. */
  predicate WellFormed(users: seq<User>, sessions: seq<Session>) {
    && UniqueIds(users)
    && (forall i, j :: 0 <= i < j < |sessions| ==> sessions[i].token != sessions[j].token)
    && (forall i :: 0 <= i < |sessions| ==> FindUserById(users, sessions[i].userId).Some?)
  }

  /** `findUnique({ where: { sessionToken } })` */
  function FindSession(sessions: seq<Session>, token: string): (r: Option<nat>)
    ensures r.Some? ==> r.value < |sessions| && sessions[r.value].token == token
                        && forall j :: 0 <= j < r.value ==> sessions[j].token != token
    ensures r.None? ==> forall j :: 0 <= j < |sessions| ==> sessions[j].token != token
  {
    FirstWhere(sessions, (s: Session) => s.token == token)
  }

  /** How long a new session lives. */
  function SessionTtl(rememberMe: bool): int {
    (if rememberMe then RememberMeDays * 24 else SessionExpiryHours) * MsPerHour
  }

  datatype Created = Created(users: seq<User>, sessions: seq<Session>, token: string, expiresAt: Time)

  /** The account row after a login: one more login, stamped now; nothing else changes. */
  function RecordLogin(users: seq<User>, k: nat, now: Time): (r: seq<User>)
    requires k < |users|
    ensures |r| == |users|
    ensures r[k] == users[k].(loginCount := users[k].loginCount + 1, lastLoginAt := Some(now))
    ensures forall j :: 0 <= j < |users| && j != k ==> r[j] == users[j]
    ensures forall id :: FindUserById(r, id) == FindUserById(users, id)
    ensures UniqueIds(r) == UniqueIds(users)
  {
    var r := users[k := users[k].(loginCount := users[k].loginCount + 1, lastLoginAt := Some(now))];
    FindUserSameIds(users, r);
    r
  }

  /** `createSession(userId, deviceInfo, rememberMe)`. The token comes from the supplied
      random bytes. `None` is the store refusing the row (no such account, or a token
      already in use); nothing changes then. */
  function CreateSession(users: seq<User>, sessions: seq<Session>, userId: nat,
                         device: Fingerprint.DeviceInfo, rememberMe: bool, now: Time,
                         entropy: seq<Tokens.byte>, sha256: string -> string): (r: Option<Created>)
    ensures r.None? <==> FindUserById(users, userId).None?
                         || FindSession(sessions, Tokens.GenerateToken(entropy)).Some?
    ensures r.Some? ==>
              && r.value.token == Tokens.GenerateToken(entropy)
              && r.value.expiresAt == now + (if rememberMe then 30 * 24 else 24) * 60 * 60 * 1000
              && |r.value.sessions| == |sessions| + 1
              && r.value.sessions[..|sessions|] == sessions
              && var s := r.value.sessions[|sessions|];
                 s.userId == userId && s.token == r.value.token && s.isActive
                 && s.expiresAt == r.value.expiresAt && s.revokedAt.None? && s.device == device
                 && s.deviceId == Fingerprint.GenerateDeviceId(sha256, device.userAgent.GetOr(""),
                                                               device.ipAddress.GetOr(""))
    ensures r.Some? ==> r.value.users == RecordLogin(users, FindUserById(users, userId).value, now)
  {
    var token := Tokens.GenerateToken(entropy);
    var k := FindUserById(users, userId);
    if k.None? || FindSession(sessions, token).Some? then None
    else
      var expiresAt := now + SessionTtl(rememberMe);
      var deviceId := Fingerprint.GenerateDeviceId(sha256, device.userAgent.GetOr(""), device.ipAddress.GetOr(""));
      var row := Session(NextId(Column(sessions, (s: Session) => s.id)), userId, deviceId, device, token, expiresAt, true, None, None);
      Some(Created(RecordLogin(users, k.value, now), sessions + [row], token, expiresAt))
  }

  /** Creating a session keeps the store's constraints. */
  lemma CreateSessionKeepsWellFormed(users: seq<User>, sessions: seq<Session>, userId: nat,
                                     device: Fingerprint.DeviceInfo, rememberMe: bool, now: Time,
                                     entropy: seq<Tokens.byte>, sha256: string -> string)
    requires WellFormed(users, sessions)
    ensures var r := CreateSession(users, sessions, userId, device, rememberMe, now, entropy, sha256);
            r.Some? ==> WellFormed(r.value.users, r.value.sessions)
  {
  }

  /** What a successful validation reveals about the account: never the password hash. */
  datatype SessionUser = SessionUser(
    id: nat,
    email: Option<string>,
    fullName: Option<string>,
    profilePictureUrl: Option<string>,
    roles: seq<Role>,
    status: UserStatus,
    verificationStatus: VerificationStatus,
    emailVerified: Option<Time>,
    phoneVerified: bool)

  function Project(u: User): SessionUser {
    SessionUser(u.id, u.email, u.fullName, u.profilePictureUrl, u.roles, u.status,
                u.verificationStatus, u.emailVerified, u.phoneVerified)
  }

  datatype SessionData = SessionData(user: SessionUser, sessionId: nat, expiresAt: Time)

  /** The store after a lookup together with what the lookup returned. */
  datatype Lookup<T> = Lookup(sessions: seq<Session>, result: Option<T>)

  /** Revocation of one row: inactive, stamped with the revocation time. */
  function Revoked(s: Session, now: Time): Session {
    s.(isActive := false, revokedAt := Some(now))
  }

  /** `deleteSession(token)`: every row with the token becomes inactive with `revokedAt`;
      no row is removed and no other row changes. */
  function DeleteSession(sessions: seq<Session>, token: string, now: Time): (r: seq<Session>)
    ensures |r| == |sessions|
    ensures forall i :: 0 <= i < |r| && sessions[i].token == token ==>
              !r[i].isActive && r[i].revokedAt == Some(now) && r[i] == sessions[i].(isActive := false, revokedAt := Some(now))
    ensures forall i :: 0 <= i < |r| && sessions[i].token != token ==> r[i] == sessions[i]
  {
    seq(|sessions|, i requires 0 <= i < |sessions| =>
      if sessions[i].token == token then Revoked(sessions[i], now) else sessions[i])
  }

  /** `deleteAllUserSessions(userId)`: every row of the account becomes inactive. */
  function DeleteAllUserSessions(sessions: seq<Session>, userId: nat, now: Time): (r: seq<Session>)
    ensures |r| == |sessions|
    ensures forall i :: 0 <= i < |r| && sessions[i].userId == userId ==>
              !r[i].isActive && r[i] == sessions[i].(isActive := false, revokedAt := Some(now))
    ensures forall i :: 0 <= i < |r| && sessions[i].userId != userId ==> r[i] == sessions[i]
  {
    seq(|sessions|, i requires 0 <= i < |sessions| =>
      if sessions[i].userId == userId then Revoked(sessions[i], now) else sessions[i])
  }

  /** `getSession(token)`: unknown or inactive gives null; past its expiry it is revoked
      and gives null; otherwise its last activity is stamped and the account projection,
      the session id and the expiry are returned. */
  function GetSession(users: seq<User>, sessions: seq<Session>, token: string, now: Time): (r: Lookup<SessionData>)
    requires WellFormed(users, sessions)
    ensures var f := FindSession(sessions, token);
            (f.None? || !sessions[f.value].isActive) ==> r == Lookup(sessions, None)
    ensures var f := FindSession(sessions, token);
            f.Some? && sessions[f.value].isActive && now > sessions[f.value].expiresAt ==>
              && r.result.None?
              && r.sessions == sessions[f.value := Revoked(sessions[f.value], now)]
    ensures var f := FindSession(sessions, token);
            f.Some? && sessions[f.value].isActive && now <= sessions[f.value].expiresAt ==>
              var s := sessions[f.value];
              && r.sessions == sessions[f.value := s.(lastActivityAt := Some(now))]
              && r.result == Some(SessionData(Project(users[FindUserById(users, s.userId).value]),
                                              s.id, s.expiresAt))
    ensures r.result.Some? <==> (var f := FindSession(sessions, token);
                                 f.Some? && sessions[f.value].isActive && now <= sessions[f.value].expiresAt)
    ensures |r.sessions| == |sessions| && WellFormed(users, r.sessions)
  {
    match FindSession(sessions, token)
    case None => Lookup(sessions, None)
    case Some(i) =>
      var s := sessions[i];
      if !s.isActive then Lookup(sessions, None)
      else if now > s.expiresAt then
        var r := DeleteSession(sessions, token, now);
        assert r == sessions[i := Revoked(s, now)];
        Lookup(r, None)
      else
        var u := users[FindUserById(users, s.userId).value];
        var r := sessions[i := s.(lastActivityAt := Some(now))];
        assert forall j :: 0 <= j < |r| ==> r[j].token == sessions[j].token && r[j].userId == sessions[j].userId;
        Lookup(r, Some(SessionData(Project(u), s.id, s.expiresAt)))
  }

  /** `refreshSession(token, extendBy = 24)`: a missing or inactive session gives null;
      otherwise the expiry is reset to `extendBy` hours from now, even for a session
      already past its old expiry. */
  function RefreshSession(sessions: seq<Session>, token: string, extendByHours: int, now: Time): (r: Lookup<Time>)
    ensures var f := FindSession(sessions, token);
            (f.None? || !sessions[f.value].isActive) ==> r == Lookup(sessions, None)
    ensures var f := FindSession(sessions, token);
            f.Some? && sessions[f.value].isActive ==>
              && r.result == Some(now + extendByHours * MsPerHour)
              && r.sessions == sessions[f.value := sessions[f.value].(expiresAt := r.result.value,
                                                                       lastActivityAt := Some(now))]
  {
    match FindSession(sessions, token)
    case None => Lookup(sessions, None)
    case Some(i) =>
      if !sessions[i].isActive then Lookup(sessions, None)
      else
        var e := now + extendByHours * MsPerHour;
        Lookup(sessions[i := sessions[i].(expiresAt := e, lastActivityAt := Some(now))], Some(e))
  }

  /** `refreshSession(token)` with `extendBy` left to its default of 24 hours: a
      refreshed session gets the lifetime of a new session created without "remember me". */
  function RefreshSessionByDefault(sessions: seq<Session>, token: string, now: Time): (r: Lookup<Time>)
    ensures var f := FindSession(sessions, token);
            (f.None? || !sessions[f.value].isActive) ==> r == Lookup(sessions, None)
    ensures var f := FindSession(sessions, token);
            f.Some? && sessions[f.value].isActive ==>
              && r.result == Some(now + SessionTtl(false))
              && |r.sessions| == |sessions| && r.sessions[f.value].expiresAt == now + SessionTtl(false)
  {
    RefreshSession(sessions, token, SessionExpiryHours, now)
  }

  /** `getCurrentUser()` with the session cookie as input: no (or an empty) cookie gives
      null without touching the store; otherwise the user `getSession` finds. */
  function GetCurrentUser(users: seq<User>, sessions: seq<Session>, cookie: Option<string>, now: Time): (r: Lookup<SessionUser>)
    requires WellFormed(users, sessions)
    ensures !Truthy(cookie) ==> r == Lookup(sessions, None)
    ensures Truthy(cookie) ==>
              var g := GetSession(users, sessions, cookie.value, now);
              r.sessions == g.sessions && (r.result.Some? <==> g.result.Some?)
              && (g.result.Some? ==> r.result.value == g.result.value.user)
  {
    if !Truthy(cookie) then Lookup(sessions, None)
    else
      var g := GetSession(users, sessions, cookie.value, now);
      Lookup(g.sessions, if g.result.Some? then Some(g.result.value.user) else None)
  }

  /** A row `cleanupExpiredSessions` switches off: active and strictly past its expiry. */
  predicate Sweepable(s: Session, now: Time) {
    s.isActive && s.expiresAt < now
  }

  datatype Sweep = Sweep(sessions: seq<Session>, count: nat)

  function SweptIndices(sessions: seq<Session>, now: Time): set<nat> {
    set i: nat | i < |sessions| && Sweepable(sessions[i], now)
  }

  /** `cleanupExpiredSessions()`: deactivates exactly the active rows past expiry
      (without stamping `revokedAt`) and reports how many it changed. */
  function CleanupExpiredSessions(sessions: seq<Session>, now: Time): (r: Sweep)
    ensures |r.sessions| == |sessions|
    ensures forall i :: 0 <= i < |sessions| && Sweepable(sessions[i], now) ==>
              r.sessions[i] == sessions[i].(isActive := false)
    ensures forall i :: 0 <= i < |sessions| && !Sweepable(sessions[i], now) ==> r.sessions[i] == sessions[i]
    ensures forall i :: 0 <= i < |sessions| ==> !Sweepable(r.sessions[i], now)
    ensures r.count == |SweptIndices(sessions, now)|
    decreases |sessions|
  {
    if |sessions| == 0 then Sweep([], 0)
    else
      var n := |sessions| - 1;
      var rest := CleanupExpiredSessions(sessions[..n], now);
      var last := sessions[n];
      SweptIndicesGrow(sessions, now);
      if Sweepable(last, now) then Sweep(rest.sessions + [last.(isActive := false)], rest.count + 1)
      else Sweep(rest.sessions + [last], rest.count)
  }

  /** The swept indices of a sequence are those of its prefix plus possibly the last one. */
  lemma SweptIndicesGrow(sessions: seq<Session>, now: Time)
    requires |sessions| > 0
    ensures var n := |sessions| - 1;
            |SweptIndices(sessions, now)|
            == |SweptIndices(sessions[..n], now)| + (if Sweepable(sessions[n], now) then 1 else 0)
  {
    var n := |sessions| - 1;
    var prefix := SweptIndices(sessions[..n], now);
    assert forall i :: 0 <= i < n ==> sessions[..n][i] == sessions[i];
    if Sweepable(sessions[n], now) {
      assert SweptIndices(sessions, now) == prefix + {n};
      assert n !in prefix;
    } else {
      assert SweptIndices(sessions, now) == prefix;
    }
  }

  /** A second sweep at the same instant finds nothing and changes nothing. */
  lemma CleanupIdempotent(sessions: seq<Session>, now: Time)
    ensures var once := CleanupExpiredSessions(sessions, now);
            var twice := CleanupExpiredSessions(once.sessions, now);
            twice.count == 0 && twice.sessions == once.sessions
  {
    var once := CleanupExpiredSessions(sessions, now);
    var twice := CleanupExpiredSessions(once.sessions, now);
    assert SweptIndices(once.sessions, now) == {};
  }

  /** An expired session never yields a user, and afterwards stays revoked. */
  lemma ExpiredSessionIsRejected(users: seq<User>, sessions: seq<Session>, token: string, now: Time)
    requires WellFormed(users, sessions)
    requires FindSession(sessions, token).Some?
    requires now > sessions[FindSession(sessions, token).value].expiresAt
    ensures var g := GetSession(users, sessions, token, now);
            g.result.None? && !g.sessions[FindSession(sessions, token).value].isActive
  {
  }

  /** Revoking a token makes every later lookup of it fail. */
  lemma SignedOutTokenIsRejected(users: seq<User>, sessions: seq<Session>, token: string, t1: Time, t2: Time)
    requires WellFormed(users, sessions)
    ensures WellFormed(users, DeleteSession(sessions, token, t1))
    ensures GetSession(users, DeleteSession(sessions, token, t1), token, t2).result.None?
  {
    var r := DeleteSession(sessions, token, t1);
    assert forall j :: 0 <= j < |r| ==> r[j].token == sessions[j].token && r[j].userId == sessions[j].userId;
  }

  /** After `deleteAllUserSessions(u)` no token of `u` validates, while every
      other account's tokens behave exactly as before. */
  lemma RevokeAllRejectsEveryToken(users: seq<User>, sessions: seq<Session>, userId: nat,
                                   token: string, t1: Time, t2: Time)
    requires WellFormed(users, sessions)
    ensures WellFormed(users, DeleteAllUserSessions(sessions, userId, t1))
    ensures var f := FindSession(sessions, token);
            f.Some? && sessions[f.value].userId == userId ==>
              GetSession(users, DeleteAllUserSessions(sessions, userId, t1), token, t2).result.None?
    ensures var f := FindSession(sessions, token);
            f.Some? && sessions[f.value].userId != userId ==>
              GetSession(users, DeleteAllUserSessions(sessions, userId, t1), token, t2).result
              == GetSession(users, sessions, token, t2).result
  {
    var r := DeleteAllUserSessions(sessions, userId, t1);
    assert forall j :: 0 <= j < |r| ==> r[j].token == sessions[j].token && r[j].userId == sessions[j].userId;
    assert FindSession(r, token) == FindSession(sessions, token) by {
      FindSessionSameTokens(sessions, r, token);
    }
  }

  /** Lookups by token only depend on the token column. */
  lemma FindSessionSameTokens(a: seq<Session>, b: seq<Session>, token: string)
    requires |a| == |b| && forall j :: 0 <= j < |a| ==> a[j].token == b[j].token
    ensures FindSession(a, token) == FindSession(b, token)
  {
    FirstWhereAgrees(a, (s: Session) => s.token == token, b, (s: Session) => s.token == token);
  }

  /** Rewriting rows without touching their token or owner keeps the store's constraints. */
  lemma SameKeysKeepWellFormed(users: seq<User>, a: seq<Session>, b: seq<Session>)
    requires WellFormed(users, a)
    requires |a| == |b| && forall j :: 0 <= j < |a| ==> a[j].token == b[j].token && a[j].userId == b[j].userId
    ensures WellFormed(users, b)
  {
  }

  /** Refreshing an active session keeps the store's constraints. */
  lemma RefreshKeepsWellFormed(users: seq<User>, sessions: seq<Session>, token: string, extendByHours: int, now: Time)
    requires WellFormed(users, sessions)
    ensures WellFormed(users, RefreshSession(sessions, token, extendByHours, now).sessions)
  {
    match FindSession(sessions, token)
    case None =>
    case Some(i) =>
      var s := sessions[i];
      var r := sessions[i := s.(expiresAt := now + extendByHours * MsPerHour, lastActivityAt := Some(now))];
      if s.isActive {
        assert RefreshSession(sessions, token, extendByHours, now).sessions == r;
        SameKeysKeepWellFormed(users, sessions, r);
      }
  }

  /** A refreshed session is still found under its token, active and unexpired at the
      refresh instant. */
  lemma RefreshedFound(sessions: seq<Session>, token: string, extendByHours: nat, now: Time)
    requires FindSession(sessions, token).Some? && sessions[FindSession(sessions, token).value].isActive
    ensures var r := RefreshSession(sessions, token, extendByHours, now).sessions;
            var i := FindSession(sessions, token).value;
            FindSession(r, token) == Some(i) && r[i].isActive && now <= r[i].expiresAt
  {
    var i := FindSession(sessions, token).value;
    var s := sessions[i];
    var r := sessions[i := s.(expiresAt := now + extendByHours * MsPerHour, lastActivityAt := Some(now))];
    assert RefreshSession(sessions, token, extendByHours, now).sessions == r;
    FindSessionSameTokens(sessions, r, token);
    assert extendByHours * MsPerHour >= 0 by {
      assert MsPerHour == 3600000;
    }
  }

  /** Refreshing an active session that had already expired brings it back to life. */
  lemma RefreshRevivesExpired(users: seq<User>, sessions: seq<Session>, token: string,
                              extendByHours: nat, now: Time)
    requires WellFormed(users, sessions)
    requires FindSession(sessions, token).Some? && sessions[FindSession(sessions, token).value].isActive
    ensures var r := RefreshSession(sessions, token, extendByHours, now);
            WellFormed(users, r.sessions) && GetSession(users, r.sessions, token, now).result.Some?
  {
    RefreshKeepsWellFormed(users, sessions, token, extendByHours, now);
    RefreshedFound(sessions, token, extendByHours, now);
  }
}
