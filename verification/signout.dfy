/** The sign-out handler (app/api/auth/signout/route.ts): with a session cookie, the
    session is revoked (never removed) and the cookie cleared; without one, nothing happens. */
module SignOut {
  import opened Base
  import opened Responses
  import opened Store
  import Sessions

  /** The `{ message }` payload, and whether the answer clears the session cookie. */
  datatype Notice = Notice(message: string)
  datatype SignOutReply = SignOutReply(response: Response<Notice>, clearsCookie: bool)

  const NoSession: string := "No active session"
  const SignedOut: string := "Signed out successfully"

  /** `POST /api/auth/signout`, given the session cookie's value. */
  function SignOut(st: Store, cookie: Option<string>, now: Time): (o: Outcome<SignOutReply>)
    ensures o.reply.response.Success() && o.reply.response.status == 200
    ensures !Truthy(cookie) ==> o.store == st && !o.reply.clearsCookie
                                && o.reply.response.body.data == Notice(NoSession)
    ensures Truthy(cookie) ==>
              && o.reply.clearsCookie && o.reply.response.body.data == Notice(SignedOut)
              && o.store == st.(sessions := o.store.sessions)
              && |o.store.sessions| == |st.sessions|
              && (forall i :: 0 <= i < |st.sessions| && st.sessions[i].token == cookie.value ==>
                    !o.store.sessions[i].isActive && o.store.sessions[i].revokedAt == Some(now))
              && (forall i :: 0 <= i < |st.sessions| && st.sessions[i].token != cookie.value ==>
                    o.store.sessions[i] == st.sessions[i])
  {
    if !Truthy(cookie) then Outcome(st, SignOutReply(SuccessResponse(Notice(NoSession), None, DefaultSuccessStatus), false))
    else
      var sessions := Sessions.DeleteSession(st.sessions, cookie.value, now);
      Outcome(st.(sessions := sessions), SignOutReply(SuccessResponse(Notice(SignedOut), None, DefaultSuccessStatus), true))
  }

  /** After signing out, the cookie's token no longer validates, at any later time,
      and the store keeps its constraints. */
  lemma SignedOutCookieRejected(st: Store, cookie: string, now: Time, later: Time)
    requires Sessions.WellFormed(st.users, st.sessions) && cookie != ""
    ensures var o := SignOut(st, Some(cookie), now);
            Sessions.WellFormed(o.store.users, o.store.sessions)
            && Sessions.GetSession(o.store.users, o.store.sessions, cookie, later).result.None?
  {
    Sessions.SignedOutTokenIsRejected(st.users, st.sessions, cookie, now, later);
  }

  /** Signing out twice leaves the same sessions as signing out once, apart from the
      second revocation stamp. */
  lemma SignOutTwice(st: Store, cookie: string, t1: Time, t2: Time)
    requires cookie != ""
    ensures var o1 := SignOut(st, Some(cookie), t1);
            var o2 := SignOut(o1.store, Some(cookie), t2);
            |o2.store.sessions| == |st.sessions|
            && forall i :: 0 <= i < |st.sessions| ==>
                 o2.store.sessions[i] == if st.sessions[i].token == cookie
                                         then st.sessions[i].(isActive := false, revokedAt := Some(t2))
                                         else st.sessions[i]
  {
  }
}
