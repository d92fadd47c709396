/** SMS one-time passcodes (lib/sms/send-otp.ts, lib/sms/verify-otp.ts) over the
    OTP table. Rows are appended in creation order, so "most recently created" is
    "last in the sequence". The SMS gateway's verdict is a supplied boolean. */
module Otp {
  import opened Base
  import opened Errors
  import Tokens
  import Bcrypt
  import RateLimit

  const OtpExpiryMinutes: int := 5

  datatype OtpToken = OtpToken(id: nat, phone: string, tokenHash: string, expiresAt: Time, used: bool)

  /** `SendOTPResult` */
  datatype SendOtpResult = SendOtpResult(success: bool, message: string, expiresAt: Option<Time>)

  /** A call that either returned a value or threw an `AuthError`. */
  datatype Reply<T> = Returned(value: T) | Threw(error: AuthError)

  /** The two tables `sendOTP` writes, after the call, and what it answered. */
  datatype OtpStep = OtpStep(otps: seq<OtpToken>, logs: seq<RateLimit.SecurityLog>, reply: Reply<SendOtpResult>)

  /** `sendOTP(phone, userId?)`. The code comes from the supplied draw, its digest from
      the supplied salt, and `smsSent` is the gateway's verdict. A rate-limited phone
      gets the `RateLimitError` rethrown with nothing written. Otherwise one unused row
      expiring in five minutes is stored and one `otp` attempt is logged, whether or
      not the SMS went out; a failed SMS leaves the row in place. */
  function SendOtp(otps: seq<OtpToken>, logs: seq<RateLimit.SecurityLog>, phone: string, userId: Option<nat>,
                   now: Time, h: Bcrypt.Hasher, draw: real, salt: string, smsSent: bool): (r: OtpStep)
    requires Bcrypt.Sound(h) && 0.0 <= draw < 1.0
    ensures r.reply.Threw? <==> RateLimit.CheckRateLimit(logs, phone, RateLimit.Otp, now).Some?
    ensures r.reply.Threw? ==> r.reply.error.RateLimit? && r.otps == otps && r.logs == logs
    ensures r.reply.Returned? ==>
              && |r.otps| == |otps| + 1 && r.otps[..|otps|] == otps
              && var row := r.otps[|otps|];
                 && row.phone == phone && !row.used
                 && row.expiresAt == now + 5 * 60 * 1000
                 && Bcrypt.Verify(h, Tokens.GenerateOtp(draw), row.tokenHash)
                 && |r.logs| == |logs| + 1 && r.logs[..|logs|] == logs
                 && r.logs[|logs|].eventType == "otp"
                 && r.logs[|logs|].description == RateLimit.AttemptDescription("otp", phone)
                 && r.logs[|logs|].metadata == map["success" := RateLimit.MBool(smsSent),
                                                   "expiresAt" := RateLimit.MTime(row.expiresAt)]
                 && RateLimit.RecordsSuccess(r.logs[|logs|], r.reply.value.success)
                 && r.reply.value.success == smsSent
                 && (smsSent ==> r.reply.value.expiresAt == Some(row.expiresAt))
                 && (!smsSent ==> r.reply.value.expiresAt.None?)
  {
    match RateLimit.CheckRateLimit(logs, phone, RateLimit.Otp, now)
    case Some(e) => OtpStep(otps, logs, Threw(e))
    case None =>
      var secret := Tokens.GenerateOtpWithHash(h, draw, salt);
      var expiresAt := Tokens.GetExpiryDate(now, OtpExpiryMinutes);
      var row := OtpToken(NextId(Column(otps, (o: OtpToken) => o.id)), phone, secret.digest, expiresAt, false);
      var metadata := map["success" := RateLimit.MBool(smsSent), "expiresAt" := RateLimit.MTime(expiresAt)];
      var logs' := RateLimit.LogRateLimitAttempt(logs, phone, RateLimit.Action.Otp.Name(), userId, Some(metadata), now);
      var result := if smsSent then SendOtpResult(true, "OTP sent successfully", Some(expiresAt))
                    else SendOtpResult(false, "Failed to send OTP. Please try again.", None);
      OtpStep(otps + [row], logs', Returned(result))
  }

  /** A row `resendOTP` clears before sending: an unused code for the phone. */
  predicate PendingFor(o: OtpToken, phone: string) {
    o.phone == phone && !o.used
  }

  /** `deleteMany({ where: { phone, used: false } })` */
  function DeleteUnused(otps: seq<OtpToken>, phone: string): (r: seq<OtpToken>)
    ensures forall o :: o in r ==> o in otps && !PendingFor(o, phone)
    ensures forall i :: 0 <= i < |otps| && !PendingFor(otps[i], phone) ==> otps[i] in r
  {
    Keep(otps, o => !PendingFor(o, phone))
  }

  /** `resendOTP(phone, userId?)`: the phone's unused codes are deleted first, even when
      the `sendOTP` that follows is rate-limited; then one new code is stored and
      logged exactly as `sendOTP` does, and it is the only unused code of the phone. */
  function ResendOtp(otps: seq<OtpToken>, logs: seq<RateLimit.SecurityLog>, phone: string, userId: Option<nat>,
                     now: Time, h: Bcrypt.Hasher, draw: real, salt: string, smsSent: bool): (r: OtpStep)
    requires Bcrypt.Sound(h) && 0.0 <= draw < 1.0
    ensures r.reply.Threw? <==> RateLimit.CheckRateLimit(logs, phone, RateLimit.Otp, now).Some?
    ensures r.reply.Threw? ==> r.reply.error.RateLimit? && r.otps == DeleteUnused(otps, phone) && r.logs == logs
    ensures r.reply.Returned? ==>
              && |r.otps| >= 1 && r.otps[..|r.otps| - 1] == DeleteUnused(otps, phone)
              && var row := r.otps[|r.otps| - 1];
                 && PendingFor(row, phone) && row.expiresAt == now + 5 * 60 * 1000
                 && Bcrypt.Verify(h, Tokens.GenerateOtp(draw), row.tokenHash)
                 && (forall i :: 0 <= i < |r.otps| - 1 ==> !PendingFor(r.otps[i], phone))
                 && |r.logs| == |logs| + 1 && r.logs[..|logs|] == logs
                 && r.logs[|logs|].eventType == "otp"
                 && RateLimit.RecordsSuccess(r.logs[|logs|], smsSent)
                 && r.reply.value.success == smsSent
                 && (smsSent ==> r.reply.value.expiresAt == Some(row.expiresAt))
                 && (!smsSent ==> r.reply.value.expiresAt.None?)
  {
    SendOtp(DeleteUnused(otps, phone), logs, phone, userId, now, h, draw, salt, smsSent)
  }

  /** `cleanupExpiredOTPs()`: deletes every row with `expiresAt < now`, used or not,
      and reports how many it deleted. */
  function CleanupExpiredOtps(otps: seq<OtpToken>, now: Time): (r: (seq<OtpToken>, nat))
    ensures forall o :: o in r.0 ==> o in otps && o.expiresAt >= now
    ensures forall i :: 0 <= i < |otps| && otps[i].expiresAt >= now ==> otps[i] in r.0
    ensures r.1 == |Keep(otps, (o: OtpToken) => o.expiresAt < now)|
  {
    var kept := Keep(otps, (o: OtpToken) => o.expiresAt >= now);
    KeepSplits(otps, (o: OtpToken) => o.expiresAt >= now, (o: OtpToken) => o.expiresAt < now);
    (kept, |otps| - |kept|)
  }

  /** `VerifyOTPResult` */
  datatype VerifyOtpResult = VerifyOtpResult(success: bool, valid: bool, message: string)

  datatype VerifyStep = VerifyStep(otps: seq<OtpToken>, result: VerifyOtpResult)

  /** `findFirst({ where: { phone, used: false }, orderBy: { createdAt: 'desc' } })`:
      the last pending row of the phone. */
  function LatestPending(otps: seq<OtpToken>, phone: string): (r: Option<nat>)
    ensures r.Some? ==> r.value < |otps| && PendingFor(otps[r.value], phone)
                        && forall j :: r.value < j < |otps| ==> !PendingFor(otps[j], phone)
    ensures r.None? ==> forall j :: 0 <= j < |otps| ==> !PendingFor(otps[j], phone)
    decreases |otps|
  {
    if |otps| == 0 then None
    else if PendingFor(otps[|otps| - 1], phone) then Some(|otps| - 1)
    else LatestPending(otps[..|otps| - 1], phone)
  }

  /** `verifyOTP(phone, code)`: only the latest pending code is considered. None gives
      "Invalid or expired OTP"; an expired one is deleted and refused whatever the code;
      a wrong code is refused and the row left as it was; a right code marks exactly
      that row used. `success` and `valid` always agree. */
  function VerifyOtp(otps: seq<OtpToken>, phone: string, code: string, now: Time, h: Bcrypt.Hasher): (r: VerifyStep)
    ensures r.result.success == r.result.valid
    ensures LatestPending(otps, phone).None? ==>
              r == VerifyStep(otps, VerifyOtpResult(false, false, "Invalid or expired OTP"))
    ensures var l := LatestPending(otps, phone);
            l.Some? && Tokens.IsTokenExpired(now, otps[l.value].expiresAt) ==>
              && !r.result.valid
              && r.otps == otps[..l.value] + otps[l.value + 1..]
    ensures var l := LatestPending(otps, phone);
            l.Some? && !Tokens.IsTokenExpired(now, otps[l.value].expiresAt)
            && !Bcrypt.Verify(h, code, otps[l.value].tokenHash) ==>
              !r.result.valid && r.otps == otps
    ensures r.result.valid <==>
              var l := LatestPending(otps, phone);
              l.Some? && !Tokens.IsTokenExpired(now, otps[l.value].expiresAt)
              && Bcrypt.Verify(h, code, otps[l.value].tokenHash)
    ensures r.result.valid ==>
              var i := LatestPending(otps, phone).value;
              r.otps == otps[i := otps[i].(used := true)]
  {
    match LatestPending(otps, phone)
    case None => VerifyStep(otps, VerifyOtpResult(false, false, "Invalid or expired OTP"))
    case Some(i) =>
      var o := otps[i];
      if Tokens.IsTokenExpired(now, o.expiresAt) then
        VerifyStep(otps[..i] + otps[i + 1..], VerifyOtpResult(false, false, "OTP has expired. Please request a new one."))
      else if !Bcrypt.Verify(h, code, o.tokenHash) then
        VerifyStep(otps, VerifyOtpResult(false, false, "Invalid OTP code"))
      else
        VerifyStep(otps[i := o.(used := true)], VerifyOtpResult(true, true, "OTP verified successfully"))
  }

  /** A row `hasValidOTP` accepts: pending for the phone and expiring strictly after now. */
  predicate LiveFor(o: OtpToken, phone: string, now: Time) {
    PendingFor(o, phone) && o.expiresAt > now
  }

  /** `hasValidOTP(phone)` */
  function HasValidOtp(otps: seq<OtpToken>, phone: string, now: Time): (b: bool)
    ensures b <==> exists i :: 0 <= i < |otps| && LiveFor(otps[i], phone, now)
    decreases |otps|
  {
    if |otps| == 0 then false
    else if LiveFor(otps[0], phone, now) then true
    else
      var b := HasValidOtp(otps[1..], phone, now);
      assert b ==> exists i :: 0 <= i < |otps| && LiveFor(otps[i], phone, now) by {
        if b {
          var j :| 0 <= j < |otps| - 1 && LiveFor(otps[1..][j], phone, now);
          assert LiveFor(otps[j + 1], phone, now);
        }
      }
      assert (exists i :: 0 <= i < |otps| && LiveFor(otps[i], phone, now)) ==> b by {
        if exists i :: 0 <= i < |otps| && LiveFor(otps[i], phone, now) {
          var i :| 0 <= i < |otps| && LiveFor(otps[i], phone, now);
          assert i > 0 && LiveFor(otps[1..][i - 1], phone, now);
        }
      }
      b
  }

  /** A freshly sent code verifies before it expires, and only once: the row it
      matched is marked used and is never selected again. */
  lemma IssueThenVerify(otps: seq<OtpToken>, logs: seq<RateLimit.SecurityLog>, phone: string,
                        userId: Option<nat>, now: Time, h: Bcrypt.Hasher, draw: real, salt: string,
                        smsSent: bool, later: Time)
    requires Bcrypt.Sound(h) && 0.0 <= draw < 1.0
    requires RateLimit.CheckRateLimit(logs, phone, RateLimit.Otp, now).None?
    requires later <= now + OtpExpiryMinutes * MsPerMinute
    ensures var sent := SendOtp(otps, logs, phone, userId, now, h, draw, salt, smsSent);
            var v := VerifyOtp(sent.otps, phone, Tokens.GenerateOtp(draw), later, h);
            && v.result.valid
            && v.otps[|otps|].used
            && LatestPending(v.otps, phone) != Some(|otps|)
  {
    var sent := SendOtp(otps, logs, phone, userId, now, h, draw, salt, smsSent);
    assert LatestPending(sent.otps, phone) == Some(|otps|);
  }

  /** A code past its expiry is refused whatever is typed, and its row is purged. */
  lemma ExpiredCodeIsPurged(otps: seq<OtpToken>, phone: string, code: string, now: Time, h: Bcrypt.Hasher)
    requires LatestPending(otps, phone).Some?
    requires now > otps[LatestPending(otps, phone).value].expiresAt
    ensures var v := VerifyOtp(otps, phone, code, now, h);
            !v.result.valid && |v.otps| == |otps| - 1
  {
  }

  /** Single use: once the only pending code of a phone has been accepted, every
      further attempt for that phone is refused, whatever the code and the time. */
  lemma SecondUseRefused(otps: seq<OtpToken>, phone: string, code: string, now: Time,
                         code2: string, now2: Time, h: Bcrypt.Hasher)
    requires LatestPending(otps, phone).Some?
    requires forall j :: 0 <= j < |otps| && j != LatestPending(otps, phone).value ==> !PendingFor(otps[j], phone)
    requires VerifyOtp(otps, phone, code, now, h).result.valid
    ensures var once := VerifyOtp(otps, phone, code, now, h);
            !VerifyOtp(once.otps, phone, code2, now2, h).result.valid
  {
    var once := VerifyOtp(otps, phone, code, now, h);
    assert LatestPending(once.otps, phone).None?;
  }

  /** After `resendOTP` only the new code is pending: earlier ones can no longer be used. */
  lemma ResendLeavesOnePending(otps: seq<OtpToken>, logs: seq<RateLimit.SecurityLog>, phone: string,
                               userId: Option<nat>, now: Time, h: Bcrypt.Hasher, draw: real,
                               salt: string, smsSent: bool, code: string, later: Time)
    requires Bcrypt.Sound(h) && 0.0 <= draw < 1.0
    requires ResendOtp(otps, logs, phone, userId, now, h, draw, salt, smsSent).reply.Returned?
    ensures var r := ResendOtp(otps, logs, phone, userId, now, h, draw, salt, smsSent);
            LatestPending(r.otps, phone) == Some(|r.otps| - 1)
            && (VerifyOtp(r.otps, phone, code, later, h).result.valid ==> code == Tokens.GenerateOtp(draw))
  {
    var r := ResendOtp(otps, logs, phone, userId, now, h, draw, salt, smsSent);
    var cleared := DeleteUnused(otps, phone);
    assert |r.otps| == |cleared| + 1;
    var last := |r.otps| - 1;
    assert PendingFor(r.otps[last], phone);
    assert LatestPending(r.otps, phone) == Some(last);
    if VerifyOtp(r.otps, phone, code, later, h).result.valid {
      assert Bcrypt.Verify(h, code, r.otps[last].tokenHash);
      var secret := Tokens.GenerateOtpWithHash(h, draw, salt);
      assert r.otps[last].tokenHash == Bcrypt.Hash(h, Tokens.GenerateOtp(draw), salt);
      Tokens.OtpKeyLength(draw);
      Bcrypt.VerifyWithinLimit(h, Tokens.GenerateOtp(draw), salt, code);
    }
  }

  /** At the exact expiry instant `hasValidOTP` already says no, while `verifyOTP`
      still accepts the code: the two use opposite strictness at the boundary. */
  lemma ExpiryBoundaryDisagreement(h: Bcrypt.Hasher, code: string, salt: string, t: Time)
    requires Bcrypt.Sound(h)
    ensures var otps := [OtpToken(0, "+15550100", Bcrypt.Hash(h, code, salt), t, false)];
            !HasValidOtp(otps, "+15550100", t)
            && VerifyOtp(otps, "+15550100", code, t, h).result.valid
  {
    var otps := [OtpToken(0, "+15550100", Bcrypt.Hash(h, code, salt), t, false)];
    assert LatestPending(otps, "+15550100") == Some(0);
  }
}
