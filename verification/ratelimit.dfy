/** Sliding-window rate limiting over the append-only security log
    (lib/security/rate-limit.ts). An attempt is a log row; a check counts the rows of
    one action whose description mentions the identifier inside the window. */
module RateLimit {
  import opened Base
  import opened Errors

  /** The keys of `RATE_LIMITS`. */
  datatype Action = Login | Signup | Otp | Email | PasswordReset {
    /** The event type written to, and matched in, the security log. */
    function Name(): string {
      match this
      case Login => "login"
      case Signup => "signup"
      case Otp => "otp"
      case Email => "email"
      case PasswordReset => "passwordReset"
    }
  }

  datatype Config = Config(maxAttempts: nat, windowMinutes: nat)

  /** `RATE_LIMITS` */
  function Limits(a: Action): Config {
    match a
    case Login => Config(5, 15)
    case Signup => Config(3, 60)
    case Otp => Config(3, 60)
    case Email => Config(5, 60)
    case PasswordReset => Config(3, 60)
  }

  datatype Severity = Info | Warning

  /** A value in a row's `metadata` JSON: the callers store flags, words and instants. */
  datatype MetaValue = MBool(b: bool) | MText(s: string) | MTime(t: Time)

  type Metadata = map<string, MetaValue>

  /** A row whose metadata records the attempt's `success` flag as `ok`. */
  predicate RecordsSuccess(r: SecurityLog, ok: bool) {
    "success" in r.metadata && r.metadata["success"] == MBool(ok)
  }

  /** `metadata || {}`: an absent argument is stored as the empty object. */
  function StoredMetadata(metadata: Option<Metadata>): Metadata {
    if metadata.Some? then metadata.value else map[]
  }

  /** A row of the security log. Rows are only ever appended. */
  datatype SecurityLog = SecurityLog(
    eventType: string,
    description: string,
    userId: Option<nat>,
    ipAddress: Option<string>,
    userAgent: Option<string>,
    severity: Severity,
    suspicious: bool,
    createdAt: Time,
    metadata: Metadata)

  /** The oldest instant still inside the window (inclusive). */
  function WindowStart(a: Action, now: Time): Time {
    now - Limits(a).windowMinutes * MsPerMinute
  }

  /** The three conditions of the count query. */
  predicate CountsToward(r: SecurityLog, identifier: string, a: Action, now: Time) {
    r.eventType == a.Name() && Contains(r.description, identifier) && r.createdAt >= WindowStart(a, now)
  }

  /** `prisma.securityLog.count(...)` for one action and identifier. */
  function CountAttempts(logs: seq<SecurityLog>, identifier: string, a: Action, now: Time): (n: nat)
    ensures n <= |logs|
    ensures n == 0 <==> forall i :: 0 <= i < |logs| ==> !CountsToward(logs[i], identifier, a, now)
    decreases |logs|
  {
    if |logs| == 0 then 0
    else
      var rest := CountAttempts(logs[..|logs| - 1], identifier, a, now);
      assert forall i :: 0 <= i < |logs| - 1 ==> logs[..|logs| - 1][i] == logs[i];
      rest + (if CountsToward(logs[|logs| - 1], identifier, a, now) then 1 else 0)
  }

  /** `checkRateLimit(identifier, action)`: `Some(e)` is the thrown `RateLimitError`.
      It reads the log and never changes it. */
  function CheckRateLimit(logs: seq<SecurityLog>, identifier: string, a: Action, now: Time): (r: Option<AuthError>)
    ensures r.Some? <==> CountAttempts(logs, identifier, a, now) >= Limits(a).maxAttempts
    ensures r.Some? ==> r.value.RateLimit? && r.value.StatusCode() == 429
  {
    var cfg := Limits(a);
    if CountAttempts(logs, identifier, a, now) >= cfg.maxAttempts then
      Some(NewRateLimit(Some("Too many " + a.Name() + " attempts. Please try again in "
                             + Decimal(cfg.windowMinutes) + " minutes.")))
    else None
  }

  /** The description an attempt row carries. */
  function AttemptDescription(action: string, identifier: string): string {
    action + " attempt for " + identifier
  }

  /** `logRateLimitAttempt(identifier, action, userId?, metadata?)`: appends exactly one
      row, carrying the caller's metadata or the empty object. */
  function LogRateLimitAttempt(logs: seq<SecurityLog>, identifier: string, action: string,
                               userId: Option<nat>, metadata: Option<Metadata>, now: Time): (r: seq<SecurityLog>)
    ensures |r| == |logs| + 1 && r[..|logs|] == logs
    ensures r[|logs|].eventType == action && r[|logs|].createdAt == now
    ensures r[|logs|].description == AttemptDescription(action, identifier)
    ensures !r[|logs|].suspicious && r[|logs|].severity == Info && r[|logs|].userId == userId
    ensures metadata.Some? ==> r[|logs|].metadata == metadata.value
    ensures metadata.None? ==> r[|logs|].metadata == map[]
  {
    logs + [SecurityLog(action, AttemptDescription(action, identifier), userId, None, None, Info, false, now,
                        StoredMetadata(metadata))]
  }

  /** `x || null` for an optional string field. */
  function OrNull(s: Option<string>): Option<string> {
    if Truthy(s) then s else None
  }

  /** `logSuspiciousActivity(eventType, description, ...)`: appends exactly one
      warning row under the caller's event type. */
  function LogSuspiciousActivity(logs: seq<SecurityLog>, eventType: string, description: string,
                                 userId: Option<nat>, ipAddress: Option<string>,
                                 userAgent: Option<string>, metadata: Option<Metadata>, now: Time): (r: seq<SecurityLog>)
    ensures |r| == |logs| + 1 && r[..|logs|] == logs
    ensures r[|logs|].eventType == eventType && r[|logs|].description == description
    ensures r[|logs|].suspicious && r[|logs|].severity == Warning && r[|logs|].createdAt == now
    ensures metadata.Some? ==> r[|logs|].metadata == metadata.value
    ensures metadata.None? ==> r[|logs|].metadata == map[]
  {
    logs + [SecurityLog(eventType, description, userId, OrNull(ipAddress), OrNull(userAgent), Warning, true, now,
                        StoredMetadata(metadata))]
  }

  /** Appending one row adds one to a count exactly when that row counts. */
  lemma CountAppend(logs: seq<SecurityLog>, r: SecurityLog, identifier: string, a: Action, now: Time)
    ensures CountAttempts(logs + [r], identifier, a, now)
            == CountAttempts(logs, identifier, a, now) + (if CountsToward(r, identifier, a, now) then 1 else 0)
  {
    assert (logs + [r])[..|logs|] == logs;
  }

  /** An attempt logged for `other` counts against every identifier `other` contains:
      matching by substring over-counts and never under-counts. */
  lemma AttemptCountsForContainedIdentifier(logs: seq<SecurityLog>, other: string, identifier: string,
                                            a: Action, userId: Option<nat>, metadata: Option<Metadata>, now: Time)
    requires Contains(other, identifier)
    ensures CountAttempts(LogRateLimitAttempt(logs, other, a.Name(), userId, metadata, now), identifier, a, now)
            == CountAttempts(logs, identifier, a, now) + 1
  {
    var r := LogRateLimitAttempt(logs, other, a.Name(), userId, metadata, now);
    ContainsSuffix(a.Name() + " attempt for ", other);
    ContainsTransitive(AttemptDescription(a.Name(), other), other, identifier);
    assert CountsToward(r[|logs|], identifier, a, now);
    CountAppend(logs, r[|logs|], identifier, a, now);
    assert r == logs + [r[|logs|]];
  }

  /** Any identifier contains itself. */
  lemma ContainsSelf(s: string)
    ensures Contains(s, s)
  {
    ContainsSuffix("", s);
    assert "" + s == s;
  }

  /** A suspicious-activity row counts only toward the action named like its event type;
      `failed_login` rows never count toward `login`. */
  lemma SuspiciousRowsCountOnlyForTheirType(logs: seq<SecurityLog>, eventType: string, description: string,
                                            userId: Option<nat>, ip: Option<string>, ua: Option<string>,
                                            metadata: Option<Metadata>, identifier: string, a: Action, now: Time)
    requires eventType != a.Name()
    ensures CountAttempts(LogSuspiciousActivity(logs, eventType, description, userId, ip, ua, metadata, now), identifier, a, now)
            == CountAttempts(logs, identifier, a, now)
  {
    var r := LogSuspiciousActivity(logs, eventType, description, userId, ip, ua, metadata, now);
    CountAppend(logs, r[|logs|], identifier, a, now);
    assert r == logs + [r[|logs|]];
  }

  /** Logs one attempt per instant in `times`, in order. */
  function LogAttempts(logs: seq<SecurityLog>, identifier: string, a: Action, times: seq<Time>): (r: seq<SecurityLog>)
    ensures |r| == |logs| + |times|
    decreases |times|
  {
    if |times| == 0 then logs
    else LogAttempts(LogRateLimitAttempt(logs, identifier, a.Name(), None, None, times[0]), identifier, a, times[1..])
  }

  /** Each logged attempt inside the window adds exactly one to the count. */
  lemma {:induction false} LogAttemptsCount(logs: seq<SecurityLog>, identifier: string, a: Action,
                                            times: seq<Time>, now: Time)
    requires forall k :: 0 <= k < |times| ==> times[k] >= WindowStart(a, now)
    ensures CountAttempts(LogAttempts(logs, identifier, a, times), identifier, a, now)
            == CountAttempts(logs, identifier, a, now) + |times|
    decreases |times|
  {
    if |times| > 0 {
      ContainsSelf(identifier);
      AttemptCountsForContainedIdentifier(logs, identifier, identifier, a, None, None, times[0]);
      var logs1 := LogRateLimitAttempt(logs, identifier, a.Name(), None, None, times[0]);
      // The count depends on `now`, not on when the row was written.
      CountAppend(logs, logs1[|logs|], identifier, a, now);
      assert logs1 == logs + [logs1[|logs|]];
      ContainsSuffix(a.Name() + " attempt for ", identifier);
      assert CountsToward(logs1[|logs|], identifier, a, now);
      LogAttemptsCount(logs1, identifier, a, times[1..], now);
    }
  }

  /** After `maxAttempts` attempts inside the window the next check throws. */
  lemma LimitReached(logs: seq<SecurityLog>, identifier: string, a: Action, times: seq<Time>, now: Time)
    requires |times| >= Limits(a).maxAttempts
    requires forall k :: 0 <= k < |times| ==> times[k] >= WindowStart(a, now)
    ensures CheckRateLimit(LogAttempts(logs, identifier, a, times), identifier, a, now).Some?
  {
    LogAttemptsCount(logs, identifier, a, times, now);
  }

  /** Once every row of the action has left the window, the check passes again. */
  lemma WindowElapsed(logs: seq<SecurityLog>, identifier: string, a: Action, now: Time)
    requires forall i :: 0 <= i < |logs| && logs[i].eventType == a.Name() ==> logs[i].createdAt < WindowStart(a, now)
    ensures CheckRateLimit(logs, identifier, a, now).None?
  {
  }
}
