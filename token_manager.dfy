/**
 * The session-token scheduler (frontend/src/utils/tokenManager.ts): the
 * expiry it stores, which of the two refresh timers it sets and with what
 * delays, the activity rule a firing timer applies, the guard on a
 * refresh, and the clearing of the four timer references. Clock readings
 * (`Date.now()`, milliseconds) and the outcome of the refresh request are
 * parameters; timers are the references the module keeps, holding the
 * delay they were set with, and never fire by themselves.
 */
module TokenManager {
  import opened Wrappers
  import NoteEditorPage

  type Session = NoteEditorPage.Session

  const TenMinutes: int := 10 * 60 * 1000
  const FiveMinutes: int := 5 * 60 * 1000

  /** `(issued_at + expires_in) * 1000`: the expiry instant in milliseconds, from seconds. */
  function ExpiryMs(issuedAt: int, expiresIn: int): (ms: int)
    ensures ms % 1000 == 0 && ms / 1000 == issuedAt + expiresIn
  {
    (issuedAt + expiresIn) * 1000
  }

  /** The stored expiry lies `expires_in` seconds after the issue instant. */
  lemma ExpiryAfterIssue(issuedAt: int, expiresIn: int)
    ensures ExpiryMs(issuedAt, expiresIn) - issuedAt * 1000 == expiresIn * 1000
    ensures expiresIn > 0 ==> ExpiryMs(issuedAt, expiresIn) > issuedAt * 1000
  {
  }

  /** `Number(sessionStorage.getItem(key))` for a key holding a number: a missing key reads as 0. */
  function ReadNumber(stored: Option<int>): int {
    if stored.Some? then stored.value else 0
  }

  /** The four module-level references: the two refresh timers, the expiry-warning timer and the activity handler. */
  datatype Timers = Timers(ten: Option<int>, five: Option<int>, warning: Option<int>, handler: bool)

  /** All four references null. */
  const NoTimers: Timers := Timers(None, None, None, false)

  /** `t10`: the delay until ten minutes before expiry. */
  function Delay10(expiresAt: int, now: int): int {
    expiresAt - now - TenMinutes
  }

  /** `t5`: the delay until five minutes before expiry. */
  function Delay5(expiresAt: int, now: int): int {
    expiresAt - now - FiveMinutes
  }

  /**
   * The references `setupTokenRefreshTimers` leaves after clearing: none
   * when the token has expired or both delays are non-positive, otherwise
   * each refresh timer whose delay is positive.
   */
  function Plan(expiresAt: int, now: int): Timers {
    var t10, t5 := Delay10(expiresAt, now), Delay5(expiresAt, now);
    if expiresAt <= now then NoTimers
    else if t10 <= 0 && t5 <= 0 then NoTimers
    else Timers(if t10 > 0 then Some(t10) else None, if t5 > 0 then Some(t5) else None, None, false)
  }

  /**
   * The two early returns never decide anything the delays do not: each
   * refresh timer is set exactly when its own delay is positive, the
   * five-minute timer whenever the ten-minute one is, and five minutes
   * later; no warning timer or handler is set.
   */
  lemma PlanByDelays(expiresAt: int, now: int)
    ensures var p, t10, t5 := Plan(expiresAt, now), Delay10(expiresAt, now), Delay5(expiresAt, now);
      && (p.ten.Some? <==> t10 > 0) && (p.ten.Some? ==> p.ten.value == t10)
      && (p.five.Some? <==> t5 > 0) && (p.five.Some? ==> p.five.value == t5)
      && (p.ten.Some? ==> p.five.Some? && p.five.value == p.ten.value + FiveMinutes)
      && p.warning.None? && !p.handler
  {
  }

  /** Timers set at `now` fire ten and five minutes before the expiry instant. */
  lemma PlanFiresBeforeExpiry(expiresAt: int, now: int)
    ensures var p := Plan(expiresAt, now);
      && (p.ten.Some? ==> now + p.ten.value == expiresAt - TenMinutes && p.ten.value > 0)
      && (p.five.Some? ==> now + p.five.value == expiresAt - FiveMinutes && p.five.value > 0)
  {
  }

  /** An expired token, a token within five minutes of expiry, or a missing stored expiry sets no timer. */
  lemma NoTimersNearExpiry(expiresAt: int, now: int)
    ensures expiresAt - now <= FiveMinutes ==> Plan(expiresAt, now) == NoTimers
    ensures now >= 0 ==> Plan(ReadNumber(None), now) == NoTimers
  {
  }

  /**
   * A token scheduled in the millisecond it was issued: a lifetime over
   * ten minutes sets both timers, one between five and ten minutes only
   * the five-minute timer, and a shorter one none.
   */
  lemma FreshTokenPlan(issuedAt: int, expiresIn: int)
    ensures var p := Plan(ExpiryMs(issuedAt, expiresIn), issuedAt * 1000);
      && (expiresIn > 600 ==> p.ten == Some(expiresIn * 1000 - TenMinutes) && p.five == Some(expiresIn * 1000 - FiveMinutes))
      && (300 < expiresIn <= 600 ==> p.ten.None? && p.five == Some(expiresIn * 1000 - FiveMinutes))
      && (expiresIn <= 300 ==> p == NoTimers)
  {
    ExpiryAfterIssue(issuedAt, expiresIn);
  }

  /** The activity rule of a firing timer: refresh when the last activity lies less than five minutes back. */
  predicate Active(now: int, lastActivity: int) {
    now - lastActivity < FiveMinutes
  }

  /** Later activity only helps, and without any recorded activity a timer past the first five minutes never refreshes. */
  lemma ActivityRule(now: int, last: int, later: int)
    ensures last <= later && Active(now, last) ==> Active(now, later)
    ensures now >= FiveMinutes ==> !Active(now, ReadNumber(None))
  {
  }

  /** `!studentInfo?.student_id` decides the refresh; missing student info parses as `{}`. */
  predicate HasStudent(info: Option<Session>) {
    info.Some? && "student_id" in info.value && NoteEditorPage.Truthy(info.value["student_id"])
  }

  /** What the refresh endpoint replies: the new token, its issue instant and its lifetime in seconds. */
  datatype TokenReply = TokenReply(token: string, issuedAt: int, expiresIn: int)

  /** The alert the module shows. */
  datatype Alert = NoAlert | RefreshFailed | ExpiringSoon

  /** The module's references and the sessionStorage keys it reads and writes. */
  class TokenState {
    var timers: Timers
    var accessToken: Option<string>
    var expiresAt: Option<int>
    var lastActivity: Option<int>
    var studentInfo: Option<Session>

    /** A page load: no timers, storage as found. */
    constructor (token: Option<string>, expiry: Option<int>, activity: Option<int>, info: Option<Session>)
      ensures timers == NoTimers && accessToken == token && expiresAt == expiry
      ensures lastActivity == activity && studentInfo == info
    {
      timers := NoTimers;
      accessToken := token;
      expiresAt := expiry;
      lastActivity := activity;
      studentInfo := info;
    }

    /** `clearTokenTimers`: all four references null, storage untouched; a second call then changes nothing. */
    method ClearTimers()
      modifies this
      ensures timers == NoTimers
      ensures accessToken == old(accessToken) && expiresAt == old(expiresAt)
      ensures lastActivity == old(lastActivity) && studentInfo == old(studentInfo)
    {
      timers := NoTimers;
    }

    /** `setTokenInSession`: the token and its expiry in milliseconds are stored. */
    method SetTokenInSession(token: string, issuedAt: int, expiresIn: int)
      modifies this
      ensures accessToken == Some(token) && expiresAt == Some(ExpiryMs(issuedAt, expiresIn))
      ensures timers == old(timers) && lastActivity == old(lastActivity) && studentInfo == old(studentInfo)
    {
      accessToken := Some(token);
      expiresAt := Some((issuedAt + expiresIn) * 1000);
    }

    /** `setupTokenRefreshTimers` at clock `now`: the old timers cleared, then the plan for the stored expiry. */
    method SetupTimers(now: int)
      modifies this
      ensures timers == Plan(ReadNumber(expiresAt), now)
      ensures accessToken == old(accessToken) && expiresAt == old(expiresAt)
      ensures lastActivity == old(lastActivity) && studentInfo == old(studentInfo)
    {
      ClearTimers();
      var e := ReadNumber(expiresAt);
      var t10 := e - now - TenMinutes;
      var t5 := e - now - FiveMinutes;
      if e <= now {
        return;
      }
      if t10 <= 0 && t5 <= 0 {
        return;
      }
      if t10 > 0 {
        timers := timers.(ten := Some(t10));
      }
      if t5 > 0 {
        timers := timers.(five := Some(t5));
      }
    }

    /** `handleInitialToken`: the first token is stored and the timers are planned for it. */
    method HandleInitialToken(reply: TokenReply, now: int)
      modifies this
      ensures accessToken == Some(reply.token) && expiresAt == Some(ExpiryMs(reply.issuedAt, reply.expiresIn))
      ensures timers == Plan(ExpiryMs(reply.issuedAt, reply.expiresIn), now)
      ensures lastActivity == old(lastActivity) && studentInfo == old(studentInfo)
    {
      SetTokenInSession(reply.token, reply.issuedAt, reply.expiresIn);
      SetupTimers(now);
    }

    /**
     * `refreshToken`, with `reply` the outcome of the request (None when it
     * throws) and `now` the clock when it settles. Without a student id
     * nothing is sent and nothing changes. Otherwise the student info is
     * sent; a reply is stored and the timers are planned afresh, a failure
     * clears every timer and shows the error alert.
     */
    method RefreshToken(reply: Option<TokenReply>, now: int) returns (sent: Option<Session>, alert: Alert)
      modifies this
      ensures lastActivity == old(lastActivity) && studentInfo == old(studentInfo)
      ensures !HasStudent(old(studentInfo)) ==> (sent.None? && alert == NoAlert && timers == old(timers)
        && accessToken == old(accessToken) && expiresAt == old(expiresAt))
      ensures HasStudent(old(studentInfo)) ==> sent == old(studentInfo)
      ensures HasStudent(old(studentInfo)) && reply.Some? ==> (alert == NoAlert
        && accessToken == Some(reply.value.token)
        && expiresAt == Some(ExpiryMs(reply.value.issuedAt, reply.value.expiresIn))
        && timers == Plan(ExpiryMs(reply.value.issuedAt, reply.value.expiresIn), now))
      ensures HasStudent(old(studentInfo)) && reply.None? ==> (alert == RefreshFailed && timers == NoTimers
        && accessToken == old(accessToken) && expiresAt == old(expiresAt))
    {
      if !HasStudent(studentInfo) {
        return None, NoAlert;
      }
      sent := studentInfo;
      alert := NoAlert;
      if reply.Some? {
        SetTokenInSession(reply.value.token, reply.value.issuedAt, reply.value.expiresIn);
        SetupTimers(now);
      } else {
        ClearTimers();
        alert := RefreshFailed;
      }
    }

    /**
     * The ten-minute timer firing at clock `fired`: it refreshes (settling
     * at `settled`) only under the activity rule, reading a missing
     * activity time as 0, and otherwise does nothing.
     */
    method FireTen(fired: int, reply: Option<TokenReply>, settled: int) returns (sent: Option<Session>, alert: Alert)
      modifies this
      ensures lastActivity == old(lastActivity) && studentInfo == old(studentInfo)
      ensures !Active(fired, ReadNumber(old(lastActivity))) ==> (sent.None? && alert == NoAlert
        && timers == old(timers) && accessToken == old(accessToken) && expiresAt == old(expiresAt))
      ensures Active(fired, ReadNumber(old(lastActivity))) && !HasStudent(old(studentInfo)) ==> (sent.None?
        && alert == NoAlert && timers == old(timers) && accessToken == old(accessToken) && expiresAt == old(expiresAt))
      ensures Active(fired, ReadNumber(old(lastActivity))) && HasStudent(old(studentInfo)) ==> sent == old(studentInfo)
      ensures Active(fired, ReadNumber(old(lastActivity))) && HasStudent(old(studentInfo)) && reply.Some? ==> (alert == NoAlert
        && accessToken == Some(reply.value.token)
        && expiresAt == Some(ExpiryMs(reply.value.issuedAt, reply.value.expiresIn))
        && timers == Plan(ExpiryMs(reply.value.issuedAt, reply.value.expiresIn), settled))
      ensures Active(fired, ReadNumber(old(lastActivity))) && HasStudent(old(studentInfo)) && reply.None? ==> (alert == RefreshFailed
        && timers == NoTimers && accessToken == old(accessToken) && expiresAt == old(expiresAt))
    {
      sent, alert := None, NoAlert;
      if Active(fired, ReadNumber(lastActivity)) {
        sent, alert := RefreshToken(reply, settled);
      }
    }

    /**
     * The five-minute timer firing at clock `fired`: under the activity
     * rule it refreshes as the ten-minute timer does; otherwise it shows
     * the expiry warning, installs the activity handler and sets the
     * five-minute expiry timer, sending nothing.
     */
    method FireFive(fired: int, reply: Option<TokenReply>, settled: int) returns (sent: Option<Session>, alert: Alert)
      modifies this
      ensures lastActivity == old(lastActivity) && studentInfo == old(studentInfo)
      ensures !Active(fired, ReadNumber(old(lastActivity))) ==> (sent.None? && alert == ExpiringSoon
        && timers == old(timers).(warning := Some(FiveMinutes), handler := true)
        && accessToken == old(accessToken) && expiresAt == old(expiresAt))
      ensures Active(fired, ReadNumber(old(lastActivity))) && !HasStudent(old(studentInfo)) ==> (sent.None?
        && alert == NoAlert && timers == old(timers) && accessToken == old(accessToken) && expiresAt == old(expiresAt))
      ensures Active(fired, ReadNumber(old(lastActivity))) && HasStudent(old(studentInfo)) ==> sent == old(studentInfo)
      ensures Active(fired, ReadNumber(old(lastActivity))) && HasStudent(old(studentInfo)) && reply.Some? ==> (alert == NoAlert
        && accessToken == Some(reply.value.token)
        && expiresAt == Some(ExpiryMs(reply.value.issuedAt, reply.value.expiresIn))
        && timers == Plan(ExpiryMs(reply.value.issuedAt, reply.value.expiresIn), settled))
      ensures Active(fired, ReadNumber(old(lastActivity))) && HasStudent(old(studentInfo)) && reply.None? ==> (alert == RefreshFailed
        && timers == NoTimers && accessToken == old(accessToken) && expiresAt == old(expiresAt))
    {
      if Active(fired, ReadNumber(lastActivity)) {
        sent, alert := RefreshToken(reply, settled);
      } else {
        sent, alert := None, ExpiringSoon;
        timers := timers.(handler := true);
        timers := timers.(warning := Some(FiveMinutes));
      }
    }
  }
}
