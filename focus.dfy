/**
 * The focus-session endpoints (apps/api/app/api/focus.py). A session runs,
 * may be paused and resumed, and ends completed or canceled; time spent
 * paused is accumulated in whole seconds and does not count towards the
 * duration. Instants are integer microseconds on one clock, the resolution
 * of Python's `datetime`, and the clock is a parameter of each handler.
 *
 * The table of sessions is a field of `FocusDb`, a sequence whose i-th row
 * has id i + 1, as the auto-increment key gives. The handlers change rows in
 * place and report errors as an `HttpError` with the source's status code.
 */
module Focus {
  import opened Wrappers

  datatype Status = Running | Paused | Completed | Canceled {
    /** `status in {"completed", "canceled"}`. */
    predicate Finished() { this == Completed || this == Canceled }
  }

  datatype FocusSession = FocusSession(
    id: int,
    userId: int,
    durationSeconds: int,
    startedAt: int,
    endedAt: Option<int>,
    status: Status,
    pausedSeconds: int,
    pausedAt: Option<int>)

  const MicrosPerSecond: int := 1_000_000

  /** The schema bound on a requested duration, and the step it must be a multiple of. */
  const MinDuration: int := 300
  const MaxDuration: int := 7200
  const DurationStep: int := 300

  /** `int(delta.total_seconds())`: whole seconds, truncated toward zero. */
  function Seconds(micros: int): (s: int)
    ensures micros >= 0 ==> 0 <= s && s * MicrosPerSecond <= micros < (s + 1) * MicrosPerSecond
    ensures micros < 0 ==> s <= 0 && (s - 1) * MicrosPerSecond < micros <= s * MicrosPerSecond
  {
    if micros >= 0 then micros / MicrosPerSecond else -((-micros) / MicrosPerSecond)
  }

  /** Truncating to seconds is monotonic. */
  lemma SecondsMonotonic(a: int, b: int)
    requires a <= b
    ensures Seconds(a) <= Seconds(b)
  {
  }

  /** A whole number of seconds added to a non-negative span adds exactly that many seconds. */
  lemma SecondsAddWhole(a: int, k: int)
    requires a >= 0 && k >= 0
    ensures Seconds(a + k * MicrosPerSecond) == Seconds(a) + k
  {
    var s := Seconds(a);
    var t := Seconds(a + k * MicrosPerSecond);
    assert (s + k) * MicrosPerSecond <= a + k * MicrosPerSecond < (s + k + 1) * MicrosPerSecond;
  }

  /**
   * `_elapsed_seconds(session, now)`: seconds since the start, measured at
   * the pause instant while paused, less the seconds already paused, and
   * never below zero.
   */
  function ElapsedSeconds(s: FocusSession, now: int): (e: int)
    ensures e >= 0
  {
    var effectiveNow := if s.status == Paused && s.pausedAt.Some? then s.pausedAt.value else now;
    var elapsed := Seconds(effectiveNow - s.startedAt) - s.pausedSeconds;
    if elapsed < 0 then 0 else elapsed
  }

  /** `_is_expired(session, now)`. */
  predicate IsExpired(s: FocusSession, now: int) {
    ElapsedSeconds(s, now) >= s.durationSeconds
  }

  /** A paused session's clock is frozen: its elapsed time is the same whenever it is asked. */
  lemma PausedClockIsFrozen(s: FocusSession, now1: int, now2: int)
    requires s.status == Paused && s.pausedAt.Some?
    ensures ElapsedSeconds(s, now1) == ElapsedSeconds(s, now2)
    ensures IsExpired(s, now1) <==> IsExpired(s, now2)
  {
  }

  /** Otherwise the clock only moves forward, so expiry, once reached, is permanent. */
  lemma ExpiryIsPermanent(s: FocusSession, now1: int, now2: int)
    requires now1 <= now2
    ensures ElapsedSeconds(s, now1) <= ElapsedSeconds(s, now2)
    ensures IsExpired(s, now1) ==> IsExpired(s, now2)
  {
    if !(s.status == Paused && s.pausedAt.Some?) {
      SecondsMonotonic(now1 - s.startedAt, now2 - s.startedAt);
    }
  }

  /** The state invariant of a row: paused exactly when a pause instant is open, ended exactly when finished. */
  predicate WellFormed(s: FocusSession) {
    && (s.status == Paused <==> s.pausedAt.Some?)
    && (s.status.Finished() <==> s.endedAt.Some?)
  }

  /** The row a handler acts on is live: running or paused. */
  predicate Live(s: FocusSession) {
    s.status == Running || s.status == Paused
  }

  /** The pause instant, if any, closed at `now` and added to the paused total. */
  function ClosePause(s: FocusSession, now: int): FocusSession {
    match s.pausedAt
    case None => s
    case Some(p) => s.(pausedSeconds := s.pausedSeconds + Seconds(now - p), pausedAt := None)
  }

  /**
   * `_complete_expired_session(session, now)` on one row: a live session
   * that has expired is completed at `now`, with an open pause closed first;
   * anything else is left as it is. The flag says whether it completed.
   */
  function ExpireIfDue(s: FocusSession, now: int): (r: (FocusSession, bool))
    ensures r.1 <==> !s.status.Finished() && IsExpired(s, now)
    ensures !r.1 ==> r.0 == s
    ensures r.1 ==> r.0.status == Completed && r.0.endedAt == Some(now) && r.0.pausedAt == None
    ensures r.1 ==> r.0.pausedSeconds == s.pausedSeconds + (if s.pausedAt.Some? then Seconds(now - s.pausedAt.value) else 0)
    ensures r.1 ==> r.0.id == s.id && r.0.userId == s.userId && r.0.startedAt == s.startedAt && r.0.durationSeconds == s.durationSeconds
  {
    if s.status.Finished() then (s, false)
    else if !IsExpired(s, now) then (s, false)
    else (ClosePause(s, now).(status := Completed, endedAt := Some(now)), true)
  }

  /** `_ensure_owns(session, user_id)`: a missing session and another user's session are both 401. */
  function EnsureOwns(row: Option<FocusSession>, userId: int): (r: Result<FocusSession, HttpError>)
    ensures r.Success? <==> row.Some? && row.value.userId == userId
    ensures r.Success? ==> r.value == row.value
    ensures r.Failure? ==> r.error.status == 401
  {
    if row.None? || row.value.userId != userId then Failure(HttpError(401, "Session not found"))
    else Success(row.value)
  }

  /** The pause transition: only a running session may pause, and the pause instant is recorded. */
  function PauseStep(s: FocusSession, now: int): (r: Result<FocusSession, HttpError>)
    ensures r.Success? <==> s.status == Running
    ensures r.Failure? ==> r.error.status == 400
    ensures r.Success? ==> r.value == s.(status := Paused, pausedAt := Some(now))
  {
    if s.status != Running then Failure(HttpError(400, "Session is not running"))
    else Success(s.(status := Paused, pausedAt := Some(now)))
  }

  /** The resume transition: only a paused session may resume; the pause is closed and added up. */
  function ResumeStep(s: FocusSession, now: int): (r: Result<FocusSession, HttpError>)
    ensures r.Success? <==> s.status == Paused
    ensures r.Failure? ==> r.error.status == 400
    ensures r.Success? ==> r.value.status == Running && r.value.pausedAt == None
    ensures r.Success? ==> r.value.pausedSeconds == s.pausedSeconds + (if s.pausedAt.Some? then Seconds(now - s.pausedAt.value) else 0)
  {
    if s.status != Paused then Failure(HttpError(400, "Session is not paused"))
    else Success(ClosePause(s, now).(pausedAt := None, status := Running))
  }

  /** Cancel and complete: any unfinished session ends now with the given status, an open pause closed first. */
  function FinishStep(s: FocusSession, now: int, outcome: Status): (r: Result<FocusSession, HttpError>)
    requires outcome.Finished()
    ensures r.Success? <==> !s.status.Finished()
    ensures r.Failure? ==> r.error.status == 400
    ensures r.Success? ==> r.value.status == outcome && r.value.endedAt == Some(now) && r.value.pausedAt == None
    ensures r.Success? ==> r.value.pausedSeconds == s.pausedSeconds + (if s.pausedAt.Some? then Seconds(now - s.pausedAt.value) else 0)
  {
    if s.status.Finished() then Failure(HttpError(400, "Session already finished"))
    else Success(ClosePause(s, now).(status := outcome, endedAt := Some(now)))
  }

  /** Completed and canceled are absorbing: no transition leaves them. */
  lemma FinishedIsAbsorbing(s: FocusSession, now: int, outcome: Status)
    requires s.status.Finished() && outcome.Finished()
    ensures PauseStep(s, now).Failure? && ResumeStep(s, now).Failure? && FinishStep(s, now, outcome).Failure?
    ensures ExpireIfDue(s, now) == (s, false)
  {
  }

  /** Every transition keeps a well-formed row well-formed, and keeps its identity and timing fields. */
  lemma StepsKeepWellFormed(s: FocusSession, now: int, outcome: Status)
    requires WellFormed(s) && outcome.Finished()
    ensures PauseStep(s, now).Success? ==> WellFormed(PauseStep(s, now).value)
    ensures ResumeStep(s, now).Success? ==> WellFormed(ResumeStep(s, now).value)
    ensures FinishStep(s, now, outcome).Success? ==> WellFormed(FinishStep(s, now, outcome).value)
    ensures WellFormed(ExpireIfDue(s, now).0)
  {
  }

  /** Pausing freezes the elapsed time at the pause instant. */
  lemma PauseFreezesElapsed(s: FocusSession, pausedAt: int, later: int)
    requires s.status == Running
    ensures ElapsedSeconds(PauseStep(s, pausedAt).value, later) == ElapsedSeconds(s, pausedAt)
  {
  }

  /**
   * A pause of whole seconds is not counted: resumed at `resumedAt`, a
   * session has the elapsed time it had when it was paused.
   */
  lemma PauseIsNotCounted(s: FocusSession, pausedAt: int, resumedAt: int)
    requires WellFormed(s) && s.status == Running
    requires s.startedAt <= pausedAt <= resumedAt
    requires (resumedAt - pausedAt) % MicrosPerSecond == 0
    ensures ElapsedSeconds(ResumeStep(PauseStep(s, pausedAt).value, resumedAt).value, resumedAt) == ElapsedSeconds(s, pausedAt)
  {
    var k := (resumedAt - pausedAt) / MicrosPerSecond;
    assert resumedAt - s.startedAt == (pausedAt - s.startedAt) + k * MicrosPerSecond;
    SecondsAddWhole(pausedAt - s.startedAt, k);
    SecondsAddWhole(0, k);
  }

  /** At most one live session per user. */
  ghost predicate AtMostOneLive(rows: seq<FocusSession>) {
    forall i, j :: 0 <= i < |rows| && 0 <= j < |rows| && Live(rows[i]) && Live(rows[j]) && rows[i].userId == rows[j].userId ==> i == j
  }

  /**
   * `_active_session(db, user_id)`: the position of the user's live session
   * that started last, if any (the first of them in table order on a tie).
   */
  function LatestLive(rows: seq<FocusSession>, userId: int): (r: Option<nat>)
    ensures r.None? <==> forall i :: 0 <= i < |rows| ==> !(Live(rows[i]) && rows[i].userId == userId)
    ensures r.Some? ==> r.value < |rows| && Live(rows[r.value]) && rows[r.value].userId == userId
    ensures r.Some? ==> forall i :: 0 <= i < |rows| && Live(rows[i]) && rows[i].userId == userId ==>
                          rows[i].startedAt <= rows[r.value].startedAt
  {
    if rows == [] then None
    else
      var rest := LatestLive(rows[..|rows| - 1], userId);
      var last := rows[|rows| - 1];
      if Live(last) && last.userId == userId && (rest.None? || rows[rest.value].startedAt < last.startedAt) then
        Some(|rows| - 1)
      else
        rest
  }

  /** With at most one live session per user, the active session is that one. */
  lemma LatestLiveIsTheLiveOne(rows: seq<FocusSession>, userId: int, k: nat)
    requires AtMostOneLive(rows) && k < |rows| && Live(rows[k]) && rows[k].userId == userId
    ensures LatestLive(rows, userId) == Some(k)
  {
  }

  /** Replacing the one live session of a user by a finished one leaves the user without a live session. */
  lemma FinishingLeavesNoneLive(rows: seq<FocusSession>, k: nat, s: FocusSession)
    requires AtMostOneLive(rows) && k < |rows| && Live(rows[k]) && !Live(s) && s.userId == rows[k].userId
    ensures AtMostOneLive(rows[k := s])
    ensures forall i :: 0 <= i < |rows| && i != k ==> !(Live(rows[i]) && rows[i].userId == s.userId)
  {
  }

  /** A new live row for a user with no live row keeps one live row per user, and is the user's only one. */
  lemma AppendLiveKeepsOneLive(rows: seq<FocusSession>, s: FocusSession)
    requires AtMostOneLive(rows)
    requires forall i :: 0 <= i < |rows| ==> !(Live(rows[i]) && rows[i].userId == s.userId)
    ensures AtMostOneLive(rows + [s])
    ensures forall i :: 0 <= i < |rows + [s]| && i != |rows| ==> !(Live((rows + [s])[i]) && (rows + [s])[i].userId == s.userId)
  {
    var t := rows + [s];
    assert forall i :: 0 <= i < |rows| ==> t[i] == rows[i];
  }

  class FocusDb {
    var rows: seq<FocusSession>

    ghost predicate Valid()
      reads this
    {
      && (forall i :: 0 <= i < |rows| ==> rows[i].id == i + 1 && WellFormed(rows[i]))
      && AtMostOneLive(rows)
    }

    constructor ()
      ensures Valid() && rows == []
    {
      rows := [];
    }

    /** `db.get(FocusSession, session_id)`. */
    function Get(sessionId: int): (r: Option<FocusSession>)
      reads this
      requires Valid()
      ensures r.Some? <==> 1 <= sessionId <= |rows|
      ensures r.Some? ==> r.value == rows[sessionId - 1] && r.value.id == sessionId
    {
      if 1 <= sessionId <= |rows| then Some(rows[sessionId - 1]) else None
    }

    /** `_complete_expired_session(db, rows[k], now)`: the row is replaced by `ExpireIfDue`. */
    method CompleteExpiredSession(k: nat, now: int) returns (completed: bool)
      requires Valid() && k < |rows|
      modifies this
      ensures Valid() && |rows| == |old(rows)|
      ensures (rows[k], completed) == ExpireIfDue(old(rows[k]), now)
      ensures rows == old(rows)[k := rows[k]]
    {
      var r := ExpireIfDue(rows[k], now);
      StepsKeepWellFormed(rows[k], now, Completed);
      rows := rows[k := r.0];
      completed := r.1;
    }

    /**
     * `start_focus`: a duration outside 300..7200 seconds is refused by the
     * schema (422), one that is not a multiple of 300 is 400; a live session
     * that has not expired at `checkedAt` is 409, and an expired one is
     * completed at `checkedAt` first; then a new running session starts at
     * `now`. The two instants are the two `_utcnow()` calls of the handler.
     */
    method Start(userId: int, durationSeconds: int, checkedAt: int, now: int) returns (r: Result<FocusSession, HttpError>)
      requires Valid()
      modifies this
      ensures Valid()
      ensures r.Failure? ==> rows == old(rows)
      ensures r.Failure? && r.error.status == 422 <==> durationSeconds < MinDuration || durationSeconds > MaxDuration
      ensures r.Failure? && r.error.status == 400 <==>
                MinDuration <= durationSeconds <= MaxDuration && durationSeconds % DurationStep != 0
      ensures r.Failure? && r.error.status == 409 <==>
                && MinDuration <= durationSeconds <= MaxDuration && durationSeconds % DurationStep == 0
                && LatestLive(old(rows), userId).Some? && !IsExpired(old(rows)[LatestLive(old(rows), userId).value], checkedAt)
      ensures r.Success? <==>
                && MinDuration <= durationSeconds <= MaxDuration && durationSeconds % DurationStep == 0
                && (LatestLive(old(rows), userId).None? || IsExpired(old(rows)[LatestLive(old(rows), userId).value], checkedAt))
      ensures r.Failure? ==> r.error in {HttpError(422, "Duration out of range"),
                                         HttpError(400, "Duration must be in 5 minute steps"),
                                         HttpError(409, "Active session exists")}
      ensures r.Success? ==>
                && r.value == FocusSession(|old(rows)| + 1, userId, durationSeconds, now, None, Running, 0, None)
                && (LatestLive(old(rows), userId).None? ==> rows == old(rows) + [r.value])
                && (LatestLive(old(rows), userId).Some? ==>
                      var k := LatestLive(old(rows), userId).value;
                      rows == old(rows)[k := ExpireIfDue(old(rows)[k], checkedAt).0] + [r.value])
                && (forall i :: 0 <= i < |rows| && i != |old(rows)| ==> !(Live(rows[i]) && rows[i].userId == userId))
    {
      if durationSeconds < MinDuration || durationSeconds > MaxDuration {
        return Failure(HttpError(422, "Duration out of range"));
      }
      if durationSeconds % DurationStep != 0 {
        return Failure(HttpError(400, "Duration must be in 5 minute steps"));
      }
      var existing := LatestLive(rows, userId);
      if existing.Some? {
        var k := existing.value;
        var completed := CompleteExpiredSession(k, checkedAt);
        if !completed {
          return Failure(HttpError(409, "Active session exists"));
        }
        FinishingLeavesNoneLive(old(rows), k, rows[k]);
      }
      var session := FocusSession(|rows| + 1, userId, durationSeconds, now, None, Running, 0, None);
      AppendLiveKeepsOneLive(rows, session);
      assert forall i :: 0 <= i < |rows| ==> (rows + [session])[i] == rows[i];
      rows := rows + [session];
      r := Success(session);
    }

    /** Loads the caller's own session, as every transition handler does first. */
    method Owned(userId: int, sessionId: int) returns (r: Result<FocusSession, HttpError>)
      requires Valid()
      ensures r == EnsureOwns(Get(sessionId), userId)
      ensures r.Success? ==> 1 <= sessionId <= |rows| && r.value == rows[sessionId - 1]
    {
      r := EnsureOwns(Get(sessionId), userId);
    }

    /** `pause_focus`. */
    method Pause(userId: int, sessionId: int, now: int) returns (r: Result<FocusSession, HttpError>)
      requires Valid()
      modifies this
      ensures Valid()
      ensures var owned := EnsureOwns(old(Get(sessionId)), userId);
              r == (if owned.Failure? then owned else PauseStep(owned.value, now))
      ensures r.Failure? ==> rows == old(rows)
      ensures r.Success? ==> rows == old(rows)[sessionId - 1 := r.value]
    {
      var owned := Owned(userId, sessionId);
      if owned.Failure? {
        return owned;
      }
      r := PauseStep(owned.value, now);
      if r.Success? {
        StepsKeepWellFormed(owned.value, now, Completed);
        rows := rows[sessionId - 1 := r.value];
      }
    }

    /** `resume_focus`. */
    method Resume(userId: int, sessionId: int, now: int) returns (r: Result<FocusSession, HttpError>)
      requires Valid()
      modifies this
      ensures Valid()
      ensures var owned := EnsureOwns(old(Get(sessionId)), userId);
              r == (if owned.Failure? then owned else ResumeStep(owned.value, now))
      ensures r.Failure? ==> rows == old(rows)
      ensures r.Success? ==> rows == old(rows)[sessionId - 1 := r.value]
    {
      var owned := Owned(userId, sessionId);
      if owned.Failure? {
        return owned;
      }
      r := ResumeStep(owned.value, now);
      if r.Success? {
        StepsKeepWellFormed(owned.value, now, Completed);
        rows := rows[sessionId - 1 := r.value];
      }
    }

    /** `cancel_focus` (with `Canceled`) and `complete_focus` (with `Completed`). */
    method Finish(userId: int, sessionId: int, now: int, outcome: Status) returns (r: Result<FocusSession, HttpError>)
      requires Valid() && outcome.Finished()
      modifies this
      ensures Valid()
      ensures var owned := EnsureOwns(old(Get(sessionId)), userId);
              r == (if owned.Failure? then owned else FinishStep(owned.value, now, outcome))
      ensures r.Failure? ==> rows == old(rows)
      ensures r.Success? ==> rows == old(rows)[sessionId - 1 := r.value]
    {
      var owned := Owned(userId, sessionId);
      if owned.Failure? {
        return owned;
      }
      r := FinishStep(owned.value, now, outcome);
      if r.Success? {
        StepsKeepWellFormed(owned.value, now, outcome);
        rows := rows[sessionId - 1 := r.value];
      }
    }

    /**
     * `active_focus`: the user's live session, unless there is none (204) or
     * it has expired, in which case it is completed now (also 204).
     */
    method Active(userId: int, now: int) returns (r: Option<FocusSession>)
      requires Valid()
      modifies this
      ensures Valid()
      ensures LatestLive(old(rows), userId).None? ==> r.None? && rows == old(rows)
      ensures LatestLive(old(rows), userId).Some? ==>
                var k := LatestLive(old(rows), userId).value;
                && rows == old(rows)[k := ExpireIfDue(old(rows)[k], now).0]
                && (r.Some? <==> !IsExpired(old(rows)[k], now))
                && (r.Some? ==> r.value == old(rows)[k])
    {
      var existing := LatestLive(rows, userId);
      if existing.None? {
        return None;
      }
      var k := existing.value;
      var completed := CompleteExpiredSession(k, now);
      if completed {
        return None;
      }
      r := Some(rows[k]);
    }
  }
}
