/**
  The per-user command rate limiter: each user's last allowed command time
  and the number of commands allowed since the window last restarted.
*/
module RateLimit {
  import opened Wrappers
  import opened Config

  /** The limiter's record of one user: time of the last allowed command
      (milliseconds) and the commands counted in the current window. */
  datatype UserSession = UserSession(lastCommand: int, commandCount: int)

  /** The answer to one call and the user's record after it. */
  datatype Outcome = Outcome(allowed: bool, session: UserSession)

  /** `isAllowed` on one user's record: a new user is allowed and counted
      once; a call more than `window` after the last allowed one restarts
      the count; a user at the cap is refused and left as is; otherwise the
      call is counted and becomes the last allowed one. */
  function Step(s: Option<UserSession>, now: int, window: int, max: int): (o: Outcome)
    ensures o.allowed ==> o.session.lastCommand == now
    ensures o.allowed ==> o.session.commandCount == 1 || (s.Some? && o.session.commandCount == s.value.commandCount + 1)
    ensures !o.allowed ==> s == Some(o.session)
  {
    if s.None? then Outcome(true, UserSession(now, 1))
    else if now - s.value.lastCommand > window then Outcome(true, UserSession(now, 1))
    else if s.value.commandCount >= max then Outcome(false, s.value)
    else Outcome(true, UserSession(now, s.value.commandCount + 1))
  }

  /** A stored count stays between 1 and the cap. */
  predicate InRange(u: UserSession, max: int)
  {
    1 <= u.commandCount <= max
  }

  /** The four branches of one call, as the limiter promises them. */
  lemma StepCases(s: Option<UserSession>, now: int, window: int, max: int)
    ensures s.None? ==> Step(s, now, window, max) == Outcome(true, UserSession(now, 1))
    ensures s.Some? && now - s.value.lastCommand > window ==>
              Step(s, now, window, max).allowed && Step(s, now, window, max).session.commandCount == 1
    ensures s.Some? && now - s.value.lastCommand <= window && s.value.commandCount >= max ==>
              Step(s, now, window, max) == Outcome(false, s.value)
    ensures s.Some? && now - s.value.lastCommand <= window && s.value.commandCount < max ==>
              Step(s, now, window, max) == Outcome(true, UserSession(now, s.value.commandCount + 1))
    ensures Step(s, now, window, max).allowed <==>
              s.None? || now - s.value.lastCommand > window || s.value.commandCount < max
    ensures Step(s, now, window, max).allowed ==> Step(s, now, window, max).session.lastCommand == now
    ensures !Step(s, now, window, max).allowed ==> s == Some(Step(s, now, window, max).session)
  {
  }

  /** With a cap of at least one, every call keeps the count in 1..max. */
  lemma StepInRange(s: Option<UserSession>, now: int, window: int, max: int)
    requires max >= 1
    requires s.Some? ==> InRange(s.value, max)
    ensures InRange(Step(s, now, window, max).session, max)
  {
  }

  /** Answers to a series of calls by one user at the given times. */
  function Run(s: Option<UserSession>, times: seq<int>, window: int, max: int): (r: seq<bool>)
    ensures |r| == |times|
    decreases |times|
  {
    if times == [] then []
    else
      var o := Step(s, times[0], window, max);
      [o.allowed] + Run(Some(o.session), times[1..], window, max)
  }

  /** Number of `true` answers. */
  function Allowed(answers: seq<bool>): nat
  {
    if answers == [] then 0 else (if answers[0] then 1 else 0) + Allowed(answers[1..])
  }

  /** Within one window the cap holds: when every call falls in a span of
      `window` milliseconds starting no earlier than the last allowed
      command, exactly the first `max - count` calls are allowed. */
  lemma {:induction false} RunWithinWindow(u: UserSession, times: seq<int>, window: int, max: int, start: int)
    requires InRange(u, max)
    requires start <= u.lastCommand
    requires forall i :: 0 <= i < |times| ==> start <= times[i] <= start + window
    ensures Allowed(Run(Some(u), times, window, max)) == if |times| <= max - u.commandCount then |times| else max - u.commandCount
    ensures forall i :: 0 <= i < |times| ==> (Run(Some(u), times, window, max)[i] <==> i < max - u.commandCount)
    decreases |times|
  {
    if times != [] {
      var o := Step(Some(u), times[0], window, max);
      var rest := Run(Some(o.session), times[1..], window, max);
      assert Run(Some(u), times, window, max) == [o.allowed] + rest;
      assert times[0] - u.lastCommand <= window;
      RunWithinWindow(o.session, times[1..], window, max, start);
      assert Run(Some(u), times, window, max)[1..] == rest;
      forall i | 1 <= i < |times|
        ensures Run(Some(u), times, window, max)[i] <==> i < max - u.commandCount
      {
        assert Run(Some(u), times, window, max)[i] == rest[i - 1];
      }
    }
  }

  /** The burst a new user can make: of calls spread over at most one window
      after the first, exactly the first `max` are allowed. */
  lemma RunBurst(times: seq<int>, window: int, max: int)
    requires max >= 1 && |times| >= 1
    requires forall i :: 0 <= i < |times| ==> times[0] <= times[i] <= times[0] + window
    ensures Allowed(Run(None, times, window, max)) == if |times| <= max then |times| else max
    ensures forall i :: 0 <= i < |times| ==> (Run(None, times, window, max)[i] <==> i < max)
  {
    var o := Step(None, times[0], window, max);
    var rest := Run(Some(o.session), times[1..], window, max);
    assert Run(None, times, window, max) == [true] + rest;
    RunWithinWindow(o.session, times[1..], window, max, times[0]);
    forall i | 1 <= i < |times|
      ensures Run(None, times, window, max)[i] <==> i < max
    {
      assert Run(None, times, window, max)[i] == rest[i - 1];
    }
  }

  /** `Math.ceil(x / 1000)` for an integer `x`: Dafny's `/` floors for a
      positive divisor, so the ceiling is the negated floor of `-x`. */
  function CeilThousandths(x: int): (r: int)
    ensures (r - 1) * 1000 < x <= r * 1000
  {
    -((-x) / 1000)
  }

  /** `getTimeUntilReset` for a known user: whole seconds, rounded up, until
      the window that began at the last allowed command has passed, and 0
      once it has. */
  function SecondsLeft(lastCommand: int, now: int, window: int): (r: int)
    ensures r >= 0
    ensures r == 0 <==> now - lastCommand >= window
    ensures now >= lastCommand && window >= 0 ==> r <= CeilThousandths(window)
    ensures r > 0 ==> (r - 1) * 1000 < window - (now - lastCommand) <= r * 1000
  {
    var timeLeft := window - (now - lastCommand);
    var c := CeilThousandths(timeLeft);
    if c > 0 then c else 0
  }

  /** At the very end of the window the wait reads 0 while a user at the
      cap is still refused: the window excludes its last millisecond only
      once it is strictly exceeded. */
  lemma BoundaryWaitIsZero(u: UserSession, now: int, window: int, max: int)
    requires now - u.lastCommand == window && u.commandCount >= max
    ensures SecondsLeft(u.lastCommand, now, window) == 0
    ensures !Step(Some(u), now, window, max).allowed
  {
  }

  /** A positive wait means a user at the cap is refused. */
  lemma WaitingMeansRefused(u: UserSession, now: int, window: int, max: int)
    requires SecondsLeft(u.lastCommand, now, window) > 0 && u.commandCount >= max
    ensures !Step(Some(u), now, window, max).allowed
  {
  }

  class RateLimiter {
    /** User id to the user's record. */
    var users: map<string, UserSession>

    /** The window and the cap come from the shipped configuration. */
    const window: int
    const max: int

    ghost predicate Valid()
      reads this
    {
      && max >= 1
      && forall u :: u in users ==> InRange(users[u], max)
    }

    constructor()
      ensures users == map[]
      ensures window == Default.rateLimitWindow && max == Default.rateLimitMax
      ensures Valid()
    {
      users := map[];
      window := Default.rateLimitWindow;
      max := Default.rateLimitMax;
    }

    /** The user's record, if any. */
    function Session(userId: string): Option<UserSession>
      reads this
    {
      if userId in users then Some(users[userId]) else None
    }

    /** `isAllowed` at time `now`: answers and updates only this user's record. */
    method IsAllowed(userId: string, now: int) returns (allowed: bool)
      requires Valid()
      modifies this
      ensures Valid()
      ensures allowed == Step(old(Session(userId)), now, window, max).allowed
      ensures users == old(users)[userId := Step(old(Session(userId)), now, window, max).session]
    {
      StepInRange(Session(userId), now, window, max);
      if userId !in users {
        users := users[userId := UserSession(now, 1)];
        return true;
      }
      var user := users[userId];
      if now - user.lastCommand > window {
        user := user.(commandCount := 1);
        user := user.(lastCommand := now);
        users := users[userId := user];
        return true;
      }
      if user.commandCount >= max {
        return false;
      }
      user := user.(commandCount := user.commandCount + 1);
      user := user.(lastCommand := now);
      users := users[userId := user];
      return true;
    }

    /** `getTimeUntilReset` at time `now`: 0 for an unknown user, never
        negative, at most the window in seconds (rounded up) once the last
        allowed command lies in the past, and 0 exactly when the window has
        run out. */
    function TimeUntilReset(userId: string, now: int): (r: int)
      reads this
      ensures r >= 0
      ensures userId !in users ==> r == 0
      ensures userId in users && now >= users[userId].lastCommand && window >= 0 ==> r <= CeilThousandths(window)
      ensures userId in users ==> (r == 0 <==> now - users[userId].lastCommand >= window)
    {
      if userId !in users then 0 else SecondsLeft(users[userId].lastCommand, now, window)
    }
  }
}
