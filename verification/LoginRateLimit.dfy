/**
 The login rate limiter (crates/server/src/login_rate_limit.rs) and the order in which the
 login handler uses it (crates/server/src/handlers/user.rs).
 */
module LoginRateLimit {
  import opened Wrappers

  /** Nanoseconds of the monotonic clock. */
  type Instant = nat

  const SECOND: nat := 1_000_000_000
  const WINDOW: nat := 60 * SECOND
  const BLOCK: nat := 300 * SECOND
  const MAX_ATTEMPTS: nat := 8

  datatype Entry = Entry(attempts: nat, windowStarted: Instant, blockedUntil: Option<Instant>)

  // ------------------------------------------------------------------
  // The limiter's operations on one key

  function EntryOr(e: Option<Entry>, now: Instant): Entry {
    if e.Some? then e.value else Entry(0, now, None)
  }

  function Rolled(e: Entry, now: Instant): Entry {
    if now > e.windowStarted + WINDOW then e.(attempts := 0, windowStarted := now) else e
  }

  function Allowed(before: Option<Entry>, now: Instant): (Entry, bool) {
    var e := EntryOr(before, now);
    if e.blockedUntil.Some? && now < e.blockedUntil.value then (e, false)
    else if e.blockedUntil.Some? then (Entry(0, now, None), true)
    else (Rolled(e, now), true)
  }

  function Failed(before: Option<Entry>, now: Instant): Entry {
    var e := Rolled(EntryOr(before, now), now);
    var counted := e.(attempts := e.attempts + 1);
    if counted.attempts >= MAX_ATTEMPTS then counted.(blockedUntil := Some(now + BLOCK)) else counted
  }

  function Lookup(m: map<string, Entry>, key: string): Option<Entry> {
    if key in m then Some(m[key]) else None
  }

  class LoginRateLimiter {
    var entries: map<string, Entry>

    constructor ()
      ensures entries == map[]
    {
      entries := map[];
    }

    method Allow(key: string, now: Instant) returns (allowed: bool)
      modifies this
      ensures entries == old(entries)[key := Allowed(Lookup(old(entries), key), now).0]
      ensures allowed == Allowed(Lookup(old(entries), key), now).1
      ensures var e := if key in old(entries) then old(entries)[key] else Entry(0, now, None);
              match e.blockedUntil
              case None =>
                && allowed
                && entries == old(entries)[key := if now > e.windowStarted + 60_000_000_000 then Entry(0, now, None) else e]
              case Some(end) =>
                && (allowed <==> now >= end)
                && entries == old(entries)[key := if now >= end then Entry(0, now, None) else e]
    {
      var entry := if key in entries then entries[key] else Entry(0, now, None);
      if entry.blockedUntil.Some? {
        if now < entry.blockedUntil.value {
          entries := entries[key := entry];
          return false;
        }
        entry := entry.(blockedUntil := None, attempts := 0, windowStarted := now);
      }
      if now > entry.windowStarted + WINDOW {
        entry := entry.(attempts := 0, windowStarted := now);
      }
      entries := entries[key := entry];
      allowed := true;
    }

    method RecordFailure(key: string, now: Instant)
      modifies this
      ensures entries == old(entries)[key := Failed(Lookup(old(entries), key), now)]
      ensures var e := if key in old(entries) then old(entries)[key] else Entry(0, now, None);
              var rolls := now > e.windowStarted + 60_000_000_000;
              var count := if rolls then 1 else e.attempts + 1;
              entries == old(entries)[key := Entry(
                count, if rolls then now else e.windowStarted,
                if count >= 8 then Some(now + 300_000_000_000) else e.blockedUntil)]
    {
      var entry := if key in entries then entries[key] else Entry(0, now, None);
      if now > entry.windowStarted + WINDOW {
        entry := entry.(attempts := 0, windowStarted := now);
      }
      entry := entry.(attempts := entry.attempts + 1);
      if entry.attempts >= 8 {
        entry := entry.(blockedUntil := Some(now + BLOCK));
      }
      entries := entries[key := entry];
    }

    method RecordSuccess(key: string)
      modifies this
      ensures entries == old(entries) - {key}
    {
      entries := entries - {key};
    }
  }

  // ------------------------------------------------------------------
  // Attempts of one user, handled one at a time

  /** One request: when it asks the limiter, when its outcome is recorded, and whether the password was right. */
  datatype Attempt = Attempt(allowAt: Instant, recordAt: Instant, ok: bool)

  datatype LoginAnswer = TooManyAttempts | LoggedIn | Rejected

  function AfterAttempt(e: Option<Entry>, a: Attempt): Option<Entry> {
    var (entry, allowed) := Allowed(e, a.allowAt);
    if !allowed then Some(entry)
    else if a.ok then None
    else Some(Failed(Some(entry), a.recordAt))
  }

  /** user_login: ask, check the password, record. */
  method UserLogin(limiter: LoginRateLimiter, user: string, a: Attempt) returns (answer: LoginAnswer)
    modifies limiter
    ensures Lookup(limiter.entries, user) == AfterAttempt(Lookup(old(limiter.entries), user), a)
    ensures forall other | other != user :: Lookup(limiter.entries, other) == Lookup(old(limiter.entries), other)
    ensures answer == if !Allowed(Lookup(old(limiter.entries), user), a.allowAt).1 then TooManyAttempts
                      else if a.ok then LoggedIn else Rejected
    ensures answer == LoggedIn ==> user !in limiter.entries
    ensures answer != TooManyAttempts ==> (answer == LoggedIn <==> a.ok)
  {
    var allowed := limiter.Allow(user, a.allowAt);
    if !allowed {
      return TooManyAttempts;
    }
    if a.ok {
      limiter.RecordSuccess(user);
      return LoggedIn;
    }
    limiter.RecordFailure(user, a.recordAt);
    answer := Rejected;
  }

  predicate Ordered(attempts: seq<Attempt>) {
    && (forall i | 0 <= i < |attempts| :: attempts[i].allowAt <= attempts[i].recordAt)
    && (forall i, j | 0 <= i < j < |attempts| :: attempts[i].recordAt <= attempts[j].allowAt)
  }

  /** The user's entry after the first n attempts. */
  function After(attempts: seq<Attempt>, n: nat): Option<Entry>
    requires n <= |attempts|
  {
    if n == 0 then None else AfterAttempt(After(attempts, n - 1), attempts[n - 1])
  }

  /** Attempt i got past the limiter. */
  predicate Passes(attempts: seq<Attempt>, i: nat)
    requires i < |attempts|
  {
    Allowed(After(attempts, i), attempts[i].allowAt).1
  }

  predicate GuessIn(attempts: seq<Attempt>, i: nat, from: Instant, to: Instant)
    requires i < |attempts|
  {
    Passes(attempts, i) && !attempts[i].ok && from <= attempts[i].allowAt <= to
  }

  /** How many failing attempts made in [from, to] got past the limiter. */
  function Guesses(attempts: seq<Attempt>, n: nat, from: Instant, to: Instant): nat
    requires n <= |attempts|
  {
    if n == 0 then 0
    else Guesses(attempts, n - 1, from, to) + if GuessIn(attempts, n - 1, from, to) then 1 else 0
  }

  /** No attempt made in [from, to] logs in. */
  predicate NoSuccessIn(attempts: seq<Attempt>, from: Instant, to: Instant) {
    forall i | 0 <= i < |attempts| && Passes(attempts, i) && from <= attempts[i].allowAt <= to :: !attempts[i].ok
  }

  /** The latest time at which the first n attempts did anything. */
  function Clock(attempts: seq<Attempt>, n: nat): Instant
    requires n <= |attempts|
  {
    if n == 0 then 0 else attempts[n - 1].recordAt
  }

  // ------------------------------------------------------------------
  // The bound

  /**
   What the entry after n attempts says about the count c of guesses in [from, from + WINDOW]:
   a window opened before the interval leaves at most its opener uncounted, the next one adds its
   own attempts to at most six, and a block outlasts the interval once anything was counted.
   */
  ghost predicate Bounded(e: Option<Entry>, c: nat, from: Instant, clock: Instant) {
    var to := from + WINDOW;
    && c <= 14
    && (clock < from ==> c == 0)
    && (e.None? ==> c == 0 || clock > to)
    && (e.Some? ==>
          && e.value.attempts >= 1
          && e.value.windowStarted <= clock
          && (e.value.blockedUntil.None? ==> e.value.attempts < MAX_ATTEMPTS)
          && (e.value.blockedUntil.Some? ==> e.value.attempts == MAX_ATTEMPTS)
          && (e.value.blockedUntil.Some? && c > 0 ==> e.value.blockedUntil.value > to)
          && (e.value.windowStarted < from ==> c + 1 <= e.value.attempts)
          && (from <= e.value.windowStarted <= to ==> c <= 6 + e.value.attempts))
  }

  lemma AttemptKeepsBounded(e: Option<Entry>, a: Attempt, c: nat, from: Instant, clock: Instant)
    requires Bounded(e, c, from, clock) && clock <= a.allowAt <= a.recordAt
    requires var passes := Allowed(e, a.allowAt).1;
             passes && from <= a.allowAt <= from + WINDOW ==> !a.ok
    ensures var passes := Allowed(e, a.allowAt).1;
            var c' := c + if passes && !a.ok && from <= a.allowAt <= from + WINDOW then 1 else 0;
            Bounded(AfterAttempt(e, a), c', from, a.recordAt)
  {
  }

  lemma {:induction false} RunIsBounded(attempts: seq<Attempt>, n: nat, from: Instant)
    requires Ordered(attempts) && NoSuccessIn(attempts, from, from + WINDOW) && n <= |attempts|
    ensures Bounded(After(attempts, n), Guesses(attempts, n, from, from + WINDOW), from, Clock(attempts, n))
  {
    if n > 0 {
      RunIsBounded(attempts, n - 1, from);
      assert Clock(attempts, n - 1) <= attempts[n - 1].allowAt;
      AttemptKeepsBounded(After(attempts, n - 1), attempts[n - 1], Guesses(attempts, n - 1, from, from + WINDOW),
                          from, Clock(attempts, n - 1));
    }
  }

  /** In any closed interval of sixty seconds without a login, at most fourteen wrong guesses get past the limiter. */
  lemma AtMostFourteenGuesses(attempts: seq<Attempt>, from: Instant)
    requires Ordered(attempts) && NoSuccessIn(attempts, from, from + WINDOW)
    ensures Guesses(attempts, |attempts|, from, from + WINDOW) <= 14
  {
    RunIsBounded(attempts, |attempts|, from);
  }

  // ------------------------------------------------------------------
  // The block

  /** Once blocked, the entry neither moves nor lets anything past until the block ends. */
  lemma {:induction false} BlockHolds(attempts: seq<Attempt>, i: nat, j: nat)
    requires Ordered(attempts) && i <= j < |attempts|
    requires After(attempts, i).Some? && After(attempts, i).value.blockedUntil.Some?
    requires attempts[j].allowAt < After(attempts, i).value.blockedUntil.value
    ensures !Passes(attempts, j) && After(attempts, j) == After(attempts, i)
  {
    if i < j {
      assert attempts[j - 1].allowAt <= attempts[j - 1].recordAt <= attempts[j].allowAt;
      BlockHolds(attempts, i, j - 1);
    }
  }

  /** Attempt j is the first after i made at or after `time`. */
  predicate FirstAtOrAfter(attempts: seq<Attempt>, i: nat, j: nat, time: Instant)
    requires i < j < |attempts|
  {
    attempts[j].allowAt >= time && forall k | i < k < j :: attempts[k].allowAt < time
  }

  /** How many wrong guesses since the last login got past and were recorded at `start` or later. */
  function GuessesSince(attempts: seq<Attempt>, n: nat, start: Instant): nat
    requires n <= |attempts|
  {
    if n == 0 then 0
    else if !Passes(attempts, n - 1) then GuessesSince(attempts, n - 1, start)
    else if attempts[n - 1].ok then 0
    else GuessesSince(attempts, n - 1, start) + if attempts[n - 1].recordAt >= start then 1 else 0
  }

  /** The entry counts its window's guesses, none was recorded after the window, and a full window is blocked. */
  ghost predicate CountsWindow(e: Option<Entry>, attempts: seq<Attempt>, n: nat)
    requires n <= |attempts|
  {
    match e
    case None => forall t :: GuessesSince(attempts, n, t) == 0
    case Some(e) =>
      && e.attempts == GuessesSince(attempts, n, e.windowStarted)
      && (forall t | t > e.windowStarted + WINDOW :: GuessesSince(attempts, n, t) == 0)
      && e.windowStarted <= Clock(attempts, n)
      && (e.blockedUntil.Some? <==> e.attempts >= MAX_ATTEMPTS)
      && (e.blockedUntil.Some? ==> e.blockedUntil.value > e.windowStarted + WINDOW)
  }

  /** A wrong guess that got past either joins the window before it or opens one of its own. */
  lemma PassedGuessJoinsOrOpens(before: Option<Entry>, a: Attempt)
    requires Allowed(before, a.allowAt).1 && !a.ok && a.allowAt <= a.recordAt
    requires before.Some? ==>
               var e := before.value;
               && e.windowStarted <= a.allowAt && (e.blockedUntil.Some? <==> e.attempts >= MAX_ATTEMPTS)
               && (e.blockedUntil.Some? ==> e.blockedUntil.value > e.windowStarted + WINDOW)
    ensures AfterAttempt(before, a).Some?
    ensures var e := AfterAttempt(before, a).value;
            && e.windowStarted <= a.recordAt <= e.windowStarted + WINDOW
            && (e.blockedUntil.Some? <==> e.attempts >= MAX_ATTEMPTS)
            && (e.blockedUntil.Some? ==> e.blockedUntil.value > e.windowStarted + WINDOW)
            && (|| (before.Some? && e.windowStarted == before.value.windowStarted && e.attempts == before.value.attempts + 1)
                || (e.attempts == 1 && (before.Some? ==> e.windowStarted > before.value.windowStarted + WINDOW)))
  {
  }

  lemma PassedGuessCounts(attempts: seq<Attempt>, n: nat)
    requires n < |attempts| && Passes(attempts, n) && !attempts[n].ok
    requires Clock(attempts, n) <= attempts[n].allowAt <= attempts[n].recordAt
    requires CountsWindow(After(attempts, n), attempts, n)
    ensures CountsWindow(AfterAttempt(After(attempts, n), attempts[n]), attempts, n + 1)
  {
    var m := n + 1;
    PassedGuessJoinsOrOpens(After(attempts, n), attempts[n]);
    var after := AfterAttempt(After(attempts, n), attempts[n]).value;
    assert after.attempts == 1 ==> GuessesSince(attempts, n, after.windowStarted) == 0;
    assert forall t | t > after.windowStarted + WINDOW :: GuessesSince(attempts, m, t) == GuessesSince(attempts, n, t);
    assert forall t | t > after.windowStarted + WINDOW :: GuessesSince(attempts, m, t) == 0;
  }

  /** In every run the stored count is the number of guesses of the stored window. */
  lemma {:induction false} EntryCountsGuesses(attempts: seq<Attempt>, n: nat)
    requires Ordered(attempts) && n <= |attempts|
    ensures CountsWindow(After(attempts, n), attempts, n)
  {
    if n > 0 {
      EntryCountsGuesses(attempts, n - 1);
      assert Clock(attempts, n - 1) <= attempts[n - 1].allowAt <= attempts[n - 1].recordAt == Clock(attempts, n);
      if Passes(attempts, n - 1) && !attempts[n - 1].ok {
        PassedGuessCounts(attempts, n - 1);
      }
    }
  }

  /** The window held after n attempts began at `start`. */
  predicate InWindow(attempts: seq<Attempt>, n: nat, start: Instant)
    requires n <= |attempts|
  {
    After(attempts, n).Some? && After(attempts, n).value.windowStarted == start
  }

  lemma StoredCount(attempts: seq<Attempt>, n: nat, start: Instant, count: nat)
    requires Ordered(attempts) && n <= |attempts| && InWindow(attempts, n, start)
    requires GuessesSince(attempts, n, start) == count
    ensures After(attempts, n).value.attempts == count
  {
    EntryCountsGuesses(attempts, n);
  }

  /** The guess that fills the window stores the end of the block. */
  lemma FullWindowIsBlocked(attempts: seq<Attempt>, n: nat)
    requires 1 <= n <= |attempts| && Passes(attempts, n - 1) && !attempts[n - 1].ok
    requires After(attempts, n).Some? && After(attempts, n).value.attempts == MAX_ATTEMPTS
    ensures After(attempts, n).value.blockedUntil == Some(attempts[n - 1].recordAt + BLOCK)
  {
    FullEntryIsBlocked(After(attempts, n - 1), attempts[n - 1]);
  }

  lemma FullEntryIsBlocked(e: Option<Entry>, a: Attempt)
    requires Allowed(e, a.allowAt).1 && !a.ok
    ensures AfterAttempt(e, a).Some?
    ensures AfterAttempt(e, a).value.attempts >= MAX_ATTEMPTS ==>
              AfterAttempt(e, a).value.blockedUntil == Some(a.recordAt + BLOCK)
  {
  }

  /** A block stored by attempt i holds until its end, and the first attempt from then on gets past. */
  lemma BlockHoldsThenEnds(attempts: seq<Attempt>, i: nat, j: nat, end: Instant)
    requires Ordered(attempts) && i < j < |attempts|
    requires var e := After(attempts, i + 1); e.Some? && e.value.blockedUntil == Some(end)
    ensures attempts[j].allowAt < end ==> !Passes(attempts, j)
    ensures FirstAtOrAfter(attempts, i, j, end) ==> Passes(attempts, j)
  {
    if attempts[j].allowAt < end {
      BlockHolds(attempts, i + 1, j);
    } else if FirstAtOrAfter(attempts, i, j, end) && i + 1 < j {
      BlockHolds(attempts, i + 1, j - 1);
    }
  }

  /**
   Once eight wrong guesses of one window got past, nothing does for 300 seconds from the recording of the
   eighth, and the first attempt made at or after that moment does.
   */
  lemma EighthFailureBlocks(attempts: seq<Attempt>, i: nat, j: nat, start: Instant)
    requires Ordered(attempts) && i < j < |attempts| && Passes(attempts, i) && !attempts[i].ok
    requires InWindow(attempts, i + 1, start) && GuessesSince(attempts, i + 1, start) == 8
    ensures attempts[j].allowAt < attempts[i].recordAt + BLOCK ==> !Passes(attempts, j)
    ensures FirstAtOrAfter(attempts, i, j, attempts[i].recordAt + BLOCK) ==> Passes(attempts, j)
  {
    StoredCount(attempts, i + 1, start, 8);
    FullWindowIsBlocked(attempts, i + 1);
    BlockHoldsThenEnds(attempts, i, j, attempts[i].recordAt + BLOCK);
  }

  /** Nothing was recorded in the minute before attempt o, or it comes first or follows a login. */
  predicate StartsFresh(attempts: seq<Attempt>, o: nat)
    requires o < |attempts|
  {
    || o == 0
    || (Passes(attempts, o - 1) && attempts[o - 1].ok)
    || attempts[o - 1].recordAt + WINDOW < attempts[o].allowAt
  }

  /** The first guess of a fresh start opens a window. */
  lemma FreshGuessOpens(attempts: seq<Attempt>, o: nat)
    requires Ordered(attempts) && o < |attempts| && StartsFresh(attempts, o) && Passes(attempts, o)
    requires !attempts[o].ok && attempts[o].recordAt <= attempts[o].allowAt + WINDOW
    ensures After(attempts, o + 1) == Some(Entry(1, attempts[o].allowAt, None))
  {
    EntryCountsGuesses(attempts, o);
  }

  /** A further guess in an open window is let past and counted. */
  lemma NextGuessCounts(e: Entry, a: Attempt)
    requires e.blockedUntil.None? && e.attempts < MAX_ATTEMPTS && !a.ok
    requires e.windowStarted <= a.allowAt <= a.recordAt <= e.windowStarted + WINDOW
    ensures Allowed(Some(e), a.allowAt).1
    ensures AfterAttempt(Some(e), a) == Some(Entry(e.attempts + 1, e.windowStarted,
              if e.attempts + 1 == MAX_ATTEMPTS then Some(a.recordAt + BLOCK) else None))
  {
  }

  /** From a fresh start m wrong guesses within a minute all get past and are all counted. */
  lemma {:induction false} FreshGuessesCount(attempts: seq<Attempt>, o: nat, m: nat)
    requires Ordered(attempts) && 1 <= m <= MAX_ATTEMPTS && o + m <= |attempts|
    requires StartsFresh(attempts, o) && Passes(attempts, o)
    requires forall k | o <= k < o + m :: !attempts[k].ok && attempts[k].recordAt <= attempts[o].allowAt + WINDOW
    ensures Passes(attempts, o + m - 1)
    ensures After(attempts, o + m) == Some(Entry(m, attempts[o].allowAt,
              if m == MAX_ATTEMPTS then Some(attempts[o + m - 1].recordAt + BLOCK) else None))
  {
    if m == 1 {
      FreshGuessOpens(attempts, o);
    } else {
      FreshGuessesCount(attempts, o, m - 1);
      OrderedTimes(attempts, o, o + m - 1);
      NextGuessCounts(After(attempts, o + m - 1).value, attempts[o + m - 1]);
    }
  }

  lemma {:induction false} OrderedTimes(attempts: seq<Attempt>, i: nat, j: nat)
    requires Ordered(attempts) && i <= j < |attempts|
    ensures attempts[i].allowAt <= attempts[j].allowAt <= attempts[j].recordAt
    decreases j
  {
    if i < j {
      OrderedTimes(attempts, i, j - 1);
    }
  }

  /** Seen from outside: eight wrong guesses in a row within a minute of a fresh start block the user for 300 seconds. */
  lemma EightInARowBlock(attempts: seq<Attempt>, o: nat, j: nat)
    requires Ordered(attempts) && o + 8 <= j < |attempts|
    requires StartsFresh(attempts, o) && Passes(attempts, o)
    requires forall k | o <= k < o + 8 :: !attempts[k].ok && attempts[k].recordAt <= attempts[o].allowAt + WINDOW
    ensures forall k | o <= k < o + 8 :: Passes(attempts, k)
    ensures attempts[j].allowAt < attempts[o + 7].recordAt + BLOCK ==> !Passes(attempts, j)
    ensures FirstAtOrAfter(attempts, o + 7, j, attempts[o + 7].recordAt + BLOCK) ==> Passes(attempts, j)
  {
    forall k | o <= k < o + 8 ensures Passes(attempts, k) {
      FreshGuessesCount(attempts, o, k - o + 1);
    }
    FreshGuessesCount(attempts, o, 8);
    BlockHoldsThenEnds(attempts, o + 7, j, attempts[o + 7].recordAt + BLOCK);
  }

  // ------------------------------------------------------------------
  // Fourteen is reached

  function At(second: nat): Attempt {
    Attempt(second * SECOND, second * SECOND, false)
  }

  /** One more failure while the window has room: it counts, and the eighth one blocks. */
  lemma OneMoreGuess(all: seq<Attempt>, i: nat, second: nat, from: Instant, to: Instant)
    requires i < |all| && all[i] == At(second)
    requires HasRoom(After(all, i), second, 1) && from <= second * SECOND <= to
    ensures Guesses(all, i + 1, from, to) == Guesses(all, i, from, to) + 1
    ensures After(all, i + 1) == Some(Counted(After(all, i), second, 1))
  {
  }

  lemma {:induction false} BurstCounts(all: seq<Attempt>, i: nat, second: nat, n: nat, from: Instant, to: Instant)
    requires n >= 1 && i + n <= |all| && forall k | i <= k < i + n :: all[k] == At(second)
    requires HasRoom(After(all, i), second, n) && from <= second * SECOND <= to
    ensures Guesses(all, i + n, from, to) == Guesses(all, i, from, to) + n
    ensures After(all, i + n) == Some(Counted(After(all, i), second, n))
  {
    if n > 1 {
      BurstCounts(all, i, second, n - 1, from, to);
      CountedAgain(After(all, i), second, n - 1);
    }
    OneMoreGuess(all, i + n - 1, second, from, to);
  }

  lemma CountedAgain(e: Option<Entry>, second: nat, n: nat)
    requires n >= 1 && HasRoom(e, second, n + 1)
    ensures HasRoom(Some(Counted(e, second, n)), second, 1)
    ensures Counted(Some(Counted(e, second, n)), second, 1) == Counted(e, second, n + 1)
  {
  }

  /** The entry after n failures at `second`. */
  function Counted(e: Option<Entry>, second: nat, n: nat): Entry {
    Entry(Base(e, second) + n, Start(e, second),
          if Base(e, second) + n == MAX_ATTEMPTS then Some(second * SECOND + BLOCK) else None)
  }

  predicate HasRoom(e: Option<Entry>, second: nat, n: nat) {
    && (e.Some? ==> e.value.blockedUntil.None? && e.value.windowStarted <= second * SECOND)
    && Base(e, second) + n <= MAX_ATTEMPTS
  }

  function Base(e: Option<Entry>, second: nat): nat {
    if e.None? || second * SECOND > e.value.windowStarted + WINDOW then 0 else e.value.attempts
  }

  function Start(e: Option<Entry>, second: nat): Instant {
    if e.None? || second * SECOND > e.value.windowStarted + WINDOW then second * SECOND else e.value.windowStarted
  }

  /** One failure at 0 s, six at 60 s and eight at 61 s. */
  function FourteenInAMinute(): (attempts: seq<Attempt>)
    ensures |attempts| == 15
    ensures forall i | 0 <= i < 15 :: attempts[i] == At(if i < 1 then 0 else if i < 7 then 60 else 61)
  {
    seq(15, i requires 0 <= i < 15 => At(if i < 1 then 0 else if i < 7 then 60 else 61))
  }

  /** Fourteen guesses get past within [60 s, 120 s]. */
  lemma FourteenIsReached()
    ensures var attempts := FourteenInAMinute();
            && Ordered(attempts) && NoSuccessIn(attempts, 60 * SECOND, 60 * SECOND + WINDOW)
            && Guesses(attempts, |attempts|, 60 * SECOND, 60 * SECOND + WINDOW) == 14
  {
    FourteenCounted(FourteenInAMinute(), 60 * SECOND, 60 * SECOND + WINDOW);
  }

  /** The failure at 0 s opens the window and lies before the interval. */
  lemma FirstCounted(all: seq<Attempt>, from: Instant, to: Instant)
    requires from > 0 && all != [] && all[0] == At(0)
    ensures After(all, 1) == Some(Entry(1, 0, None)) && Guesses(all, 1, from, to) == 0
  {
    assert After(all, 0) == None && Guesses(all, 0, from, to) == 0;
  }

  lemma FourteenCounted(all: seq<Attempt>, from: Instant, to: Instant)
    requires all == FourteenInAMinute() && from == 60 * SECOND && to == 120 * SECOND
    ensures Guesses(all, 15, from, to) == 14
  {
    FirstCounted(all, from, to);
    BurstCounts(all, 1, 60, 6, from, to);
    BurstCounts(all, 7, 61, 8, from, to);
  }
}
