/**
 Backoff for the console's login (packages/gateway/src/login-throttle.ts): five free
 failures a key, then a delay that doubles up to five minutes; an hour without a failure
 forgets the key. Times are in milliseconds.
 */
module LoginThrottle {
  const FREE_FAILURES := 5
  const MAX_DELAY_SECONDS := 300
  const FORGET_AFTER := 60 * 60 * 1000

  datatype Entry = Entry(failures: nat, blockedUntil: int, lastFailureAt: int)

  type Entries = map<string, Entry>

  predicate Forgotten(e: Entry, now: int) { now - e.lastFailureAt > FORGET_AFTER }

  function Pow2(n: nat): nat { if n == 0 then 1 else 2 * Pow2(n - 1) }

  function Delay(past: nat): nat
    requires past > 0
  {
    if Pow2(past - 1) < MAX_DELAY_SECONDS then Pow2(past - 1) else MAX_DELAY_SECONDS
  }

  function RetryAfter(entries: Entries, key: string, now: int): nat {
    if key !in entries || Forgotten(entries[key], now) || entries[key].blockedUntil <= now then 0
    else (entries[key].blockedUntil - now + 999) / 1000
  }

  /** What asking leaves: a forgotten entry goes. */
  function Asked(entries: Entries, key: string, now: int): Entries {
    if key in entries && Forgotten(entries[key], now) then entries - {key} else entries
  }

  function Swept(entries: Entries, now: int): Entries {
    map k | k in entries && !Forgotten(entries[k], now) :: entries[k]
  }

  function Failed(e: Entry, now: int): Entry {
    var failures := e.failures + 1;
    Entry(failures,
          if failures > FREE_FAILURES then now + Delay(failures - FREE_FAILURES) * 1000 else e.blockedUntil,
          now)
  }

  function Recorded(entries: Entries, key: string, now: int): Entries {
    var live := Swept(entries, now);
    live[key := Failed(if key in live then live[key] else Entry(0, 0, 0), now)]
  }

  class LoginThrottle {
    var entries: Entries

    constructor ()
      ensures entries == map[]
    {
      entries := map[];
    }

    method RetryAfterSeconds(key: string, now: int) returns (seconds: nat)
      modifies this
      ensures seconds == RetryAfter(old(entries), key, now)
      ensures entries == Asked(old(entries), key, now)
    {
      if key !in entries { return 0; }
      var entry := entries[key];
      if now - entry.lastFailureAt > FORGET_AFTER {
        entries := entries - {key};
        return 0;
      }
      var left := entry.blockedUntil - now;
      seconds := if left <= 0 then 0 else (left + 999) / 1000;
    }

    method RecordFailure(key: string, now: int)
      modifies this
      ensures entries == Recorded(old(entries), key, now)
    {
      Sweep(now);
      var entry := if key in entries then entries[key] else Entry(0, 0, 0);
      entry := entry.(failures := entry.failures + 1, lastFailureAt := now);
      var past := entry.failures - FREE_FAILURES;
      if past > 0 {
        entry := entry.(blockedUntil := now + Delay(past) * 1000);
      }
      entries := entries[key := entry];
    }

    method Clear(key: string)
      modifies this
      ensures entries == old(entries) - {key}
    {
      entries := entries - {key};
    }

    method Sweep(now: int)
      modifies this
      ensures entries == Swept(old(entries), now)
    {
      var todo := entries.Keys;
      while todo != {}
        invariant forall k :: k in entries <==> k in old(entries) && (k in todo || !Forgotten(old(entries)[k], now))
        invariant forall k :: k in entries ==> entries[k] == old(entries)[k]
        decreases todo
      {
        var key :| key in todo;
        todo := todo - {key};
        if key in entries && now - entries[key].lastFailureAt > FORGET_AFTER {
          entries := entries - {key};
        }
      }
    }
  }

  // ---------------------------------------------------------------- forgetting is invisible

  /** Neither a sweep nor an ask that drops a forgotten entry changes any answer, now or later. */
  lemma ForgettingIsInvisible(entries: Entries, key: string, now: int, k: string, later: int)
    requires now <= later
    ensures RetryAfter(Swept(entries, now), k, later) == RetryAfter(entries, k, later)
    ensures RetryAfter(Asked(entries, key, now), k, later) == RetryAfter(entries, k, later)
  {
  }

  /** Nor what a later failure records, of that key or any other. */
  lemma ForgettingLeavesNoTrace(entries: Entries, key: string, now: int, k: string, later: int)
    requires now <= later
    ensures Recorded(Swept(entries, now), k, later) == Recorded(entries, k, later)
    ensures Recorded(Asked(entries, key, now), k, later) == Recorded(entries, k, later)
  {
    assert Swept(Swept(entries, now), later) == Swept(entries, later);
    assert Swept(Asked(entries, key, now), later) == Swept(entries, later);
  }

  // ---------------------------------------------------------------- the guessing bound

  lemma {:induction false} Pow2Grows(n: nat)
    requires n >= 9
    ensures Pow2(n) >= 512
  {
    if n > 9 {
      Pow2Grows(n - 1);
    } else {
      assert Pow2(5) == 32 && Pow2(9) == 2 * 2 * 2 * 2 * Pow2(5);
    }
  }

  /** From the fifteenth failure on, the wait is the whole five minutes. */
  lemma FullDelay(failures: nat)
    requires failures >= 15
    ensures Delay(failures - FREE_FAILURES) == 300
  {
    Pow2Grows(failures - FREE_FAILURES - 1);
  }

  /** The delay doubles from one second to the cap. */
  lemma DelayDoubles(past: nat)
    requires past > 0
    ensures Delay(1) == 1
    ensures Delay(past + 1) == if 2 * Delay(past) < MAX_DELAY_SECONDS then 2 * Delay(past) else MAX_DELAY_SECONDS
  {
    assert Pow2(past) == 2 * Pow2(past - 1);
  }

  /** How many failures stand against a key, and the wait they left. */
  function Standing(entries: Entries, key: string, now: int): nat {
    if key in entries && !Forgotten(entries[key], now) then entries[key].failures else 0
  }

  /**
   A failure on record: the key's count goes on from what stood within the hour, or from
   none; of the others exactly those that failed within the hour are left, as they were.
   */
  lemma RecordedMeans(entries: Entries, key: string, now: int, k: string)
    ensures var after := Recorded(entries, key, now);
            var stands := k in entries && now - entries[k].lastFailureAt <= 3600000;
            && (k in after <==> k == key || stands)
            && (k != key && stands ==> after[k] == entries[k])
            && (k == key ==> after[k].failures == (if stands then entries[k].failures + 1 else 1))
            && (k == key ==> after[k].lastFailureAt == now)
  {
  }

  /**
   What one more failure costs: nothing up to the fifth; past it, a wait that is exactly the
   delay at once, the seconds left of it later, and over when it is over.
   */
  lemma WaitAfterFailure(entries: Entries, key: string, now: int, later: int)
    requires now <= later <= now + FORGET_AFTER
    requires Standing(entries, key, now) < FREE_FAILURES && key in entries ==> entries[key].blockedUntil <= now
    requires now >= 0
    ensures var f := Standing(entries, key, now) + 1;
            var wait := RetryAfter(Recorded(entries, key, now), key, later);
            if f <= FREE_FAILURES then wait == 0
            else var until := now + 1000 * Delay(f - FREE_FAILURES);
                 && (wait == 0 <==> later >= until)
                 && (wait > 0 ==> 1000 * (wait - 1) < until - later <= 1000 * wait)
                 && (later == now ==> wait == Delay(f - FREE_FAILURES))
  {
  }

  datatype Event = Ask(key: string, at: int) | Fail(key: string, at: int) | Clear(key: string, at: int)

  function After(entries: Entries, e: Event): Entries {
    match e
    case Ask(key, at) => Asked(entries, key, at)
    case Fail(key, at) => Recorded(entries, key, at)
    case Clear(key, _) => entries - {key}
  }

  /** The clock does not go back; `key` fails only when it may try, and never succeeds. */
  predicate Guesses(entries: Entries, events: seq<Event>, clock: int, key: string)
    decreases |events|
  {
    events == [] ||
    (var e := events[0];
     && e.at >= clock
     && (e.Fail? && e.key == key ==> RetryAfter(entries, key, e.at) == 0)
     && !(e.Clear? && e.key == key)
     && Guesses(After(entries, e), events[1..], e.at, key))
  }

  function Failures(events: seq<Event>, key: string): nat {
    if events == [] then 0
    else (if events[0].Fail? && events[0].key == key then 1 else 0) + Failures(events[1..], key)
  }

  /** When the clock stood at the last of the events. */
  function Ends(events: seq<Event>, clock: int): int {
    if events == [] then clock else events[|events| - 1].at
  }

  /** What is known of a key that last failed at `last`: its entry, or that it is forgotten. */
  predicate Tracks(entries: Entries, key: string, last: int, failures: nat, clock: int) {
    && last <= clock && failures > 0
    && (key !in entries ==> clock - last > FORGET_AFTER)
    && (key in entries ==>
         && entries[key].lastFailureAt == last && entries[key].failures == failures
         && (failures >= 15 ==> entries[key].blockedUntil >= last + MAX_DELAY_SECONDS * 1000))
  }

  function Credit(failures: nat): nat { if failures < 15 then failures else 15 }

  /** A failure: one more on the count, five minutes after one of the fifteenth on, or the first after an hour. */
  lemma FailTracks(entries: Entries, after: Entries, key: string, last: int, failures: nat, clock: int, at: int)
    returns (next: nat)
    requires Tracks(entries, key, last, failures, clock) && clock <= at && RetryAfter(entries, key, at) == 0
    requires after == Recorded(entries, key, at)
    ensures Tracks(after, key, at, next, at)
    ensures FORGET_AFTER + Credit(failures) * FORGET_AFTER <= 15 * (at - last) + Credit(next) * FORGET_AFTER
  {
    next := after[key].failures;
    if next >= 15 { FullDelay(next); }
  }

  lemma OtherTracks(entries: Entries, e: Event, key: string, last: int, failures: nat, clock: int)
    requires Tracks(entries, key, last, failures, clock) && clock <= e.at
    requires e.key == key ==> e.Ask?
    ensures Tracks(After(entries, e), key, last, failures, e.at)
  {
  }

  lemma {:induction false} FurtherGuesses(entries: Entries, events: seq<Event>, key: string, last: int,
      failures: nat, clock: int)
    requires Tracks(entries, key, last, failures, clock) && Guesses(entries, events, clock, key)
    ensures Failures(events, key) * FORGET_AFTER + Credit(failures) * FORGET_AFTER
              <= 15 * FORGET_AFTER + 15 * (Ends(events, clock) - last)
    decreases |events|
  {
    if events != [] {
      var e, rest := events[0], events[1..];
      var after := After(entries, e);
      if |events| > 1 { assert rest[|rest| - 1] == events[|events| - 1]; }
      if e.Fail? && e.key == key {
        var next := FailTracks(entries, after, key, last, failures, clock, e.at);
        FurtherGuesses(after, rest, key, e.at, next, e.at);
      } else {
        OtherTracks(entries, e, key, last, failures, clock);
        FurtherGuesses(after, rest, key, last, failures, e.at);
      }
    }
  }

  /**
   The guessing bound: whatever other keys do meanwhile and whatever the throttle forgets,
   a key that tries only when it may and always fails gets at most 15 guesses, and 15 more
   for every hour its window lasts. (The window opens at its first failure, whatever was
   counted against it before.)
   */
  lemma GuessingBound(entries: Entries, key: string, first: int, events: seq<Event>)
    requires Guesses(Recorded(entries, key, first), events, first, key)
    ensures (1 + Failures(events, key)) * FORGET_AFTER <= 15 * (FORGET_AFTER + (Ends(events, first) - first))
  {
    var after := Recorded(entries, key, first);
    var failures := after[key].failures;
    if failures >= 15 { FullDelay(failures); }
    assert Tracks(after, key, first, failures, first);
    FurtherGuesses(after, events, key, first, failures, first);
  }
}
