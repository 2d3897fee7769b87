/**
 The login limiter. It keeps a counter per address, forgets idle addresses and resets the counter
 after a pause; the specification looks only at the times at which that address has tried.
 */
module Limiter {

  /** Durations are in nanoseconds. */
  const WINDOW := 60_000_000_000
  const MAX_IDLE := 600_000_000_000
  const LIMIT := 10

  datatype Attempt = Attempt(address: string, at: int)

  /** A request whose address is not known is counted under one common name. */
  function Address(ip: string): string {
    if ip == "" then "unknown" else ip
  }

  // ---- the specification

  /** When an address has tried, refused attempts included. */
  function Times(log: seq<Attempt>, address: string): seq<int> {
    if log == [] then [] else
      var last := log[|log| - 1];
      Times(log[..|log| - 1], address) + if last.address == address then [last.at] else []
  }

  /** How many attempts the current run has: going back, each at most a minute after the one before. */
  function RunLength(times: seq<int>): nat {
    if |times| <= 1 then |times|
    else if times[|times| - 1] - times[|times| - 2] <= WINDOW then RunLength(times[..|times| - 1]) + 1
    else 1
  }

  predicate Pause(times: seq<int>, i: int) {
    0 < i < |times| && times[i] - times[i - 1] > WINDOW
  }

  /** A pause is a gap of more than a minute. */
  lemma PauseLaw(times: seq<int>, i: int)
    ensures Pause(times, i) <==> 0 < i < |times| && times[i] - times[i - 1] > 60_000_000_000
  {
  }

  /** The run is the longest stretch at the end without a pause. */
  lemma {:induction false} RunIsLongestStretch(times: seq<int>)
    ensures RunLength(times) <= |times|
    ensures forall i :: |times| - RunLength(times) < i < |times| ==> !Pause(times, i)
    ensures RunLength(times) == |times| || Pause(times, |times| - RunLength(times))
  {
    if |times| > 1 {
      var front := times[..|times| - 1];
      RunIsLongestStretch(front);
      assert forall i :: Pause(front, i) <==> Pause(times, i) && i < |front|;
    }
  }

  /** An attempt is allowed exactly when it is one of the first ten or follows a pause within the last ten gaps. */
  lemma AllowedIffPaused(times: seq<int>)
    ensures RunLength(times) <= 10 <==>
            (|times| <= 10 || exists i :: |times| - 10 <= i < |times| && Pause(times, i))
  {
    RunIsLongestStretch(times);
    hide RunLength;
    if RunLength(times) <= LIMIT && |times| > LIMIT {
      assert Pause(times, |times| - RunLength(times));
    }
  }

  /** The newest attempt counts for its own address and for no other. */
  lemma TimesStep(log: seq<Attempt>, attempt: Attempt, address: string)
    ensures Times(log + [attempt], address) ==
            if attempt.address == address then Times(log, address) + [attempt.at] else Times(log, address)
  {
    assert (log + [attempt])[..|log + [attempt]| - 1] == log;
  }

  /** The other addresses' attempts can be left out of the log. */
  lemma {:induction false} OthersDoNotCount(log: seq<Attempt>, address: string)
    ensures Times(log, address) == Times(Own(log, address), address)
    ensures |Times(log, address)| == |Own(log, address)|
  {
    if log != [] {
      var front, last := log[..|log| - 1], log[|log| - 1];
      OthersDoNotCount(front, address);
      TimesStep(Own(front, address), last, address);
      assert Own(log, address) == if last.address == address then Own(front, address) + [last] else Own(front, address);
    }
  }

  function Own(log: seq<Attempt>, address: string): seq<Attempt> {
    if log == [] then [] else
      var last := log[|log| - 1];
      Own(log[..|log| - 1], address) + if last.address == address then [last] else []
  }

  // ---- the counter of one address

  datatype Counter = Counter(attempts: nat, lastSeen: int)

  /** What an unpruned counter holds after these times. */
  ghost predicate Counts(counter: Counter, times: seq<int>) {
    times != [] && counter == Counter(RunLength(times), times[|times| - 1])
  }

  /** A counter that is missing holds nothing worth remembering. */
  ghost predicate Forgettable(times: seq<int>, now: int) {
    times == [] || now - times[|times| - 1] > MAX_IDLE
  }

  function Bump(counter: Counter, now: int): Counter {
    Counter((if now - counter.lastSeen > WINDOW then 0 else counter.attempts) + 1, now)
  }

  lemma BumpCounts(counter: Counter, times: seq<int>, now: int)
    requires Counts(counter, times) || (Forgettable(times, now) && counter.attempts == 0)
    ensures Counts(Bump(counter, now), times + [now])
  {
    assert (times + [now])[..|times + [now]| - 1] == times;
  }

  class LoginLimiter {
    var limiters: map<string, Counter>
    ghost var log: seq<Attempt>
    ghost var clock: int

    /** Every counter counts its address's run; the addresses without one are long idle. */
    ghost predicate Tracks(now: int)
      reads this
    {
      forall a :: if a in limiters then Counts(limiters[a], Times(log, a)) else Forgettable(Times(log, a), now)
    }

    ghost predicate Valid()
      reads this
    {
      Tracks(clock)
    }

    constructor (ghost start: int)
      ensures Valid() && log == [] && clock == start
    {
      limiters, log, clock := map[], [], start;
    }

    method PruneLimitersLocked(now: int)
      requires Valid() && clock <= now
      modifies `limiters
      ensures Tracks(now)
      ensures forall a :: a in limiters ==> now - limiters[a].lastSeen <= 600_000_000_000
    {
      var left := limiters.Keys;
      while left != {}
        invariant left <= limiters.Keys
        invariant Tracks(now)
        invariant forall a :: a in limiters && a !in left ==> now - limiters[a].lastSeen <= MAX_IDLE
        decreases left
      {
        var a :| a in left;
        if now - limiters[a].lastSeen > MAX_IDLE {
          limiters := limiters - {a};
        }
        left := left - {a};
      }
    }

    method AllowLoginAttempt(ip: string, now: int) returns (allowed: bool)
      requires Valid() && clock <= now
      modifies this
      ensures Valid() && log == old(log) + [Attempt(if ip == "" then "unknown" else ip, now)] && clock == now
      ensures allowed <==> RunLength(Times(log, if ip == "" then "unknown" else ip)) <= 10
    {
      hide Times;
      hide RunLength;
      var address := Address(ip);
      PruneLimitersLocked(now);
      var counter := if address in limiters then limiters[address] else Counter(0, 0);
      BumpCounts(counter, Times(log, address), now);
      if now - counter.lastSeen > WINDOW {
        counter := counter.(attempts := 0);
      }
      counter := Counter(counter.attempts + 1, now);
      limiters := limiters[address := counter];
      forall a
        ensures Times(log + [Attempt(address, now)], a) == if a == address then Times(log, a) + [now] else Times(log, a)
      {
        TimesStep(log, Attempt(address, now), a);
      }
      log, clock := log + [Attempt(address, now)], now;
      allowed := counter.attempts <= LIMIT;
    }
  }
}
