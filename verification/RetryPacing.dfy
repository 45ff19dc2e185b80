/** A buffer whose every upload fails: how far apart the attempts are. */
module RetryPacing {
  import opened Basics
  import opened NfsBuffer

  /** A client write, or one tick of the sweep: `now` is read at the top of the
      tick, the upload starts at `start` (other buffers come first) and fails
      at `failed`. */
  datatype Event =
    | Written(now: nat)
    | Sweep(now: nat, start: nat, failed: nat)

  /** The sweeps happen one after another, from time `clock` on. Writes come at
      any time, while an upload is failing too: then they stand behind its
      sweep. */
  predicate Clocked(clock: nat, events: seq<Event>)
    decreases |events|
  {
    events == [] ||
    match events[0]
    case Written(_) => Clocked(clock, events[1..])
    case Sweep(now, start, failed) => clock <= now <= start <= failed && Clocked(failed, events[1..])
  }

  function Ends(clock: nat, e: Event): nat {
    if e.Sweep? then e.failed else clock
  }

  function Next(p: Pace, e: Event): Pace {
    match e
    case Written(now) => p.(dirty := true, lastWrite := now)
    case Sweep(now, _, failed) => if p.Due(now) then p.Failed(failed) else p
  }

  function AfterAll(p: Pace, events: seq<Event>): Pace
    decreases |events|
  {
    if events == [] then p else AfterAll(Next(p, events[0]), events[1..])
  }

  /** The times at which uploads started. */
  function Attempts(p: Pace, events: seq<Event>): seq<nat>
    decreases |events|
  {
    if events == [] then []
    else
      var tried := if events[0].Sweep? && p.Due(events[0].now) then [events[0].start] else [];
      tried + Attempts(Next(p, events[0]), events[1..])
  }

  lemma {:induction false} OneMoreEvent(p: Pace, events: seq<Event>, e: Event)
    ensures var q := AfterAll(p, events);
            && AfterAll(p, events + [e]) == Next(q, e)
            && Attempts(p, events + [e]) == Attempts(p, events) + if e.Sweep? && q.Due(e.now) then [e.start] else []
    decreases |events|
  {
    if events == [] {
      assert ([] + [e])[1..] == [];
    } else {
      assert (events + [e])[1..] == events[1..] + [e];
      OneMoreEvent(Next(p, events[0]), events[1..], e);
    }
  }

  /** The delays before attempts 2 to n + 1, added up. */
  function TotalBackoff(n: nat): nat
    requires n <= U32_MAX
  {
    if n == 0 then 0 else TotalBackoff(n - 1) + RetryBackoff(n)
  }

  lemma {:induction false} TotalBackoffClosed(n: nat)
    requires 5 <= n <= U32_MAX
    ensures TotalBackoff(n) == 62 + 60 * (n - 5)
    decreases n
  {
    if n == 5 {
      assert RetryBackoff(1) == 2 && RetryBackoff(2) == 4 && RetryBackoff(3) == 8;
      assert RetryBackoff(4) == 16 && RetryBackoff(5) == 32;
      assert TotalBackoff(3) == 14;
    } else {
      TotalBackoffClosed(n - 1);
      RetryBackoffIsCappedPower(n);
      Pow2Monotone(6, n);
      assert Pow2(6) == 64;
    }
  }

  /** Counted from `first`, attempts `n`, `n + 1`, ... of a run are spaced by
      the backoffs. */
  lemma {:induction false} AttemptsSpaced(p: Pace, clock: nat, events: seq<Event>, first: nat, i: nat)
    requires Clocked(clock, events) && p.failCount >= 1
    requires p.lastAttempt >= first + TotalBackoff(p.failCount - 1)
    requires i < |Attempts(p, events)| && p.failCount + |Attempts(p, events)| <= U32_MAX
    ensures Attempts(p, events)[i] >= first + TotalBackoff(p.failCount + i)
    decreases |events|
  {
    var e := events[0];
    var p' := Next(p, e);
    if e.Sweep? && p.Due(e.now) {
      if i > 0 {
        AttemptsSpaced(p', Ends(clock, e), events[1..], first, i - 1);
      }
    } else {
      AttemptsSpaced(p', Ends(clock, e), events[1..], first, i);
    }
  }

  /** However writes and sweeps fall, attempt 6 + k to upload starts at least
      62 + 60 k seconds after attempt 1 (as long as the failures fit the 32-bit
      counter). */
  lemma {:induction false} FailingUploadsBackOff(p: Pace, clock: nat, events: seq<Event>, k: nat)
    requires Clocked(clock, events) && p.failCount == 0
    requires 5 + k < |Attempts(p, events)| <= U32_MAX
    ensures Attempts(p, events)[5 + k] >= Attempts(p, events)[0] + 62 + 60 * k
    decreases |events|
  {
    var e := events[0];
    var p' := Next(p, e);
    if e.Sweep? && p.Due(e.now) {
      AttemptsSpaced(p', Ends(clock, e), events[1..], e.start, 4 + k);
      TotalBackoffClosed(5 + k);
    } else {
      FailingUploadsBackOff(p', Ends(clock, e), events[1..], k);
    }
  }

  /** And it is never given up: through any such run the buffer stays dirty,
      and a sweep that comes 2 quiet seconds after the last write and a minute
      after the last attempt tries again. */
  lemma {:induction false} FailingBufferIsRetried(p: Pace, events: seq<Event>, now: nat)
    requires p.dirty
    ensures AfterAll(p, events).dirty
    ensures var q := AfterAll(p, events);
            now >= q.lastWrite + 2 && now >= q.lastAttempt + 60 ==> q.Due(now)
    decreases |events|
  {
    if events != [] {
      FailingBufferIsRetried(Next(p, events[0]), events[1..], now);
    }
  }
}
