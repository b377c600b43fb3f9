// The login throttle: consecutive failures per key lock that key for a doubling,
// capped time. Instants are whole nanoseconds.

module Throttle {
  import opened Wrappers
  import Runs

  type Instant = int

  const SECOND := 1_000_000_000
  const LOCK_BASE_SECS := 30
  const LOCK_CAP_SECS := 900
  const ENTRY_LIMIT := 4096
  const IDLE_SECS := 3600

  datatype Entry = Entry(fails: nat, lockedUntil: Option<Instant>, last: Instant)

  type Entries = map<string, Entry>

  function Doubled(base: nat, times: nat): (r: nat)
    ensures base <= r
    decreases times
  {
    if times == 0 then base else Doubled(2 * base, times - 1)
  }

  /** The lockout that failure number `fails` earns. */
  function LockFor(fails: nat, threshold: nat): (r: nat)
    requires threshold <= fails
    ensures LOCK_BASE_SECS * SECOND <= r <= LOCK_CAP_SECS * SECOND
  {
    var shift := if fails - threshold < 16 then fails - threshold else 16;
    var secs := Doubled(LOCK_BASE_SECS, shift);
    (if secs < LOCK_CAP_SECS then secs else LOCK_CAP_SECS) * SECOND
  }

  /** Above the limit, entries idle for an hour go. */
  function Kept(entries: Entries, now: Instant): Entries {
    if |entries| > ENTRY_LIMIT then
      map key | key in entries && entries[key].last > now - IDLE_SECS * SECOND :: entries[key]
    else entries
  }

  function Failed(entries: Entries, key: string, threshold: nat, now: Instant): (Entries, Option<nat>) {
    var kept := Kept(entries, now);
    var was := if key in kept then kept[key] else Entry(0, None, now);
    var fails := was.fails + 1;
    if fails >= threshold then
      var lock := LockFor(fails, threshold);
      (kept[key := Entry(fails, Some(now + lock), now)], Some(lock))
    else
      (kept[key := Entry(fails, was.lockedUntil, now)], None)
  }

  /** Remaining lockout, if any; zero at the deadline itself. */
  function Remaining(entries: Entries, key: string, now: Instant): Option<int> {
    if key in entries && entries[key].lockedUntil.Some? && entries[key].lockedUntil.value >= now
    then Some(entries[key].lockedUntil.value - now)
    else None
  }

  predicate Remembered(entries: Entries, key: string, now: Instant) {
    key in entries && (|entries| <= 4096 || entries[key].last > now - 3_600_000_000_000)
  }

  class LoginThrottle {
    var entries: Entries

    constructor ()
      ensures entries == map[]
    {
      entries := map[];
    }

    method Locked(key: string, now: Instant) returns (left: Option<int>)
      ensures left == Remaining(entries, key, now)
      ensures left.Some? <==> key in entries && entries[key].lockedUntil.Some? && now <= entries[key].lockedUntil.value
      ensures left.Some? ==> entries[key].lockedUntil == Some(now + left.value)
    {
      if key !in entries || entries[key].lockedUntil.None? {
        return None;
      }
      var until := entries[key].lockedUntil.value;
      left := if until >= now then Some(until - now) else None;
    }

    method Fail(key: string, threshold: nat, now: Instant) returns (lock: Option<nat>)
      modifies this
      ensures (entries, lock) == Failed(old(entries), key, threshold, now)
      // More than 4096 keys, and those that have not failed for an hour are forgotten.
      ensures forall k :: k in entries && k != key <==> k != key && Remembered(old(entries), k, now)
      ensures forall k :: k in entries && k != key ==> entries[k] == old(entries)[k]
      ensures key in entries && entries[key].last == now
      ensures entries[key].fails == if Remembered(old(entries), key, now) then old(entries)[key].fails + 1 else 1
      ensures lock.Some? <==> entries[key].fails >= threshold
      ensures entries[key].lockedUntil == if lock.Some? then Some(now + lock.value)
                                          else if Remembered(old(entries), key, now) then old(entries)[key].lockedUntil
                                          else None
    {
      if |entries| > ENTRY_LIMIT {
        var cutoff := now - IDLE_SECS * SECOND;
        entries := map k | k in entries && entries[k].last > cutoff :: entries[k];
      }
      var e := if key in entries then entries[key] else Entry(0, None, now);
      e := e.(fails := e.fails + 1, last := now);
      if e.fails >= threshold {
        lock := Some(LockFor(e.fails, threshold));
        e := e.(lockedUntil := Some(now + lock.value));
      } else {
        lock := None;
      }
      entries := entries[key := e];
    }

    method Clear(key: string)
      modifies this
      ensures entries == old(entries) - {key}
    {
      entries := entries - {key};
    }
  }

  // ------------------------------------------------------------------ the runs

  datatype World = World(entries: Entries, now: Instant)

  datatype Event = Fail(key: string) | Clear(key: string) | Wait(time: nat)

  /** Every key is always failed against its own threshold, as the login route does:
      one for account keys, another for address keys. */
  function Next(w: World, e: Event, thresholdOf: string -> nat): World {
    match e
    case Fail(key) => w.(entries := Failed(w.entries, key, thresholdOf(key), w.now).0)
    case Clear(key) => w.(entries := w.entries - {key})
    case Wait(time) => w.(now := w.now + time)
  }

  ghost function Steps(thresholdOf: string -> nat): (World, Event, World) -> bool {
    (w, e, next) => next == Next(w, e, thresholdOf)
  }

  ghost predicate Run(ws: seq<World>, es: seq<Event>, thresholdOf: string -> nat) {
    Runs.Linked(Steps(thresholdOf), ws, es) && ws[0].entries == map[]
  }

  /** A key is locked exactly when it has failed often enough, from its last failure on. */
  ghost predicate EntryConsistent(e: Entry, threshold: nat, now: Instant) {
    && e.fails >= 1 && e.last <= now
    && e.lockedUntil == (if e.fails >= threshold then Some(e.last + LockFor(e.fails, threshold)) else None)
  }

  ghost predicate Consistent(w: World, thresholdOf: string -> nat) {
    forall key :: key in w.entries ==> EntryConsistent(w.entries[key], thresholdOf(key), w.now)
  }

  lemma StepKeepsConsistent(w: World, e: Event, thresholdOf: string -> nat)
    requires Consistent(w, thresholdOf)
    ensures Consistent(Next(w, e, thresholdOf), thresholdOf)
  {
    forall key | key in Next(w, e, thresholdOf).entries
      ensures EntryConsistent(Next(w, e, thresholdOf).entries[key], thresholdOf(key), Next(w, e, thresholdOf).now)
    {
      assert key in w.entries ==> EntryConsistent(w.entries[key], thresholdOf(key), w.now);
    }
  }

  lemma AlwaysConsistent(ws: seq<World>, es: seq<Event>, thresholdOf: string -> nat, k: nat)
    requires Run(ws, es, thresholdOf) && k < |ws|
    ensures Consistent(ws[k], thresholdOf)
  {
    var good := (w: World) => Consistent(w, thresholdOf);
    forall w, e, next | good(w) && Steps(thresholdOf)(w, e, next)
      ensures good(next)
    {
      StepKeepsConsistent(w, e, thresholdOf);
    }
    Runs.KeptThroughout(Steps(thresholdOf), good, ws, es, 0, k);
  }

  lemma {:induction false} DoubledGrows(base: nat, more: nat, times: nat)
    requires base <= more
    ensures Doubled(base, times) <= Doubled(more, times)
    decreases times
  {
    if times > 0 {
      DoubledGrows(2 * base, 2 * more, times - 1);
    }
  }

  /** One more failure never earns a shorter lockout. */
  lemma LockGrows(fails: nat, threshold: nat)
    requires threshold <= fails
    ensures LockFor(fails, threshold) <= LockFor(fails + 1, threshold)
  {
    if fails - threshold < 16 {
      DoubledGrows(LOCK_BASE_SECS, 2 * LOCK_BASE_SECS, fails - threshold);
    }
  }

  ghost predicate LockedAtLeast(w: World, key: string, deadline: Instant) {
    w.now <= deadline ==>
      key in w.entries && w.entries[key].lockedUntil.Some? && w.entries[key].lockedUntil.value >= deadline
  }

  lemma LockSurvivesStep(w: World, e: Event, thresholdOf: string -> nat, key: string, deadline: Instant)
    requires Consistent(w, thresholdOf) && LockedAtLeast(w, key, deadline) && e != Clear(key)
    ensures LockedAtLeast(Next(w, e, thresholdOf), key, deadline)
  {
    if w.now <= deadline && e.Fail? {
      var held := w.entries[key];
      assert EntryConsistent(held, thresholdOf(key), w.now);
      assert held.last > w.now - IDLE_SECS * SECOND;
      assert key in Kept(w.entries, w.now);
      if e.key == key {
        LockGrows(held.fails, thresholdOf(key));
      }
    }
  }

  /** A lockout in force lasts until its deadline unless its key is cleared: until then
      the key stays refused with no less time to go, whatever else fails, and however
      many keys are evicted. */
  lemma LockLastsToItsDeadline(ws: seq<World>, es: seq<Event>, thresholdOf: string -> nat,
                               i: nat, j: nat, key: string, deadline: Instant)
    requires Run(ws, es, thresholdOf) && i <= j < |ws|
    requires key in ws[i].entries && ws[i].entries[key].lockedUntil == Some(deadline)
    requires forall m :: i <= m < j ==> es[m] != Clear(key)
    requires ws[j].now <= deadline
    ensures Remaining(ws[j].entries, key, ws[j].now).Some?
    ensures Remaining(ws[j].entries, key, ws[j].now).value >= deadline - ws[j].now
  {
    AlwaysConsistent(ws, es, thresholdOf, i);
    var good := (w: World) => Consistent(w, thresholdOf) && LockedAtLeast(w, key, deadline);
    var quiet := (w, e, next) => next == Next(w, e, thresholdOf) && e != Clear(key);
    forall w, e, next | good(w) && quiet(w, e, next)
      ensures good(next)
    {
      StepKeepsConsistent(w, e, thresholdOf);
      LockSurvivesStep(w, e, thresholdOf, key, deadline);
    }
    Runs.KeptThroughout(quiet, good, ws, es, i, j);
  }

  // ------------------------------------------------ how long the k-th failure locks

  /** How often the key failed among events i up to j. */
  function Failures(es: seq<Event>, i: nat, j: nat, key: string): nat
    requires i <= j <= |es|
    decreases j
  {
    if i == j then 0 else Failures(es, i, j - 1, key) + if es[j - 1] == Fail(key) then 1 else 0
  }

  ghost predicate NeverIdle(w: World, key: string) {
    key in w.entries ==> w.entries[key].last > w.now - IDLE_SECS * SECOND
  }

  ghost predicate Counted(w: World, key: string, failures: nat) {
    if failures == 0 then key !in w.entries else key in w.entries && w.entries[key].fails == failures
  }

  lemma StepCounts(w: World, e: Event, thresholdOf: string -> nat, key: string, failures: nat)
    requires Counted(w, key, failures) && NeverIdle(w, key) && e != Clear(key)
    ensures Counted(Next(w, e, thresholdOf), key, failures + if e == Fail(key) then 1 else 0)
  {
    assert key in w.entries ==> key in Kept(w.entries, w.now);
  }

  /** From a moment the key has no entry, while it is not cleared and never idles an
      hour between two failures, eviction cannot forget it: the failures counted are
      the failures made. */
  lemma {:induction false} FailuresAreCounted(ws: seq<World>, es: seq<Event>, thresholdOf: string -> nat,
                                              i: nat, j: nat, key: string)
    requires Run(ws, es, thresholdOf) && i <= j < |ws| && key !in ws[i].entries
    requires forall m :: i <= m < j ==> es[m] != Clear(key) && NeverIdle(ws[m], key)
    ensures Counted(ws[j], key, Failures(es, i, j, key))
    decreases j
  {
    if i < j {
      FailuresAreCounted(ws, es, thresholdOf, i, j - 1, key);
      assert Steps(thresholdOf)(ws[j - 1], es[j - 1], ws[j]);
      StepCounts(ws[j - 1], es[j - 1], thresholdOf, key, Failures(es, i, j - 1, key));
    }
  }

  /** The k-th such failure, k at or past the threshold, locks for 30 s doubled once per
      failure past the threshold, and never for more than 15 minutes. */
  lemma KthFailureLocks(ws: seq<World>, es: seq<Event>, thresholdOf: string -> nat, i: nat, j: nat, key: string)
    requires Run(ws, es, thresholdOf) && i <= j < |es| && es[j] == Fail(key) && key !in ws[i].entries
    requires forall m :: i <= m <= j ==> es[m] != Clear(key) && NeverIdle(ws[m], key)
    ensures var k, threshold := Failures(es, i, j + 1, key), thresholdOf(key);
            Remaining(ws[j + 1].entries, key, ws[j + 1].now) == (
              if k < threshold then None
              else if k - threshold <= 4 then Some(Doubled(30, k - threshold) * SECOND)
              else Some(900 * SECOND))
  {
    FailuresAreCounted(ws, es, thresholdOf, i, j + 1, key);
    AlwaysConsistent(ws, es, thresholdOf, j + 1);
    assert Steps(thresholdOf)(ws[j], es[j], ws[j + 1]);
    JustFailed(ws[j], key, thresholdOf);
    LockOf(ws[j + 1], key, thresholdOf, Failures(es, i, j + 1, key));
  }

  lemma JustFailed(w: World, key: string, thresholdOf: string -> nat)
    ensures var next := Next(w, Fail(key), thresholdOf); key in next.entries && next.entries[key].last == next.now
  {
  }

  lemma LockOf(w: World, key: string, thresholdOf: string -> nat, k: nat)
    requires Consistent(w, thresholdOf) && Counted(w, key, k) && k > 0 && w.entries[key].last == w.now
    ensures var threshold := thresholdOf(key);
            Remaining(w.entries, key, w.now) == (
              if k < threshold then None
              else if k - threshold <= 4 then Some(Doubled(30, k - threshold) * SECOND)
              else Some(900 * SECOND))
  {
    assert EntryConsistent(w.entries[key], thresholdOf(key), w.now);
    if thresholdOf(key) <= k {
      var past := k - thresholdOf(key);
      DoublingReachesTheCap(if past < 16 then past else 16);
    }
  }

  lemma {:induction false} DoublingReachesTheCap(times: nat)
    ensures times <= 4 ==> Doubled(LOCK_BASE_SECS, times) <= 480
    ensures times >= 5 ==> Doubled(LOCK_BASE_SECS, times) >= LOCK_CAP_SECS
  {
    assert Doubled(30, 4) == Doubled(60, 3) == Doubled(120, 2) == Doubled(240, 1) == 480;
    if times <= 4 {
      DoubledTimesGrow(LOCK_BASE_SECS, times, 4);
    } else {
      assert Doubled(30, 5) == Doubled(60, 4) == Doubled(120, 3) == Doubled(240, 2) == Doubled(480, 1) == 960;
      DoubledTimesGrow(LOCK_BASE_SECS, 5, times);
    }
  }

  lemma {:induction false} DoubledTimesGrow(base: nat, less: nat, more: nat)
    requires less <= more
    ensures Doubled(base, less) <= Doubled(base, more)
    decreases more
  {
    if less > 0 {
      DoubledTimesGrow(2 * base, less - 1, more - 1);
    } else if more > 0 {
      DoubledTimesGrow(2 * base, 0, more - 1);
    }
  }
}
