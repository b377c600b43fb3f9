// Packet pacing of the AniDB UDP client: a token bucket (five packets of burst,
// then one packet per SUSTAINED_SPACING) combined with a short-term gap that
// widens on a re-send. Time is a whole number of nanoseconds, as the clock's is, and
// the bucket's tokens are counted in the nanoseconds it takes to earn them: one token
// is SUSTAINED_SPACING. The rounding of the source's f64 tokens is not modelled. A run is
// that of one client: every login starts another, with a bucket of its own.

module AnidbPacing {
  import opened Wrappers
  import Runs

  const MS := 1_000_000

  const PACKET_SPACING := 2200 * MS
  const SUSTAINED_SPACING := 4200 * MS

  /** Five tokens. */
  const BURST := 21000 * MS

  /** So many sustained spacings. */
  function Sustained(packets: int): int {
    SUSTAINED_SPACING * packets
  }

  /** The short gap before an attempt. */
  function Gap(retry: nat): int {
    PACKET_SPACING * (retry + 1)
  }

  const SERVER_SPACING := 4000 * MS

  /** The server's own long-term rule: one packet per four seconds. */
  function ServerSpacings(packets: int): int {
    SERVER_SPACING * packets
  }

  type Instant = int

  function SaturatingSince(now: Instant, earlier: Instant): int {
    Max(now - earlier, 0)
  }

  // ---------------------------------------------------------------- the state

  datatype BucketState = BucketState(tokens: int, at: Option<Instant>)

  datatype Pacer = Pacer(bucket: BucketState, lastSend: Option<Instant>)

  const FRESH := Pacer(BucketState(BURST, None), None)

  /** One call of `pace`: when it was entered, which attempt of its command it
      serves, and by how much the sleep overran what was asked of it. */
  datatype Call = Call(now: Instant, retry: nat, overshoot: int)

  function Refilled(b: BucketState, now: Instant): int {
    match b.at
    case None => b.tokens
    case Some(t) => Min(b.tokens + SaturatingSince(now, t), BURST)
  }

  function TakeWait(b: BucketState, now: Instant): int {
    var tokens := Refilled(b, now);
    if tokens < SUSTAINED_SPACING then SUSTAINED_SPACING - tokens else 0
  }

  function Taken(b: BucketState, now: Instant): BucketState {
    BucketState(Max(Refilled(b, now), SUSTAINED_SPACING) - SUSTAINED_SPACING, Some(now + TakeWait(b, now)))
  }

  function ShortGap(lastSend: Option<Instant>, retry: nat, now: Instant): int {
    match lastSend
    case None => 0
    case Some(t) => Max(Gap(retry) - SaturatingSince(now, t), 0)
  }

  function Owed(p: Pacer, retry: nat, now: Instant): int {
    Max(TakeWait(p.bucket, now), ShortGap(p.lastSend, retry, now))
  }

  /** The state after one paced send; `lastSend` is when the packet left. */
  function Paced(p: Pacer, c: Call): Pacer {
    Pacer(Taken(p.bucket, c.now), Some(c.now + Owed(p, c.retry, c.now) + c.overshoot))
  }

  // ------------------------------------------------------------------ the runs

  /** A run: `states[k]` is the pacer before call k, and no call is entered
      before the packet sent by the previous one has left. */
  ghost predicate Run(states: seq<Pacer>, calls: seq<Call>) {
    Runs.Linked(Step, states, calls) && states[0] == FRESH
  }

  ghost predicate Step(p: Pacer, c: Call, next: Pacer) {
    && c.overshoot >= 0
    && (p.lastSend.Some? ==> p.lastSend.value <= c.now)
    && next == Paced(p, c)
  }

  ghost predicate ResendFollowsItsFirst(calls: seq<Call>, k: nat)
    requires k < |calls|
  {
    calls[k].retry == 0 || (calls[k].retry == 1 && k > 0 && calls[k - 1].retry == 0)
  }

  /** At most one re-send per command: attempt 1 directly follows attempt 0. */
  ghost predicate SingleResends(calls: seq<Call>) {
    forall k :: 0 <= k < |calls| ==> ResendFollowsItsFirst(calls, k)
  }

  ghost predicate ExactSleeps(calls: seq<Call>) {
    forall k :: 0 <= k < |calls| ==> calls[k].overshoot == 0
  }

  /** When the packet of call k left. */
  ghost function SentAt(states: seq<Pacer>, k: nat): Instant
    requires k + 1 < |states| && states[k + 1].lastSend.Some?
  {
    states[k + 1].lastSend.value
  }

  ghost predicate Started(p: Pacer) {
    p.bucket.at.Some? && p.lastSend.Some? && p.bucket.at.value <= p.lastSend.value
    && 0 <= p.bucket.tokens <= BURST - SUSTAINED_SPACING
  }

  /** The potential of the proof: the time's worth of sustained rate banked at
      the moment the last packet left. The bucket's own clock stands earlier than
      that moment whenever the short gap was the binding half. */
  ghost function Credit(p: Pacer): int
    requires Started(p)
  {
    Min(BURST,
        p.bucket.tokens + (p.lastSend.value - p.bucket.at.value))
  }

  // ---------------------------------------------------------------- the bounds

  lemma RunExtends(states: seq<Pacer>, calls: seq<Call>, c: Call)
    requires Run(states, calls) && SingleResends(calls) && c.overshoot >= 0
    requires states[|calls|].lastSend.Some? ==> states[|calls|].lastSend.value <= c.now
    requires c.retry <= 1 && (c.retry == 1 ==> |calls| > 0 && calls[|calls| - 1].retry == 0)
    ensures Run(states + [Paced(states[|calls|], c)], calls + [c])
    ensures SingleResends(calls + [c])
  {
    var longer := calls + [c];
    forall k | 0 <= k < |longer|
      ensures ResendFollowsItsFirst(longer, k)
    {
      assert k < |calls| ==> ResendFollowsItsFirst(calls, k);
    }
  }

  lemma FirstSend(c: Call)
    requires c.overshoot >= 0
    ensures Started(Paced(FRESH, c))
    ensures c.overshoot == 0 ==> Credit(Paced(FRESH, c)) == Sustained(4)
  {
  }

  /** What one send costs: however the waiting was split between the two rules and
      however late the sleep returned, the credit falls by a full sustained
      spacing less the real time that passed. */
  lemma SendCosts(p: Pacer, c: Call)
    requires Started(p) && Step(p, c, Paced(p, c))
    ensures Started(Paced(p, c))
    ensures Paced(p, c).lastSend.value - p.lastSend.value >= Gap(c.retry)
    ensures 0 <= Credit(Paced(p, c))
    ensures Credit(Paced(p, c))
         <= Credit(p) + (Paced(p, c).lastSend.value - p.lastSend.value) - SUSTAINED_SPACING
  {
    var n := Paced(p, c);
    var refilled := Refilled(p.bucket, c.now);
    assert refilled <= Credit(p) + (c.now - p.lastSend.value);
    assert n.bucket.tokens - n.bucket.at.value == refilled - SUSTAINED_SPACING - c.now;
  }

  /** With exact sleeps no more than four sendings' worth is ever banked when a
      packet leaves, plus 200 ms when that packet was a re-send. */
  lemma CreditCeiling(p: Pacer, c: Call)
    requires Started(p) && Step(p, c, Paced(p, c)) && c.overshoot == 0 && c.retry <= 1
    requires Credit(p) <= Sustained(4) + 200 * MS
    requires c.retry == 1 ==> Credit(p) <= Sustained(4)
    ensures Started(Paced(p, c))
    ensures Credit(Paced(p, c)) <= Sustained(4) + (if c.retry == 1 then 200 * MS else 0)
  {
    var refilled := Refilled(p.bucket, c.now);
    assert refilled <= Credit(p) + (c.now - p.lastSend.value);
    assert refilled <= BURST;
  }

  lemma {:induction false} StartedThroughout(states: seq<Pacer>, calls: seq<Call>, k: nat)
    requires Run(states, calls) && k < |calls|
    ensures Started(states[k + 1])
  {
    assert Step(states[k], calls[k], states[k + 1]);
    if k == 0 {
      FirstSend(calls[0]);
    } else {
      StartedThroughout(states, calls, k - 1);
      SendCosts(states[k], calls[k]);
    }
  }

  /** The short-term half: successive packets are at least PACKET_SPACING apart,
      and twice that before a re-send, in every run, whatever the sleeps did. */
  lemma SuccessiveGap(states: seq<Pacer>, calls: seq<Call>, k: nat)
    requires Run(states, calls) && k + 1 < |calls|
    ensures Started(states[k + 1]) && Started(states[k + 2])
    ensures SentAt(states, k + 1) - SentAt(states, k) >= 2_200_000_000 * (calls[k + 1].retry + 1)
    ensures SentAt(states, k + 1) - SentAt(states, k) >= 2_200_000_000
  {
    StartedThroughout(states, calls, k);
    StartedThroughout(states, calls, k + 1);
    assert Step(states[k + 1], calls[k + 1], states[k + 2]);
    SendCosts(states[k + 1], calls[k + 1]);
  }

  /** A packet leaves as late as its sleep overran, and no pause is longer than the two rules
      make it: what was owed ends with the gap since the last packet, or with the bucket
      just empty. */
  lemma NoNeedlessWait(states: seq<Pacer>, calls: seq<Call>, k: nat) returns (owed: int)
    requires Run(states, calls) && k < |calls|
    ensures Started(states[k + 1]) && owed >= 0 && SentAt(states, k) == calls[k].now + owed + calls[k].overshoot
    ensures owed > 0 ==>
      || (states[k].lastSend.Some? && calls[k].now + owed == states[k].lastSend.value + 2_200_000_000 * (calls[k].retry + 1))
      || states[k + 1].bucket == BucketState(0, Some(calls[k].now + owed))
  {
    StartedThroughout(states, calls, k);
    assert Step(states[k], calls[k], states[k + 1]);
    owed := Owed(states[k], calls[k].retry, calls[k].now);
    if k > 0 {
      StartedThroughout(states, calls, k - 1);
    }
  }

  /** And the bucket is billed one packet for every one sent: what it held, filled up at the
      clock's rate to 21 seconds' worth, less 4.2 seconds. */
  lemma BilledOnce(states: seq<Pacer>, calls: seq<Call>, k: nat)
    requires Run(states, calls) && 0 < k < |calls|
    ensures Started(states[k]) && Started(states[k + 1])
    ensures var (b, c) := (states[k].bucket, states[k + 1].bucket);
            var held := Min(b.tokens + Max(calls[k].now - b.at.value, 0), 21_000_000_000);
            c.tokens - c.at.value == held - 4_200_000_000 - calls[k].now && (c.at.value == calls[k].now || c.tokens == 0)
  {
    StartedThroughout(states, calls, k);
    StartedThroughout(states, calls, k - 1);
    assert Step(states[k], calls[k], states[k + 1]);
  }

  lemma {:induction false} CreditFalls(states: seq<Pacer>, calls: seq<Call>, i: nat, j: nat)
    requires Run(states, calls) && i <= j < |calls|
    ensures Started(states[i + 1]) && Started(states[j + 1])
    ensures Credit(states[j + 1])
         <= Credit(states[i + 1]) + (SentAt(states, j) - SentAt(states, i)) - Sustained((j - i))
    ensures i < j ==> 0 <= Credit(states[j + 1])
    decreases j
  {
    StartedThroughout(states, calls, i);
    if i < j {
      CreditFalls(states, calls, i, j - 1);
      assert Step(states[j], calls[j], states[j + 1]);
      SendCosts(states[j], calls[j]);
    }
  }

  lemma {:induction false} CreditBounded(states: seq<Pacer>, calls: seq<Call>, k: nat)
    requires Run(states, calls) && k < |calls|
    requires SingleResends(calls) && ExactSleeps(calls)
    ensures Started(states[k + 1])
    ensures Credit(states[k + 1]) <= Sustained(4) + (if calls[k].retry == 1 then 200 * MS else 0)
  {
    assert Step(states[k], calls[k], states[k + 1]);
    assert ResendFollowsItsFirst(calls, k);
    if k == 0 {
      FirstSend(calls[0]);
    } else {
      CreditBounded(states, calls, k - 1);
      CreditCeiling(states[k], calls[k]);
    }
  }

  /** The long-term half, for every window of every run with exact sleeps: the
      n packets i..j span at least (n - 5) sustained spacings, 200 ms less when the
      window opens on a re-send, and so always at least the server's own rule. */
  lemma WindowSpan(states: seq<Pacer>, calls: seq<Call>, i: nat, j: nat)
    requires Run(states, calls) && SingleResends(calls) && ExactSleeps(calls)
    requires i < j < |calls|
    ensures Started(states[i + 1]) && Started(states[j + 1])
    ensures var n := j - i + 1;
            && SentAt(states, j) - SentAt(states, i)
               >= Sustained(n - 5) - (if calls[i].retry == 1 then 200 * MS else 0)
            && (n >= 6 ==> SentAt(states, j) - SentAt(states, i) >= ServerSpacings(n - 5))
  {
    CreditBounded(states, calls, i);
    CreditFalls(states, calls, i, j);
  }

  /** Sleeps that return late can bank one more packet, and never a second. */
  lemma WindowSpanWithLateSleeps(states: seq<Pacer>, calls: seq<Call>, i: nat, j: nat)
    requires Run(states, calls) && i < j < |calls|
    ensures Started(states[i + 1]) && Started(states[j + 1])
    ensures SentAt(states, j) - SentAt(states, i) >= Sustained((j - i + 1) - 6)
  {
    CreditFalls(states, calls, i, j);
  }

  /** The bound is the best possible: there is a run, a burst with one re-send, in
      which ten packets span exactly (10 - 5) * 4200 - 200 ms. */
  lemma WindowSpanIsTight()
    ensures exists states: seq<Pacer>, calls: seq<Call> ::
      && Run(states, calls) && SingleResends(calls) && ExactSleeps(calls)
      && |calls| == 11
      && states[2].lastSend.Some? && states[11].lastSend.Some?
      && SentAt(states, 10) - SentAt(states, 1) == Sustained(10 - 5) - 200 * MS
  {
    var states := seq(12, (k: nat) => BurstState(k));
    var calls := seq(11, (k: nat) => BurstCall(k));
    forall k | 0 <= k < |calls|
      ensures Step(states[k], calls[k], states[k + 1])
    {
      BurstStep(k);
    }
    assert Run(states, calls);
    assert SentAt(states, 10) == 25200 * MS && SentAt(states, 1) == 4400 * MS;
  }

  ghost function BurstCall(k: nat): Call {
    if k < 2 then Call(0, k, 0) else Call(PACKET_SPACING * k, 0, 0)
  }

  ghost function BurstState(k: nat): Pacer {
    if k == 0 then FRESH
    else if k == 1 then Banked(16800 * MS, 0, 0)
    else if k == 2 then Banked(12600 * MS, 0, 4400 * MS)
    else if k < 10 then
      Banked(18800 * MS - 2000 * MS * k, PACKET_SPACING * (k - 1), PACKET_SPACING * k)
    else if k == 10 then Banked(0, 21000 * MS, 22000 * MS)
    else Banked(0, 25200 * MS, 25200 * MS)
  }

  lemma BurstStep(k: nat)
    requires k < 11
    ensures Step(BurstState(k), BurstCall(k), BurstState(k + 1))
  {
    if 3 <= k < 9 {
      ShortGapBinds(18800 * MS - 2000 * MS * k, PACKET_SPACING * (k - 1));
    }
  }

  ghost function Banked(earned: int, at: Instant, sent: Instant): Pacer {
    Pacer(BucketState(earned, Some(at)), Some(sent))
  }

  lemma ShortGapBinds(earned: int, at: Instant)
    requires SUSTAINED_SPACING <= earned + PACKET_SPACING <= BURST
    ensures Paced(Banked(earned, at, at + PACKET_SPACING), Call(at + PACKET_SPACING, 0, 0))
         == Banked(earned - 2000 * MS, at + PACKET_SPACING, at + 2 * PACKET_SPACING)
  {
  }

  // ------------------------------------------------------- the client's methods

  class Bucket {
    var tokens: int
    var at: Option<Instant>

    ghost function State(): BucketState
      reads this
    {
      BucketState(tokens, at)
    }

    constructor ()
      ensures State() == FRESH.bucket
    {
      tokens := BURST;
      at := None;
    }

    /** Bill a packet; the result is the pause owed before it may leave. */
    method Take(now: Instant) returns (wait: int)
      modifies this
      ensures State() == Taken(old(State()), now)
      ensures wait == TakeWait(old(State()), now)
    {
      if at.Some? {
        tokens := Min(tokens + SaturatingSince(now, at.value), BURST);
      }
      if tokens < SUSTAINED_SPACING {
        wait := SUSTAINED_SPACING - tokens;
      } else {
        wait := 0;
      }
      tokens := Max(tokens, SUSTAINED_SPACING) - SUSTAINED_SPACING;
      at := Some(now + wait);
    }
  }

  method PaceDelay(bucket: Bucket, lastSend: Option<Instant>, retry: nat, now: Instant) returns (owed: int)
    modifies bucket
    ensures bucket.State() == Taken(old(bucket.State()), now)
    ensures owed == Owed(Pacer(old(bucket.State()), lastSend), retry, now)
  {
    var sustained := bucket.Take(now);
    var short := match lastSend
      case None => 0
      case Some(t) => Max(Gap(retry) - SaturatingSince(now, t), 0);
    owed := Max(sustained, short);
  }

  /** What came back for one packet: an answer that ends the command, or a
      timeout or foreign tag, after which a first attempt is re-sent. */
  datatype Reply = Answered(code: nat) | Unanswered

  /** What the outside does around one attempt: how long after the previous send
      the attempt begins, how late its sleep returns, and the reply. */
  datatype Attempt = Attempt(delay: int, overshoot: int, reply: Reply)

  class Client {
    const bucket: Bucket
    var lastSend: Option<Instant>
    // The run so far, kept for the specification only.
    ghost var states: seq<Pacer>
    ghost var calls: seq<Call>

    ghost predicate Valid()
      reads this, bucket
    {
      && Run(states, calls)
      && SingleResends(calls)
      && states[|calls|] == Pacer(bucket.State(), lastSend)
    }

    constructor ()
      ensures Valid() && fresh(bucket) && calls == [] && lastSend == None
    {
      bucket := new Bucket();
      lastSend := None;
      states := [FRESH];
      calls := [];
    }

    /** Pause for the bucket or the short gap, whichever asks longer, and note the sending. */
    method Pace(retry: nat, now: Instant, overshoot: int)
      requires Valid() && overshoot >= 0
      requires lastSend.Some? ==> lastSend.value <= now
      requires retry <= 1 && (retry == 1 ==> |calls| > 0 && calls[|calls| - 1].retry == 0)
      modifies this, bucket
      ensures Valid()
      ensures calls == old(calls) + [Call(now, retry, overshoot)]
      ensures states == old(states) + [Pacer(bucket.State(), lastSend)]
      ensures lastSend.Some? && now <= lastSend.value
    {
      var owed := PaceDelay(bucket, lastSend, retry, now);
      lastSend := Some(now + owed + overshoot);
      ghost var c := Call(now, retry, overshoot);
      ghost var wasStates, wasCalls := states, calls;
      states := states + [Pacer(bucket.State(), lastSend)];
      calls := calls + [c];
      RunExtends(wasStates, wasCalls, c);
    }

    /** One request and response with a single re-send. `clock` is the time the
        command is issued. Every packet it sends extends the paced run, so the
        bounds above hold across commands. */
    method Command(clock: Instant, tries: seq<Attempt>) returns (code: Option<nat>)
      requires Valid() && |tries| == 2
      requires lastSend.Some? ==> lastSend.value <= clock
      requires forall a :: a in tries ==> a.delay >= 0 && a.overshoot >= 0
      modifies this, bucket
      ensures Valid()
      ensures code == (if tries[0].reply.Answered? then Some(tries[0].reply.code)
                       else if tries[1].reply.Answered? then Some(tries[1].reply.code) else None)
      ensures |calls| == |old(calls)| + (if tries[0].reply.Answered? then 1 else 2)
      ensures old(calls) == calls[..|old(calls)|] && old(states) == states[..|old(states)|]
      ensures forall k :: |old(calls)| <= k < |calls| ==> calls[k].retry == k - |old(calls)|
    {
      var now := clock;
      for attempt := 0 to 2
        invariant Valid()
        invariant |calls| == |old(calls)| + attempt
        invariant old(calls) == calls[..|old(calls)|] && old(states) == states[..|old(states)|]
        invariant forall k :: |old(calls)| <= k < |calls| ==> calls[k].retry == k - |old(calls)|
        invariant lastSend.Some? ==> lastSend.value <= now
        invariant attempt > 0 ==> !tries[0].reply.Answered?
        invariant attempt > 1 ==> !tries[1].reply.Answered?
      {
        Pace(attempt, now + tries[attempt].delay, tries[attempt].overshoot);
        if tries[attempt].reply.Answered? {
          return Some(tries[attempt].reply.code);
        }
        now := lastSend.value;
      }
      return None;
    }
  }
}
