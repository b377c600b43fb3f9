// The loop every durable queue runs on, and the wait for setup: what a wake can and
// cannot miss.

module Queue {
  import opened Wrappers
  import Runs

  /** What one step found. */
  datatype StepResult = Worked | Idle(nextDue: Option<int>) | Failed

  const ERROR_PAUSE: nat := 2

  /** Until the next due time, capped by the fallback and never negative. */
  function IdleFor(nextDue: Option<int>, fallback: nat, now: int): nat {
    match nextDue
    case None => fallback
    case Some(due) =>
      var wait := if due > now then due - now else 0;
      if wait < fallback then wait else fallback
  }

  function Pause(r: StepResult, fallback: nat, now: int): nat
    requires !r.Worked?
  {
    if r.Idle? then IdleFor(r.nextDue, fallback, now) else ERROR_PAUSE
  }

  /** Where the loop stands. `idle` tells a sleep after an idle step from one after an
      error. */
  datatype Phase = Top | Stepping(looked: bool) | Resting(pause: nat, idle: bool) | Asleep(until: int, idle: bool)

  /** The source makes its notification future before the step; the other order is here to
      show why. */
  datatype Order = BeforeStep | AfterStep

  /** `notified` counts the wakes raised so far, and a future keeps the count it was made
      at. `commits` counts what was ever made claimable, `announced` how much of that some
      wake came after, and `seen` how much the driver's last look could see. */
  datatype World = World(phase: Phase, future: Option<nat>, notified: nat, commits: nat, announced: nat, seen: nat,
                         now: int, sleptAt: int)

  datatype Event = Commit | Wake | Arm | Begin | Look | Finish(result: StepResult) | Sleep | Resume | Tick

  predicate Ready(w: World) {
    w.future.Some? && w.future.value < w.notified
  }

  /** An idle step has looked. Time passes at any moment but when a sleep can end. */
  predicate Possible(order: Order, w: World, e: Event) {
    match e
    case Commit => true
    case Wake => true
    case Arm => w.future.None? && if order.BeforeStep? then w.phase.Top? else w.phase.Resting?
    case Begin => w.phase.Top? && (order.BeforeStep? ==> w.future.Some?)
    case Look => w.phase.Stepping?
    case Finish(result) => w.phase.Stepping? && (result.Idle? ==> w.phase.looked)
    case Sleep => w.phase.Resting? && w.future.Some?
    case Resume => w.phase.Asleep? && (Ready(w) || w.now >= w.phase.until)
    case Tick => w.phase.Asleep? ==> !Ready(w) && w.now < w.phase.until
  }

  function Next(order: Order, fallback: nat, w: World, e: Event): World
    requires Possible(order, w, e)
  {
    match e
    case Commit => w.(commits := w.commits + 1)
    case Wake => w.(notified := w.notified + 1, announced := w.commits)
    case Arm => w.(future := Some(w.notified))
    case Begin => w.(phase := Stepping(false))
    case Look => w.(phase := Stepping(true), seen := w.commits)
    case Finish(result) =>
      if result.Worked? then w.(phase := Top, future := None)
      else w.(phase := Resting(Pause(result, fallback, w.now), result.Idle?))
    case Sleep => w.(phase := Asleep(w.now + w.phase.pause, w.phase.idle), sleptAt := w.now)
    case Resume => w.(phase := Top, future := None)
    case Tick => w.(now := w.now + 1)
  }

  ghost predicate Step(order: Order, fallback: nat, w: World, e: Event, next: World) {
    Possible(order, w, e) && next == Next(order, fallback, w, e)
  }

  const START := World(Top, None, 0, 0, 0, 0, 0, 0)

  ghost predicate Run(order: Order, fallback: nat, ws: seq<World>, es: seq<Event>) {
    Runs.Linked((w, e, next) => Step(order, fallback, w, e, next), ws, es) && ws[0] == START
  }

  // ----------------------------------------------------------- no wake is lost

  /** In the source's order: a future that no wake has come after was made before the
      latest look, so that look saw whatever has been announced. */
  predicate Sound(fallback: nat, w: World) {
    && w.announced <= w.commits
    && (w.future.Some? ==> w.future.value <= w.notified)
    && (!w.phase.Top? ==> w.future.Some?)
    && (Looked(w.phase) && !Ready(w) ==> w.announced <= w.seen)
    && (w.phase.Resting? ==> w.phase.pause <= Max(fallback, ERROR_PAUSE))
    && (w.phase.Asleep? ==>
          && w.sleptAt <= w.now <= w.phase.until
          && w.phase.until <= w.sleptAt + Max(fallback, ERROR_PAUSE))
  }

  predicate Looked(p: Phase) {
    match p
    case Top => false
    case Stepping(looked) => looked
    case Resting(_, idle) => idle
    case Asleep(_, idle) => idle
  }

  lemma AlwaysSound(fallback: nat, ws: seq<World>, es: seq<Event>, k: nat)
    requires Run(BeforeStep, fallback, ws, es) && k < |ws|
    ensures Sound(fallback, ws[k])
  {
    var step := (w, e, next) => Step(BeforeStep, fallback, w, e, next);
    var good := w => Sound(fallback, w);
    forall w, e, next | good(w) && step(w, e, next)
      ensures good(next)
    {
    }
    Runs.KeptThroughout(step, good, ws, es, 0, k);
  }

  /** The driver never sleeps on work it has been told of and has not looked for: a sleep
      after an idle step can then end at once, and no time passes until it does. One after
      an error is bounded by its own pause. */
  lemma NeverSleepsOnNews(fallback: nat, ws: seq<World>, es: seq<Event>, k: nat)
    requires Run(BeforeStep, fallback, ws, es) && k < |ws|
    requires ws[k].phase.Asleep? && ws[k].phase.idle && ws[k].announced > ws[k].seen
    ensures Possible(BeforeStep, ws[k], Resume) && !Possible(BeforeStep, ws[k], Tick)
  {
    AlwaysSound(fallback, ws, es, k);
  }

  /** The same futures: no round has ended in between. */
  predicate SameRound(ws: seq<World>, i: nat, k: nat) {
    i <= k < |ws| && forall j :: i <= j <= k ==> ws[j].future.Some?
  }

  /** A wake that comes once the future is made ends the coming sleep, whatever the step
      then says: it is not slept through even after an error. */
  lemma WakeIsNotLost(fallback: nat, ws: seq<World>, es: seq<Event>, i: nat, k: nat)
    requires Run(BeforeStep, fallback, ws, es) && i < k && SameRound(ws, i, k) && es[i] == Wake
    ensures Ready(ws[k])
    ensures ws[k].phase.Asleep? ==> Possible(BeforeStep, ws[k], Resume) && !Possible(BeforeStep, ws[k], Tick)
    decreases k
  {
    var step := (w, e, next) => Step(BeforeStep, fallback, w, e, next);
    AlwaysSound(fallback, ws, es, i);
    assert step(ws[k - 1], es[k - 1], ws[k]);
    if i < k - 1 {
      WakeIsNotLost(fallback, ws, es, i, k - 1);
    }
  }

  /** The driver has looked, work is committed and announced, and only then is the future
      made. */
  function LateEvents(): seq<Event> {
    [Begin, Look, Commit, Wake, Finish(Idle(None)), Arm, Sleep]
  }

  function LateWorlds(fallback: nat): seq<World> {
    [START, START.(phase := Stepping(false)), START.(phase := Stepping(true)),
     START.(phase := Stepping(true), commits := 1),
     START.(phase := Stepping(true), commits := 1, announced := 1, notified := 1),
     START.(phase := Resting(fallback, true), commits := 1, announced := 1, notified := 1),
     START.(phase := Resting(fallback, true), commits := 1, announced := 1, notified := 1, future := Some(1)),
     START.(phase := Asleep(fallback, true), commits := 1, announced := 1, notified := 1, future := Some(1))]
  }

  /** Made after the step, the future misses a wake raised during it: the driver sleeps on
      announced work, and only the fallback ends the sleep. */
  lemma LateFutureLosesAWake(fallback: nat)
    requires fallback > 0
    ensures Run(AfterStep, fallback, LateWorlds(fallback), LateEvents())
    ensures var w := LateWorlds(fallback)[7];
            && w.phase.Asleep? && w.phase.idle && w.announced > w.seen
            && !Possible(AfterStep, w, Resume) && Possible(AfterStep, w, Tick) && w.phase.until == w.now + fallback
  {
    var ws, es := LateWorlds(fallback), LateEvents();
    forall k | 0 <= k < |es|
      ensures Step(AfterStep, fallback, ws[k], es[k], ws[k + 1])
    {
    }
  }

  /** A sleep never passes the next due time or the fallback, and one that nothing ends early
      lasts until the earlier of them; after an error it lasts two seconds. */
  lemma SleepIsBounded(fallback: nat, w: World, nextDue: Option<int>)
    requires w.phase == Stepping(true) && w.future.Some?
    ensures var asleep := Next(BeforeStep, fallback, Next(BeforeStep, fallback, w, Finish(Idle(nextDue))), Sleep);
            && w.now <= asleep.phase.until <= w.now + fallback
            && (nextDue.Some? && nextDue.value >= w.now ==> asleep.phase.until <= nextDue.value)
            && (nextDue.Some? && nextDue.value < w.now ==> asleep.phase.until == w.now)
            && (nextDue.None? ==> asleep.phase.until == w.now + fallback)
            && (nextDue.Some? && nextDue.value >= w.now && asleep.phase.until != nextDue.value ==>
                  asleep.phase.until == w.now + fallback)
    ensures Next(BeforeStep, fallback, Next(BeforeStep, fallback, w, Finish(Failed)), Sleep).phase.until == w.now + 2
  {
  }
}

module SetupWait {
  import Runs

  /** The one waiter: it makes a future, then reads the flag, then awaits the future. */
  datatype Waiter = Starting | Armed(woken: bool) | Awaiting(woken: bool) | Returned

  /** The one commit: the flag is cleared, then the waiters are notified. */
  datatype Commit = NotYet | Cleared | Notified

  datatype World = World(waiter: Waiter, commit: Commit)

  datatype Event = Arm | Read | Wake | Clear | Notify

  predicate Required(w: World) {
    w.commit.NotYet?
  }

  predicate Possible(w: World, e: Event) {
    match e
    case Arm => w.waiter.Starting?
    case Read => w.waiter.Armed?
    case Wake => w.waiter.Awaiting? && w.waiter.woken
    case Clear => w.commit.NotYet?
    case Notify => w.commit.Cleared?
  }

  function Next(w: World, e: Event): World
    requires Possible(w, e)
  {
    match e
    case Arm => w.(waiter := Armed(false))
    case Read => w.(waiter := if Required(w) then Awaiting(w.waiter.woken) else Returned)
    case Wake => w.(waiter := Starting)
    case Clear => w.(commit := Cleared)
    case Notify =>
      World(match w.waiter
            case Armed(_) => Armed(true)
            case Awaiting(_) => Awaiting(true)
            case other => other,
            Notified)
  }

  ghost predicate Step(w: World, e: Event, next: World) {
    Possible(w, e) && next == Next(w, e)
  }

  ghost predicate Run(ws: seq<World>, es: seq<Event>) {
    Runs.Linked(Step, ws, es) && ws[0] == World(Starting, NotYet)
  }

  /** A waiter is left waiting only while its notification is still to come. */
  predicate NotStranded(w: World) {
    && (w.commit.Notified? && w.waiter.Awaiting? ==> w.waiter.woken)
    && (w.waiter.Returned? ==> !Required(w))
  }

  /** The waiter never returns before the commit, and once the commit is done it always
      has a step to take, until it has returned. */
  lemma NeverSleepsThroughTheCommit(ws: seq<World>, es: seq<Event>, k: nat)
    requires Run(ws, es) && k < |ws|
    ensures ws[k].waiter.Returned? ==> !Required(ws[k])
    ensures ws[k].commit.Notified? && !ws[k].waiter.Returned? ==>
              Possible(ws[k], Arm) || Possible(ws[k], Read) || Possible(ws[k], Wake)
  {
    forall w, e, next | NotStranded(w) && Step(w, e, next)
      ensures NotStranded(next)
    {
    }
    Runs.KeptThroughout(Step, NotStranded, ws, es, 0, k);
  }

  /** How many steps a waiter has left once the commit is done. */
  function Left(w: World): nat {
    match w.waiter
    case Awaiting(_) => 3
    case Starting => 2
    case Armed(_) => 1
    case Returned => 0
  }

  /** And each step it takes then brings it closer to returning. */
  lemma EveryStepCloser(w: World, e: Event)
    requires w.commit.Notified? && Possible(w, e)
    ensures Left(Next(w, e)) < Left(w)
  {
  }
}
