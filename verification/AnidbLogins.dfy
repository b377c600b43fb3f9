// What the pacing of single clients bounds when there are several: every login starts with
// a bucket and a gap of its own.

module AnidbLogins {
  import opened Wrappers
  import opened AnidbPacing

  /** Some packets of one login's client in a row, from i to j. */
  datatype Window = Window(states: seq<Pacer>, calls: seq<Call>, i: nat, j: nat) {
    ghost predicate Valid() {
      && Run(states, calls) && SingleResends(calls) && ExactSleeps(calls)
      && i <= j < |calls|
    }

    function Packets(): int {
      j - i + 1
    }
  }

  /** They all leave within this time. */
  ghost predicate Inside(w: Window, from: Instant, to: Instant) {
    && w.Valid() && w.states[w.i + 1].lastSend.Some? && w.states[w.j + 1].lastSend.Some?
    && from <= SentAt(w.states, w.i) && SentAt(w.states, w.j) <= to
  }

  function Packets(windows: seq<Window>): int {
    if windows == [] then 0 else Packets(windows[..|windows| - 1]) + windows[|windows| - 1].Packets()
  }

  lemma OneLogin(w: Window, from: Instant, to: Instant)
    requires Inside(w, from, to) && from <= to
    ensures Sustained(w.Packets() - 5) <= to - from + 200 * MS
  {
    if w.i < w.j {
      WindowSpan(w.states, w.calls, w.i, w.j);
    }
  }

  /** Whatever m logins send within some time, together, is at most five packets each and
      then m times the sustained rate, over that time and 200 ms. */
  lemma {:induction false} ManyLogins(windows: seq<Window>, from: Instant, to: Instant)
    requires from <= to && forall k :: 0 <= k < |windows| ==> Inside(windows[k], from, to)
    ensures Sustained(Packets(windows) - 5 * |windows|) <= |windows| * (to - from + 200 * MS)
  {
    if windows != [] {
      var rest, last := windows[..|windows| - 1], windows[|windows| - 1];
      ManyLogins(rest, from, to);
      OneLogin(last, from, to);
      SumOfTwo(Packets(rest) - 5 * |rest|, last.Packets() - 5, |rest|, to - from + 200 * MS);
    }
  }

  lemma SumOfTwo(a: int, b: int, m: nat, time: int)
    requires Sustained(a) <= m * time && Sustained(b) <= time
    ensures Sustained(a + b) <= (m + 1) * time
  {
  }

  function Copies(w: Window, m: nat): (r: seq<Window>)
    ensures |r| == m && forall k :: 0 <= k < m ==> r[k] == w
  {
    if m == 0 then [] else Copies(w, m - 1) + [w]
  }

  lemma {:induction false} CopiesSend(w: Window, m: nat, packets: int)
    requires w.Packets() == packets
    ensures Packets(Copies(w, m)) == m * packets
  {
    if m > 0 {
      CopiesSend(w, m - 1, packets);
      OneMore(Copies(w, m - 1), w);
      Distribute(m, packets);
    }
  }

  lemma Distribute(m: int, x: int)
    ensures (m - 1) * x + x == m * x
  {
  }

  lemma OneMore(windows: seq<Window>, w: Window)
    ensures Packets(windows + [w]) == Packets(windows) + w.Packets()
  {
    assert (windows + [w])[..|windows|] == windows;
  }

  lemma TightSum(m: nat, packets: int, time: int)
    requires packets == 10 * m && time == 21000 * MS
    ensures Sustained(packets - 5 * m) == m * time
  {
  }

  /** Ten packets that one login sends as fast as it ever can. */
  lemma Burst() returns (w: Window, from: Instant, to: Instant)
    ensures Inside(w, from, to) && w.Packets() == 10 && to - from == 20800 * MS
  {
    WindowSpanIsTight();
    var states: seq<Pacer>, calls: seq<Call> :|
      && Run(states, calls) && SingleResends(calls) && ExactSleeps(calls) && |calls| == 11
      && states[2].lastSend.Some? && states[11].lastSend.Some?
      && SentAt(states, 10) - SentAt(states, 1) == Sustained(10 - 5) - 200 * MS;
    w := Window(states, calls, 1, 10);
    from, to := SentAt(states, 1), SentAt(states, 10);
  }

  /** And m logins can reach that: nothing holds one back for another. */
  lemma ManyLoginsIsTight(m: nat) returns (windows: seq<Window>, from: Instant, to: Instant)
    ensures |windows| == m && from <= to && forall k :: 0 <= k < m ==> Inside(windows[k], from, to)
    ensures Sustained(Packets(windows) - 5 * m) == m * (to - from + 200 * MS)
  {
    var w;
    w, from, to := Burst();
    windows := Copies(w, m);
    CopiesSend(w, m, 10);
    TightSum(m, Packets(windows), to - from + 200 * MS);
  }
}
