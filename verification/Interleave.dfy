// How long a file's audio and video bytes stay apart: the byte envelope of each track
// in each second, and the runs of seconds whose envelopes are further apart than a
// buffer reaches.

module Interleave {
  import opened Wrappers

  // ------------------------------------------------------------------- the envelopes

  datatype Packet = Packet(second: int, track: nat, pos: nat, size: nat)

  /** From the first byte of a track's packets in a second to the last one's end. */
  datatype Envelope = Envelope(low: nat, high: nat)

  type Key = (int, nat)

  predicate Covers(packets: seq<Packet>, key: Key, e: Envelope) {
    && (forall p :: p in packets && (p.second, p.track) == key ==> e.low <= p.pos && p.pos + p.size <= e.high)
    && (exists p :: p in packets && (p.second, p.track) == key && p.pos == e.low)
    && (exists p :: p in packets && (p.second, p.track) == key && p.pos + p.size == e.high)
  }

  lemma CoversNext(packets: seq<Packet>, p: Packet, e: Envelope)
    requires Covers(packets, (p.second, p.track), e)
    ensures Covers(packets + [p], (p.second, p.track),
                   Envelope(if p.pos < e.low then p.pos else e.low,
                            if p.pos + p.size > e.high then p.pos + p.size else e.high))
  {
    var all := packets + [p];
    assert p in all;
    assert forall q :: q in packets ==> q in all;
  }

  lemma CoversOther(packets: seq<Packet>, p: Packet, key: Key, e: Envelope)
    requires Covers(packets, key, e) && (p.second, p.track) != key
    ensures Covers(packets + [p], key, e)
  {
    assert forall q :: q in packets ==> q in packets + [p];
  }

  ghost predicate Bucketed(packets: seq<Packet>, buckets: map<Key, Envelope>) {
    && (forall key :: key in buckets <==> exists p :: p in packets && (p.second, p.track) == key)
    && (forall key :: key in buckets ==> Covers(packets, key, buckets[key]))
  }

  /** Each bucket is the tightest envelope of its packets, and there is one for every
      second and track that has a packet. */
  method Buckets(packets: seq<Packet>) returns (buckets: map<Key, Envelope>)
    ensures Bucketed(packets, buckets)
  {
    buckets := map[];
    for i := 0 to |packets|
      invariant forall key :: key in buckets <==> exists p :: p in packets[..i] && (p.second, p.track) == key
      invariant forall key :: key in buckets ==> Covers(packets[..i], key, buckets[key])
    {
      var p := packets[i];
      var key := (p.second, p.track);
      assert packets[..i + 1] == packets[..i] + [p];
      var e := if key in buckets then buckets[key] else Envelope(p.pos, p.pos + p.size);
      ghost var before := buckets;
      buckets := buckets[key := Envelope(if p.pos < e.low then p.pos else e.low,
                                         if p.pos + p.size > e.high then p.pos + p.size else e.high)];
      forall k | k in buckets
        ensures Covers(packets[..i + 1], k, buckets[k])
      {
        if k != key {
          CoversOther(packets[..i], p, k, before[k]);
        } else if k in before {
          CoversNext(packets[..i], p, before[k]);
        } else {
          assert p in packets[..i + 1];
        }
      }
    }
    assert packets[..|packets|] == packets;
  }

  // -------------------------------------------------------------------------- the rows

  /** The gap between the two tracks' envelopes in a second. */
  datatype Row = Row(second: int, gap: nat)

  /** `sorted(buckets.items())`: one row a second, in order. */
  predicate Ascending(rows: seq<Row>) {
    forall i, j :: 0 <= i < j < |rows| ==> rows[i].second < rows[j].second
  }

  /** How far apart two envelopes are; none when they meet. */
  function Gap(v: Envelope, a: Envelope): nat {
    Max(0, Max(a.low - v.high, v.low - a.high))
  }

  lemma {:induction false} LeastOf(seconds: set<int>, one: int) returns (least: int)
    requires one in seconds
    ensures least in seconds && forall s :: s in seconds ==> least <= s
    decreases |seconds|
  {
    var rest := seconds - {one};
    assert forall s :: s in seconds ==> s == one || s in rest;
    if other :| other in rest && other < one {
      least := LeastOf(rest, other);
    } else {
      least := one;
    }
  }

  lemma AnyOf<T>(s: set<T>) returns (x: T)
    requires s != {}
    ensures x in s
  {
    x :| x in s;
  }

  lemma Least(seconds: set<int>) returns (least: int)
    requires seconds != {}
    ensures least in seconds && forall s :: s in seconds ==> least <= s
  {
    var one := AnyOf(seconds);
    least := LeastOf(seconds, one);
  }

  predicate Compared(buckets: map<Key, Envelope>, video: nat, track: nat, second: int) {
    (second, video) in buckets && (second, track) in buckets
  }

  /** A row says what its second's two envelopes say. */
  predicate RowOf(buckets: map<Key, Envelope>, video: nat, track: nat, row: Row) {
    && Compared(buckets, video, track, row.second)
    && row.gap == Gap(buckets[(row.second, video)], buckets[(row.second, track)])
  }

  predicate HasRow(rows: seq<Row>, second: int) {
    exists i :: 0 <= i < |rows| && rows[i].second == second
  }

  lemma OneMoreRow(rows: seq<Row>, row: Row)
    ensures forall s :: HasRow(rows + [row], s) <==> HasRow(rows, s) || s == row.second
  {
    assert (rows + [row])[|rows|] == row;
    forall s | HasRow(rows, s)
      ensures HasRow(rows + [row], s)
    {
      var i :| 0 <= i < |rows| && rows[i].second == s;
      assert (rows + [row])[i].second == s;
    }
  }

  /** The rows of the seconds before those still pending. */
  ghost predicate RowsSoFar(buckets: map<Key, Envelope>, video: nat, track: nat, rows: seq<Row>, pending: set<int>) {
    && Ascending(rows) && (forall i, s :: 0 <= i < |rows| && s in pending ==> rows[i].second < s)
    && (forall s :: HasRow(rows, s) <==> Compared(buckets, video, track, s) && s !in pending)
    && (forall i :: 0 <= i < |rows| ==> RowOf(buckets, video, track, rows[i]))
  }

  lemma RowSkipped(buckets: map<Key, Envelope>, video: nat, track: nat, rows: seq<Row>, pending: set<int>, second: int)
    requires RowsSoFar(buckets, video, track, rows, pending) && second in pending && !Compared(buckets, video, track, second)
    ensures RowsSoFar(buckets, video, track, rows, pending - {second})
  {
  }

  lemma RowAdded(buckets: map<Key, Envelope>, video: nat, track: nat, rows: seq<Row>, pending: set<int>, row: Row)
    requires RowsSoFar(buckets, video, track, rows, pending) && row.second in pending && RowOf(buckets, video, track, row)
    requires forall s :: s in pending ==> row.second <= s
    ensures RowsSoFar(buckets, video, track, rows + [row], pending - {row.second})
  {
    OneMoreRow(rows, row);
  }

  /** One row for each second that has packets of both tracks, in order of time. */
  method Rows(buckets: map<Key, Envelope>, video: nat, track: nat) returns (rows: seq<Row>)
    ensures Ascending(rows)
    ensures forall s :: HasRow(rows, s) <==> Compared(buckets, video, track, s)
    ensures forall i :: 0 <= i < |rows| ==> RowOf(buckets, video, track, rows[i])
  {
    rows := [];
    var pending := set key | key in buckets :: key.0;
    while pending != {}
      invariant RowsSoFar(buckets, video, track, rows, pending)
      decreases pending
    {
      ghost var least := Least(pending);
      var second :| second in pending && forall s :: s in pending ==> second <= s;
      if (second, video) in buckets && (second, track) in buckets {
        var v, a := buckets[(second, video)], buckets[(second, track)];
        var row := Row(second, Max(0, Max(a.low - v.high, v.low - a.high)));
        RowAdded(buckets, video, track, rows, pending, row);
        rows := rows + [row];
      } else {
        RowSkipped(buckets, video, track, rows, pending, second);
      }
      pending := pending - {second};
    }
  }

  // -------------------------------------------------------------------------- the runs

  predicate Affected(rows: seq<Row>, capacity: nat, second: int) {
    exists i :: 0 <= i < |rows| && rows[i].second == second && rows[i].gap > capacity
  }

  /** Every one of n consecutive seconds is affected. */
  predicate IsRun(rows: seq<Row>, capacity: nat, start: int, n: nat) {
    forall s :: start <= s < start + n ==> Affected(rows, capacity, s)
  }

  /** The number of consecutive affected seconds that end with row i. */
  function Streak(rows: seq<Row>, capacity: nat, i: nat): nat
    requires i < |rows|
  {
    if rows[i].gap <= capacity then 0
    else if i > 0 && rows[i - 1].second == rows[i].second - 1 then Streak(rows, capacity, i - 1) + 1
    else 1
  }

  /** A streak is a run, and the second before it is not affected. */
  lemma {:induction false} StreakIsRun(rows: seq<Row>, capacity: nat, i: nat)
    requires Ascending(rows) && i < |rows|
    ensures var n, last := Streak(rows, capacity, i), rows[i].second;
            && IsRun(rows, capacity, last - n + 1, n)
            && !(n > 0 && Affected(rows, capacity, last - n))
            && (n > 0 <==> Affected(rows, capacity, last))
  {
    var n := Streak(rows, capacity, i);
    if n > 0 {
      if i > 0 && rows[i - 1].second == rows[i].second - 1 {
        StreakIsRun(rows, capacity, i - 1);
        assert Affected(rows, capacity, rows[i].second);
      } else {
        NotBetween(rows, capacity, i);
      }
    }
  }

  /** The row of the second before is the row before. */
  lemma Adjacent(rows: seq<Row>, j: nat, i: nat)
    requires Ascending(rows) && i < |rows| && j < |rows|
    ensures rows[j].second == rows[i].second - 1 ==> j + 1 == i
  {
    assert j + 1 < i ==> rows[j].second < rows[j + 1].second < rows[i].second;
    assert i <= j ==> rows[i].second <= rows[j].second;
  }

  lemma NotBetween(rows: seq<Row>, capacity: nat, i: nat)
    requires Ascending(rows) && i < |rows|
    requires i > 0 ==> rows[i - 1].second != rows[i].second - 1
    ensures !Affected(rows, capacity, rows[i].second - 1)
  {
    forall j | 0 <= j < |rows|
      ensures rows[j].second != rows[i].second - 1
    {
      Adjacent(rows, j, i);
    }
  }

  /** A run of n seconds ends with a row whose streak is at least n. */
  lemma {:induction false} RunIsStreak(rows: seq<Row>, capacity: nat, start: int, n: nat) returns (i: nat)
    requires Ascending(rows) && n > 0 && IsRun(rows, capacity, start, n)
    ensures i < |rows| && rows[i].second == start + n - 1 && Streak(rows, capacity, i) >= n
    decreases n
  {
    assert Affected(rows, capacity, start + n - 1);
    i :| 0 <= i < |rows| && rows[i].second == start + n - 1 && rows[i].gap > capacity;
    if n > 1 {
      var j := RunIsStreak(rows, capacity, start, n - 1);
      Adjacent(rows, j, i);
    }
  }

  /** Where a run of at least m seconds begins: no longer run holds it. */
  predicate RunStart(rows: seq<Row>, capacity: nat, m: nat, start: int) {
    IsRun(rows, capacity, start, m) && !Affected(rows, capacity, start - 1)
  }

  /** A streak reaches m exactly at the m-th second of such a run. */
  lemma CrossingIsRunStart(rows: seq<Row>, capacity: nat, m: nat, i: nat)
    requires Ascending(rows) && m > 0 && i < |rows|
    ensures Streak(rows, capacity, i) == m <==> RunStart(rows, capacity, m, rows[i].second - m + 1)
  {
    StreakIsRun(rows, capacity, i);
    var n, last := Streak(rows, capacity, i), rows[i].second;
    if RunStart(rows, capacity, m, last - m + 1) {
      var j := RunIsStreak(rows, capacity, last - m + 1, m);
      assert j == i;
      assert n > m ==> Affected(rows, capacity, last - m);
    }
  }

  // ------------------------------------------------------------------------- the summary

  /** Of a run, where it starts and the gap in its m-th second. */
  datatype Example = Example(start: int, gap: nat)

  datatype Summary = Summary(affected: nat, longest: nat, examples: seq<Example>)

  function AffectedRows(rows: seq<Row>, capacity: nat, n: nat): nat
    requires n <= |rows|
  {
    if n == 0 then 0 else AffectedRows(rows, capacity, n - 1) + if rows[n - 1].gap > capacity then 1 else 0
  }

  function LongestStreak(rows: seq<Row>, capacity: nat, n: nat): (r: nat)
    requires n <= |rows|
    ensures forall i :: 0 <= i < n ==> Streak(rows, capacity, i) <= r
    ensures r > 0 ==> exists i :: 0 <= i < n && Streak(rows, capacity, i) == r
  {
    if n == 0 then 0
    else
      var before, here := LongestStreak(rows, capacity, n - 1), Streak(rows, capacity, n - 1);
      if before >= here then before else here
  }

  /** The rows at which a streak reaches m, in order. */
  function Crossings(rows: seq<Row>, capacity: nat, m: nat, n: nat): seq<nat>
    requires n <= |rows|
  {
    if n == 0 then []
    else Crossings(rows, capacity, m, n - 1) + if Streak(rows, capacity, n - 1) == m then [n - 1] else []
  }

  predicate Increasing(list: seq<nat>) {
    forall a, b :: 0 <= a < b < |list| ==> list[a] < list[b]
  }

  lemma {:induction false} CrossingMembers(rows: seq<Row>, capacity: nat, m: nat, n: nat, i: nat)
    requires n <= |rows|
    ensures i in Crossings(rows, capacity, m, n) <==> i < n && Streak(rows, capacity, i) == m
  {
    if n > 0 {
      CrossingMembers(rows, capacity, m, n - 1, i);
    }
  }

  lemma {:induction false} CrossingsInOrder(rows: seq<Row>, capacity: nat, m: nat, n: nat)
    requires n <= |rows|
    ensures Increasing(Crossings(rows, capacity, m, n))
  {
    if n > 0 {
      var before := Crossings(rows, capacity, m, n - 1);
      CrossingsInOrder(rows, capacity, m, n - 1);
      forall a | 0 <= a < |before|
        ensures before[a] < n - 1
      {
        CrossingMembers(rows, capacity, m, n - 1, before[a]);
      }
    }
  }

  function ExampleAt(rows: seq<Row>, m: nat, i: nat): Example
    requires i < |rows|
  {
    Example(rows[i].second - m + 1, rows[i].gap)
  }

  predicate FirstThree(rows: seq<Row>, m: nat, crossings: seq<nat>, examples: seq<Example>) {
    && |examples| == (if |crossings| < 3 then |crossings| else 3)
    && forall k :: 0 <= k < |examples| ==> crossings[k] < |rows| && examples[k] == ExampleAt(rows, m, crossings[k])
  }

  predicate Noted(rows: seq<Row>, capacity: nat, m: nat, n: nat, examples: seq<Example>) {
    n <= |rows| && FirstThree(rows, m, Crossings(rows, capacity, m, n), examples)
  }

  lemma NotCrossed(rows: seq<Row>, capacity: nat, m: nat, i: nat, examples: seq<Example>)
    requires i < |rows| && Noted(rows, capacity, m, i, examples)
    requires Streak(rows, capacity, i) != m || |examples| == 3
    ensures Noted(rows, capacity, m, i + 1, examples)
  {
  }

  lemma Crossed(rows: seq<Row>, capacity: nat, m: nat, i: nat, examples: seq<Example>)
    requires i < |rows| && Noted(rows, capacity, m, i, examples)
    requires Streak(rows, capacity, i) == m && |examples| < 3
    ensures Noted(rows, capacity, m, i + 1, examples + [ExampleAt(rows, m, i)])
  {
  }

  /** What the loop's running count holds before row i. */
  predicate Running(rows: seq<Row>, capacity: nat, i: nat, run: nat, previous: Option<int>) {
    && i <= |rows|
    && (i > 0 ==> run == Streak(rows, capacity, i - 1))
    && previous == if i > 0 && run > 0 then Some(rows[i - 1].second) else None
  }

  lemma NextRun(rows: seq<Row>, capacity: nat, i: nat, run: nat, previous: Option<int>)
    requires i < |rows| && Running(rows, capacity, i, run, previous)
    ensures Streak(rows, capacity, i) ==
            if rows[i].gap <= capacity then 0
            else if previous == Some(rows[i].second - 1) then run + 1 else 1
  {
  }

  method Summarize(rows: seq<Row>, capacity: nat, minRun: nat) returns (summary: Summary)
    requires Ascending(rows) && minRun > 0
    ensures summary.affected == AffectedRows(rows, capacity, |rows|)
    ensures summary.longest == LongestStreak(rows, capacity, |rows|)
    ensures Noted(rows, capacity, minRun, |rows|, summary.examples)
  {
    var count, run, longest: nat := 0, 0, 0;
    var previous: Option<int> := None;
    var examples: seq<Example> := [];
    for i := 0 to |rows|
      invariant count == AffectedRows(rows, capacity, i) && longest == LongestStreak(rows, capacity, i)
      invariant Running(rows, capacity, i, run, previous)
      invariant Noted(rows, capacity, minRun, i, examples)
    {
      var second, gap := rows[i].second, rows[i].gap;
      NextRun(rows, capacity, i, run, previous);
      if gap > capacity {
        count := count + 1;
        run := if previous == Some(second - 1) then run + 1 else 1;
        assert run == Streak(rows, capacity, i);
        longest := if run > longest then run else longest;
        if run == minRun && |examples| < 3 {
          var example := Example(second - run + 1, gap);
          assert example == ExampleAt(rows, minRun, i);
          Crossed(rows, capacity, minRun, i, examples);
          examples := examples + [example];
        } else {
          NotCrossed(rows, capacity, minRun, i, examples);
        }
        previous := Some(second);
      } else {
        NotCrossed(rows, capacity, minRun, i, examples);
        run, previous := 0, None;
      }
    }
    summary := Summary(count, longest, examples);
  }

  /** The report on one pair of tracks; none when no second has packets of both. */
  method Compare(packets: seq<Packet>, video: nat, track: nat, capacity: nat, minRun: nat)
    returns (rows: seq<Row>, summary: Option<Summary>)
    requires minRun > 0
    ensures summary.None? <==> forall s :: !Together(packets, video, track, s)
    ensures Ascending(rows) && forall s :: HasRow(rows, s) <==> Together(packets, video, track, s)
    ensures forall s :: Affected(rows, capacity, s) <==> Apart(packets, video, track, capacity, s)
    ensures summary.Some? ==>
      && summary.value.affected == AffectedRows(rows, capacity, |rows|)
      && summary.value.longest == LongestStreak(rows, capacity, |rows|)
      && Noted(rows, capacity, minRun, |rows|, summary.value.examples)
  {
    var buckets := Buckets(packets);
    rows := Rows(buckets, video, track);
    forall s
      ensures HasRow(rows, s) <==> Together(packets, video, track, s)
      ensures Affected(rows, capacity, s) <==> Apart(packets, video, track, capacity, s)
    {
      RowsSayApart(packets, buckets, rows, video, track, capacity, s);
    }
    if rows == [] {
      return rows, None;
    }
    assert HasRow(rows, rows[0].second);
    var found := Summarize(rows, capacity, minRun);
    return rows, Some(found);
  }

  predicate Of(p: Packet, second: int, track: nat) {
    p.second == second && p.track == track
  }

  /** The second has packets of both tracks. */
  predicate Together(packets: seq<Packet>, video: nat, track: nat, second: int) {
    (exists p :: p in packets && Of(p, second, video)) && (exists p :: p in packets && Of(p, second, track))
  }

  /** Every packet of `one` ends more than the capacity before any of `other` starts. */
  predicate Before(packets: seq<Packet>, one: nat, other: nat, capacity: nat, second: int) {
    forall p, q :: p in packets && q in packets && Of(p, second, one) && Of(q, second, other) ==>
      q.pos - (p.pos + p.size) > capacity
  }

  /** In this second the tracks lie further apart than the capacity, one wholly before the
      other. */
  predicate Apart(packets: seq<Packet>, video: nat, track: nat, capacity: nat, second: int) {
    && Together(packets, video, track, second)
    && (Before(packets, video, track, capacity, second) || Before(packets, track, video, capacity, second))
  }

  lemma EnvelopesSayBefore(packets: seq<Packet>, one: nat, other: nat, capacity: nat, second: int, e: Envelope, f: Envelope)
    requires Covers(packets, (second, one), e) && Covers(packets, (second, other), f)
    ensures Before(packets, one, other, capacity, second) <==> f.low - e.high > capacity
    ensures Together(packets, one, other, second)
  {
    var p :| p in packets && (p.second, p.track) == (second, one) && p.pos + p.size == e.high;
    var q :| q in packets && (q.second, q.track) == (second, other) && q.pos == f.low;
    assert Of(p, second, one) && Of(q, second, other);
  }

  lemma GapSaysApart(packets: seq<Packet>, video: nat, track: nat, capacity: nat, second: int, v: Envelope, a: Envelope)
    requires Covers(packets, (second, video), v) && Covers(packets, (second, track), a)
    ensures Gap(v, a) > capacity <==> Apart(packets, video, track, capacity, second)
  {
    EnvelopesSayBefore(packets, video, track, capacity, second, v, a);
    EnvelopesSayBefore(packets, track, video, capacity, second, a, v);
  }

  lemma OnlyRow(rows: seq<Row>, capacity: nat, i: nat)
    requires Ascending(rows) && i < |rows|
    ensures Affected(rows, capacity, rows[i].second) <==> rows[i].gap > capacity
  {
  }

  /** The rows are about the packets: a second is affected exactly when its two tracks lie
      further apart than the capacity. */
  lemma RowsSayApart(packets: seq<Packet>, buckets: map<Key, Envelope>, rows: seq<Row>, video: nat, track: nat,
                     capacity: nat, second: int)
    requires Ascending(rows) && Bucketed(packets, buckets)
    requires HasRow(rows, second) <==> Compared(buckets, video, track, second)
    requires forall i :: 0 <= i < |rows| ==> RowOf(buckets, video, track, rows[i])
    ensures HasRow(rows, second) <==> Together(packets, video, track, second)
    ensures Affected(rows, capacity, second) <==> Apart(packets, video, track, capacity, second)
  {
    PacketsOf(packets, buckets, second, video);
    PacketsOf(packets, buckets, second, track);
    if HasRow(rows, second) {
      var i :| 0 <= i < |rows| && rows[i].second == second;
      assert RowOf(buckets, video, track, rows[i]);
      OnlyRow(rows, capacity, i);
      GapSaysApart(packets, video, track, capacity, second, buckets[(second, video)], buckets[(second, track)]);
    }
  }

  lemma PacketsOf(packets: seq<Packet>, buckets: map<Key, Envelope>, second: int, track: nat)
    requires Bucketed(packets, buckets)
    ensures (second, track) in buckets <==> exists p :: p in packets && Of(p, second, track)
  {
    if (second, track) in buckets {
      var p :| p in packets && (p.second, p.track) == (second, track);
      assert Of(p, second, track);
    }
  }

  // --------------------------------------------------------------------------- the claims

  /** The reported length is that of the longest set of consecutive affected seconds. */
  lemma LongestIsLongestRun(rows: seq<Row>, capacity: nat) returns (start: int)
    requires Ascending(rows)
    ensures IsRun(rows, capacity, start, LongestStreak(rows, capacity, |rows|))
    ensures forall s, n: nat :: n > 0 && IsRun(rows, capacity, s, n) ==> n <= LongestStreak(rows, capacity, |rows|)
  {
    var longest := LongestStreak(rows, capacity, |rows|);
    start := 0;
    if longest > 0 {
      var i :| 0 <= i < |rows| && Streak(rows, capacity, i) == longest;
      StreakIsRun(rows, capacity, i);
      start := rows[i].second - longest + 1;
    }
    forall s, n: nat | n > 0 && IsRun(rows, capacity, s, n)
      ensures n <= longest
    {
      var i := RunIsStreak(rows, capacity, s, n);
    }
  }

  ghost predicate GapIn(rows: seq<Row>, second: int, gap: nat) {
    exists i :: 0 <= i < |rows| && rows[i].second == second && rows[i].gap == gap
  }

  lemma ExampleIsRunStart(rows: seq<Row>, capacity: nat, m: nat, examples: seq<Example>, k: nat)
    requires Ascending(rows) && m > 0 && Noted(rows, capacity, m, |rows|, examples) && k < |examples|
    ensures RunStart(rows, capacity, m, examples[k].start)
    ensures GapIn(rows, examples[k].start + m - 1, examples[k].gap)
  {
    var i := Crossings(rows, capacity, m, |rows|)[k];
    CrossingMembers(rows, capacity, m, |rows|, i);
    CrossingIsRunStart(rows, capacity, m, i);
  }

  lemma RunStartIsCrossing(rows: seq<Row>, capacity: nat, m: nat, start: int) returns (c: nat)
    requires Ascending(rows) && m > 0 && RunStart(rows, capacity, m, start)
    ensures var crossings := Crossings(rows, capacity, m, |rows|);
            c < |crossings| && crossings[c] < |rows| && rows[crossings[c]].second - m + 1 == start
  {
    var i := RunIsStreak(rows, capacity, start, m);
    CrossingIsRunStart(rows, capacity, m, i);
    CrossingMembers(rows, capacity, m, |rows|, i);
    c :| 0 <= c < |Crossings(rows, capacity, m, |rows|)| && Crossings(rows, capacity, m, |rows|)[c] == i;
  }

  lemma ExamplesAscend(rows: seq<Row>, capacity: nat, m: nat, examples: seq<Example>, j: nat, c: nat)
    requires Ascending(rows) && Noted(rows, capacity, m, |rows|, examples)
    requires j < |examples| && j < c < |Crossings(rows, capacity, m, |rows|)|
    requires Crossings(rows, capacity, m, |rows|)[c] < |rows|
    ensures examples[j].start < rows[Crossings(rows, capacity, m, |rows|)[c]].second - m + 1
  {
    CrossingsInOrder(rows, capacity, m, |rows|);
  }

  /** The examples are the first three maximal runs of at least m seconds: each one is
      such a run with the gap of its m-th second, they come in order, and a run left out comes after three others. */
  lemma ExamplesAreTheFirstRuns(rows: seq<Row>, capacity: nat, m: nat, examples: seq<Example>, start: int)
    requires Ascending(rows) && m > 0 && Noted(rows, capacity, m, |rows|, examples)
    ensures forall k :: 0 <= k < |examples| ==> RunStart(rows, capacity, m, examples[k].start)
    ensures forall k :: 0 <= k < |examples| ==> GapIn(rows, examples[k].start + m - 1, examples[k].gap)
    ensures forall j, k :: 0 <= j < k < |examples| ==> examples[j].start < examples[k].start
    ensures RunStart(rows, capacity, m, start) ==>
              || (exists k :: 0 <= k < |examples| && examples[k].start == start)
              || (|examples| == 3 && examples[2].start < start)
  {
    forall k | 0 <= k < |examples|
      ensures RunStart(rows, capacity, m, examples[k].start)
      ensures GapIn(rows, examples[k].start + m - 1, examples[k].gap)
    {
      ExampleIsRunStart(rows, capacity, m, examples, k);
    }
    forall j, k | 0 <= j < k < |examples|
      ensures examples[j].start < examples[k].start
    {
      ExamplesAscend(rows, capacity, m, examples, j, k);
    }
    if RunStart(rows, capacity, m, start) {
      var c := RunStartIsCrossing(rows, capacity, m, start);
      if c < |examples| {
        assert examples[c].start == start;
      } else {
        ExamplesAscend(rows, capacity, m, examples, 2, c);
      }
    }
  }

  /** The count is the number of affected seconds. */
  lemma {:induction false} CountIsAffectedSeconds(rows: seq<Row>, capacity: nat, n: nat)
    requires Ascending(rows) && n <= |rows|
    ensures AffectedRows(rows, capacity, n) == |set i | 0 <= i < n && rows[i].gap > capacity :: rows[i].second|
  {
    var all := set i | 0 <= i < n && rows[i].gap > capacity :: rows[i].second;
    if n > 0 {
      CountIsAffectedSeconds(rows, capacity, n - 1);
      var before := set i | 0 <= i < n - 1 && rows[i].gap > capacity :: rows[i].second;
      if rows[n - 1].gap > capacity {
        assert all == before + {rows[n - 1].second};
      } else {
        assert all == before;
      }
    }
  }
}
