// Load telemetry: the sliding window of inbound events and the score made of it.
// Times and ratios are exact numbers.
module Load {

  // ----- the window -----

  /** Popping from the left while the oldest event is before the threshold. */
  function Popped(events: seq<real>, threshold: real): seq<real> {
    if events != [] && events[0] < threshold then Popped(events[1..], threshold) else events
  }

  /** The events within the window, wherever they stand. */
  function InWindow(events: seq<real>, threshold: real): seq<real> {
    if events == [] then []
    else (if events[0] < threshold then [] else [events[0]]) + InWindow(events[1..], threshold)
  }

  predicate Nondecreasing(events: seq<real>) {
    forall i, j :: 0 <= i < j < |events| ==> events[i] <= events[j]
  }

  lemma {:induction false} AllInWindow(events: seq<real>, threshold: real)
    requires forall i :: 0 <= i < |events| ==> events[i] >= threshold
    ensures InWindow(events, threshold) == events
  {
    if events != [] {
      AllInWindow(events[1..], threshold);
      assert [events[0]] + events[1..] == events;
    }
  }

  /** Under a clock that never goes back, popping leaves exactly the events in the window. */
  lemma {:induction false} PoppedIsWindow(events: seq<real>, threshold: real)
    requires Nondecreasing(events)
    ensures Popped(events, threshold) == InWindow(events, threshold)
    ensures Nondecreasing(Popped(events, threshold))
  {
    if events != [] {
      if events[0] < threshold {
        PoppedIsWindow(events[1..], threshold);
      } else {
        AllInWindow(events, threshold);
      }
    }
  }

  /** Behind an event in the window there is none before it. */
  predicate SettledFrom(events: seq<real>, threshold: real) {
    forall i, j :: 0 <= i < j < |events| && events[i] >= threshold ==> events[j] >= threshold
  }

  lemma {:induction false} WindowMembers(events: seq<real>, threshold: real)
    ensures forall x :: x in InWindow(events, threshold) ==> x >= threshold
    ensures |InWindow(events, threshold)| <= |events|
  {
    if events != [] {
      WindowMembers(events[1..], threshold);
    }
  }

  /** Popping leaves exactly the window when no old event stands behind a young one. */
  lemma {:induction false} PoppedIsWindowExactly(events: seq<real>, threshold: real)
    ensures Popped(events, threshold) == InWindow(events, threshold) <==> SettledFrom(events, threshold)
  {
    if events != [] {
      var rest := events[1..];
      if events[0] < threshold {
        PoppedIsWindowExactly(rest, threshold);
        assert forall i :: 0 <= i < |rest| ==> rest[i] == events[i + 1];
        if SettledFrom(rest, threshold) {
          assert forall i :: 0 < i < |events| ==> events[i] == rest[i - 1];
        }
      } else if SettledFrom(events, threshold) {
        AllInWindow(events, threshold);
      } else {
        WindowMembers(events, threshold);
        var i, j :| 0 <= i < j < |events| && events[i] >= threshold && events[j] < threshold;
        assert events[j] in events;
      }
    }
  }

  /** It does so at every threshold exactly under a clock that never goes back. */
  lemma ClockDecides(events: seq<real>)
    ensures (forall t: real :: Popped(events, t) == InWindow(events, t)) <==> Nondecreasing(events)
  {
    forall t: real ensures Popped(events, t) == InWindow(events, t) <==> SettledFrom(events, t) {
      PoppedIsWindowExactly(events, t);
    }
    if !Nondecreasing(events) {
      var i, j :| 0 <= i < j < |events| && events[i] > events[j];
      var t := events[i];
      assert !SettledFrom(events, t);
      assert Popped(events, t) != InWindow(events, t);
    }
  }

  lemma DropOne(s: seq<real>, n: nat)
    requires 0 < n <= |s|
    ensures s[|s| - n..][1..] == s[|s| - (n - 1)..]
  {
  }

  class LoadWindow {
    const seconds: real
    var accepted: seq<real>
    var dropped: seq<real>
    var waitTimes: seq<real>
    var waits: seq<real>

    constructor (seconds: real)
      ensures this.seconds == seconds && accepted == [] && dropped == [] && waitTimes == [] && waits == []
    {
      this.seconds := seconds;
      accepted, dropped, waitTimes, waits := [], [], [], [];
    }

    /** Each wait has its time, and no event is recorded before an earlier one. */
    predicate Valid()
      reads this
    {
      |waits| == |waitTimes| && Nondecreasing(accepted) && Nondecreasing(dropped) && Nondecreasing(waitTimes)
    }

    method PopBefore(threshold: real)
      requires |waits| == |waitTimes|
      modifies this
      ensures accepted == Popped(old(accepted), threshold) && dropped == Popped(old(dropped), threshold)
      ensures waitTimes == Popped(old(waitTimes), threshold)
      ensures |waits| == |waitTimes| <= |old(waits)| && waits == old(waits)[|old(waits)| - |waits|..]
    {
      while accepted != [] && accepted[0] < threshold
        invariant Popped(accepted, threshold) == Popped(old(accepted), threshold)
        invariant unchanged(`dropped) && unchanged(`waitTimes) && unchanged(`waits)
        decreases |accepted|
      {
        accepted := accepted[1..];
      }
      while dropped != [] && dropped[0] < threshold
        invariant accepted == Popped(old(accepted), threshold) && unchanged(`waitTimes) && unchanged(`waits)
        invariant Popped(dropped, threshold) == Popped(old(dropped), threshold)
        decreases |dropped|
      {
        dropped := dropped[1..];
      }
      while waitTimes != [] && waitTimes[0] < threshold
        invariant accepted == Popped(old(accepted), threshold) && dropped == Popped(old(dropped), threshold)
        invariant Popped(waitTimes, threshold) == Popped(old(waitTimes), threshold)
        invariant |waits| == |waitTimes| <= |old(waits)| && waits == old(waits)[|old(waits)| - |waits|..]
        decreases |waitTimes|
      {
        DropOne(old(waits), |waits|);
        waitTimes := waitTimes[1..];
        waits := waits[1..];
      }
    }

    method Prune(now: real)
      requires Valid()
      modifies this
      ensures Valid()
      ensures accepted == InWindow(old(accepted), now - seconds)
      ensures dropped == InWindow(old(dropped), now - seconds)
      ensures waitTimes == InWindow(old(waitTimes), now - seconds)
      ensures |waits| <= |old(waits)| && waits == old(waits)[|old(waits)| - |waits|..]
    {
      PoppedIsWindow(accepted, now - seconds);
      PoppedIsWindow(dropped, now - seconds);
      PoppedIsWindow(waitTimes, now - seconds);
      PopBefore(now - seconds);
    }

    method RecordQueueWait(wait: real, now: real)
      requires Valid() && (waitTimes != [] ==> waitTimes[|waitTimes| - 1] <= now)
      modifies this
      ensures Valid() && waitTimes == InWindow(old(waitTimes) + [now], now - seconds)
      ensures |waits| <= |old(waits)| + 1 && waits == (old(waits) + [wait])[|old(waits)| + 1 - |waits|..]
    {
      waitTimes := waitTimes + [now];
      waits := waits + [wait];
      Prune(now);
    }
  }

  // ----- the 95th percentile -----

  function Insert(x: real, s: seq<real>): seq<real> {
    if s == [] || x <= s[0] then [x] + s else [s[0]] + Insert(x, s[1..])
  }

  function Sorted(values: seq<real>): seq<real> {
    if values == [] then [] else Insert(values[0], Sorted(values[1..]))
  }

  function AtMost(values: seq<real>, x: real): nat {
    if values == [] then 0 else (if values[0] <= x then 1 else 0) + AtMost(values[1..], x)
  }

  lemma {:induction false} InsertKeeps(x: real, s: seq<real>)
    requires Nondecreasing(s)
    ensures Nondecreasing(Insert(x, s)) && |Insert(x, s)| == |s| + 1
    ensures forall y: real :: y in Insert(x, s) <==> y == x || y in s
    ensures forall y: real :: AtMost(Insert(x, s), y) == (if x <= y then 1 else 0) + AtMost(s, y)
  {
    if s == [] || x <= s[0] {
      assert ([x] + s)[1..] == s;
    } else {
      InsertKeeps(x, s[1..]);
      assert ([s[0]] + Insert(x, s[1..]))[1..] == Insert(x, s[1..]);
      assert s == [s[0]] + s[1..];
      assert forall y: real :: y in Insert(x, s) <==> y == s[0] || y in Insert(x, s[1..]);
      assert forall k :: 0 <= k < |s| ==> s[0] <= s[k];
      assert forall k :: 0 <= k < |Insert(x, s[1..])| ==> Insert(x, s[1..])[k] in Insert(x, s[1..]);
    }
  }

  lemma {:induction false} SortedKeeps(values: seq<real>)
    ensures Nondecreasing(Sorted(values)) && |Sorted(values)| == |values|
    ensures forall y: real :: y in Sorted(values) <==> y in values
    ensures forall y: real :: AtMost(Sorted(values), y) == AtMost(values, y)
  {
    if values != [] {
      SortedKeeps(values[1..]);
      InsertKeeps(values[0], Sorted(values[1..]));
      assert values == [values[0]] + values[1..];
    }
  }

  /** In a sorted sequence, the count of elements up to a value tells where it stands. */
  lemma {:induction false} Ranks(s: seq<real>, x: real, k: nat)
    requires Nondecreasing(s) && k < |s|
    ensures s[k] <= x ==> AtMost(s, x) >= k + 1
    ensures x < s[k] ==> AtMost(s, x) <= k
  {
    if k == 0 {
      if x < s[0] {
        NoneAtMost(s, x);
      }
    } else {
      assert s[1..][k - 1] == s[k];
      assert s[0] <= s[k];
      Ranks(s[1..], x, k - 1);
    }
  }

  lemma {:induction false} NoneAtMost(s: seq<real>, x: real)
    requires forall i :: 0 <= i < |s| ==> x < s[i]
    ensures AtMost(s, x) == 0
  {
    if s != [] {
      NoneAtMost(s[1..], x);
    }
  }

  /** The index of the 95th percentile among n sorted samples. */
  function Index95(n: nat): (i: nat)
    requires n > 0
    ensures i < n && 20 * (i + 1) >= 19 * n && 20 * i < 19 * n
  {
    (19 * n + 19) / 20 - 1
  }

  function P95(values: seq<real>): real {
    if values == [] then 0.0 else
      SortedKeeps(values);
      Sorted(values)[Index95(|values|)]
  }

  /** A sample with at least 95 percent of the samples at or below it, and the least such sample. */
  lemma P95Exactly(values: seq<real>)
    requires values != []
    ensures P95(values) in values && 100 * AtMost(values, P95(values)) >= 95 * |values|
    ensures forall x: real :: 100 * AtMost(values, x) >= 95 * |values| ==> P95(values) <= x
  {
    SortedKeeps(values);
    var s := Sorted(values);
    var k := Index95(|values|);
    assert s[k] in s;
    Ranks(s, s[k], k);
    forall x: real | 100 * AtMost(values, x) >= 95 * |values| ensures s[k] <= x {
      Ranks(s, x, k);
    }
  }

  // ----- the score -----

  function Clamp(x: real): (r: real)
    ensures 0.0 <= r <= 1.0
  {
    if x < 0.0 then 0.0 else if x > 1.0 then 1.0 else x
  }

  /** Rounding to the nearest integer, a half to the even one. */
  function Round(x: real): int {
    var low := x.Floor;
    var part := x - low as real;
    if part < 0.5 || (part == 0.5 && low % 2 == 0) then low else low + 1
  }

  function WaitNorm(wait: real): real {
    if wait <= 0.0 then 0.0 else if wait / 250.0 > 1.0 then 1.0 else wait / 250.0
  }

  function Weighted(fill: real, drop: real, wait: real): real {
    Clamp(fill) * 0.4 + Clamp(drop) * 0.3 + WaitNorm(wait) * 0.2
  }

  function Normalized(fill: real, drop: real, wait: real): real {
    var w := Weighted(fill, drop, wait) / 0.9;
    if w > 1.0 then 1.0 else w
  }

  function Score(fill: real, drop: real, wait: real): (score: int)
    ensures 0 <= score <= 10000
  {
    var rounded := Round(Normalized(fill, drop, wait) * 10000.0);
    if rounded < 0 then 0 else if rounded > 10000 then 10000 else rounded
  }

  lemma RoundMonotone(x: real, y: real)
    requires x <= y
    ensures Round(x) <= Round(y)
  {
  }

  /** The nearest integer, and the even one of two. */
  lemma RoundsToNearest(x: real)
    ensures x - 0.5 <= Round(x) as real <= x + 0.5
    ensures Round(x) as real == x - 0.5 || Round(x) as real == x + 0.5 ==> Round(x) % 2 == 0
  {
  }

  /** Fill, drops and wait weigh 4 : 3 : 2, and the score is the nearest integer to their share of 10000; a wait of a
      quarter of a second counts in full. */
  lemma ScoreWeighs(fill: real, drop: real, wait: real)
    requires 0.0 <= fill <= 1.0 && 0.0 <= drop <= 1.0 && 0.0 <= wait <= 250.0
    ensures var share := (4.0 * fill + 3.0 * drop + 2.0 * (wait / 250.0)) / 9.0;
            share * 10000.0 - 0.5 <= Score(fill, drop, wait) as real <= share * 10000.0 + 0.5
  {
    var share := (4.0 * fill + 3.0 * drop + 2.0 * (wait / 250.0)) / 9.0;
    assert 0.0 <= wait / 250.0 <= 1.0;
    assert Weighted(fill, drop, wait) == fill * 0.4 + drop * 0.3 + (wait / 250.0) * 0.2;
    assert Weighted(fill, drop, wait) / 0.9 == share;
    assert 0.0 <= share <= 1.0;
    RoundsToNearest(share * 10000.0);
  }

  /** Inputs beyond their range count as the end of the range. */
  lemma ScoreSaturates(fill: real, drop: real, wait: real)
    ensures fill > 1.0 ==> Score(fill, drop, wait) == Score(1.0, drop, wait)
    ensures fill < 0.0 ==> Score(fill, drop, wait) == Score(0.0, drop, wait)
    ensures drop > 1.0 ==> Score(fill, drop, wait) == Score(fill, 1.0, wait)
    ensures drop < 0.0 ==> Score(fill, drop, wait) == Score(fill, 0.0, wait)
    ensures wait > 250.0 ==> Score(fill, drop, wait) == Score(fill, drop, 250.0)
    ensures wait < 0.0 ==> Score(fill, drop, wait) == Score(fill, drop, 0.0)
  {
    SameWeight(fill, drop, wait, if fill > 1.0 then 1.0 else if fill < 0.0 then 0.0 else fill, drop, wait);
    SameWeight(fill, drop, wait, fill, if drop > 1.0 then 1.0 else if drop < 0.0 then 0.0 else drop, wait);
    SameWeight(fill, drop, wait, fill, drop, if wait > 250.0 then 250.0 else if wait < 0.0 then 0.0 else wait);
  }

  lemma SameWeight(fill1: real, drop1: real, wait1: real, fill2: real, drop2: real, wait2: real)
    requires Clamp(fill1) == Clamp(fill2) && Clamp(drop1) == Clamp(drop2) && WaitNorm(wait1) == WaitNorm(wait2)
    ensures Score(fill1, drop1, wait1) == Score(fill2, drop2, wait2)
  {
    assert Weighted(fill1, drop1, wait1) == Weighted(fill2, drop2, wait2);
  }

  /** A higher load in any of the three inputs never lowers the score; no load scores 0, full load 10000. */
  lemma ScoreMonotone(fill1: real, drop1: real, wait1: real, fill2: real, drop2: real, wait2: real)
    requires fill1 <= fill2 && drop1 <= drop2 && wait1 <= wait2
    ensures Score(fill1, drop1, wait1) <= Score(fill2, drop2, wait2)
    ensures fill2 <= 0.0 && drop2 <= 0.0 && wait2 <= 0.0 ==> Score(fill2, drop2, wait2) == 0
    ensures fill1 >= 1.0 && drop1 >= 1.0 && wait1 >= 250.0 ==> Score(fill1, drop1, wait1) == 10000
  {
    assert Weighted(fill1, drop1, wait1) <= Weighted(fill2, drop2, wait2);
    RoundMonotone(Normalized(fill1, drop1, wait1) * 10000.0, Normalized(fill2, drop2, wait2) * 10000.0);
  }
}
