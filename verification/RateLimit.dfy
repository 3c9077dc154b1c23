/**
 The sliding-window rate limiter of `pkg/resilience/ratelimit.go`.

 One attempt, under the limiter's mutex, reads the clock twice: once to drop the events that
 left the window and count the rest, and once more to record the admitted call.  The log of
 admitted calls exists only for the proof; the code keeps just the events of the window.
 */
module RateLimiting {
  type Time = int

  datatype Rate = Rate(N: int, Per: int) {
    predicate IsZero() { N == 0 && Per == 0 }
  }

  /** What RLE reports. */
  datatype Rle = Rle(windowStart: Time, currentTime: Time, firstAt: Time, count: nat)

  datatype Outcome = Admitted | Limited | Cancelled

  ghost predicate Sorted(log: seq<Time>) {
    forall i, j :: 0 <= i < j < |log| ==> log[i] <= log[j]
  }

  /** Any N + 1 consecutive admissions span more than `per`. */
  ghost predicate Spread(log: seq<Time>, n: nat, per: int) {
    forall i :: 0 <= i && i + n < |log| ==> log[i] + per < log[i + n]
  }

  /** How many calls were admitted between `a` and `b`, both included. */
  function Count(log: seq<Time>, a: Time, b: Time): nat {
    if log == [] then 0
    else Count(log[..|log| - 1], a, b) + (if a <= log[|log| - 1] <= b then 1 else 0)
  }

  /** In an ordered log whose last entry is inside, everything after an entry inside is inside. */
  lemma InsideToTheEnd(log: seq<Time>, a: Time, b: Time, i: nat)
    requires Sorted(log) && i < |log|
    requires a <= log[i] && log[|log| - 1] <= b
    ensures forall k :: i <= k < |log| ==> a <= log[k] <= b
  {
    forall k | i <= k < |log| ensures a <= log[k] <= b {
      assert log[i] <= log[k] || k == i;
      assert log[k] <= log[|log| - 1] || k == |log| - 1;
    }
  }

  /** Counting in an ordered log is measuring a stretch of it. */
  lemma {:induction false} CountStretch(log: seq<Time>, a: Time, b: Time) returns (i: nat)
    requires Sorted(log)
    ensures i + Count(log, a, b) <= |log|
    ensures forall k :: 0 <= k < |log| ==> (a <= log[k] <= b <==> i <= k < i + Count(log, a, b))
  {
    if log == [] {
      i := 0;
    } else {
      var rest, last := log[..|log| - 1], log[|log| - 1];
      i := CountStretch(rest, a, b);
      if a <= last <= b {
        if Count(rest, a, b) == 0 {
          i := |log| - 1;
        } else {
          InsideToTheEnd(log, a, b, i);
        }
      }
    }
  }

  /** How many admissions fall into the closed interval of length `per` from `a`. */
  function InWindow(log: seq<Time>, a: Time, per: int): nat {
    Count(log, a, a + per)
  }

  /** No closed interval of length `per` holds more than `n` admissions. */
  ghost predicate Bounded(log: seq<Time>, n: nat, per: int) {
    forall a :: InWindow(log, a, per) <= n
  }

  /** The property promised about all intervals is one about admissions N places apart. */
  lemma BoundedIffSpread(log: seq<Time>, n: nat, per: int)
    requires Sorted(log) && 0 <= per
    ensures Bounded(log, n, per) <==> Spread(log, n, per)
  {
    if Spread(log, n, per) {
      forall a ensures InWindow(log, a, per) <= n {
        var i := CountStretch(log, a, a + per);
        assert i + n < |log| ==> log[i] + per < log[i + n];
      }
    }
    if Bounded(log, n, per) {
      forall i | 0 <= i && i + n < |log| ensures log[i] + per < log[i + n] {
        var f := CountStretch(log, log[i], log[i] + per);
        assert InWindow(log, log[i], per) <= n;
        assert log[i] <= log[i + n];
      }
    }
  }

  /** Admitting at `t` what finds fewer than N calls since `start` keeps the log spread. */
  lemma AdmitKeepsSpread(log: seq<Time>, kept: nat, n: nat, per: int, start: Time, t: Time)
    requires Sorted(log) && Spread(log, n, per)
    requires kept <= |log| && kept < n
    requires forall i :: 0 <= i < |log| - kept ==> log[i] < start
    requires start + per <= t && (log != [] ==> log[|log| - 1] <= t)
    ensures Sorted(log + [t]) && Spread(log + [t], n, per)
  {
  }

  /** What is left after dropping everything before the window is what the window holds. */
  lemma WindowCount(log: seq<Time>, kept: nat, a: Time, b: Time)
    requires Sorted(log) && kept <= |log|
    requires forall i :: 0 <= i < |log| - kept ==> log[i] < a
    requires forall i :: |log| - kept <= i < |log| ==> a <= log[i] <= b
    ensures Count(log, a, b) == kept
  {
    var i := CountStretch(log, a, b);
    var c := Count(log, a, b);
    if kept > 0 {
      assert a <= log[|log| - kept] <= b && a <= log[|log| - 1] <= b;
    }
    if c > 0 {
      assert a <= log[i] && a <= log[i + c - 1];
    }
  }

  /** `es` is an end of the log, and what it lacks lies before `start`. */
  ghost predicate Ending(log: seq<Time>, es: seq<Time>, start: Time) {
    && |es| <= |log|
    && es == log[|log| - |es|..]
    && (forall i :: 0 <= i < |log| - |es| ==> log[i] < start)
  }

  /** `kept` is what of `es` lies in the window. */
  ghost predicate Trimmed(es: seq<Time>, kept: seq<Time>, start: Time) {
    && Ending(es, kept, start)
    && (forall k :: 0 <= k < |kept| ==> start <= kept[k])
  }

  /** A later start is later for what was dropped. */
  lemma EndingLater(log: seq<Time>, es: seq<Time>, start: Time, later: Time)
    requires Ending(log, es, start) && start <= later
    ensures Ending(log, es, later) && |es| <= |log|
  {
  }

  lemma HistorySorted(log: seq<Time>, es: seq<Time>, start: Time)
    requires Sorted(log) && Ending(log, es, start)
    ensures Sorted(es)
  {
  }

  /** Filtering the history, which is the end of the log, keeps exactly the log's window. */
  lemma Dropped(log: seq<Time>, es: seq<Time>, kept: seq<Time>, windowStart: Time, now: Time)
    requires Sorted(log) && (log != [] ==> log[|log| - 1] <= now)
    requires Ending(log, es, windowStart) && Trimmed(es, kept, windowStart)
    ensures Ending(log, kept, windowStart)
    ensures Count(log, windowStart, now) == |kept|
  {
    forall k | 0 <= k < |log| - |kept| ensures log[k] < windowStart {
      if |log| - |es| <= k {
        assert log[k] == es[k - (|log| - |es|)];
      }
    }
    forall k | |log| - |kept| <= k < |log| ensures windowStart <= log[k] <= now {
      assert log[k] == kept[k - (|log| - |kept|)];
      assert k < |log| - 1 ==> log[k] <= log[|log| - 1];
    }
    WindowCount(log, |kept|, windowStart, now);
  }

  /**
   When a call refused at `t`, in a window full with `n` events, can be admitted with the same
   history: exactly when the oldest of these is strictly before the new window.
   */
  lemma WaitNeeded(log: seq<Time>, n: nat, per: int, t: Time, later: Time)
    requires Sorted(log) && 0 < n && 0 <= per && t <= later
    requires Count(log, t - per, t) == n && (log != [] ==> log[|log| - 1] <= t)
    ensures n <= |log|
    ensures Count(log, later - per, later) < n <==> log[|log| - n] < later - per
  {
    var i := CountStretch(log, t - per, t);
    var j := CountStretch(log, later - per, later);
    var k := |log| - n;
    StretchAtEnd(log, t - per, t);
    StretchAtEnd(log, later - per, later);
    assert t - per <= log[k] <= t;
  }

  /** When nothing is later than the window, the stretch it holds is the end of the log. */
  lemma StretchAtEnd(log: seq<Time>, a: Time, b: Time)
    requires Sorted(log) && (log != [] ==> log[|log| - 1] <= b)
    ensures Count(log, a, b) <= |log|
    ensures forall k :: 0 <= k < |log| ==> (a <= log[k] <==> |log| - Count(log, a, b) <= k)
  {
    var i := CountStretch(log, a, b);
    forall k | 0 <= k < |log| ensures log[k] <= b {
      assert k < |log| - 1 ==> log[k] <= log[|log| - 1];
    }
    if Count(log, a, b) > 0 {
      InsideToTheEnd(log, a, b, i);
      assert a <= log[|log| - 1] <= b;
    }
  }

  /** One pass through the mutex: the two clock readings, and whether the context was over. */
  datatype Try = Try(cancelled: bool, rle: Time, tick: Time)

  /** The readings of all passes, in mutex order, never go back. */
  ghost predicate Forward(now: Time, tries: seq<Try>) {
    && (forall i :: 0 <= i < |tries| ==> now <= tries[i].rle <= tries[i].tick)
    && (forall i, j :: 0 <= i < j < |tries| ==> tries[i].tick <= tries[j].rle)
  }

  /** The history is the end of the log; what was dropped is out of every later window. */
  ghost predicate History(rate: Rate, log: seq<Time>, es: seq<Time>, now: Time) {
    && Sorted(log)
    && (log != [] ==> log[|log| - 1] <= now)
    && Ending(log, es, now - rate.Per)
    && (0 <= rate.N ==> |es| <= rate.N && Spread(log, rate.N, rate.Per))
    && (rate.N <= 0 ==> log == [])
  }

  lemma CountOne()
    ensures Count([0], -5, 5) == 1
  {
    var log: seq<Time> := [0];
    assert log[..0] == [];
  }

  lemma HistoryGives(rate: Rate, log: seq<Time>, es: seq<Time>, now: Time)
    requires History(rate, log, es, now)
    ensures Sorted(log) && (rate.N <= 0 ==> log == [])
    ensures 0 <= rate.N ==> |es| <= rate.N && Spread(log, rate.N, rate.Per)
  {
  }

  /** Recording one more admission while there is room for it. */
  lemma Ticked(rate: Rate, log: seq<Time>, es: seq<Time>, now: Time, t: Time)
    requires History(rate, log, es, now) && |es| < rate.N && now <= t
    ensures History(rate, log + [t], es + [t], t)
  {
    hide Sorted, Spread, Ending;
    EndingKept(log, es, now - rate.Per);
    AdmitKeepsSpread(log, |es|, rate.N, rate.Per, now - rate.Per, t);
    EndingMore(log, es, now - rate.Per, t - rate.Per, t);
  }

  lemma EndingKept(log: seq<Time>, es: seq<Time>, start: Time)
    requires Ending(log, es, start)
    ensures |es| <= |log| && es == log[|log| - |es|..]
    ensures forall i :: 0 <= i < |log| - |es| ==> log[i] < start
  {
  }

  lemma EndingMore(log: seq<Time>, es: seq<Time>, start: Time, later: Time, t: Time)
    requires Ending(log, es, start) && start <= later
    ensures Ending(log + [t], es + [t], later)
  {
  }

  /** A refusal by a full window, and a retry with the same history. */
  lemma RetryFacts(rate: Rate, log: seq<Time>, es: seq<Time>, now: Time, t: Time, later: Time)
    requires History(rate, log, es, now) && 0 < rate.N && 0 <= rate.Per && now <= t <= later
    requires rate.N <= Count(log, t - rate.Per, t)
    ensures rate.N <= |log| && es != []
    ensures Count(log, later - rate.Per, later) < rate.N <==> log[|log| - rate.N] < later - rate.Per
    ensures later - rate.Per == es[0] || later == t ==> rate.N <= Count(log, later - rate.Per, later)
  {
    hide Sorted, Spread, Ending, Count;
    BoundedIffSpread(log, rate.N, rate.Per);
    assert InWindow(log, t - rate.Per, rate.Per) <= rate.N;
    EndingKept(log, es, now - rate.Per);
    StretchAtEnd(log, t - rate.Per, t);
    WaitNeeded(log, rate.N, rate.Per, t, later);
    var k := |log| - rate.N;
    assert t - rate.Per <= log[k];
    assert |log| - |es| <= k;
    if es != [] && later - rate.Per == es[0] {
      SortedAt(log, |log| - |es|, k);
    }
  }

  lemma SortedAt(log: seq<Time>, i: nat, j: nat)
    requires Sorted(log) && i <= j < |log|
    ensures log[i] <= log[j]
  {
  }

  /** The pass finds its context alive, a rate, and the window full. */
  predicate Refused(rate: Rate, log: seq<Time>, t: Try) {
    !t.cancelled && !rate.IsZero() && rate.N <= Count(log, t.rle - rate.Per, t.rle)
  }

  lemma WhenLimited(rate: Rate, log: seq<Time>, t: Try, outcome: Outcome)
    requires outcome == Cancelled <==> t.cancelled
    requires rate.IsZero() && !t.cancelled ==> outcome == Admitted
    requires !t.cancelled && !rate.IsZero() ==>
      (outcome == Admitted <==> Count(log, t.rle - rate.Per, t.rle) < rate.N)
    ensures outcome == Limited <==> Refused(rate, log, t)
  {
  }

  /** What the passes of a run admit, one after the other. */
  function Admissions(rate: Rate, tries: seq<Try>): seq<Time> {
    if tries == [] then []
    else
      var before, t := Admissions(rate, tries[..|tries| - 1]), tries[|tries| - 1];
      if t.cancelled || Refused(rate, before, t) then before else before + [t.tick]
  }

  /** A pass that is not among the admissions was cancelled, or refused by those before it; and only such a pass. */
  lemma {:induction false} Decided(rate: Rate, tries: seq<Try>, k: nat)
    requires k < |tries|
    ensures var before, after := Admissions(rate, tries[..k]), Admissions(rate, tries[..k + 1]);
      && after <= Admissions(rate, tries)
      && after == before + (if tries[k].cancelled || Refused(rate, before, tries[k]) then [] else [tries[k].tick])
  {
    assert tries[..k + 1][..k] == tries[..k];
    if k + 1 < |tries| {
      var rest := tries[..|tries| - 1];
      Decided(rate, rest, k);
      assert rest[..k] == tries[..k] && rest[..k + 1] == tries[..k + 1];
    } else {
      assert tries[..k + 1] == tries;
    }
  }

  class SlidingWindow {
    const rate: Rate
    var es: seq<Time>
    /** Every recorded admission so far, and the latest clock reading. */
    ghost var log: seq<Time>
    ghost var now: Time

    ghost predicate Valid()
      reads this
    {
      History(rate, log, es, now)
    }

    constructor (rate: Rate, start: Time)
      ensures Valid() && this.rate == rate && log == [] && now == start
    {
      this.rate, es, log, now := rate, [], [], start;
    }

    /** Keeps the events of the window: the end of the history. */
    static method Filter(es: seq<Time>, windowStart: Time) returns (kept: seq<Time>, firstAt: Time)
      requires Sorted(es)
      ensures Trimmed(es, kept, windowStart) && |kept| <= |es|
      ensures firstAt == if es == [] then windowStart else es[0]
    {
      kept, firstAt := [], windowStart;
      for i := 0 to |es|
        invariant |kept| <= i && kept == es[i - |kept|..i]
        invariant forall k :: 0 <= k < i - |kept| ==> es[k] < windowStart
        invariant forall k :: 0 <= k < |kept| ==> windowStart <= kept[k]
        invariant firstAt == if i == 0 then windowStart else es[0]
      {
        if i == 0 || es[i] < firstAt {
          firstAt := es[i];
        }
        assert i > 0 ==> es[i - 1] <= es[i];
        assert kept != [] ==> kept[|kept| - 1] == es[i - 1];
        if windowStart <= es[i] {
          kept := kept + [es[i]];
        }
      }
    }

    /** Drops the events before the window that ends now, and counts the others. */
    method RLE(currentTime: Time) returns (r: Rle)
      requires Valid() && now <= currentTime
      modifies this`es, this`now
      ensures Valid() && now == r.currentTime == currentTime
      ensures r.windowStart == currentTime - rate.Per
      ensures r.count == |es| == Count(log, r.windowStart, currentTime)
      ensures r.firstAt == if old(es) == [] then r.windowStart else old(es)[0]
    {
      hide Sorted, Spread, Ending, Trimmed, Count;
      HistorySorted(log, es, now - rate.Per);
      var windowStart := currentTime - rate.Per;
      var kept, firstAt := Filter(es, windowStart);
      EndingLater(log, es, now - rate.Per, windowStart);
      Dropped(log, es, kept, windowStart, currentTime);
      es := kept;
      now := currentTime;
      r := Rle(windowStart, currentTime, firstAt, |es|);
    }

    method Tick(t: Time)
      requires !rate.IsZero() ==> Valid() && |es| < rate.N && now <= t
      modifies this
      ensures rate.IsZero() ==> es == old(es) && log == old(log) && now == old(now)
      ensures !rate.IsZero() ==> Valid() && es == old(es) + [t] && log == old(log) + [t] && now == t
    {
      hide History;
      if rate.IsZero() {
        return;
      }
      Ticked(rate, log, es, now, t);
      es := es + [t];
      log := log + [t];
      now := t;
    }

    /** One pass of RateLimit: refused exactly when the window that ends now is full. */
    method Pass(t: Try) returns (outcome: Outcome, wait: int)
      requires Valid() && now <= t.rle <= t.tick
      modifies this
      ensures Valid() && now <= t.tick && old(now) <= now
      ensures outcome == Cancelled <==> t.cancelled
      ensures !t.cancelled && !rate.IsZero() ==>
        (outcome == Admitted <==> Count(old(log), t.rle - rate.Per, t.rle) < rate.N)
      ensures rate.IsZero() && !t.cancelled ==> outcome == Admitted
      ensures log == if outcome == Admitted && !rate.IsZero() then old(log) + [t.tick] else old(log)
      ensures outcome == Limited ==> wait == (if old(es) == [] then 0 else old(es)[0] - (t.rle - rate.Per))
    {
      hide History, Count;
      wait := 0;
      if t.cancelled {
        return Cancelled, 0;
      }
      if rate.IsZero() {
        return Admitted, 0;
      }
      var e := RLE(t.rle);
      if rate.N <= e.count {
        outcome := Limited;
        wait := e.firstAt - e.windowStart;
      } else {
        Tick(t.tick);
        outcome := Admitted;
      }
    }

    /** What was just admitted is still in the history. */
    lemma OnlyOne()
      requires Valid() && log == [0] && rate == Rate(1, 10) && now <= 0
      ensures es == [0] && Count(log, -5, 5) == 1
    {
      hide Sorted, Spread, Ending, Count;
      CountOne();
      EndingKept(log, es, now - rate.Per);
    }

    /** RateLimit by one caller: it tries until a pass admits it or its context is over. */
    method RateLimit(tries: seq<Try>) returns (outcome: Outcome, used: nat)
      requires Valid() && Forward(now, tries)
      modifies this
      ensures Valid() && used <= |tries|
      ensures outcome == Limited ==> used == |tries|
      ensures outcome == Cancelled ==> 0 < used && tries[used - 1].cancelled
      ensures outcome == Admitted ==> 0 < used && !tries[used - 1].cancelled
      ensures outcome == Admitted && !rate.IsZero() ==> log == old(log) + [tries[used - 1].tick]
      ensures outcome != Admitted || rate.IsZero() ==> log == old(log)
      // every pass that did not end the call was refused for cause, and one that admits was free to
      ensures forall i :: 0 <= i < used - 1 ==> Refused(rate, old(log), tries[i])
      ensures outcome == Limited && 0 < used ==> Refused(rate, old(log), tries[used - 1])
      ensures outcome == Admitted ==>
        rate.IsZero() || Count(old(log), tries[used - 1].rle - rate.Per, tries[used - 1].rle) < rate.N
    {
      hide History, Count, Refused;
      used := 0;
      outcome := Limited;
      while used < |tries| && outcome == Limited
        invariant used <= |tries| && Valid()
        invariant forall i :: used <= i < |tries| ==> now <= tries[i].rle
        invariant outcome == Limited ==> log == old(log)
        invariant forall i :: 0 <= i < used - 1 ==> Refused(rate, old(log), tries[i])
        invariant outcome == Limited && 0 < used ==> Refused(rate, old(log), tries[used - 1])
        invariant outcome == Admitted ==>
          0 < used && (rate.IsZero() || Count(old(log), tries[used - 1].rle - rate.Per, tries[used - 1].rle) < rate.N)
        invariant outcome == Cancelled ==> 0 < used && tries[used - 1].cancelled && log == old(log)
        invariant outcome == Admitted ==> 0 < used && !tries[used - 1].cancelled
        invariant outcome == Admitted ==> log == if rate.IsZero() then old(log) else old(log) + [tries[used - 1].tick]
        decreases |tries| - used
      {
        var wait: int;
        outcome, wait := Pass(tries[used]);
        WhenLimited(rate, old(log), tries[used], outcome);
        used := used + 1;
      }
    }

    /**
     A call that tries again at `later` when it was refused at `t`, and nobody else came in
     between.  The retry is admitted exactly when the oldest of the last N admissions is strictly before the new
     window, and never after waiting just as long as the refusal said.
     */
    method Retry(t: Time, later: Time) returns (first: Outcome, wait: int, second: Outcome)
      requires Valid() && 0 < rate.N && 0 <= rate.Per && now <= t <= later
      modifies this
      ensures first != Cancelled && (first == Limited <==> rate.N <= Count(old(log), t - rate.Per, t))
      ensures first == Limited ==> old(es) != [] && wait == old(es)[0] - (t - rate.Per)
      ensures first == Limited ==> rate.N <= |old(log)|
      ensures first == Limited ==>
        (second == Admitted <==> old(log)[|old(log)| - rate.N] < later - rate.Per)
      ensures first == Limited && later == t + (if wait < 0 then 0 else wait) ==> second == Limited
      ensures first == Admitted ==> second == Admitted && log == old(log) + [t]
      ensures first == Limited ==> second != Cancelled && log == old(log) + (if second == Admitted then [later] else [])
    {
      hide History, Count;
      ghost var log0, es0 := log, es;
      if rate.N <= Count(log, t - rate.Per, t) {
        RetryFacts(rate, log, es, now, t, later);
      }
      first, wait := Pass(Try(false, t, t));
      second := first;
      if first == Limited {
        var again;
        second, again := Pass(Try(false, later, later));
      }
    }
  }

  /**
   One call per ten units of time: after a call at 0, one at 5 is refused and told to wait 5;
   the retry at 10 is refused, and one at 11 would have been admitted.
   */
  method OnTime() returns (first: Outcome, wait: int, retried: Outcome, later: Outcome)
    ensures first == Limited && wait == 5 && retried == Limited && later == Admitted
  {
    var limiter := OneAdmission();
    first, wait, retried := limiter.Retry(5, 10);
    limiter := OneAdmission();
    var again, waitAgain;
    again, waitAgain, later := limiter.Retry(5, 11);
  }

  /** A limiter of one call per ten units of time that has admitted one at 0. */
  method OneAdmission() returns (limiter: SlidingWindow)
    ensures fresh(limiter) && limiter.Valid() && limiter.rate == Rate(1, 10) && limiter.now <= 0
    ensures limiter.log == limiter.es == [0] && Count(limiter.log, -5, 5) == 1
  {
    limiter := new SlidingWindow(Rate(1, 10), 0);
    var outcome, wait := limiter.Pass(Try(false, 0, 0));
    assert limiter.log == [0];
    limiter.OnlyOne();
  }

  /**
   Passes of any number of callers, in the order they get the mutex: whatever the run, no
   closed interval of length Per holds more than N admissions, and the history stays within N.
   */
  method Run(rate: Rate, start: Time, tries: seq<Try>) returns (admitted: seq<Time>, kept: nat)
    requires Forward(start, tries) && !rate.IsZero()
    ensures 0 < rate.N && 0 <= rate.Per ==> kept <= rate.N && Bounded(admitted, rate.N, rate.Per)
    ensures rate.N <= 0 ==> admitted == []
    ensures Sorted(admitted) && admitted == Admissions(rate, tries)
  {
    hide History, Count, Refused, Sorted, Spread;
    var limiter := new SlidingWindow(rate, start);
    admitted := [];
    for i := 0 to |tries|
      invariant fresh(limiter) && limiter.Valid() && limiter.rate == rate && limiter.log == admitted
      invariant admitted == Admissions(rate, tries[..i])
      invariant forall k :: i <= k < |tries| ==> limiter.now <= tries[k].rle
    {
      assert tries[..i + 1][..i] == tries[..i];
      WhenLimited(rate, admitted, tries[i], if tries[i].cancelled then Cancelled
                  else if Count(admitted, tries[i].rle - rate.Per, tries[i].rle) < rate.N then Admitted else Limited);
      var outcome, wait := limiter.Pass(tries[i]);
      if outcome == Admitted {
        admitted := admitted + [tries[i].tick];
      }
    }
    assert tries[..|tries|] == tries;
    kept := |limiter.es|;
    HistoryGives(rate, admitted, limiter.es, limiter.now);
    if 0 < rate.N && 0 <= rate.Per {
      BoundedIffSpread(admitted, rate.N, rate.Per);
    }
  }
}
