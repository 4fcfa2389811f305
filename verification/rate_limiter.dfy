/** The fixed-window `RateLimiter`: a FIFO queue of waiters, a request
    counter, the start of the current window (`lastRequestTime`) and a
    `processing` flag standing for "a timer is armed". `processQueue` never
    awaits, so each of its runs is one atomic step of the event loop; the
    limiter is therefore a transition system with two steps, a `throttle`
    call and a timer firing, over integer milliseconds. */
module RateLimit {
  import opened Js

  /** A caller suspended in `throttle`, named by the resolve callback it queued. */
  type Waiter = nat

  /** What the limiter did, in order: a counter reset opening a new window at
      a time, or a waiter released. */
  datatype Mark = Reset(at: int) | Grant(waiter: Waiter)

  /** A pending `setTimeout`: when it was armed and its delay. */
  datatype Timer = Timer(armedAt: int, delay: int)

  datatype Limiter = Limiter(
    maxRequests: int,
    interval: int,
    queue: seq<Waiter>,
    processing: bool,
    timer: Option<Timer>,
    lastRequestTime: int,
    requestCount: int,
    arrivals: seq<Waiter>,   // every waiter that called `throttle`, in call order
    log: seq<Mark>)

  /** A fresh limiter: empty queue, no timer, counter 0, window start 0. */
  function New(maxRequests: int, interval: int): (l: Limiter)
    ensures Inv(l) && l.queue == [] && l.arrivals == [] && l.log == []
    ensures !l.processing && l.timer.None? && l.lastRequestTime == 0 && l.requestCount == 0
    ensures l.maxRequests == maxRequests && l.interval == interval
  {
    Limiter(maxRequests, interval, [], false, None, 0, 0, [], [])
  }

  /** The waiters released so far, in release order. */
  function Granted(log: seq<Mark>): (ws: seq<Waiter>)
    ensures |ws| <= |log|
  {
    if |log| == 0 then []
    else
      var last := log[|log| - 1];
      Granted(log[..|log| - 1]) + (if last.Grant? then [last.waiter] else [])
  }

  /** The number of waiters released in each window, oldest first; the last
      entry is the window still open. */
  function Windows(log: seq<Mark>): (ws: seq<nat>)
    ensures |ws| > 0
  {
    if |log| == 0 then [0]
    else
      var ws := Windows(log[..|log| - 1]);
      match log[|log| - 1]
      case Reset(_) => ws + [0]
      case Grant(_) => ws[..|ws| - 1] + [ws[|ws| - 1] + 1]
  }

  /** The most requests a window can admit: `maxRequests`, or none when it is
      not positive. */
  function Capacity(maxRequests: int): nat {
    if maxRequests > 0 then maxRequests else 0
  }

  /** The queue, counter and log agree with the arrivals. */
  predicate Fits(log: seq<Mark>, queue: seq<Waiter>, count: int, arrivals: seq<Waiter>, maxRequests: int) {
    // waiters are released in exactly the order they arrived; the rest wait
    && Granted(log) + queue == arrivals
    // the counter is the number of releases in the open window
    && count == Windows(log)[|Windows(log)| - 1]
    // no window releases more than the capacity
    && (forall k :: 0 <= k < |Windows(log)| ==> Windows(log)[k] <= Capacity(maxRequests))
  }

  /** What holds of the queue, counter and log at every point, also in the
      middle of a step. */
  predicate Consistent(l: Limiter) {
    Fits(l.log, l.queue, l.requestCount, l.arrivals, l.maxRequests)
  }

  /** The invariant of the limiter between steps. */
  predicate Inv(l: Limiter) {
    && Consistent(l)
    // `processing` is set exactly while a timer is pending
    && (l.processing <==> l.timer.Some?)
    // a waiter never sits in the queue without a timer to release it
    && (|l.queue| > 0 ==> l.processing)
  }

  function GrantMarks(ws: seq<Waiter>): (ms: seq<Mark>)
    ensures |ms| == |ws|
    ensures forall i :: 0 <= i < |ws| ==> ms[i] == Grant(ws[i])
  {
    seq(|ws|, i requires 0 <= i < |ws| => Grant(ws[i]))
  }

  lemma {:induction false} GrantedOfGrants(log: seq<Mark>, ws: seq<Waiter>)
    ensures Granted(log + GrantMarks(ws)) == Granted(log) + ws
    decreases |ws|
  {
    if |ws| == 0 {
      assert log + GrantMarks(ws) == log;
    } else {
      var init := ws[..|ws| - 1];
      assert (log + GrantMarks(ws))[..|log| + |ws| - 1] == log + GrantMarks(init);
      GrantedOfGrants(log, init);
      assert ws == init + [ws[|ws| - 1]];
    }
  }

  lemma {:induction false} ResetMark(log: seq<Mark>, at: int)
    ensures Granted(log + [Reset(at)]) == Granted(log)
    ensures Windows(log + [Reset(at)]) == Windows(log) + [0]
  {
    assert (log + [Reset(at)])[..|log|] == log;
  }

  lemma {:induction false} WindowsOfGrants(log: seq<Mark>, ws: seq<Waiter>)
    ensures var before := Windows(log);
      Windows(log + GrantMarks(ws)) == before[..|before| - 1] + [before[|before| - 1] + |ws|]
    decreases |ws|
  {
    var before := Windows(log);
    if |ws| == 0 {
      assert log + GrantMarks(ws) == log;
    } else {
      var init := ws[..|ws| - 1];
      assert (log + GrantMarks(ws))[..|log| + |ws| - 1] == log + GrantMarks(init);
      WindowsOfGrants(log, init);
    }
  }

  /** The outcome of the release loop. */
  datatype Drained = Drained(queue: seq<Waiter>, count: int, log: seq<Mark>)

  /** How many times the `while` loop of `processQueue` runs: it releases
      the oldest waiter and counts it while waiters remain and the counter is
      below `maxRequests`. That is as many waiters as are left, or as the
      window still admits, whichever is fewer. */
  function Iterations(queue: seq<Waiter>, count: int, maxRequests: int): (n: nat)
    decreases |queue|
    ensures count >= maxRequests ==> n == 0
    ensures count < maxRequests ==>
              n == if |queue| <= maxRequests - count then |queue| else maxRequests - count
  {
    if |queue| > 0 && count < maxRequests then 1 + Iterations(queue[1..], count + 1, maxRequests) else 0
  }

  /** The effect of the `while` loop: the waiters it releases leave the front
      of the queue in order, each is counted and logged as a grant. */
  function Drain(queue: seq<Waiter>, count: int, maxRequests: int, log: seq<Mark>): (d: Drained)
    ensures count <= d.count <= count + |queue|
    ensures d.queue == queue[d.count - count..]
    ensures d.log == log + GrantMarks(queue[..d.count - count])
    ensures |d.queue| == 0 || d.count >= maxRequests
    ensures count < maxRequests ==> d.count <= maxRequests
    ensures count >= maxRequests ==> d.count == count
  {
    var n := Iterations(queue, count, maxRequests);
    Drained(queue[n..], count + n, log + GrantMarks(queue[..n]))
  }

  /** The loop releases from the front of the queue, and logs exactly whom. */
  lemma {:induction false} DrainGrants(queue: seq<Waiter>, count: int, maxRequests: int, log: seq<Mark>)
    ensures var d := Drain(queue, count, maxRequests, log);
      Granted(d.log) + d.queue == Granted(log) + queue
  {
    var d := Drain(queue, count, maxRequests, log);
    GrantPrefix(log, queue, d.count - count);
  }

  lemma {:induction false} GrantPrefix(log: seq<Mark>, queue: seq<Waiter>, n: nat)
    requires n <= |queue|
    ensures Granted(log + GrantMarks(queue[..n])) + queue[n..] == Granted(log) + queue
  {
    GrantedOfGrants(log, queue[..n]);
    assert queue == queue[..n] + queue[n..];
  }

  /** Whether `processQueue` gets past its guard: no timer is pending and
      somebody waits. */
  predicate Runs(l: Limiter) {
    !l.processing && |l.queue| > 0
  }

  /** One run of `processQueue` at time `now`. It does nothing while a timer
      is pending or the queue is empty; otherwise it is a `Release`. */
  function ProcessQueue(l: Limiter, now: int): (r: Limiter)
    // while a timer is pending, or with nobody waiting, nothing happens
    ensures !Runs(l) ==> r == l
    // the step changes neither the configuration nor the arrivals
    ensures r.maxRequests == l.maxRequests && r.interval == l.interval && r.arrivals == l.arrivals
    // waiters leave from the front, and leave exactly as they are released
    ensures |r.queue| <= |l.queue| && r.queue == l.queue[|l.queue| - |r.queue|..]
    ensures Granted(r.log) + r.queue == Granted(l.log) + l.queue
  {
    if !Runs(l) then l else Release(l, now)
  }

  /** The body of `processQueue` past its guard. A window of `interval` or
      more since `lastRequestTime` resets the counter and opens a new window
      at `now`; waiters are released in order while the counter allows; and a
      timer is armed for the rest of the window if waiters remain. */
  function Release(l: Limiter, now: int): (r: Limiter)
    requires Runs(l)
    ensures r.maxRequests == l.maxRequests && r.interval == l.interval && r.arrivals == l.arrivals
    ensures |r.queue| <= |l.queue| && r.queue == l.queue[|l.queue| - |r.queue|..]
    ensures Granted(r.log) + r.queue == Granted(l.log) + l.queue
    // afterwards the queue is empty or the window is full
    ensures |r.queue| == 0 || r.requestCount >= l.maxRequests
    // a new window opens exactly when the old one is at least `interval` old
    ensures now - l.lastRequestTime >= l.interval <==> |r.log| > |l.log| && r.log[|l.log|].Reset?
    ensures now - l.lastRequestTime >= l.interval ==> r.lastRequestTime == now
    ensures now - l.lastRequestTime < l.interval ==>
              r.lastRequestTime == l.lastRequestTime && r.requestCount >= l.requestCount
    // a timer is armed exactly when waiters remain, for the rest of the window
    ensures r.processing <==> |r.queue| > 0
    ensures |r.queue| > 0 ==>
              r.timer == Some(Timer(now, MaxInt(0, l.interval - (now - r.lastRequestTime))))
    ensures |r.queue| == 0 ==> r.timer.None?
  {
    if now - l.lastRequestTime >= l.interval then
      ResetMark(l.log, now);
      DrainGrants(l.queue, 0, l.maxRequests, l.log + [Reset(now)]);
      Settle(l, now, now, Drain(l.queue, 0, l.maxRequests, l.log + [Reset(now)]))
    else
      DrainGrants(l.queue, l.requestCount, l.maxRequests, l.log);
      Settle(l, now, l.lastRequestTime, Drain(l.queue, l.requestCount, l.maxRequests, l.log))
  }

  /** The end of `processQueue`: store the outcome of the loop, and arm a
      timer for the rest of the window opened at `start` if waiters remain. */
  function Settle(l: Limiter, now: int, start: int, d: Drained): (r: Limiter)
    ensures r.maxRequests == l.maxRequests && r.interval == l.interval && r.arrivals == l.arrivals
    ensures r.queue == d.queue && r.requestCount == d.count && r.log == d.log
    ensures r.lastRequestTime == start
    ensures r.processing <==> |r.queue| > 0
    ensures |r.queue| > 0 ==> r.timer == Some(Timer(now, MaxInt(0, l.interval - (now - start))))
    ensures |r.queue| == 0 ==> r.timer.None?
  {
    if |d.queue| > 0 then
      var delay := l.interval - (now - start);
      l.(queue := d.queue, processing := true, timer := Some(Timer(now, MaxInt(0, delay))),
         lastRequestTime := start, requestCount := d.count, log := d.log)
    else
      l.(queue := [], processing := false, timer := None,
         lastRequestTime := start, requestCount := d.count, log := d.log)
  }

  /** Releasing the oldest `n` waiters within the capacity keeps the queue,
      counter and log in agreement. */
  lemma {:induction false} ReleaseFits(log: seq<Mark>, queue: seq<Waiter>, count: int, arrivals: seq<Waiter>, maxRequests: int, n: nat)
    requires Fits(log, queue, count, arrivals, maxRequests)
    requires n <= |queue| && count + n <= Capacity(maxRequests)
    ensures Fits(log + GrantMarks(queue[..n]), queue[n..], count + n, arrivals, maxRequests)
  {
    GrantedOfGrants(log, queue[..n]);
    assert queue == queue[..n] + queue[n..];
    WindowsOfGrants(log, queue[..n]);
    BumpWithinCapacity(Windows(log), count + n, Capacity(maxRequests));
  }

  /** Raising the open window's count to at most the capacity keeps every
      window within it. */
  lemma {:induction false} BumpWithinCapacity(before: seq<nat>, v: nat, cap: nat)
    requires |before| > 0 && v <= cap
    requires forall k :: 0 <= k < |before| ==> before[k] <= cap
    ensures var after := before[..|before| - 1] + [v];
      forall k :: 0 <= k < |after| ==> after[k] <= cap
  {
    var after := before[..|before| - 1] + [v];
    forall k | 0 <= k < |after|
      ensures after[k] <= cap
    {
      if k < |before| - 1 {
        assert after[k] == before[k];
      }
    }
  }

  /** The release loop keeps the queue, counter and log in agreement. */
  lemma {:induction false} DrainFits(log: seq<Mark>, queue: seq<Waiter>, count: int, arrivals: seq<Waiter>, maxRequests: int)
    requires Fits(log, queue, count, arrivals, maxRequests)
    ensures var d := Drain(queue, count, maxRequests, log);
      Fits(d.log, d.queue, d.count, arrivals, maxRequests)
  {
    var n := Iterations(queue, count, maxRequests);
    assert Drain(queue, count, maxRequests, log) ==
      Drained(queue[n..], count + n, log + GrantMarks(queue[..n]));
    assert count + n <= Capacity(maxRequests) by {
      if count < maxRequests {
        assert count + n <= maxRequests;
      } else {
        assert n == 0 && count == Windows(log)[|Windows(log)| - 1];
      }
    }
    ReleaseFits(log, queue, count, arrivals, maxRequests, n);
  }

  /** A reset opens an empty window and releases nobody. */
  lemma {:induction false} ResetFits(log: seq<Mark>, queue: seq<Waiter>, count: int, arrivals: seq<Waiter>, maxRequests: int, at: int)
    requires Fits(log, queue, count, arrivals, maxRequests)
    ensures Fits(log + [Reset(at)], queue, 0, arrivals, maxRequests)
  {
    ResetMark(log, at);
  }

  /** A run of `processQueue` that releases waiters keeps the queue, counter
      and log consistent. */
  lemma {:induction false} ProcessQueueConsistent(l: Limiter, now: int)
    requires Consistent(l)
    ensures Consistent(ProcessQueue(l, now))
  {
    if !l.processing && |l.queue| > 0 {
      var reset := now - l.lastRequestTime >= l.interval;
      var count := if reset then 0 else l.requestCount;
      var log := if reset then l.log + [Reset(now)] else l.log;
      if reset {
        ResetFits(l.log, l.queue, l.requestCount, l.arrivals, l.maxRequests, now);
      }
      DrainFits(log, l.queue, count, l.arrivals, l.maxRequests);
    }
  }

  /** `throttle()`: the caller joins the back of the queue and
      `processQueue` runs. */
  function Throttle(l: Limiter, w: Waiter, now: int): (r: Limiter)
    ensures r.maxRequests == l.maxRequests && r.interval == l.interval
    ensures r.arrivals == l.arrivals + [w]
    // while a timer is pending the caller only joins the queue
    ensures l.processing ==> r == l.(queue := l.queue + [w], arrivals := l.arrivals + [w])
    // nobody is released ahead of an earlier caller
    ensures Granted(r.log) + r.queue == Granted(l.log) + l.queue + [w]
  {
    ProcessQueue(l.(queue := l.queue + [w], arrivals := l.arrivals + [w]), now)
  }

  /** Whether the pending timer is due at `now`. */
  predicate Due(l: Limiter, now: int) {
    l.timer.Some? && now >= l.timer.value.armedAt + l.timer.value.delay
  }

  /** The `setTimeout` callback: at or after its delay it clears
      `processing` and runs `processQueue`. Before that, or with no timer
      armed, nothing happens. */
  function TimerFire(l: Limiter, now: int): (r: Limiter)
    ensures !Due(l, now) ==> r == l
    ensures r.maxRequests == l.maxRequests && r.interval == l.interval && r.arrivals == l.arrivals
    ensures Granted(r.log) + r.queue == Granted(l.log) + l.queue
    // a due timer clears `processing`, and the run it starts leaves the queue
    // empty or the window full, with a new timer exactly when waiters remain
    ensures Due(l, now) ==> (r.processing <==> |r.queue| > 0)
    ensures Due(l, now) ==> (r.timer.Some? <==> |r.queue| > 0)
    ensures Due(l, now) ==> |r.queue| == 0 || r.requestCount >= l.maxRequests
  {
    if Due(l, now) then ProcessQueue(l.(processing := false, timer := None), now) else l
  }

  /** `throttle` keeps the invariant. */
  lemma {:induction false} ThrottleKeepsInv(l: Limiter, w: Waiter, now: int)
    requires Inv(l)
    ensures Inv(Throttle(l, w, now))
  {
    var l' := l.(queue := l.queue + [w], arrivals := l.arrivals + [w]);
    assert Granted(l'.log) + l'.queue == l'.arrivals;
    assert Consistent(l');
    ProcessQueueConsistent(l', now);
  }

  /** A timer firing keeps the invariant. */
  lemma {:induction false} TimerFireKeepsInv(l: Limiter, now: int)
    requires Inv(l)
    ensures Inv(TimerFire(l, now))
  {
    if Due(l, now) {
      ProcessQueueConsistent(l.(processing := false, timer := None), now);
    }
  }

  /** What can happen to a limiter: a caller arriving, or time passing to a
      point where the pending timer may fire. */
  datatype Step = Call(waiter: Waiter, at: int) | Fire(at: int)

  function Apply(l: Limiter, s: Step): Limiter {
    match s
    case Call(w, at) => Throttle(l, w, at)
    case Fire(at) => TimerFire(l, at)
  }

  /** The limiter after a sequence of steps, the first applied first. */
  function Run(l: Limiter, steps: seq<Step>): Limiter
    decreases |steps|
  {
    if |steps| == 0 then l else Apply(Run(l, steps[..|steps| - 1]), steps[|steps| - 1])
  }

  lemma {:induction false} RunKeepsInv(l: Limiter, steps: seq<Step>)
    requires Inv(l)
    ensures Inv(Run(l, steps))
    decreases |steps|
  {
    if |steps| > 0 {
      var before := Run(l, steps[..|steps| - 1]);
      RunKeepsInv(l, steps[..|steps| - 1]);
      match steps[|steps| - 1]
      case Call(w, at) => ThrottleKeepsInv(before, w, at);
      case Fire(at) => TimerFireKeepsInv(before, at);
    }
  }

  /** Whatever happens, waiters are released in the order they called
      `throttle`, no window releases more than `maxRequests`, the counter
      never exceeds it, and nobody waits without a timer pending. */
  lemma {:induction false} Guarantees(maxRequests: int, interval: int, steps: seq<Step>)
    ensures var r := Run(New(maxRequests, interval), steps);
      && Granted(r.log) <= r.arrivals
      && r.arrivals == Granted(r.log) + r.queue
      && (forall k :: 0 <= k < |Windows(r.log)| ==> Windows(r.log)[k] <= Capacity(maxRequests))
      && r.requestCount <= Capacity(maxRequests)
      && (|r.queue| > 0 ==> r.timer.Some?)
  {
    RunKeepsInv(New(maxRequests, interval), steps);
    var r := Run(New(maxRequests, interval), steps);
    RunKeepsConfig(New(maxRequests, interval), steps);
  }

  lemma {:induction false} RunKeepsConfig(l: Limiter, steps: seq<Step>)
    ensures Run(l, steps).maxRequests == l.maxRequests && Run(l, steps).interval == l.interval
    decreases |steps|
  {
    if |steps| > 0 {
      RunKeepsConfig(l, steps[..|steps| - 1]);
    }
  }

  /** A release counts in the open window. */
  lemma {:induction false} GrantFillsWindow(log: seq<Mark>)
    ensures |log| > 0 && log[|log| - 1].Grant? ==> Windows(log)[|Windows(log)| - 1] > 0
  {
  }

  /** A log whose windows are all empty releases nobody. */
  lemma {:induction false} EmptyWindowsGrantNobody(log: seq<Mark>)
    requires forall k :: 0 <= k < |Windows(log)| ==> Windows(log)[k] == 0
    ensures Granted(log) == []
    decreases |log|
  {
    if |log| > 0 {
      var init := log[..|log| - 1];
      var ws := Windows(init);
      match log[|log| - 1]
      case Grant(_) =>
        GrantFillsWindow(log);
        assert false;
      case Reset(_) =>
        assert forall k :: 0 <= k < |ws| ==> ws[k] == Windows(log)[k];
        EmptyWindowsGrantNobody(init);
    }
  }

  /** With `maxRequests` of 0 or less nobody is ever released: every caller
      stays queued. */
  lemma {:induction false} NoCapacityGrantsNobody(maxRequests: int, interval: int, steps: seq<Step>)
    requires maxRequests <= 0
    ensures var r := Run(New(maxRequests, interval), steps);
      Granted(r.log) == [] && r.queue == r.arrivals
  {
    Guarantees(maxRequests, interval, steps);
    var r := Run(New(maxRequests, interval), steps);
    EmptyWindowsGrantNobody(r.log);
  }

  /** A caller arriving while the open window has room passes at once: it
      is counted and logged, and no timer is armed. */
  lemma {:induction false} CallWithRoomPasses(l: Limiter, w: Waiter, now: int)
    requires !l.processing && l.timer.None? && l.queue == []
    requires l.requestCount < l.maxRequests && now - l.lastRequestTime < l.interval
    ensures Throttle(l, w, now) ==
      l.(arrivals := l.arrivals + [w], requestCount := l.requestCount + 1, log := l.log + [Grant(w)])
  {
    var queued := l.(queue := l.queue + [w], arrivals := l.arrivals + [w]);
    ThrottleReleases(l, w, now);
    RoomReleasesOne(queued, now);
    assert l.queue + [w] == [w];
  }

  /** A run with one waiter and room in a window that has not yet passed
      releases that waiter. */
  lemma {:induction false} RoomReleasesOne(l: Limiter, now: int)
    requires Runs(l) && |l.queue| == 1
    requires l.requestCount < l.maxRequests && now - l.lastRequestTime < l.interval
    ensures Release(l, now) == l.(queue := [], processing := false, timer := None,
      requestCount := l.requestCount + 1, log := l.log + [Grant(l.queue[0])])
  {
    var d := Drain(l.queue, l.requestCount, l.maxRequests, l.log);
    assert d == Drained([], l.requestCount + 1, l.log + [Grant(l.queue[0])]) by {
      assert Iterations(l.queue, l.requestCount, l.maxRequests) == 1;
      assert l.queue[1..] == [] && l.queue[..1] == l.queue;
    }
  }

  /** A caller arriving when the open window is full waits at the back of
      the queue, and a timer is armed for the rest of the window. */
  lemma {:induction false} CallInFullWindowWaits(l: Limiter, w: Waiter, now: int)
    requires !l.processing
    requires l.requestCount >= l.maxRequests && now - l.lastRequestTime < l.interval
    ensures Throttle(l, w, now) ==
      l.(queue := l.queue + [w], arrivals := l.arrivals + [w], processing := true,
         timer := Some(Timer(now, l.interval - (now - l.lastRequestTime))))
  {
    var l' := l.(queue := l.queue + [w], arrivals := l.arrivals + [w]);
    ThrottleReleases(l, w, now);
    FullWindowOnlyArms(l', now);
    assert l'.interval == l.interval && l'.lastRequestTime == l.lastRequestTime;
  }

  /** Without a pending timer, `throttle` always gets past the guard of
      `processQueue`. */
  lemma {:induction false} ThrottleReleases(l: Limiter, w: Waiter, now: int)
    requires !l.processing
    ensures Throttle(l, w, now) == Release(l.(queue := l.queue + [w], arrivals := l.arrivals + [w]), now)
  {
  }

  /** A run in a full window that has not yet passed releases nobody; it only
      arms a timer for the rest of the window. */
  lemma {:induction false} FullWindowOnlyArms(l: Limiter, now: int)
    requires Runs(l)
    requires l.requestCount >= l.maxRequests && now - l.lastRequestTime < l.interval
    ensures Release(l, now) ==
      l.(processing := true, timer := Some(Timer(now, l.interval - (now - l.lastRequestTime))))
  {
    var d := Drain(l.queue, l.requestCount, l.maxRequests, l.log);
    assert d == Drained(l.queue, l.requestCount, l.log) by {
      assert Iterations(l.queue, l.requestCount, l.maxRequests) == 0;
      assert l.queue[0..] == l.queue && l.queue[..0] == [];
    }
  }

  /** A timer firing once the window has passed opens a new window at `now`
      and releases as many waiters, from the front, as `maxRequests` allows;
      if any remain, the next timer is armed for a whole window. */
  lemma {:induction false} FireOpensWindow(l: Limiter, now: int)
    requires Due(l, now) && |l.queue| > 0 && now - l.lastRequestTime >= l.interval
    ensures var r := TimerFire(l, now);
      var n := if |l.queue| <= Capacity(l.maxRequests) then |l.queue| else Capacity(l.maxRequests);
      && r.log == l.log + [Reset(now)] + GrantMarks(l.queue[..n])
      && r.queue == l.queue[n..]
      && r.requestCount == n && r.lastRequestTime == now
      && (|r.queue| > 0 ==> r.timer == Some(Timer(now, MaxInt(0, l.interval))))
  {
    var cleared := l.(processing := false, timer := None);
    assert TimerFire(l, now) == Release(cleared, now);
    assert Iterations(l.queue, 0, l.maxRequests) ==
      if |l.queue| <= Capacity(l.maxRequests) then |l.queue| else Capacity(l.maxRequests);
  }
}
