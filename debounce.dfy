/** `debounce(func, delay)` of static/script.js as a state machine over explicit time: the
    closure's `timeout` is either idle or armed with a deadline and the arguments of the last
    call. Every call replaces both; the event loop runs `func` once the deadline has come, at
    most once per arming. */
module Debounce {
  import opened Text

  datatype Timer<A> = Idle | Armed(deadline: int, args: A)

  /** The calls still owed by a timer: one if armed, none if idle. */
  function Pending<A>(t: Timer<A>): nat {
    if t.Armed? then 1 else 0
  }

  /** A call of the debounced function at time `now`: `clearTimeout` drops whatever was
      pending and `setTimeout` schedules `func` with these arguments `delay` later. */
  function Call<A>(t: Timer<A>, now: int, delay: nat, args: A): (r: Timer<A>)
    ensures r.Armed? && r.deadline == now + delay && r.args == args
  {
    Armed(now + delay, args)
  }

  /** The event loop looking at the timer at time `now`: a due timer runs `func` with its
      arguments and becomes idle; otherwise nothing runs and nothing changes. */
  function Tick<A>(t: Timer<A>, now: int): (r: (Timer<A>, Option<A>))
    ensures r.1.Some? <==> t.Armed? && t.deadline <= now
    ensures r.1.Some? ==> r.0 == Idle && r.1.value == t.args
    ensures r.1.None? ==> r.0 == t
  {
    match t
    case Armed(deadline, args) =>
      if deadline <= now then (Idle, Some(args)) else (t, None)
    case Idle => (t, None)
  }

  /** What happens to the debounced function: a call, or a turn of the event loop. */
  datatype Event<A> = CallAt(time: int, args: A) | TickAt(time: int)

  /** One event: the timer after it, and the arguments `func` ran with, if it ran. */
  function Step<A>(t: Timer<A>, delay: nat, e: Event<A>): (r: (Timer<A>, seq<A>))
    ensures |r.1| <= 1
  {
    match e
    case CallAt(now, args) => (Call(t, now, delay, args), [])
    case TickAt(now) =>
      var (t', f) := Tick(t, now);
      (t', if f.Some? then [f.value] else [])
  }

  /** The timer after a sequence of events, and the arguments `func` ran with, in order. */
  function Run<A>(t: Timer<A>, delay: nat, events: seq<Event<A>>): (Timer<A>, seq<A>)
    decreases |events|
  {
    if events == [] then (t, [])
    else
      var first := Step(t, delay, events[0]);
      var rest := Run(first.0, delay, events[1..]);
      (rest.0, first.1 + rest.1)
  }

  function Calls<A>(events: seq<Event<A>>): nat
    decreases |events|
  {
    if events == [] then 0 else (if events[0].CallAt? then 1 else 0) + Calls(events[1..])
  }

  /** `func` runs at most once per call: the runs, together with the call still pending at
      the end, never outnumber the calls plus the one pending at the start. */
  lemma {:induction false} AtMostOncePerCall<A>(t: Timer<A>, delay: nat, events: seq<Event<A>>)
    ensures var (t', fired) := Run(t, delay, events);
      |fired| + Pending(t') <= Calls(events) + Pending(t)
    decreases |events|
  {
    if events != [] {
      AtMostOncePerCall(Step(t, delay, events[0]).0, delay, events[1..]);
    }
  }

  /** Turns of the event loop at the given times. */
  function Ticks<A>(times: seq<int>): (r: seq<Event<A>>)
    ensures |r| == |times| && forall i :: 0 <= i < |r| ==> r[i] == TickAt(times[i])
    decreases |times|
  {
    if times == [] then [] else [TickAt(times[0])] + Ticks(times[1..])
  }

  /** Typing: each call is followed by the turns of the event loop that come before the next
      call. */
  function Typing<A>(calls: seq<(int, A)>, ticks: seq<seq<int>>): seq<Event<A>>
    requires |ticks| == |calls|
    decreases |calls|
  {
    if calls == [] then []
    else [CallAt(calls[0].0, calls[0].1)] + Ticks(ticks[0]) + Typing(calls[1..], ticks[1..])
  }

  predicate AllBefore(times: seq<int>, deadline: int) {
    forall j :: 0 <= j < |times| ==> times[j] < deadline
  }

  /** Turns of the event loop before an armed timer's deadline run nothing and change nothing. */
  lemma {:induction false} TicksIdle<A>(t: Timer<A>, delay: nat, times: seq<int>)
    requires t.Armed? && AllBefore(times, t.deadline)
    ensures Run(t, delay, Ticks(times)) == (t, [])
    decreases |times|
  {
    if times != [] {
      var events: seq<Event<A>> := Ticks(times);
      assert events[1..] == Ticks(times[1..]);
      assert Step(t, delay, events[0]) == (t, []);
      TicksIdle(t, delay, times[1..]);
      var none: seq<A> := [];
      assert none + none == none;
    }
  }

  /** While typing, if every turn of the event loop comes before the deadline then pending,
      nothing runs, and what is left pending is the last call, due `delay` after it. */
  lemma {:induction false} TypingKeepsLast<A>(t: Timer<A>, delay: nat, calls: seq<(int, A)>,
                                              ticks: seq<seq<int>>)
    requires calls != [] && |ticks| == |calls|
    requires forall i, j :: 0 <= i < |calls| && 0 <= j < |ticks[i]| ==>
      ticks[i][j] < calls[i].0 + delay
    ensures var last := calls[|calls| - 1];
      Run(t, delay, Typing(calls, ticks)) == (Armed(last.0 + delay, last.1), [])
    decreases |calls|
  {
    var call: seq<Event<A>> := [CallAt(calls[0].0, calls[0].1)];
    var idle: seq<Event<A>> := Ticks(ticks[0]);
    var rest := Typing(calls[1..], ticks[1..]);
    var t1 := Armed(calls[0].0 + delay, calls[0].1);
    var none: seq<A> := [];
    assert Run(t, delay, call) == (t1, none) by {
      assert call[1..] == [];
      assert none + none == none;
    }
    TicksIdle(t1, delay, ticks[0]);
    RunAppend(t, delay, call, idle);
    RunAppend(t, delay, call + idle, rest);
    assert none + none == none;
    if |calls| > 1 {
      TypingKeepsLast(t1, delay, calls[1..], ticks[1..]);
    } else {
      assert rest == [];
    }
  }

  /** Typing with every call less than `delay` after the one before, and the event loop
      turning only between calls and, after the last one, before its deadline, leaves only the
      last call pending and runs nothing. */
  lemma WithinDelayKeepsLast<A>(t: Timer<A>, delay: nat, calls: seq<(int, A)>,
                                ticks: seq<seq<int>>)
    requires calls != [] && |ticks| == |calls|
    requires forall i :: 0 < i < |calls| ==> calls[i].0 < calls[i - 1].0 + delay
    requires forall i, j :: 0 <= i < |calls| - 1 && 0 <= j < |ticks[i]| ==>
      ticks[i][j] <= calls[i + 1].0
    requires AllBefore(ticks[|calls| - 1], calls[|calls| - 1].0 + delay)
    ensures var last := calls[|calls| - 1];
      Run(t, delay, Typing(calls, ticks)) == (Armed(last.0 + delay, last.1), [])
  {
    forall i, j | 0 <= i < |calls| && 0 <= j < |ticks[i]|
      ensures ticks[i][j] < calls[i].0 + delay
    {
      var n := |calls| - 1;
      if i < n {
        assert ticks[i][j] <= calls[i + 1].0 < calls[i].0 + delay;
      } else {
        assert ticks[n][j] < calls[n].0 + delay;
      }
    }
    TypingKeepsLast(t, delay, calls, ticks);
  }

  /** Typing followed by two turns of the event loop after the last deadline runs `func`
      exactly once, with the arguments of the last call. */
  lemma TypingRunsOnce<A>(t: Timer<A>, delay: nat, calls: seq<(int, A)>, ticks: seq<seq<int>>,
                          now: int, later: int)
    requires calls != [] && |ticks| == |calls|
    requires forall i, j :: 0 <= i < |calls| && 0 <= j < |ticks[i]| ==>
      ticks[i][j] < calls[i].0 + delay
    requires calls[|calls| - 1].0 + delay <= now
    ensures Run(t, delay, Typing(calls, ticks) + [TickAt(now), TickAt(later)])
      == (Idle, [calls[|calls| - 1].1])
  {
    var last := calls[|calls| - 1];
    var after := [TickAt(now), TickAt(later)];
    RunAppend(t, delay, Typing(calls, ticks), after);
    TypingKeepsLast(t, delay, calls, ticks);
    assert Step(Armed(last.0 + delay, last.1), delay, after[0]) == (Idle, [last.1]);
    assert Run(Idle, delay, after[1..]) == (Idle, []);
    assert [last.1] + [] == [last.1];
    assert Run(Armed(last.0 + delay, last.1), delay, after) == (Idle, [last.1]);
    assert [] + [last.1] == [last.1];
  }

  /** Running two sequences of events one after the other. */
  lemma {:induction false} RunAppend<A>(t: Timer<A>, delay: nat, xs: seq<Event<A>>, ys: seq<Event<A>>)
    ensures var first := Run(t, delay, xs); var second := Run(first.0, delay, ys);
      Run(t, delay, xs + ys) == (second.0, first.1 + second.1)
    decreases |xs|
  {
    if xs == [] {
      assert xs + ys == ys;
      assert [] + Run(t, delay, ys).1 == Run(t, delay, ys).1;
    } else {
      var first := Step(t, delay, xs[0]);
      assert (xs + ys)[0] == xs[0] && (xs + ys)[1..] == xs[1..] + ys;
      RunAppend(first.0, delay, xs[1..], ys);
      var rest := Run(first.0, delay, xs[1..]);
      var after := Run(rest.0, delay, ys);
      assert first.1 + (rest.1 + after.1) == (first.1 + rest.1) + after.1;
    }
  }

  /** The closure that `debounce` returns, with its captured `timeout`. */
  class Debouncer<A> {
    var timer: Timer<A>
    const delay: nat

    constructor (delay: nat)
      ensures timer == Idle && this.delay == delay
    {
      timer := Idle;
      this.delay := delay;
    }

    /** Calling the debounced function at time `now`. */
    method Invoke(now: int, args: A)
      modifies this
      ensures timer == Call(old(timer), now, delay, args)
    {
      timer := Armed(now + delay, args);
    }

    /** A turn of the event loop at time `now`; `fired` holds the arguments `func` runs with. */
    method Fire(now: int) returns (fired: Option<A>)
      modifies this
      ensures (timer, fired) == Tick(old(timer), now)
    {
      fired := None;
      if timer.Armed? && timer.deadline <= now {
        fired := Some(timer.args);
        timer := Idle;
      }
    }
  }
}
