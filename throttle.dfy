/**
 * `throttle(func, limit)` (utils/throttle.ts) as a state machine.
 *
 * The closure keeps `inThrottle`, `lastArgs` and `lastThis`. Two events
 * drive it: a call of the throttled wrapper, and the expiry of the timer
 * that `setTimeout(..., limit)` armed. Time itself is not modelled: the
 * expiry is an explicit event, enabled while a timer is armed. Calls of
 * `func` are recorded in an invocation log. `lastArgs` and `lastThis` are
 * always written together (a stored call, or null), so the pure model
 * keeps them as one pending slot.
 */
module Throttling {
  import opened Results

  /** One call: its argument list and its receiver (`this`). */
  datatype Invocation<A, R> = Invocation(args: seq<A>, receiver: R)

  /**
   * The closure's state, the number of armed timers that have not fired,
   * and the calls of `func` made so far, oldest first.
   */
  datatype State<A, R> = State(
    inThrottle: bool,
    pending: Option<Invocation<A, R>>,
    armed: nat,
    log: seq<Invocation<A, R>>)

  /** Right after `throttle(func, limit)`: `inThrottle` is undefined (falsy) and nothing is stored. */
  function Initial<A, R>(): State<A, R> {
    State(false, None, 0, [])
  }

  /**
   * The body of `throttled` (lines 14-31): when open, invoke `func`, set
   * `inThrottle` and arm a timer; when throttled, store the call in place
   * of any earlier one.
   */
  function ThrottledStep<A, R>(s: State<A, R>, call: Invocation<A, R>): State<A, R> {
    if !s.inThrottle then
      s.(log := s.log + [call], inThrottle := true, armed := s.armed + 1)
    else
      s.(pending := Some(call))
  }

  /**
   * The timer callback (lines 19-26): reopen; if a call is stored, run the
   * wrapper on it again (which, being open, invokes `func` and re-arms)
   * and then clear the slot. `if (lastArgs)` holds for every stored call,
   * even one without arguments, since `args` is always an array.
   */
  function Expire<A, R>(s: State<A, R>): State<A, R>
    requires s.armed > 0
  {
    var reopened := s.(armed := s.armed - 1, inThrottle := false);
    match reopened.pending
    case None => reopened
    case Some(call) => ThrottledStep(reopened, call).(pending := None)
  }

  /** The invariant of the closure: one timer exactly while throttled, and a stored call only then. */
  ghost predicate Inv<A, R>(s: State<A, R>) {
    && s.armed == (if s.inThrottle then 1 else 0)
    && (s.pending.Some? ==> s.inThrottle)
  }

  lemma InitialInv<A, R>()
    ensures Inv(Initial<A, R>())
  {
  }

  /** Both events keep the invariant, so at most one timer is ever outstanding. */
  lemma ThrottledKeepsInv<A, R>(s: State<A, R>, call: Invocation<A, R>)
    requires Inv(s)
    ensures Inv(ThrottledStep(s, call))
  {
  }

  lemma ExpireKeepsInv<A, R>(s: State<A, R>)
    requires Inv(s) && s.armed > 0
    ensures Inv(Expire(s))
  {
  }

  /**
   * A call while open invokes `func` once with that call and arms the one
   * timer; a call while throttled invokes nothing and replaces whatever
   * call was stored.
   */
  lemma CallOutcome<A, R>(s: State<A, R>, call: Invocation<A, R>)
    requires Inv(s)
    ensures !s.inThrottle ==> ThrottledStep(s, call) == State(true, None, 1, s.log + [call])
    ensures s.inThrottle ==> ThrottledStep(s, call) == State(true, Some(call), 1, s.log)
  {
  }

  /**
   * An expiry with a stored call invokes `func` with it, throttles again
   * under a fresh timer and clears the slot; one without reopens the
   * wrapper and invokes nothing.
   */
  lemma ExpireOutcome<A, R>(s: State<A, R>)
    requires Inv(s) && s.armed > 0
    ensures s.pending.Some? ==> Expire(s) == State(true, None, 1, s.log + [s.pending.value])
    ensures s.pending.None? ==> Expire(s) == State(false, None, 0, s.log)
  {
  }

  /** What the wrapper has delivered or may still deliver: the log and then the stored call. */
  function Delivered<A, R>(s: State<A, R>): seq<Invocation<A, R>> {
    s.log + (match s.pending case None => [] case Some(c) => [c])
  }

  /** `xs` is `ys` with some elements left out, order kept. */
  ghost predicate IsSubsequence<T>(xs: seq<T>, ys: seq<T>)
    decreases |ys|
  {
    if xs == [] then true
    else if ys == [] then false
    else if xs[|xs| - 1] == ys[|ys| - 1] then IsSubsequence(xs[..|xs| - 1], ys[..|ys| - 1])
    else IsSubsequence(xs, ys[..|ys| - 1])
  }

  /** Adding an element at the end of the longer sequence keeps a subsequence one. */
  lemma {:induction false} SubsequenceWeaken<T>(xs: seq<T>, ys: seq<T>, y: T)
    requires IsSubsequence(xs, ys)
    ensures IsSubsequence(xs, ys + [y])
    decreases |ys|, 1
  {
    assert (ys + [y])[..|ys|] == ys;
    if xs != [] && xs[|xs| - 1] == y {
      assert xs[..|xs| - 1] + [y] == xs;
      SubsequenceDropLast(xs[..|xs| - 1], y, ys);
    }
  }

  /** Adding the same element at the end of both keeps a subsequence one. */
  lemma SubsequenceExtend<T>(xs: seq<T>, ys: seq<T>, y: T)
    requires IsSubsequence(xs, ys)
    ensures IsSubsequence(xs + [y], ys + [y])
  {
    assert (ys + [y])[..|ys|] == ys;
    assert (xs + [y])[..|xs|] == xs;
  }

  /** Dropping the last element of a subsequence keeps it one. */
  lemma {:induction false} SubsequenceDropLast<T>(xs: seq<T>, x: T, ys: seq<T>)
    requires IsSubsequence(xs + [x], ys)
    ensures IsSubsequence(xs, ys)
    decreases |ys|, 0
  {
    assert (xs + [x])[..|xs|] == xs;
    var init := ys[..|ys| - 1];
    assert init + [ys[|ys| - 1]] == ys;
    if x == ys[|ys| - 1] {
      SubsequenceWeaken(xs, init, ys[|ys| - 1]);
    } else {
      SubsequenceDropLast(xs, x, init);
      SubsequenceWeaken(xs, init, ys[|ys| - 1]);
    }
  }

  lemma {:induction false} SubsequenceLength<T>(xs: seq<T>, ys: seq<T>)
    requires IsSubsequence(xs, ys)
    ensures |xs| <= |ys|
    decreases |ys|
  {
    if xs != [] {
      if xs[|xs| - 1] == ys[|ys| - 1] {
        SubsequenceLength(xs[..|xs| - 1], ys[..|ys| - 1]);
      } else {
        SubsequenceLength(xs, ys[..|ys| - 1]);
      }
    }
  }

  /** A user call keeps what is delivered an ordered selection of the calls made. */
  lemma ThrottledKeepsOrder<A, R>(s: State<A, R>, calls: seq<Invocation<A, R>>, call: Invocation<A, R>)
    requires Inv(s) && IsSubsequence(Delivered(s), calls)
    ensures IsSubsequence(Delivered(ThrottledStep(s, call)), calls + [call])
  {
    if !s.inThrottle {
      assert Delivered(s) == s.log;
      assert Delivered(ThrottledStep(s, call)) == s.log + [call];
      SubsequenceExtend(s.log, calls, call);
    } else {
      assert Delivered(ThrottledStep(s, call)) == s.log + [call];
      match s.pending
      case None =>
        assert Delivered(s) == s.log;
        SubsequenceExtend(s.log, calls, call);
      case Some(p) =>
        assert Delivered(s) == s.log + [p];
        SubsequenceDropLast(s.log, p, calls);
        SubsequenceExtend(s.log, calls, call);
    }
  }

  /** A timer expiry delivers nothing new: it only moves the stored call into the log. */
  lemma ExpireKeepsOrder<A, R>(s: State<A, R>)
    requires s.armed > 0 && Inv(s)
    ensures Delivered(Expire(s)) == Delivered(s)
  {
  }

  /** The two events of the model. */
  datatype Event<A, R> = Call(call: Invocation<A, R>) | TimerFire

  /** The calls of the wrapper in a trace, in order. */
  function CallsOf<A, R>(events: seq<Event<A, R>>): seq<Invocation<A, R>> {
    if events == [] then []
    else (match events[0] case Call(c) => [c] case TimerFire => []) + CallsOf(events[1..])
  }

  /**
   * The state after a trace of events; `None` when the trace has a timer
   * expiry with no timer armed, which cannot happen.
   */
  function Run<A, R>(s: State<A, R>, events: seq<Event<A, R>>): Option<State<A, R>>
    decreases |events|
  {
    if events == [] then Some(s)
    else
      match events[0]
      case Call(c) => Run(ThrottledStep(s, c), events[1..])
      case TimerFire => if s.armed == 0 then None else Run(Expire(s), events[1..])
  }

  lemma {:induction false} RunKeepsOrder<A, R>(s: State<A, R>, calls: seq<Invocation<A, R>>, events: seq<Event<A, R>>)
    requires Inv(s) && IsSubsequence(Delivered(s), calls)
    requires Run(s, events).Some?
    ensures Inv(Run(s, events).value)
    ensures IsSubsequence(Delivered(Run(s, events).value), calls + CallsOf(events))
    decreases |events|
  {
    if events == [] {
      assert calls + CallsOf(events) == calls;
    } else {
      match events[0]
      case Call(c) =>
        ThrottledKeepsInv(s, c);
        ThrottledKeepsOrder(s, calls, c);
        RunKeepsOrder(ThrottledStep(s, c), calls + [c], events[1..]);
        assert calls + [c] + CallsOf(events[1..]) == calls + CallsOf(events);
      case TimerFire =>
        ExpireKeepsInv(s);
        ExpireKeepsOrder(s);
        RunKeepsOrder(Expire(s), calls, events[1..]);
        assert CallsOf(events) == CallsOf(events[1..]);
    }
  }

  /**
   * From the initial state, every trace keeps one timer exactly while
   * throttled, and invokes `func` on an order-preserving selection of the
   * calls made, so never more often than it is called.
   */
  lemma InvocationsFollowCalls<A, R>(events: seq<Event<A, R>>)
    requires Run(Initial(), events).Some?
    ensures Inv(Run(Initial(), events).value)
    ensures IsSubsequence(Run(Initial(), events).value.log, CallsOf(events))
    ensures |Run(Initial(), events).value.log| <= |CallsOf(events)|
  {
    var t := Run(Initial<A, R>(), events).value;
    RunKeepsOrder(Initial<A, R>(), [], events);
    assert [] + CallsOf(events) == CallsOf(events);
    if t.pending.Some? {
      assert Delivered(t) == t.log + [t.pending.value];
      SubsequenceDropLast(t.log, t.pending.value, CallsOf(events));
    } else {
      assert Delivered(t) == t.log;
    }
    SubsequenceLength(t.log, CallsOf(events));
  }

  /** Calls while throttled invoke nothing, and the last of them is the one kept. */
  lemma {:induction false} LastCallWins<A, R>(s: State<A, R>, calls: seq<Invocation<A, R>>)
    requires s.inThrottle && calls != []
    ensures var events := seq(|calls|, i requires 0 <= i < |calls| => Call(calls[i]));
      Run(s, events) == Some(s.(pending := Some(calls[|calls| - 1])))
    decreases |calls|
  {
    var events := seq(|calls|, i requires 0 <= i < |calls| => Call(calls[i]));
    var s1 := ThrottledStep(s, calls[0]);
    assert events[0] == Call(calls[0]);
    if |calls| > 1 {
      LastCallWins(s1, calls[1..]);
      assert events[1..] == seq(|calls[1..]|, i requires 0 <= i < |calls[1..]| => Call(calls[1..][i]));
    }
  }

  /** A single call and its timer: one immediate invocation, nothing deferred, open again. */
  lemma SingleCall<A, R>(c: Invocation<A, R>)
    ensures Run(Initial(), [Call(c), TimerFire]) == Some(State(false, None, 0, [c]))
  {
    var events: seq<Event<A, R>> := [Call(c), TimerFire];
    var s1 := ThrottledStep(Initial<A, R>(), c);
    assert s1 == State(true, None, 1, [c]);
    assert events[1..] == [TimerFire] && events[1..][1..] == [];
    assert Run(Initial(), events) == Run(s1, events[1..]);
    assert Run(s1, events[1..]) == Run(Expire(s1), []);
  }

  /**
   * Five calls within one window and then its expiry invoke `func` twice:
   * at once with the first call, and at the expiry with the fifth. The
   * wrapper is throttled again with a fresh timer, and nothing is stored.
   */
  lemma FiveCallsOneExpiry<A, R>(c1: Invocation<A, R>, c2: Invocation<A, R>, c3: Invocation<A, R>,
                                 c4: Invocation<A, R>, c5: Invocation<A, R>)
    ensures Run(Initial(), [Call(c1), Call(c2), Call(c3), Call(c4), Call(c5), TimerFire])
            == Some(State(true, None, 1, [c1, c5]))
  {
    var s1 := ThrottledStep(Initial<A, R>(), c1);
    assert s1 == State(true, None, 1, [c1]);
    var events := [Call(c1), Call(c2), Call(c3), Call(c4), Call(c5), TimerFire];
    assert Run(Initial(), events) == Run(s1, events[1..]);
    LastCallWins(s1, [c2, c3, c4, c5]);
    var calls := [c2, c3, c4, c5];
    var middle := seq(|calls|, i requires 0 <= i < |calls| => Call(calls[i]));
    assert events[1..] == middle + [TimerFire];
    RunAppend(s1, middle, [TimerFire]);
    var s5 := s1.(pending := Some(c5));
    var last: seq<Event<A, R>> := [TimerFire];
    assert last[1..] == [];
    assert Run(s5, last) == Run(Expire(s5), []);
    assert Expire(s5) == State(true, None, 1, [c1, c5]);
  }

  /** Running two traces one after the other. */
  lemma {:induction false} RunAppend<A, R>(s: State<A, R>, first: seq<Event<A, R>>, second: seq<Event<A, R>>)
    requires Run(s, first).Some?
    ensures Run(s, first + second) == Run(Run(s, first).value, second)
    decreases |first|
  {
    if first == [] {
      assert first + second == second;
    } else {
      assert (first + second)[0] == first[0];
      assert (first + second)[1..] == first[1..] + second;
      match first[0]
      case Call(c) => RunAppend(ThrottledStep(s, c), first[1..], second);
      case TimerFire => RunAppend(Expire(s), first[1..], second);
    }
  }

  /**
   * The closure as an object. `Snapshot()` is its abstract state; each
   * method changes it exactly as the pure model says, and keeps `Valid()`,
   * which says that the model's invariant holds and that the calls of
   * `func` so far are an ordered selection of the calls of the wrapper.
   */
  class Throttle<A, R> {
    /** The `limit` argument; only the timer's length depends on it, and time is not modelled. */
    const limit: int
    var inThrottle: bool
    var lastArgs: Option<seq<A>>
    var lastThis: Option<R>
    /** Timers armed by `setTimeout` that have not fired. */
    var armed: nat
    /** The calls of `func`, oldest first. */
    var log: seq<Invocation<A, R>>
    /** The calls of the wrapper, oldest first. */
    ghost var calls: seq<Invocation<A, R>>

    function Snapshot(): State<A, R>
      reads this
    {
      State(inThrottle,
            if lastArgs.Some? && lastThis.Some? then Some(Invocation(lastArgs.value, lastThis.value)) else None,
            armed, log)
    }

    ghost predicate Valid()
      reads this
    {
      && (lastArgs.Some? <==> lastThis.Some?)
      && Inv(Snapshot())
      && IsSubsequence(Delivered(Snapshot()), calls)
    }

    /** `throttle(func, limit)`. */
    constructor (limit: int)
      ensures Valid() && Snapshot() == Initial() && calls == [] && this.limit == limit
    {
      this.limit := limit;
      inThrottle := false;
      lastArgs, lastThis := None, None;
      armed := 0;
      log := [];
      calls := [];
    }

    /** `throttled` itself (lines 14-31), as the wrapper and the timer callback both run it. */
    method Throttled(args: seq<A>, receiver: R)
      requires lastArgs.Some? <==> lastThis.Some?
      modifies this
      ensures lastArgs.Some? <==> lastThis.Some?
      ensures Snapshot() == ThrottledStep(old(Snapshot()), Invocation(args, receiver))
      ensures calls == old(calls)
    {
      if !inThrottle {
        log := log + [Invocation(args, receiver)];
        inThrottle := true;
        armed := armed + 1;
      } else {
        lastArgs := Some(args);
        lastThis := Some(receiver);
      }
    }

    /** A call of the wrapper by its user. */
    method Call(args: seq<A>, receiver: R)
      requires Valid()
      modifies this
      ensures Valid()
      ensures Snapshot() == ThrottledStep(old(Snapshot()), Invocation(args, receiver))
      ensures calls == old(calls) + [Invocation(args, receiver)]
    {
      ThrottledKeepsInv(Snapshot(), Invocation(args, receiver));
      ThrottledKeepsOrder(Snapshot(), calls, Invocation(args, receiver));
      Throttled(args, receiver);
      calls := calls + [Invocation(args, receiver)];
    }

    /** The `setTimeout` callback (lines 19-26); it runs only while a timer is armed. */
    method TimerFire()
      requires Valid() && armed > 0
      modifies this
      ensures Valid()
      ensures Snapshot() == Expire(old(Snapshot()))
      ensures calls == old(calls)
    {
      ExpireKeepsInv(Snapshot());
      ExpireKeepsOrder(Snapshot());
      armed := armed - 1;
      inThrottle := false;
      if lastArgs.Some? {
        Throttled(lastArgs.value, lastThis.value);
        lastArgs := None;
        lastThis := None;
      }
    }
  }
}
