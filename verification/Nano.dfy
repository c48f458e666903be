/**
 * testname.Nano (internal/testname/testname.go): a compare-and-swap loop that
 * any number of goroutines run on one counter, over a clock that may stall or
 * go back.
 */
module Nano {
  const MAX: int := 0x7FFF_FFFF_FFFF_FFFF
  const MIN: int := -0x8000_0000_0000_0000

  type Int64 = n: int | MIN <= n <= MAX

  /** The number to try: the clock if it is ahead, else one more, in 64 bits. */
  function Next(prev: Int64, clock: Int64): Int64 {
    if clock > prev then clock else if prev == MAX then MIN else prev + 1
  }

  /** Where a call is in its loop; seen counts the successes before its load. */
  datatype Step =
    | Begun
    | Loaded(prev: Int64, seen: nat)
    | Ready(prev: Int64, next: Int64, seen: nat)

  /** A call under way: the successes before it began, and how often it failed so far. */
  datatype Call = Call(began: nat, failures: nat, step: Step)

  datatype Success = Success(thread: nat, number: Int64)

  /**
   * The counter, the calls under way by thread, the successes in the order of
   * their swaps, and the greatest of the start value and all clock readings.
   */
  datatype State = State(start: Int64, last: Int64, calls: map<nat, Call>, successes: seq<Success>, top: int)

  datatype Event =
    | Begin(t: nat)
    | Load(t: nat)
    | ReadClock(t: nat, clock: Int64)
    | Swap(t: nat)

  function Starting(start: Int64): State {
    State(start, start, map[], [], start)
  }

  predicate CanHappen(s: State, e: Event) {
    match e
    case Begin(t) => t !in s.calls
    case Load(t) => t in s.calls && s.calls[t].step.Begun?
    case ReadClock(t, _) => t in s.calls && s.calls[t].step.Loaded?
    case Swap(t) => t in s.calls && s.calls[t].step.Ready?
  }

  predicate Succeeds(s: State, t: nat)
    requires CanHappen(s, Swap(t))
  {
    s.last == s.calls[t].step.prev
  }

  function After(s: State, e: Event): State
    requires CanHappen(s, e)
  {
    match e
    case Begin(t) => s.(calls := s.calls[t := Call(|s.successes|, 0, Begun)])
    case Load(t) => s.(calls := s.calls[t := s.calls[t].(step := Loaded(s.last, |s.successes|))])
    case ReadClock(t, clock) =>
      var Loaded(prev, seen) := s.calls[t].step;
      s.(calls := s.calls[t := s.calls[t].(step := Ready(prev, Next(prev, clock), seen))],
         top := if clock > s.top then clock else s.top)
    case Swap(t) =>
      var c := s.calls[t];
      if Succeeds(s, t) then
        s.(last := c.step.next, calls := s.calls - {t}, successes := s.successes + [Success(t, c.step.next)])
      else s.(calls := s.calls[t := Call(c.began, c.failures + 1, Begun)])
  }

  predicate CanRun(s: State, events: seq<Event>)
    decreases |events|
  {
    events == [] || (CanHappen(s, events[0]) && CanRun(After(s, events[0]), events[1..]))
  }

  function Run(s: State, events: seq<Event>): State
    requires CanRun(s, events)
    decreases |events|
  {
    if events == [] then s else Run(After(s, events[0]), events[1..])
  }

  // --------------------------------------------------------------- invariants

  /** The counter's values: where it started, then each success. */
  function ValueAt(s: State, i: nat): Int64
    requires i <= |s.successes|
  {
    if i == 0 then s.start else s.successes[i - 1].number
  }

  /** The next success passed the value before it, or stepped over the end of 64 bits. */
  predicate Grows(s: State, i: nat)
    requires i < |s.successes|
  {
    ValueAt(s, i) < ValueAt(s, i + 1) || (ValueAt(s, i) == MAX && ValueAt(s, i + 1) == MIN)
  }

  /** The counter was not at its greatest when a call swapped it. */
  ghost predicate NeverFull(s: State) {
    forall i :: 0 <= i < |s.successes| ==> ValueAt(s, i) != MAX
  }

  /** No success since the first n was the thread's own. */
  ghost predicate OthersSince(s: State, t: nat, n: nat) {
    forall i :: n <= i < |s.successes| ==> s.successes[i].thread != t
  }

  ghost predicate StepOk(s: State, t: nat, c: Call) {
    match c.step
    case Begun => c.began + c.failures <= |s.successes|
    case Loaded(prev, seen) =>
      && seen <= |s.successes| && prev == ValueAt(s, seen) && OthersSince(s, t, seen)
      && c.began + c.failures <= seen
    case Ready(prev, next, seen) =>
      && seen <= |s.successes| && prev == ValueAt(s, seen) && OthersSince(s, t, seen)
      && c.began + c.failures <= seen
      && (next > prev || (prev == MAX && next == MIN)) && next <= s.top + seen + 1
  }

  ghost predicate Invariant(s: State) {
    && s.last == ValueAt(s, |s.successes|)
    && s.start <= s.top
    && (forall i :: 0 <= i <= |s.successes| ==> Bounded(s, i))
    && (forall i :: 0 <= i < |s.successes| ==> Grows(s, i))
    && forall t :: t in s.calls ==> StepOk(s, t, s.calls[t])
  }

  predicate Bounded(s: State, i: nat)
    requires i <= |s.successes|
  {
    ValueAt(s, i) <= s.top + i
  }

  lemma CallsStayOk(s: State, s': State, t: nat)
    requires Invariant(s) && s'.start == s.start && s.successes <= s'.successes && s.top <= s'.top
    requires forall x :: x in s'.calls && x != t ==> x in s.calls && s'.calls[x] == s.calls[x]
    requires forall i :: |s.successes| <= i < |s'.successes| ==> s'.successes[i].thread == t
    ensures forall x :: x in s'.calls && x != t ==> StepOk(s', x, s'.calls[x])
  {
    forall x | x in s'.calls && x != t ensures StepOk(s', x, s'.calls[x]) {
      assert StepOk(s, x, s.calls[x]);
      var c := s.calls[x];
      if !c.step.Begun? {
        assert ValueAt(s', c.step.seen) == ValueAt(s, c.step.seen);
        forall i | c.step.seen <= i < |s'.successes| ensures s'.successes[i].thread != x {
          if i < |s.successes| {
            assert s'.successes[i] == s.successes[i];
          }
        }
      }
    }
  }

  lemma InvariantAfter(s: State, e: Event)
    requires Invariant(s) && CanHappen(s, e)
    ensures Invariant(After(s, e))
  {
    var s' := After(s, e);
    CallsStayOk(s, s', e.t);
    MovedCallIsOk(s, e);
    SuccessesStayOk(s, e);
  }

  lemma MovedCallIsOk(s: State, e: Event)
    requires Invariant(s) && CanHappen(s, e)
    ensures var s' := After(s, e);
            && s'.last == ValueAt(s', |s'.successes|) && s'.start <= s'.top
            && (e.t in s'.calls ==> StepOk(s', e.t, s'.calls[e.t]))
  {
    if e.t in s.calls {
      assert StepOk(s, e.t, s.calls[e.t]);
    }
    if e.ReadClock? {
      assert Bounded(s, s.calls[e.t].step.seen);
    }
  }

  lemma SuccessesStayOk(s: State, e: Event)
    requires Invariant(s) && CanHappen(s, e)
    ensures var s' := After(s, e);
            && (forall i :: 0 <= i <= |s'.successes| ==> Bounded(s', i))
            && (forall i :: 0 <= i < |s'.successes| ==> Grows(s', i))
  {
    var s' := After(s, e);
    if e.t in s.calls {
      assert StepOk(s, e.t, s.calls[e.t]);
    }
    forall i | 0 <= i <= |s'.successes| ensures Bounded(s', i) {
      if i <= |s.successes| {
        assert Bounded(s, i) && ValueAt(s', i) == ValueAt(s, i);
      }
    }
    forall i | 0 <= i < |s'.successes| ensures Grows(s', i) {
      if i < |s.successes| {
        assert Grows(s, i) && ValueAt(s', i) == ValueAt(s, i) && ValueAt(s', i + 1) == ValueAt(s, i + 1);
      }
    }
  }

  lemma {:induction false} InvariantAlways(s: State, events: seq<Event>)
    requires Invariant(s) && CanRun(s, events)
    ensures Invariant(Run(s, events))
    decreases |events|
  {
    if events != [] {
      InvariantAfter(s, events[0]);
      InvariantAlways(After(s, events[0]), events[1..]);
    }
  }

  lemma StartIsOk(start: Int64)
    ensures Invariant(Starting(start))
  {
    assert Bounded(Starting(start), 0);
  }

  // -------------------------------------------------------------- whole runs

  lemma {:induction false} GrowthAdds(s: State, i: nat, j: nat)
    requires Invariant(s) && NeverFull(s) && i < j <= |s.successes|
    ensures ValueAt(s, i) < ValueAt(s, j)
    decreases j
  {
    assert Grows(s, j - 1) && ValueAt(s, j - 1) != MAX;
    if i < j - 1 {
      GrowthAdds(s, i, j - 1);
    }
  }

  ghost predicate Increasing(s: State) {
    forall i, j :: 0 <= i < j <= |s.successes| ==> ValueAt(s, i) < ValueAt(s, j)
  }

  /**
   * For any threads and any clock readings, each number is greater than the
   * start and than all handed out before it, in the order of the swaps and so
   * in real time, exactly when no call found the counter at the greatest 64-bit
   * number.
   */
  lemma NumbersGrow(start: Int64, events: seq<Event>)
    requires CanRun(Starting(start), events)
    ensures Increasing(Run(Starting(start), events)) <==> NeverFull(Run(Starting(start), events))
  {
    var s := Run(Starting(start), events);
    StartIsOk(start);
    InvariantAlways(Starting(start), events);
    if NeverFull(s) {
      forall i, j | 0 <= i < j <= |s.successes| ensures ValueAt(s, i) < ValueAt(s, j) {
        GrowthAdds(s, i, j);
      }
    } else {
      var i :| 0 <= i < |s.successes| && ValueAt(s, i) == MAX;
      assert ValueAt(s, i + 1) <= MAX;
    }
  }

  /** No number passes the greater of the start and the greatest reading by more than the successes so far. */
  lemma NumbersStayClose(start: Int64, events: seq<Event>, i: nat)
    requires CanRun(Starting(start), events) && i < |Run(Starting(start), events).successes|
    ensures var s := Run(Starting(start), events); s.successes[i].number <= s.top + i + 1
  {
    StartIsOk(start);
    InvariantAlways(Starting(start), events);
    assert Bounded(Run(Starting(start), events), i + 1);
  }

  /** So while the clock is far enough from the end of 64 bits, no number is ever handed out twice. */
  lemma NumbersAreUnique(start: Int64, events: seq<Event>)
    requires CanRun(Starting(start), events)
    requires Run(Starting(start), events).top + |Run(Starting(start), events).successes| <= MAX
    ensures var s := Run(Starting(start), events);
            forall i, j :: 0 <= i < j < |s.successes| ==> s.successes[i].number < s.successes[j].number
  {
    var s := Run(Starting(start), events);
    StartIsOk(start);
    InvariantAlways(Starting(start), events);
    forall i | 0 <= i < |s.successes| ensures ValueAt(s, i) != MAX {
      assert Bounded(s, i);
    }
    NumbersGrow(start, events);
    forall i, j | 0 <= i < j < |s.successes| ensures s.successes[i].number < s.successes[j].number {
      assert ValueAt(s, i + 1) < ValueAt(s, j + 1);
    }
  }

  /** Past that end it is: a clock that reads 5, then the greatest number, then 4 and 5 gives 5 twice. */
  lemma FullCounterRepeats()
    ensures var events := Calling(5) + Calling(MAX) + Calling(4) + Calling(5);
            && CanRun(Starting(0), events)
            && var s := Run(Starting(0), events).successes;
               |s| == 4 && s[0].number == s[3].number == 5
  {
    var e1, e2, e3, e4 := Calling(5), Calling(MAX), Calling(4), Calling(5);
    var s0 := Starting(0);
    OneCall(s0, 5, e2 + e3 + e4);
    var s1 := AfterCall(s0, 5);
    OneCall(s1, MAX, e3 + e4);
    var s2 := AfterCall(s1, MAX);
    OneCall(s2, 4, e4);
    var s3 := AfterCall(s2, 4);
    OneCall(s3, 5, []);
    assert e4 + [] == e4;
    assert e2 + e3 + e4 == e2 + (e3 + e4);
    assert e1 + e2 + e3 + e4 == e1 + (e2 + e3 + e4);
  }

  function Calling(clock: Int64): seq<Event> {
    [Begin(0), Load(0), ReadClock(0, clock), Swap(0)]
  }

  /** A call that nothing interleaves with. */
  function AfterCall(s: State, clock: Int64): State {
    var n := Next(s.last, clock);
    State(s.start, n, s.calls, s.successes + [Success(0, n)], if clock > s.top then clock else s.top)
  }

  lemma FirstEvent(s: State, e: Event, rest: seq<Event>)
    requires CanHappen(s, e)
    ensures CanRun(s, [e] + rest) <==> CanRun(After(s, e), rest)
    ensures CanRun(s, [e] + rest) ==> Run(s, [e] + rest) == Run(After(s, e), rest)
  {
    assert ([e] + rest)[1..] == rest;
  }

  lemma OneCall(s: State, clock: Int64, rest: seq<Event>)
    requires 0 !in s.calls
    ensures CanRun(s, Calling(clock) + rest) <==> CanRun(AfterCall(s, clock), rest)
    ensures CanRun(AfterCall(s, clock), rest) ==> Run(s, Calling(clock) + rest) == Run(AfterCall(s, clock), rest)
  {
    var e4 := [Swap(0)] + rest;
    var e3 := [ReadClock(0, clock)] + e4;
    var e2 := [Load(0)] + e3;
    var a := After(s, Begin(0));
    var b := After(a, Load(0));
    var c := After(b, ReadClock(0, clock));
    assert After(c, Swap(0)) == AfterCall(s, clock);
    assert Calling(clock) + rest == [Begin(0)] + e2;
    FirstEvent(s, Begin(0), e2);
    FirstEvent(a, Load(0), e3);
    FirstEvent(b, ReadClock(0, clock), e4);
    FirstEvent(c, Swap(0), rest);
  }

  /**
   * A failed swap means that another thread succeeded since this call's load;
   * and while the counter was never full, a swap fails for no other reason.
   */
  lemma FailureIsAnothersSuccess(start: Int64, events: seq<Event>, t: nat)
    requires CanRun(Starting(start), events) && CanHappen(Run(Starting(start), events), Swap(t))
    ensures var s := Run(Starting(start), events);
            var seen := s.calls[t].step.seen;
            && (!Succeeds(s, t) ==> exists i :: seen <= i < |s.successes| && s.successes[i].thread != t)
            && (NeverFull(s) ==> (Succeeds(s, t) <==> |s.successes| <= seen))
  {
    var s := Run(Starting(start), events);
    StartIsOk(start);
    InvariantAlways(Starting(start), events);
    assert StepOk(s, t, s.calls[t]);
    var seen := s.calls[t].step.seen;
    if seen < |s.successes| {
      assert s.successes[seen].thread != t;
      if NeverFull(s) {
        GrowthAdds(s, seen, |s.successes|);
      }
    }
  }

  /** So the loop is lock-free: a call fails at most once for each success of the others since it began. */
  lemma FailuresAreBounded(start: Int64, events: seq<Event>, t: nat)
    requires CanRun(Starting(start), events) && t in Run(Starting(start), events).calls
    ensures var s := Run(Starting(start), events);
            s.calls[t].began + s.calls[t].failures <= |s.successes|
  {
    StartIsOk(start);
    InvariantAlways(Starting(start), events);
    var s := Run(Starting(start), events);
    assert StepOk(s, t, s.calls[t]);
  }

  // ------------------------------------------------------------------ the loop

  /** The process-wide counter, as one caller meets it. */
  class Counter {
    var last: Int64

    constructor (start: Int64)
      ensures last == start
    {
      last := start;
    }

    /**
     * The loop of one call. others[k] is what the rest of the process left in
     * the counter by the k-th swap; after as many attempts they leave it alone.
     */
    method Nano(clock: nat -> Int64, others: seq<Int64>) returns (n: Int64, ghost failures: nat)
      modifies this
      ensures last == n && failures <= |others|
      ensures n == Next(Held(old(last), others, failures), clock(failures))
      ensures forall k :: 0 <= k < failures ==> others[k] != Held(old(last), others, k)
      ensures failures < |others| ==> others[failures] == Held(old(last), others, failures)
    {
      var k := 0;
      while true
        invariant k <= |others| && last == Held(old(last), others, k)
        invariant forall j :: 0 <= j < k ==> others[j] != Held(old(last), others, j)
        decreases |others| - k
      {
        var prev := last;
        var next := clock(k);
        if next <= prev {
          next := if prev == MAX then MIN else prev + 1;
        }
        if k < |others| {
          last := others[k];
        }
        if last == prev {
          last := next;
          return next, k;
        }
        k := k + 1;
      }
    }
  }

  /** What the counter holds when the k-th attempt loads it. */
  function Held(start: Int64, others: seq<Int64>, k: nat): Int64
    requires k <= |others|
  {
    if k == 0 then start else others[k - 1]
  }
}
