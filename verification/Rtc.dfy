/** The virtual real-time clock (rtc.c): one counter and one interval per terminal, driven by
    a 1024 Hz hardware interrupt. */
module Rtc {
  import opened Arithmetic
  import opened Terminals

  const FASTEST := 1024
  const MIN_FREQUENCY := 2
  const MAX_FREQUENCY := 32768

  datatype Timer = Timer(interval: nat, counter: nat)

  type Timers = s: seq<Timer> | |s| == TERMINALS witness seq(TERMINALS, _ => Timer(0, 0))

  // ----- steps

  datatype Event = Interrupt | Open(t: nat) | BeginRead(t: nat) | Write(t: nat, frequency: nat)

  predicate Legal(e: Event) { (!e.Interrupt? ==> e.t < TERMINALS) && (e.Write? ==> e.frequency > 0) }

  function Count(timer: Timer): Timer {
    if timer.counter < timer.interval then timer.(counter := timer.counter + 1) else timer
  }

  function Written(timer: Timer, frequency: nat): Timer
    requires frequency > 0
  {
    if MIN_FREQUENCY <= frequency <= MAX_FREQUENCY then Timer(FASTEST / frequency, 0)
    else timer.(interval := FASTEST / frequency)
  }

  function Step(ts: Timers, e: Event): Timers
    requires Legal(e)
  {
    match e
    case Interrupt => seq(TERMINALS, i requires 0 <= i < TERMINALS => Count(ts[i]))
    case Open(t) => ts[t := ts[t].(counter := 0)]
    case BeginRead(t) => ts[t := ts[t].(counter := 0)]
    case Write(t, frequency) => ts[t := Written(ts[t], frequency)]
  }

  function Run(ts: Timers, es: seq<Event>): Timers
    requires forall k :: 0 <= k < |es| ==> Legal(es[k])
    decreases |es|
  {
    if es == [] then ts else Run(Step(ts, es[0]), es[1..])
  }

  /** The condition the loop of rtc_read waits for. */
  predicate Ready(ts: Timers, t: nat)
    requires t < TERMINALS
  {
    ts[t].counter == ts[t].interval
  }

  ghost function Interrupts(es: seq<Event>): nat
    decreases |es|
  {
    if es == [] then 0 else (if es[0].Interrupt? then 1 else 0) + Interrupts(es[1..])
  }

  // ----- properties

  /** While terminal `t` itself makes no clock call, its counter is the number of interrupts,
      saturating at its interval: nothing the other terminals do matters. */
  lemma {:induction false} Saturates(ts: Timers, t: nat, es: seq<Event>)
    requires t < TERMINALS && ts[t].counter <= ts[t].interval
    requires forall k :: 0 <= k < |es| ==> Legal(es[k]) && (es[k].Interrupt? || es[k].t != t)
    ensures Run(ts, es)[t] == Timer(ts[t].interval, Min(ts[t].counter + Interrupts(es), ts[t].interval))
    decreases |es|
  {
    if es != [] {
      Saturates(Step(ts, es[0]), t, es[1..]);
    }
  }

  /** The interval of a terminal changes only when that terminal writes. */
  lemma {:induction false} IntervalKept(ts: Timers, t: nat, es: seq<Event>)
    requires t < TERMINALS
    requires forall k :: 0 <= k < |es| ==> Legal(es[k]) && (es[k].Write? ==> es[k].t != t)
    ensures Run(ts, es)[t].interval == ts[t].interval
    decreases |es|
  {
    if es != [] {
      IntervalKept(Step(ts, es[0]), t, es[1..]);
    }
  }

  lemma QuotientPositive(f: nat)
    requires 0 < f <= FASTEST
    ensures FASTEST / f > 0
  {
    assert FASTEST == f * (FASTEST / f) + FASTEST % f;
  }

  /** Whatever another terminal does leaves a terminal's timer alone. */
  lemma OthersLeaveAlone(ts: Timers, e: Event, t: nat)
    requires t < TERMINALS && Legal(e) && !e.Interrupt? && e.t != t
    ensures Step(ts, e)[t] == ts[t]
  {}

  /** Once frequency `f` is written, whatever happens before the next write, a read that then
      starts is ready from its (1024 / f)th interrupt on, and not before. */
  lemma Deadline(ts: Timers, t: nat, f: nat, before: seq<Event>, waiting: seq<Event>)
    requires t < TERMINALS && MIN_FREQUENCY <= f <= FASTEST
    requires forall k :: 0 <= k < |before| ==> Legal(before[k]) && (before[k].Write? ==> before[k].t != t)
    requires forall k :: 0 <= k < |waiting| ==> Legal(waiting[k]) && (waiting[k].Interrupt? || waiting[k].t != t)
    ensures var started := Step(Run(Step(ts, Write(t, f)), before), BeginRead(t));
      FASTEST / f > 0 && (Ready(Run(started, waiting), t) <==> Interrupts(waiting) >= FASTEST / f)
  {
    var written := Step(ts, Write(t, f));
    IntervalKept(written, t, before);
    var started := Step(Run(written, before), BeginRead(t));
    assert started[t] == Timer(FASTEST / f, 0);
    Saturates(started, t, waiting);
    QuotientPositive(f);
  }

  lemma QuotientSmall(f: nat)
    requires f > 0
    ensures FASTEST / f <= FASTEST && (f > FASTEST ==> FASTEST / f == 0)
  {
    var q := FASTEST / f;
    assert FASTEST == f * q + FASTEST % f;
    MulMono(1, f, q);
    if f > FASTEST { MulMono(1, q, f); }
  }

  ghost predicate Bounded(ts: Timers) {
    forall i :: 0 <= i < TERMINALS ==> ts[i].counter <= ts[i].interval <= FASTEST
  }

  /** The counter can pass the interval in one way only: a frequency above the maximum is
      refused after the interval has already been set to zero, and leaves the counter. */
  lemma BoundedExactly(ts: Timers, e: Event)
    requires Bounded(ts) && Legal(e)
    ensures Bounded(Step(ts, e)) <==> !(e.Write? && e.frequency > MAX_FREQUENCY && ts[e.t].counter > 0)
  {
    if e.Write? {
      QuotientSmall(e.frequency);
      var next := Step(ts, e);
      assert next[e.t] == Written(ts[e.t], e.frequency);
    }
  }

  /** Even so the next read starts from zero, so it is ready at once. */
  lemma RefusedWriteIsHarmless(ts: Timers, t: nat, f: nat)
    requires t < TERMINALS && f > MAX_FREQUENCY
    ensures Ready(Step(Step(ts, Write(t, f)), BeginRead(t)), t)
  {
    QuotientSmall(f);
  }

  // ----- the driver

  class Clock {
    const interval: array<nat>
    const counter: array<nat>

    ghost predicate Valid() { interval.Length == counter.Length == TERMINALS && interval != counter }

    ghost function Timers(): Timers
      requires Valid()
      reads interval, counter
    {
      seq(TERMINALS, i requires 0 <= i < TERMINALS reads interval, counter => Timer(interval[i], counter[i]))
    }

    constructor ()
      ensures Valid() && fresh(interval) && fresh(counter)
      ensures Bounded(Timers())
    {
      interval := new nat[TERMINALS](_ => 0);
      counter := new nat[TERMINALS](_ => 0);
    }

    method InterruptHandler()
      requires Valid()
      modifies counter
      ensures Timers() == Step(old(Timers()), Interrupt)
    {
      var i := 0;
      while i < TERMINALS
        invariant 0 <= i <= TERMINALS
        invariant forall k :: 0 <= k < TERMINALS ==>
          counter[k] == if k < i then Count(old(Timers())[k]).counter else old(counter[k])
      {
        if counter[i] < interval[i] { counter[i] := counter[i] + 1; }
        i := i + 1;
      }
    }

    method Open(current: nat) returns (r: int)
      requires Valid() && current < TERMINALS
      modifies counter
      ensures r == 0 && Timers() == Step(old(Timers()), Event.Open(current))
      ensures counter[current] == 0 && interval[current] == old(interval[current])
    {
      counter[current] := 0;
      return 0;
    }

    /** The statement of rtc_read before its loop. */
    method BeginRead(current: nat)
      requires Valid() && current < TERMINALS
      modifies counter
      ensures Timers() == Step(old(Timers()), Event.BeginRead(current))
      ensures counter[current] == 0 && interval[current] == old(interval[current])
    {
      counter[current] := 0;
    }

    method Write(current: nat, frequency: nat) returns (r: int)
      requires Valid() && current < TERMINALS && frequency > 0
      modifies interval, counter
      ensures Timers() == Step(old(Timers()), Event.Write(current, frequency))
      ensures r == if 2 <= frequency <= 32768 then 0 else -1
      ensures interval[current] == 1024 / frequency && counter[current] == if r == 0 then 0 else old(counter[current])
    {
      interval[current] := FASTEST / frequency;
      if frequency < MIN_FREQUENCY || frequency > MAX_FREQUENCY { return -1; }
      counter[current] := 0;
      return 0;
    }
  }
}
