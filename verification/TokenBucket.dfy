/** The token bucket: its sequential meaning, the interleaved load and compare-exchange
    steps of its consumers and its refill task, and the rate both guarantee. */
module TokenBucket {

  const MICROS_PER_SEC := 1_000_000
  const U64_MAX := 0xffff_ffff_ffff_ffff

  function Min(a: int, b: int): int {
    if a < b then a else b
  }

  // ----- Sequential meaning -----

  /** Times are in microseconds, `rate` in tokens per second. */
  datatype Bucket = Bucket(capacity: nat, rate: nat, available: nat, lastRefill: nat)

  predicate Valid(b: Bucket) {
    b.available <= b.capacity
  }

  /** Whole tokens earned between two times; the conversion to 64 bits saturates. */
  function Due(rate: nat, from: nat, to: nat): nat {
    if to <= from then 0 else Min(rate * (to - from) / MICROS_PER_SEC, U64_MAX)
  }

  function Topped(available: nat, add: nat, capacity: nat): nat {
    Min(Min(available + add, U64_MAX), capacity)
  }

  /** The refill time advances even when no whole token was earned. */
  function Refill(b: Bucket, now: nat): Bucket {
    var add := Due(b.rate, b.lastRefill, now);
    b.(lastRefill := now, available := if add == 0 then b.available else Topped(b.available, add, b.capacity))
  }

  function TryConsume(b: Bucket, tokens: nat): (Bucket, bool) {
    if tokens > b.capacity || b.available < tokens then (b, false)
    else (b.(available := b.available - tokens), true)
  }

  /** Tokens handed out or left, less what the refill time has paid for. */
  function Debt(b: Bucket, granted: nat): int {
    MICROS_PER_SEC * (granted + b.available) - b.rate * b.lastRefill
  }

  lemma {:induction false} DueIsPaidFor(rate: nat, from: nat, to: nat)
    requires from <= to
    ensures MICROS_PER_SEC * Due(rate, from, to) <= rate * to - rate * from
  {
    var earned := rate * (to - from);
    assert earned == rate * to - rate * from;
    assert MICROS_PER_SEC * (earned / MICROS_PER_SEC) <= earned;
  }

  lemma {:induction false} RefillKeepsDebt(b: Bucket, granted: nat, now: nat)
    requires Valid(b) && b.lastRefill <= now
    ensures Valid(Refill(b, now)) && Debt(Refill(b, now), granted) <= Debt(b, granted)
  {
    DueIsPaidFor(b.rate, b.lastRefill, now);
  }

  /** The whole tokens that a rate earns in a time: the largest number whose price the time pays. */
  function Whole(rate: nat, micros: nat): (n: nat)
    ensures n * 1_000_000 <= rate * micros < (n + 1) * 1_000_000
  {
    rate * micros / 1_000_000
  }

  /** A refill adds exactly the whole tokens earned since the last one, up to the capacity. */
  lemma {:induction false} RefillAdds(b: Bucket, now: nat)
    requires Valid(b) && b.lastRefill <= now && b.capacity <= U64_MAX
    ensures var n := b.available + Whole(b.rate, now - b.lastRefill);
            Refill(b, now) == Bucket(b.capacity, b.rate, if n < b.capacity then n else b.capacity, now)
  {
    if b.lastRefill == now {
      assert b.rate * (now - b.lastRefill) == 0;
    }
  }

  /** A consumption takes exactly the tokens asked for, and is granted exactly if they are there. */
  lemma {:induction false} ConsumeTakes(b: Bucket, tokens: nat)
    requires Valid(b)
    ensures TryConsume(b, tokens)
            == if tokens <= b.available then (Bucket(b.capacity, b.rate, b.available - tokens, b.lastRefill), true)
               else (b, false)
  {}

  function Refills(b: Bucket, times: seq<nat>): Bucket
    decreases |times|
  {
    if times == [] then b else Refills(Refill(b, times[0]), times[1..])
  }

  /** Each refill comes before a whole token is earned since the previous one, at `last`. */
  predicate TooFrequent(rate: nat, last: nat, times: seq<nat>)
    decreases |times|
  {
    times == [] || (last <= times[0] && rate * (times[0] - last) < MICROS_PER_SEC && TooFrequent(rate, times[0], times[1..]))
  }

  lemma {:induction false} DueIffEarned(rate: nat, from: nat, to: nat)
    requires from <= to
    ensures Due(rate, from, to) > 0 <==> rate * (to - from) >= MICROS_PER_SEC
  {
    if from == to {
      assert rate * (to - from) == 0;
    }
  }

  /** Earned fractions are forgotten: refills that each come too early for a whole token never add one,
      however long they go on, while one refill after the same time would. */
  lemma {:induction false} FractionsAreLost(b: Bucket, times: seq<nat>, now: nat)
    requires TooFrequent(b.rate, b.lastRefill, times)
    ensures Refills(b, times).available == b.available
    ensures b.lastRefill <= now && b.rate * (now - b.lastRefill) >= MICROS_PER_SEC && b.available < Min(b.capacity, U64_MAX)
            ==> Refill(b, now).available > b.available
    decreases |times|
  {
    if times != [] {
      DueIffEarned(b.rate, b.lastRefill, times[0]);
      FractionsAreLost(Refill(b, times[0]), times[1..], times[0]);
    }
    if b.lastRefill <= now {
      DueIffEarned(b.rate, b.lastRefill, now);
    }
  }

  // ----- Interleaved steps -----

  /** The refill task: idle, holding a clock sample, after the swap of the refill time, and spinning. */
  datatype Refiller =
    | Idle
    | Sampled(now: nat)
    | Swapped(prev: nat, add: nat)
    | Adding(prev: nat, add: nat, seen: nat)

  /** One call of `try_consume`: before its load, spinning with the value it saw, returned. */
  datatype Consumer =
    | Called(tokens: nat)
    | Spinning(tokens: nat, seen: nat)
    | Returned(tokens: nat, granted: bool)

  /** `granted` counts the tokens of all successful calls so far. */
  datatype State = State(
    capacity: nat, rate: nat, available: nat, lastRefill: nat, clock: nat,
    refiller: Refiller, calls: map<nat, Consumer>, granted: nat)

  /** An atomic step; `weak` lets a compare-exchange fail spuriously. */
  datatype Event =
    | Tick(micros: nat)
    | SampleClock
    | SwapTime
    | RefillLoad
    | RefillExchange(weak: bool)
    | Call(id: nat, tokens: nat)
    | ConsumeLoad(id: nat)
    | ConsumeExchange(id: nat, weak: bool)

  function Initial(capacity: nat, rate: nat): State {
    State(capacity, rate, capacity, 0, 0, Idle, map[], 0)
  }

  /** What a consumer does with a value it just saw, before it touches the bucket again. */
  function Decide(tokens: nat, seen: nat): Consumer {
    if seen < tokens then Returned(tokens, false) else Spinning(tokens, seen)
  }

  /** The effect of a step; a step that is not enabled changes nothing. */
  function Next(s: State, e: Event): State {
    match e
    case Tick(micros) => s.(clock := s.clock + micros)
    case SampleClock =>
      if s.refiller.Idle? then s.(refiller := Sampled(s.clock)) else s
    case SwapTime =>
      if s.refiller.Sampled? then
        var now, add := s.refiller.now, Due(s.rate, s.lastRefill, s.refiller.now);
        s.(lastRefill := now, refiller := if add == 0 then Idle else Swapped(s.lastRefill, add))
      else s
    case RefillLoad =>
      if s.refiller.Swapped? then s.(refiller := Adding(s.refiller.prev, s.refiller.add, s.available)) else s
    case RefillExchange(weak) =>
      if !s.refiller.Adding? then s
      else if weak || s.refiller.seen != s.available then s.(refiller := s.refiller.(seen := s.available))
      else s.(available := Topped(s.refiller.seen, s.refiller.add, s.capacity), refiller := Idle)
    case Call(id, tokens) =>
      if id in s.calls then s
      else s.(calls := s.calls[id := if tokens > s.capacity then Returned(tokens, false) else Called(tokens)])
    case ConsumeLoad(id) =>
      if id in s.calls && s.calls[id].Called?
      then s.(calls := s.calls[id := Decide(s.calls[id].tokens, s.available)])
      else s
    case ConsumeExchange(id, weak) =>
      if !(id in s.calls && s.calls[id].Spinning?) then s
      else
        var c := s.calls[id];
        if weak || c.seen != s.available then s.(calls := s.calls[id := Decide(c.tokens, s.available)])
        else if c.tokens > c.seen then s
        else s.(available := c.seen - c.tokens, granted := s.granted + c.tokens,
                calls := s.calls[id := Returned(c.tokens, true)])
  }

  function Run(s: State, events: seq<Event>): State
    decreases |events|
  {
    if events == [] then s else Run(Next(s, events[0]), events[1..])
  }

  // ----- The interleaving implements the sequential bucket -----

  /** While the refill task has swapped the time but not yet added, the old time still counts. */
  function Abstract(s: State): Bucket {
    Bucket(s.capacity, s.rate, s.available,
           if s.refiller.Swapped? || s.refiller.Adding? then s.refiller.prev else s.lastRefill)
  }

  ghost predicate Inv(s: State) {
    && s.available <= s.capacity
    && s.lastRefill <= s.clock
    && (match s.refiller
        case Idle => true
        case Sampled(now) => s.lastRefill <= now <= s.clock
        case Swapped(prev, add) => prev <= s.lastRefill && add == Due(s.rate, prev, s.lastRefill) && add > 0
        case Adding(prev, add, _) => prev <= s.lastRefill && add == Due(s.rate, prev, s.lastRefill) && add > 0)
    && (forall id :: id in s.calls && s.calls[id].Called? ==> s.calls[id].tokens <= s.capacity)
    && (forall id :: id in s.calls && s.calls[id].Spinning? ==> s.calls[id].tokens <= Min(s.calls[id].seen, s.capacity))
  }

  /** The call `id` returns in the step from `s` to `t`. */
  predicate Returns(s: State, t: State, id: nat) {
    id in t.calls && t.calls[id].Returned? && (id in s.calls ==> !s.calls[id].Returned?)
  }

  lemma {:induction false} StepKeepsInv(s: State, e: Event)
    requires Inv(s)
    ensures Inv(Next(s, e))
  {}

  /** Every step is invisible, one sequential refill, or one successful sequential consumption. */
  lemma {:induction false} StepRefines(s: State, e: Event)
    requires Inv(s)
    ensures var t := Next(s, e);
            || (Abstract(t) == Abstract(s) && t.granted == s.granted)
            || (Abstract(t) == Refill(Abstract(s), t.lastRefill) && t.granted == s.granted)
            || (exists n :: TryConsume(Abstract(s), n) == (Abstract(t), true) && t.granted == s.granted + n)
  {
    if e.ConsumeExchange? && e.id in s.calls && s.calls[e.id].Spinning? {
      // the witness, should the exchange succeed
      var attempt := TryConsume(Abstract(s), s.calls[e.id].tokens);
    }
  }

  /** A call returns what the sequential bucket answers at the moment of its last step. */
  lemma {:induction false} CallsAreAtomic(s: State, e: Event, id: nat)
    requires Inv(s) && Returns(s, Next(s, e), id)
    ensures var t := Next(s, e);
            TryConsume(Abstract(s), t.calls[id].tokens) == (Abstract(t), t.calls[id].granted)
  {}

  lemma {:induction false} StepKeepsDebt(s: State, e: Event)
    requires Inv(s)
    ensures Debt(Abstract(Next(s, e)), Next(s, e).granted) <= Debt(Abstract(s), s.granted)
  {
    StepRefines(s, e);
    var b, t := Abstract(s), Next(s, e);
    if Abstract(t) == Refill(b, t.lastRefill) && t.granted == s.granted && b.lastRefill <= t.lastRefill {
      RefillKeepsDebt(b, s.granted, t.lastRefill);
    }
  }

  lemma {:induction false} RunKeepsDebt(s: State, events: seq<Event>)
    requires Inv(s)
    ensures var t := Run(s, events);
            && Inv(t) && t.capacity == s.capacity && t.rate == s.rate
            && Debt(Abstract(t), t.granted) <= Debt(Abstract(s), s.granted)
    decreases |events|
  {
    if events != [] {
      StepKeepsInv(s, events[0]);
      StepKeepsDebt(s, events[0]);
      RunKeepsDebt(Next(s, events[0]), events[1..]);
    }
  }

  lemma {:induction false} Earnings(rate: nat, from: nat, to: nat, clock: nat)
    requires to <= clock
    ensures rate * to - rate * from <= rate * (clock - from)
  {
    assert rate * (clock - from) == rate * clock - rate * from;
    assert rate * (clock - to) >= 0;
  }

  /** Over any window of any interleaving, tokens granted plus tokens left are at most the tokens
      at its start plus what the rate earns since the last refill before it. */
  lemma {:induction false} WindowBound(s: State, events: seq<Event>)
    requires Inv(s)
    ensures var t := Run(s, events);
            MICROS_PER_SEC * (t.granted - s.granted + t.available)
            <= MICROS_PER_SEC * s.available + s.rate * (t.clock - Abstract(s).lastRefill)
  {
    RunKeepsDebt(s, events);
    var t := Run(s, events);
    hide *;
    Earnings(s.rate, Abstract(s).lastRefill, Abstract(t).lastRefill, t.clock);
  }

  /** From creation on: available tokens stay within the capacity, and tokens granted plus tokens
      left never exceed the capacity plus the rate times the elapsed time. */
  lemma {:induction false} RateBound(capacity: nat, rate: nat, events: seq<Event>)
    ensures var t := Run(Initial(capacity, rate), events);
            && 0 <= t.available <= capacity
            && MICROS_PER_SEC * (t.granted + t.available) <= MICROS_PER_SEC * capacity + rate * t.clock
  {
    RunKeepsDebt(Initial(capacity, rate), events);
    WindowBound(Initial(capacity, rate), events);
  }

  // ----- Exact accounts -----

  /** The step adds the tokens of a refill. */
  predicate Completes(s: State, e: Event) {
    e.RefillExchange? && !e.weak && s.refiller.Adding? && s.refiller.seen == s.available
  }

  /** What the refill of the step is worth: the whole tokens earned since the refill before it. */
  function Income(s: State, e: Event): nat {
    if Completes(s, e) && s.refiller.prev <= s.lastRefill then Whole(s.rate, s.lastRefill - s.refiller.prev) else 0
  }

  /** What of it exceeds the capacity and is lost. */
  function Spill(s: State, e: Event): nat {
    if s.available + Income(s, e) > s.capacity then s.available + Income(s, e) - s.capacity else 0
  }

  lemma {:induction false} StepBalances(s: State, e: Event)
    requires Inv(s) && s.capacity <= U64_MAX
    ensures var t := Next(s, e); t.granted + t.available + Spill(s, e) == s.granted + s.available + Income(s, e)
  {
    if Completes(s, e) {
      RefillAdds(Abstract(s), s.lastRefill);
    }
  }

  function Incomes(s: State, events: seq<Event>): nat
    decreases |events|
  {
    if events == [] then 0 else Income(s, events[0]) + Incomes(Next(s, events[0]), events[1..])
  }

  function Spills(s: State, events: seq<Event>): nat
    decreases |events|
  {
    if events == [] then 0 else Spill(s, events[0]) + Spills(Next(s, events[0]), events[1..])
  }

  lemma {:induction false} StepKeepsLimits(s: State, e: Event)
    ensures Next(s, e).capacity == s.capacity && Next(s, e).rate == s.rate
  {}

  /** Over any interleaving, tokens granted and left are exactly those at its start and those of its completed
      refills, less what exceeded the capacity. */
  lemma {:induction false} TokensBalance(s: State, events: seq<Event>)
    requires Inv(s) && s.capacity <= U64_MAX
    ensures var t := Run(s, events);
            t.granted + t.available + Spills(s, events) == s.granted + s.available + Incomes(s, events)
    decreases |events|
  {
    if events != [] {
      StepKeepsInv(s, events[0]);
      StepKeepsLimits(s, events[0]);
      StepBalances(s, events[0]);
      hide Next, Inv, Income, Spill;
      TokensBalance(Next(s, events[0]), events[1..]);
    }
  }

  /** The step ends a refill, with or without tokens to add. */
  predicate EndsRefill(s: State, e: Event) {
    || Completes(s, e)
    || (e.SwapTime? && s.refiller.Sampled? && s.lastRefill <= s.refiller.now
        && s.rate * (s.refiller.now - s.lastRefill) < 1_000_000)
  }

  function RefillCount(s: State, events: seq<Event>): nat
    decreases |events|
  {
    if events == [] then 0
    else (if EndsRefill(s, events[0]) then 1 else 0) + RefillCount(Next(s, events[0]), events[1..])
  }

  lemma {:induction false} Earned(rate: nat, from: nat, to: nat)
    requires from <= to
    ensures rate * (to - from) == rate * to - rate * from
  {}

  lemma {:induction false} StepPays(s: State, e: Event)
    requires Inv(s)
    ensures var t := Next(s, e);
            && Abstract(s).lastRefill <= Abstract(t).lastRefill
            && s.rate * Abstract(t).lastRefill - s.rate * Abstract(s).lastRefill
               <= 1_000_000 * (Income(s, e) + if EndsRefill(s, e) then 1 else 0)
  {
    if Completes(s, e) {
      Earned(s.rate, s.refiller.prev, s.lastRefill);
    } else if e.SwapTime? && s.refiller.Sampled? {
      Earned(s.rate, s.lastRefill, s.refiller.now);
      DueIffEarned(s.rate, s.lastRefill, s.refiller.now);
    }
  }

  /** Over any interleaving, the refills are worth the rate times the time they cover, less at most one token each. */
  lemma {:induction false} RateIsMet(s: State, events: seq<Event>)
    requires Inv(s)
    ensures var t := Run(s, events);
            s.rate * Abstract(t).lastRefill - s.rate * Abstract(s).lastRefill
            <= 1_000_000 * (Incomes(s, events) + RefillCount(s, events))
    decreases |events|
  {
    if events != [] {
      StepKeepsInv(s, events[0]);
      StepKeepsLimits(s, events[0]);
      StepPays(s, events[0]);
      hide Next, Inv, Income, EndsRefill, Abstract;
      RateIsMet(Next(s, events[0]), events[1..]);
    }
  }

  /** A call keeps the number of tokens it asked for. */
  lemma {:induction false} CallKeepsTokens(s: State, e: Event, id: nat)
    ensures id in s.calls ==> id in Next(s, e).calls && Next(s, e).calls[id].tokens == s.calls[id].tokens
    ensures e.Call? && e.id == id && id !in s.calls ==> id in Next(s, e).calls && Next(s, e).calls[id].tokens == e.tokens
  {}

  /** A call that returns was granted exactly if its tokens were there at its last step, and then took just them. */
  lemma {:induction false} CallTakes(s: State, e: Event, id: nat)
    requires Inv(s) && Returns(s, Next(s, e), id)
    ensures var t := Next(s, e);
            var c := t.calls[id];
            && (c.granted <==> c.tokens <= s.available)
            && t.available == s.available - (if c.granted then c.tokens else 0)
            && t.granted == s.granted + if c.granted then c.tokens else 0
  {}

  /** From creation on: tokens granted, left and lost are the capacity and the worth of all completed refills. */
  lemma {:induction false} TokensFromCreation(capacity: nat, rate: nat, events: seq<Event>)
    requires capacity <= U64_MAX
    ensures var (s, t) := (Initial(capacity, rate), Run(Initial(capacity, rate), events));
            t.granted + t.available + Spills(s, events) == capacity + Incomes(s, events)
  {
    TokensBalance(Initial(capacity, rate), events);
  }

  /** The time that the ticks of a run take. */
  function Elapsed(events: seq<Event>): nat
    decreases |events|
  {
    if events == [] then 0 else (if events[0].Tick? then events[0].micros else 0) + Elapsed(events[1..])
  }

  lemma {:induction false} TimePasses(s: State, events: seq<Event>)
    ensures Run(s, events).clock == s.clock + Elapsed(events)
    decreases |events|
  {
    if events != [] {
      TimePasses(Next(s, events[0]), events[1..]);
    }
  }

  /** The refill task, undisturbed, refills the bucket at the current time. */
  lemma {:induction false} RefillUndisturbed(s: State)
    requires Inv(s) && s.refiller.Idle?
    ensures var t := Next(Next(Next(Next(s, SampleClock), SwapTime), RefillLoad), RefillExchange(false));
            t.refiller.Idle? && Abstract(t) == Refill(Abstract(s), s.clock) && t.granted == s.granted
  {}

  /** A call, undisturbed, consumes from the bucket. */
  lemma {:induction false} CallUndisturbed(s: State, id: nat, tokens: nat)
    requires Inv(s) && id !in s.calls
    ensures var t := Next(Next(Next(s, Call(id, tokens)), ConsumeLoad(id)), ConsumeExchange(id, false));
            && id in t.calls && t.calls[id].Returned? && t.calls[id].tokens == tokens
            && (Abstract(t), t.calls[id].granted) == TryConsume(Abstract(s), tokens)
            && t.granted == s.granted + if t.calls[id].granted then tokens else 0
  {}
}
