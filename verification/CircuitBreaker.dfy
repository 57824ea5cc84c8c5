// src/lib/circuit-breaker.ts. `execute` awaits the wrapped function in the
// middle, so it is split where it yields: entering, and the completion of a
// half-open probe or of an ordinary call. Completions of different calls
// interleave freely.
module CircuitBreakers {

  datatype CircuitState = Closed | Open | HalfOpen

  datatype Config = Config(failureThreshold: int, windowMs: int, cooldownMs: int) {
    predicate Valid() { failureThreshold > 0 && windowMs > 0 && cooldownMs >= 0 }
  }

  // What entering `execute` decides: throw CircuitOpenError, or start the wrapped
  // function as a half-open probe or as an ordinary call.
  datatype Entry = Rejected | Probe | Call

  // ---- the transitions, on values ----

  datatype Breaker = Breaker(state: CircuitState, failures: int, lastFailureTime: int, windowStart: int)

  const FRESH := Breaker(Closed, 0, 0, 0)

  function Enter(b: Breaker, cfg: Config, now: int): (Breaker, Entry) {
    match b.state
    case Open =>
      if now - b.lastFailureTime >= cfg.cooldownMs then (b.(state := HalfOpen), Probe) else (b, Rejected)
    case HalfOpen => (b, Probe)
    case Closed => (b, Call)
  }

  function ProbeFailed(b: Breaker, now: int): Breaker { b.(state := Open, lastFailureTime := now) }

  predicate WindowExpired(b: Breaker, cfg: Config, now: int) {
    b.windowStart > 0 && now - b.windowStart >= cfg.windowMs
  }

  // `began` is the clock reading taken when the call entered.
  function CallSucceeded(b: Breaker, cfg: Config, began: int): Breaker {
    if WindowExpired(b, cfg, began) then b.(failures := 0, windowStart := 0) else b
  }

  function RecordFailure(b: Breaker, cfg: Config, now: int): Breaker {
    var c := if b.windowStart == 0 || now - b.windowStart >= cfg.windowMs
             then b.(failures := 1, windowStart := now)
             else b.(failures := b.failures + 1);
    c.(lastFailureTime := now, state := if c.failures >= cfg.failureThreshold then Open else b.state)
  }

  // ---- the class ----

  class CircuitBreaker {
    const config: Config
    var state: CircuitState
    var failures: int
    var lastFailureTime: int
    var windowStart: int

    function View(): Breaker
      reads this
    {
      Breaker(state, failures, lastFailureTime, windowStart)
    }

    constructor (config: Config)
      ensures this.config == config && View() == FRESH
    {
      this.config := config;
      state, failures, lastFailureTime, windowStart := Closed, 0, 0, 0;
    }

    // `execute` up to the call of the wrapped function.
    method BeginExecute(now: int) returns (entry: Entry)
      modifies this
      ensures (View(), entry) == Enter(old(View()), config, now)
      ensures entry == Call <==> old(state) == Closed
      ensures entry == Rejected <==> old(state) == Open && now < old(lastFailureTime) + config.cooldownMs
      ensures state == if entry == Probe then HalfOpen else old(state)
      ensures failures == old(failures) && windowStart == old(windowStart) && lastFailureTime == old(lastFailureTime)
    {
      if state == Open {
        if now - lastFailureTime >= config.cooldownMs {
          state := HalfOpen;
        } else {
          return Rejected;
        }
      }
      entry := if state == HalfOpen then Probe else Call;
    }

    method EndProbe(succeeded: bool, now: int)
      modifies this
      ensures View() == if succeeded then FRESH else ProbeFailed(old(View()), now)
      ensures state == if succeeded then Closed else Open
      ensures succeeded ==> failures == 0 && windowStart == 0
      ensures !succeeded ==> lastFailureTime == now && failures == old(failures) && windowStart == old(windowStart)
    {
      if succeeded {
        state := Closed;
        failures := 0;
        windowStart := 0;
        lastFailureTime := 0;
      } else {
        state := Open;
        lastFailureTime := now;
      }
    }

    method EndCall(succeeded: bool, began: int, now: int)
      modifies this
      ensures View() == if succeeded then CallSucceeded(old(View()), config, began)
                        else RecordFailure(old(View()), config, now)
      ensures succeeded ==> state == old(state) && lastFailureTime == old(lastFailureTime)
      ensures succeeded ==>
                if 0 < old(windowStart) <= began - config.windowMs then failures == 0 && windowStart == 0
                else failures == old(failures) && windowStart == old(windowStart)
    {
      if succeeded {
        if windowStart > 0 && began - windowStart >= config.windowMs {
          failures := 0;
          windowStart := 0;
        }
      } else {
        RecordFailureNow(now);
      }
    }

    method RecordFailureNow(now: int)
      modifies this
      ensures View() == RecordFailure(old(View()), config, now)
      ensures lastFailureTime == now
      ensures state == if failures >= config.failureThreshold then Open else old(state)
      ensures if old(windowStart) != 0 && now < old(windowStart) + config.windowMs
              then failures == old(failures) + 1 && windowStart == old(windowStart)
              else failures == 1 && windowStart == now
    {
      if windowStart == 0 || now - windowStart >= config.windowMs {
        failures := 1;
        windowStart := now;
      } else {
        failures := failures + 1;
      }
      lastFailureTime := now;
      if failures >= config.failureThreshold {
        state := Open;
      }
    }

    method Reset()
      modifies this
      ensures View() == FRESH
    {
      state := Closed;
      failures := 0;
      lastFailureTime := 0;
      windowStart := 0;
    }
  }

  // ---- a breaker with calls in flight ----

  // The breaker, the clock, the wrapped functions that have started and not
  // finished (ordinary ones by the time they began), and the failures recorded
  // since the counters were last cleared.
  datatype System = System(b: Breaker, clock: int, probes: nat, calls: multiset<int>, recorded: seq<int>)

  datatype Event =
    | Start(now: int)
    | ProbeDone(succeeded: bool, now: int)
    | CallDone(succeeded: bool, began: int, now: int)
    | ManualReset(now: int)

  // The clock never goes back and reads a positive number; only calls in flight
  // complete.
  predicate Enabled(s: System, e: Event) {
    && e.now >= s.clock
    && e.now > 0
    && (e.ProbeDone? ==> s.probes > 0)
    && (e.CallDone? ==> e.began in s.calls)
  }

  function Step(cfg: Config, s: System, e: Event): System
    requires Enabled(s, e)
  {
    var t := s.(clock := e.now);
    match e
    case Start(now) =>
      var (b, entry) := Enter(s.b, cfg, now);
      t.(b := b,
         probes := if entry == Probe then s.probes + 1 else s.probes,
         calls := if entry == Call then s.calls + multiset{now} else s.calls)
    case ProbeDone(succeeded, now) =>
      if succeeded then t.(b := FRESH, probes := s.probes - 1, recorded := [])
      else t.(b := ProbeFailed(s.b, now), probes := s.probes - 1)
    case CallDone(succeeded, began, now) =>
      if succeeded then
        t.(b := CallSucceeded(s.b, cfg, began), calls := s.calls - multiset{began},
           recorded := if WindowExpired(s.b, cfg, began) then [] else s.recorded)
      else
        t.(b := RecordFailure(s.b, cfg, now), calls := s.calls - multiset{began},
           recorded := s.recorded + [now])
    case ManualReset(now) => t.(b := FRESH, recorded := [])
  }

  const START := System(FRESH, 0, 0, multiset{}, [])

  // Each event of the run is enabled where it occurs.
  predicate IsRun(cfg: Config, s: System, es: seq<Event>)
    decreases |es|
  {
    |es| > 0 ==> Enabled(s, es[0]) && IsRun(cfg, Step(cfg, s, es[0]), es[1..])
  }

  function After(cfg: Config, s: System, es: seq<Event>): System
    requires IsRun(cfg, s, es)
    decreases |es|
  {
    if |es| == 0 then s else After(cfg, Step(cfg, s, es[0]), es[1..])
  }

  // ---- what the counter counts ----

  // How many of the times lie in [from, to).
  function CountIn(times: seq<int>, from: int, to: int): nat {
    if |times| == 0 then 0
    else CountIn(times[..|times| - 1], from, to) + (if from <= times[|times| - 1] < to then 1 else 0)
  }

  function InWindow(cfg: Config, s: System): nat {
    CountIn(s.recorded, s.b.windowStart, s.b.windowStart + cfg.windowMs)
  }

  predicate Inv(cfg: Config, s: System) {
    && s.clock >= 0 && s.b.windowStart >= 0
    && s.b.windowStart <= s.clock && s.b.lastFailureTime <= s.clock
    && (s.b.windowStart == 0 ==> s.recorded == [])
    && (forall i :: 0 <= i < |s.recorded| ==>
          s.recorded[i] <= s.clock && s.recorded[i] < s.b.windowStart + cfg.windowMs)
    && s.b.failures == InWindow(cfg, s)
    && (s.b.state == Closed ==> s.b.failures < cfg.failureThreshold)
    && (s.b.state == Open ==> s.b.lastFailureTime > 0)
  }

  lemma {:induction false} NoneInWindow(times: seq<int>, from: int, to: int)
    requires forall i :: 0 <= i < |times| ==> times[i] < from
    ensures CountIn(times, from, to) == 0
  {
    if |times| == 0 {
    } else {
      NoneInWindow(times[..|times| - 1], from, to);
    }
  }

  lemma CountAppend(times: seq<int>, t: int, from: int, to: int)
    ensures CountIn(times + [t], from, to) == CountIn(times, from, to) + if from <= t < to then 1 else 0
  {
    assert (times + [t])[..|times|] == times;
  }

  // A failure is counted in the window it falls into, old or new.
  lemma FailureIsCounted(cfg: Config, b: Breaker, recorded: seq<int>, now: int)
    requires b.windowStart == 0 ==> recorded == []
    requires forall i :: 0 <= i < |recorded| ==> recorded[i] < b.windowStart + cfg.windowMs
    requires b.failures == CountIn(recorded, b.windowStart, b.windowStart + cfg.windowMs)
    requires 0 <= b.windowStart <= now && 0 < now && cfg.windowMs > 0
    ensures var c := RecordFailure(b, cfg, now);
            c.failures == CountIn(recorded + [now], c.windowStart, c.windowStart + cfg.windowMs)
  {
    hide CountIn;
    var renewed := b.windowStart == 0 || now - b.windowStart >= cfg.windowMs;
    var from := if renewed then now else b.windowStart;
    var to := from + cfg.windowMs;
    CountAppend(recorded, now, from, to);
    if renewed { NoneInWindow(recorded, from, to); }
  }

  // What recording does to the rest of the breaker.
  lemma RecordedShape(cfg: Config, b: Breaker, now: int)
    ensures var c := RecordFailure(b, cfg, now);
            && c.lastFailureTime == now
            && c.windowStart ==
               (if b.windowStart == 0 || now - b.windowStart >= cfg.windowMs then now else b.windowStart)
            && (c.state == Closed ==> c.failures < cfg.failureThreshold)
            && (c.state == Open || c.state == b.state)
  {
  }

  // Every step keeps the count exact and a closed breaker below its threshold.
  lemma StepKeepsInv(cfg: Config, s: System, e: Event)
    requires cfg.Valid() && Inv(cfg, s) && Enabled(s, e)
    ensures Inv(cfg, Step(cfg, s, e))
  {
    hide CountIn, RecordFailure;
    var t := Step(cfg, s, e);
    NoneInWindow([], t.b.windowStart, t.b.windowStart + cfg.windowMs);
    if e.CallDone? && !e.succeeded { RecordedShape(cfg, s.b, e.now); FailureIsCounted(cfg, s.b, s.recorded, e.now); }
  }

  lemma {:induction false} RunKeepsInv(cfg: Config, s: System, es: seq<Event>)
    requires cfg.Valid() && Inv(cfg, s) && IsRun(cfg, s, es)
    ensures Inv(cfg, After(cfg, s, es))
    decreases |es|
  {
    if |es| == 0 {
    } else {
      StepKeepsInv(cfg, s, es[0]);
      RunKeepsInv(cfg, Step(cfg, s, es[0]), es[1..]);
    }
  }

  // In every state any interleaving can reach, `failures` is the number of
  // failures recorded inside the current window, and a closed breaker has fewer
  // of them than the threshold.
  lemma FailuresAreCounted(cfg: Config, es: seq<Event>)
    requires cfg.Valid() && IsRun(cfg, START, es)
    ensures var s := After(cfg, START, es);
            && s.b.failures == InWindow(cfg, s)
            && (s.b.state == Closed ==> InWindow(cfg, s) < cfg.failureThreshold)
  {
    RunKeepsInv(cfg, START, es);
  }

  // Whatever interleaving led here, the breaker opens only on a failed probe, or
  // on a failure that makes at least `failureThreshold` of them in one window.
  lemma TripsAreJustified(cfg: Config, es: seq<Event>, e: Event)
    requires cfg.Valid() && IsRun(cfg, START, es) && Enabled(After(cfg, START, es), e)
    ensures var s := After(cfg, START, es);
            var t := Step(cfg, s, e);
            s.b.state != Open && t.b.state == Open ==>
              || (e.ProbeDone? && !e.succeeded)
              || (&& e.CallDone? && !e.succeeded
                  && t.recorded == s.recorded + [e.now]
                  && t.b.windowStart <= e.now < t.b.windowStart + cfg.windowMs
                  && InWindow(cfg, t) >= cfg.failureThreshold)
  {
    RunKeepsInv(cfg, START, es);
    StepKeepsInv(cfg, After(cfg, START, es), e);
  }

  // From closed or half-open, a failed call opens the breaker exactly when it brings
  // the failures of its window to the threshold.
  lemma OpensAtThreshold(cfg: Config, es: seq<Event>, began: int, now: int)
    requires cfg.Valid() && IsRun(cfg, START, es) && After(cfg, START, es).b.state != Open
    requires Enabled(After(cfg, START, es), CallDone(false, began, now))
    ensures var s := After(cfg, START, es);
            var t := Step(cfg, s, CallDone(false, began, now));
            && (t.b.state == Open <==> InWindow(cfg, t) >= cfg.failureThreshold)
            && (t.b.state != Open ==> t.b.state == s.b.state)
            && t.recorded == s.recorded + [now] && t.b.lastFailureTime == now
            && t.calls + multiset{began} == s.calls && t.probes == s.probes
  {
    RunKeepsInv(cfg, START, es);
    StepKeepsInv(cfg, After(cfg, START, es), CallDone(false, began, now));
  }

  // A success forgets the failures of a window exactly when the window was over before
  // its call began.
  lemma SuccessForgetsExpired(cfg: Config, es: seq<Event>, began: int, now: int)
    requires cfg.Valid() && IsRun(cfg, START, es)
    requires Enabled(After(cfg, START, es), CallDone(true, began, now))
    ensures var s := After(cfg, START, es);
            var t := Step(cfg, s, CallDone(true, began, now));
            && (s.b.windowStart > 0 ==>
                  (t.recorded == [] <==> s.recorded == [] || s.b.windowStart + cfg.windowMs <= began))
            && (t.recorded != [] ==> t.recorded == s.recorded && InWindow(cfg, t) == InWindow(cfg, s))
            && t.b.state == s.b.state && t.b.lastFailureTime == s.b.lastFailureTime
            && t.calls + multiset{began} == s.calls && t.probes == s.probes
  {
    RunKeepsInv(cfg, START, es);
  }

  // ---- recovery ----

  // An open breaker starts a function again exactly from the end of its cooldown on.
  // That function is a probe; its success leaves a closed breaker without failures,
  // which then lets ordinary calls through.
  lemma RecoversAfterCooldown(cfg: Config, before: seq<Event>, now: int, done: int, next: int)
    requires cfg.Valid() && IsRun(cfg, START, before) && After(cfg, START, before).b.state == Open
    requires After(cfg, START, before).clock <= now <= done <= next && 0 < now
    ensures var s := After(cfg, START, before);
            var t := Step(cfg, s, Start(now));
            && (Starts(cfg, s, Start(now)) <==> now >= s.b.lastFailureTime + cfg.cooldownMs)
            && (Starts(cfg, s, Start(now)) ==>
                  && t.b.state == HalfOpen && t.probes == s.probes + 1 && t.calls == s.calls
                  && Enabled(t, ProbeDone(true, done))
                  && var u := Step(cfg, t, ProbeDone(true, done));
                     && u.b.state == Closed && u.b.failures == 0 && u.recorded == [] && u.probes == s.probes
                     && Step(cfg, u, Start(next)).calls == u.calls + multiset{next})
            && (!Starts(cfg, s, Start(now)) ==> t == s.(clock := now))
  {
    RunKeepsInv(cfg, START, before);
  }

  // ---- the cooldown ----

  predicate Starts(cfg: Config, s: System, e: Event)
    requires Enabled(s, e)
  {
    e.Start? && Enter(s.b, cfg, e.now).1 != Rejected
  }

  // Some wrapped function starts at step i of the run.
  predicate StartsAt(cfg: Config, s: System, es: seq<Event>, i: nat)
    requires i < |es| && IsRun(cfg, s, es)
    decreases |es|
  {
    if i == 0 then Starts(cfg, s, es[0]) else StartsAt(cfg, Step(cfg, s, es[0]), es[1..], i - 1)
  }

  predicate Cooling(s: System) {
    s.b.state == Open && s.probes == 0 && s.b.lastFailureTime <= s.clock
  }

  // While it cools, a wrapped function can only start when the cooldown is over,
  // and a late completion of an older call only pushes that moment further out.
  lemma CoolingStep(cfg: Config, s: System, e: Event) returns (t: System)
    requires Cooling(s) && Enabled(s, e) && !e.ManualReset?
    ensures t == Step(cfg, s, e) && t.clock == e.now
    ensures Starts(cfg, s, e) ==> e.now >= s.b.lastFailureTime + cfg.cooldownMs
    ensures !Starts(cfg, s, e) ==> Cooling(t) && t.b.lastFailureTime >= s.b.lastFailureTime
  {
    t := Step(cfg, s, e);
  }

  lemma {:induction false} ClockIsMonotone(cfg: Config, s: System, es: seq<Event>, i: nat)
    requires IsRun(cfg, s, es) && i < |es|
    ensures es[i].now >= s.clock
    decreases |es|
  {
    if i == 0 {
    } else {
      ClockIsMonotone(cfg, Step(cfg, s, es[0]), es[1..], i - 1);
    }
  }

  predicate NoReset(es: seq<Event>) { forall k :: 0 <= k < |es| ==> !es[k].ManualReset? }

  // From an open breaker with no probe in flight, along any run without a manual
  // reset, no wrapped function starts before cooldownMs after the last failure.
  lemma {:induction false} CooldownIsRespected(cfg: Config, s: System, es: seq<Event>, i: nat)
    requires Cooling(s) && IsRun(cfg, s, es) && NoReset(es)
    requires i < |es| && StartsAt(cfg, s, es, i)
    ensures es[i].now >= s.b.lastFailureTime + cfg.cooldownMs
    decreases |es|
  {
    hide Step, Starts, Cooling, Enabled;
    var t := CoolingStep(cfg, s, es[0]);
    if i == 0 {
    } else {
      var rest := es[1..];
      assert es[i] == rest[i - 1];
      if Starts(cfg, s, es[0]) {
        ClockIsMonotone(cfg, t, rest, i - 1);
      } else {
        CooldownIsRespected(cfg, t, rest, i - 1);
      }
    }
  }

  // Along every run without a manual reset nothing starts before the cooldown is over.
  ghost predicate RespectsCooldown(cfg: Config, s: System) {
    forall es: seq<Event>, i :: 0 <= i < |es| && IsRun(cfg, s, es) && NoReset(es) && StartsAt(cfg, s, es, i) ==>
      es[i].now >= s.b.lastFailureTime + cfg.cooldownMs
  }

  // A probe still in flight can succeed at once and close the breaker, and the next
  // call then starts, whatever is left of the cooldown.
  lemma ProbeInFlightDefeatsCooldown(cfg: Config, s: System) returns (es: seq<Event>)
    requires s.b.state == Open && s.probes > 0
    requires s.clock < s.b.lastFailureTime + cfg.cooldownMs && 1 < s.b.lastFailureTime + cfg.cooldownMs
    ensures |es| == 2 && IsRun(cfg, s, es) && NoReset(es) && StartsAt(cfg, s, es, 1)
    ensures es[1].now < s.b.lastFailureTime + cfg.cooldownMs
  {
    var now := if s.clock > 1 then s.clock else 1;
    es := [ProbeDone(true, now), Start(now)];
    assert es[1..] == [Start(now)] && es[1..][1..] == [];
  }

  // In every reachable open state whose cooldown is not over, the rest of the
  // cooldown is respected exactly when no half-open probe is in flight.
  lemma CooldownHoldsIffNoProbe(cfg: Config, before: seq<Event>)
    requires cfg.Valid() && IsRun(cfg, START, before)
    requires var s := After(cfg, START, before);
             s.b.state == Open && s.clock < s.b.lastFailureTime + cfg.cooldownMs
    ensures var s := After(cfg, START, before); RespectsCooldown(cfg, s) <==> s.probes == 0
  {
    var s := After(cfg, START, before);
    RunKeepsInv(cfg, START, before);
    if s.probes == 0 {
      forall es: seq<Event>, i | 0 <= i < |es| && IsRun(cfg, s, es) && NoReset(es) && StartsAt(cfg, s, es, i)
        ensures es[i].now >= s.b.lastFailureTime + cfg.cooldownMs
      {
        CooldownIsRespected(cfg, s, es, i);
      }
    } else {
      var es := ProbeInFlightDefeatsCooldown(cfg, s);
    }
  }

  // And such states are reached: half-open admits several probes, one fails, and
  // another is still in flight.
  lemma SecondProbeDefeatsCooldown(cooldown: int)
    requires cooldown > 0
    ensures var cfg := Config(1, 1, cooldown);
            var now := 1 + cooldown;
            var before := [Start(1), CallDone(false, 1, 1), Start(now), Start(now), ProbeDone(false, now)];
            var after := [ProbeDone(true, now), Start(now)];
            && IsRun(cfg, START, before)
            && var s := After(cfg, START, before);
            && s.b.state == Open && s.probes == 1 && s.b.lastFailureTime == now
            && IsRun(cfg, s, after)
            && StartsAt(cfg, s, after, 1) && after[1].now < s.b.lastFailureTime + cfg.cooldownMs
  {
    var cfg, now := Config(1, 1, cooldown), 1 + cooldown;
    var after := [ProbeDone(true, now), Start(now)];
    var s1 := System(FRESH, 1, 0, multiset{1}, []);
    var s2 := System(Breaker(Open, 1, 1, 1), 1, 0, multiset{}, [1]);
    var s3 := System(Breaker(HalfOpen, 1, 1, 1), now, 1, multiset{}, [1]);
    var s5 := System(Breaker(Open, 1, now, 1), now, 1, multiset{}, [1]);
    FirstStep(cfg, s3.(probes := 2), ProbeDone(false, now), [], s5, s5);
    FirstStep(cfg, s3, Start(now), [ProbeDone(false, now)], s3.(probes := 2), s5);
    FirstStep(cfg, s2, Start(now), [Start(now), ProbeDone(false, now)], s3, s5);
    assert s1.calls - multiset{1} == multiset{} && s1.recorded + [1] == [1];
    FirstStep(cfg, s1, CallDone(false, 1, 1), [Start(now), Start(now), ProbeDone(false, now)], s2, s5);
    assert START.calls + multiset{1} == multiset{1};
    FirstStep(cfg, START, Start(1), [CallDone(false, 1, 1), Start(now), Start(now), ProbeDone(false, now)], s1, s5);
    assert after[1..] == [Start(now)] && after[1..][1..] == [];
  }

  lemma FirstStep(cfg: Config, s: System, e: Event, rest: seq<Event>, next: System, end: System)
    requires Enabled(s, e) && Step(cfg, s, e) == next
    requires IsRun(cfg, next, rest) && After(cfg, next, rest) == end
    ensures IsRun(cfg, s, [e] + rest) && After(cfg, s, [e] + rest) == end
  {
    assert ([e] + rest)[1..] == rest;
  }
}
