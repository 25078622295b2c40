/**
 * The entity-component-system registry of base.py and the fixed-timestep
 * frame loop of `Engine.start`.
 *
 * Classes are registry keys (`ClassId`); a system class carries its
 * `update_loop` attribute and a component class its `system_cls`, both passed
 * to the operations that read them. The `update` of a system is code the
 * engine calls without seeing: the frame loop records each such call in a
 * trace of `Call`s, in order.
 */
module Base {
  import opened Common
  import Vectors

  /** A Python class used as a key of the registries. */
  type ClassId = string

  /** The fixed step `DELTA` of the settings, in seconds. */
  type TimeStep = d: real | d > 0.0 witness 1.0

  /** The exceptions the registry operations raise. */
  datatype RegistryError = ValueError | AttributeError | KeyError

  /** `system.update(delta)`, as issued by the frame loop. */
  datatype Call = Update(system: System, delta: real)

  // ================================================================ systems

  class System {
    const cls: ClassId
    /** The class attribute `update_loop`; `None` for a class that defines none. */
    const updateLoop: Option<string>
    const engine: Engine
    var components: seq<Component>

    constructor(cls: ClassId, updateLoop: Option<string>, engine: Engine)
      ensures this.cls == cls && this.updateLoop == updateLoop && this.engine == engine
      ensures components == []
    {
      this.cls := cls;
      this.updateLoop := updateLoop;
      this.engine := engine;
      components := [];
    }

    /** `add`: the component goes at the end, the earlier entries stay. */
    method Add(c: Component)
      modifies this
      ensures components == old(components) + [c]
    {
      components := components + [c];
    }
  }

  // ================================================================ the frame loop

  /** Python's `min(elapsed, 1)`: a frame never accounts for more than one second. */
  function Clamp(elapsed: real): (r: real)
    ensures r <= 1.0 && r <= elapsed && (r == elapsed || r == 1.0)
  {
    if elapsed <= 1.0 then elapsed else 1.0
  }

  /** How often `while acum >= DELTA: acum -= DELTA` runs on an accumulator `a`. */
  function Ticks(a: real, d: TimeStep): nat
  {
    if a < d then 0 else (a / d).Floor
  }

  /** `n` steps of `d` seconds, added one at a time as the inner loop adds them. */
  function Steps(n: nat, d: real): real
  {
    if n == 0 then 0.0 else Steps(n - 1, d) + d
  }

  /** Adding `n` steps one at a time gives `n * d`. */
  lemma {:induction false} StepsIsProduct(n: nat, d: real)
    ensures Steps(n, d) == n as real * d
  {
    if n > 0 {
      StepsIsProduct(n - 1, d);
    }
  }

  /** `m` steps and `n` more are `m + n` steps. */
  lemma {:induction false} StepsAdd(m: nat, n: nat, d: real)
    ensures Steps(m + n, d) == Steps(m, d) + Steps(n, d)
  {
    if n > 0 {
      StepsAdd(m, n - 1, d);
    }
  }

  /** A multiple of the step that fits in `a` is at most the quotient's floor. */
  lemma FloorAtLeast(k: int, a: real, d: TimeStep)
    requires k as real * d <= a
    ensures k <= (a / d).Floor
  {
    var q := a / d;
    Vectors.QuotientTimes(a, d);
    if q < k as real {
      Vectors.PositiveProduct(k as real - q, d);
    }
  }

  /** `t` whole steps and a remainder below one step: `t` is the quotient's floor. */
  lemma FloorExact(t: int, a: real, d: TimeStep)
    requires t as real * d <= a < (t + 1) as real * d
    ensures (a / d).Floor == t
  {
    FloorAtLeast(t, a, d);
    var q := a / d;
    Vectors.QuotientTimes(a, d);
    if q >= (t + 1) as real {
      Vectors.NonNegativeProduct(q - (t + 1) as real, d);
    }
  }

  /** At least one step fits in `a` when `k >= 1` steps do. */
  lemma StepsAtLeastOne(k: nat, d: TimeStep)
    requires 0 < k
    ensures d <= k as real * d
  {
    Vectors.NonNegativeProduct((k - 1) as real, d);
    assert (k - 1) as real * d == k as real * d - d;
  }

  /** When `k >= 1` whole steps fit in `a`, the inner loop runs at least `k` times. */
  lemma TicksAtLeast(k: nat, a: real, d: TimeStep)
    requires 0 < k && Steps(k, d) <= a
    ensures k <= Ticks(a, d)
  {
    StepsIsProduct(k, d);
    StepsAtLeastOne(k, d);
    FloorAtLeast(k, a, d);
  }

  /** `t` whole steps and less than one more fit in `a`: the inner loop runs `t` times. */
  lemma TicksExact(t: nat, a: real, d: TimeStep)
    requires Steps(t, d) <= a < Steps(t, d) + d
    ensures Ticks(a, d) == t
  {
    StepsIsProduct(t, d);
    StepsIsProduct(t + 1, d);
    if t > 0 {
      StepsAtLeastOne(t, d);
      FloorExact(t, a, d);
    }
  }

  /**
   * The inner loop consumes every whole step of a non-negative accumulator,
   * leaving less than one step, and nothing of an accumulator below one step.
   */
  lemma TicksConsumeWholeSteps(a: real, d: TimeStep)
    ensures a < d ==> Ticks(a, d) == 0
    ensures a >= 0.0 ==> Steps(Ticks(a, d), d) <= a < Steps(Ticks(a, d), d) + d
  {
    var t := Ticks(a, d);
    StepsIsProduct(t, d);
    if a >= d {
      FloorAtLeast(1, a, d);
      var q := a / d;
      Vectors.QuotientTimes(a, d);
      var lo, hi := q - t as real, (t + 1) as real - q;
      Vectors.NonNegativeProduct(lo, d);
      Vectors.PositiveProduct(hi, d);
      assert lo * d == a - t as real * d;
      assert hi * d == t as real * d + d - a;
    }
  }

  /** `for system in systems: system.update(delta)`. */
  function Each(systems: seq<System>, delta: real): (r: seq<Call>)
    ensures |r| == |systems|
    ensures forall k :: 0 <= k < |r| ==> r[k] == Update(systems[k], delta)
  {
    seq(|systems|, k requires 0 <= k < |systems| => Update(systems[k], delta))
  }

  /** The calls of `n` passes of the inner loop. */
  function Repeat(calls: seq<Call>, n: nat): (r: seq<Call>)
    ensures |r| == n * |calls|
    ensures forall k :: 0 <= k < |r| ==> r[k] in calls
  {
    if n == 0 then [] else Repeat(calls, n - 1) + calls
  }

  /**
   * The calls of one frame: every fixed system updated by the step once per
   * tick, in list order, then every variable system once by the frame's time.
   */
  function FrameCalls(fixed: seq<System>, variable: seq<System>, ticks: nat, d: TimeStep, frameDelta: real): (r: seq<Call>)
    ensures |r| == ticks * |fixed| + |variable|
    ensures forall k :: 0 <= k < |variable| ==> r[ticks * |fixed| + k] == Update(variable[k], frameDelta)
  {
    Repeat(Each(fixed, d), ticks) + Each(variable, frameDelta)
  }

  /** The sum of the clamped elapsed times of the frames. */
  function ClampedSum(elapsed: seq<real>): real
  {
    if elapsed == [] then 0.0 else ClampedSum(elapsed[..|elapsed| - 1]) + Clamp(elapsed[|elapsed| - 1])
  }

  /** The accumulator of `start` after the frames `elapsed`, from its initial `DELTA`. */
  function AcumAfter(elapsed: seq<real>, d: TimeStep): real
  {
    if elapsed == [] then d
    else
      var a := AcumAfter(elapsed[..|elapsed| - 1], d) + Clamp(elapsed[|elapsed| - 1]);
      a - Steps(Ticks(a, d), d)
  }

  /** The fixed ticks of the last frame of `elapsed`. */
  function LastTicks(elapsed: seq<real>, d: TimeStep): nat
    requires |elapsed| > 0
  {
    Ticks(AcumAfter(elapsed[..|elapsed| - 1], d) + Clamp(elapsed[|elapsed| - 1]), d)
  }

  /** The fixed ticks of all the frames `elapsed`. */
  function TotalTicks(elapsed: seq<real>, d: TimeStep): nat
  {
    if elapsed == [] then 0 else TotalTicks(elapsed[..|elapsed| - 1], d) + LastTicks(elapsed, d)
  }

  /** The calls `start` makes over the frames `elapsed`: each frame's calls, frame after frame. */
  function StartCalls(fixed: seq<System>, variable: seq<System>, elapsed: seq<real>, d: TimeStep): seq<Call>
  {
    if elapsed == [] then []
    else
      var t := LastTicks(elapsed, d);
      StartCalls(fixed, variable, elapsed[..|elapsed| - 1], d) + FrameCalls(fixed, variable, t, d, Steps(t, d))
  }

  /** The count of one more frame added to the count of the earlier frames. */
  lemma CountStep(f: nat, v: nat, ticks: nat, frames: nat, t: nat, before: nat, after: nat)
    requires before == f * ticks + v * frames && after == before + (t * f + v)
    ensures after == f * (ticks + t) + v * (frames + 1)
  {
  }

  /** The state of `start` after the frames `e`: accumulator, calls and ticks, and the time they account for. */
  ghost predicate StartedAs(fixed: seq<System>, variable: seq<System>, e: seq<real>, d: TimeStep,
                            acum: real, calls: seq<Call>, steps: nat)
  {
    acum == AcumAfter(e, d) && calls == StartCalls(fixed, variable, e, d) && steps == TotalTicks(e, d) &&
    Steps(steps, d) + acum == d + ClampedSum(e)
  }

  /** One more frame of `x` seconds extends the state of `start` by that frame. */
  lemma StartStep(fixed: seq<System>, variable: seq<System>, e: seq<real>, x: real, d: TimeStep,
                  acum: real, calls: seq<Call>, steps: nat)
    requires StartedAs(fixed, variable, e, d, acum, calls, steps)
    ensures var t := Ticks(acum + Clamp(x), d);
      StartedAs(fixed, variable, e + [x], d, acum + Clamp(x) - Steps(t, d),
                calls + FrameCalls(fixed, variable, t, d, Steps(t, d)), steps + t)
  {
    var e' := e + [x];
    assert e'[..|e'| - 1] == e && e'[|e'| - 1] == x;
    StepsAdd(steps, Ticks(acum + Clamp(x), d), d);
  }

  /** Every fixed system is called once per fixed tick and every variable system once per frame. */
  lemma {:induction false} StartCallsLength(fixed: seq<System>, variable: seq<System>, elapsed: seq<real>, d: TimeStep)
    ensures |StartCalls(fixed, variable, elapsed, d)| == |fixed| * TotalTicks(elapsed, d) + |variable| * |elapsed|
  {
    if elapsed != [] {
      var prefix := elapsed[..|elapsed| - 1];
      var t := LastTicks(elapsed, d);
      var frame := FrameCalls(fixed, variable, t, d, Steps(t, d));
      StartCallsLength(fixed, variable, prefix, d);
      assert StartCalls(fixed, variable, elapsed, d) == StartCalls(fixed, variable, prefix, d) + frame;
      assert TotalTicks(elapsed, d) == TotalTicks(prefix, d) + t;
      CountStep(|fixed|, |variable|, TotalTicks(prefix, d), |prefix|, t,
                |StartCalls(fixed, variable, prefix, d)|, |StartCalls(fixed, variable, elapsed, d)|);
    }
  }

  /** How many calls of `calls` go to the system `s`, whatever their time. */
  function CallsTo(calls: seq<Call>, s: System): nat
  {
    if calls == [] then 0
    else CallsTo(calls[..|calls| - 1], s) + (if calls[|calls| - 1].system == s then 1 else 0)
  }

  lemma {:induction false} CallsToConcat(a: seq<Call>, b: seq<Call>, s: System)
    ensures CallsTo(a + b, s) == CallsTo(a, s) + CallsTo(b, s)
    decreases |b|
  {
    if b != [] {
      var b' := b[..|b| - 1];
      assert (a + b)[..|a + b| - 1] == a + b';
      assert (a + b)[|a + b| - 1] == b[|b| - 1];
      CallsToConcat(a, b', s);
    } else {
      assert a + b == a;
    }
  }

  /** One pass over `systems` calls `s` once for each time it is listed. */
  lemma {:induction false} CallsToEach(systems: seq<System>, delta: real, s: System)
    ensures CallsTo(Each(systems, delta), s) == multiset(systems)[s]
  {
    if systems != [] {
      var prefix := systems[..|systems| - 1];
      var last := systems[|systems| - 1];
      assert systems == prefix + [last];
      assert Each(systems, delta) == Each(prefix, delta) + [Update(last, delta)];
      CallsToConcat(Each(prefix, delta), [Update(last, delta)], s);
      assert CallsTo([Update(last, delta)], s) == if last == s then 1 else 0 by {
        assert [Update(last, delta)][..0] == [];
      }
      CallsToEach(prefix, delta, s);
    }
  }

  lemma MulSucc(n: nat, c: nat)
    requires n > 0
    ensures n * c == (n - 1) * c + c
  {
  }

  /** `n` passes of the same calls call `s` `n` times as often as one pass. */
  lemma {:induction false} CallsToRepeat(calls: seq<Call>, n: nat, s: System)
    ensures CallsTo(Repeat(calls, n), s) == n * CallsTo(calls, s)
  {
    if n > 0 {
      var c := CallsTo(calls, s);
      CallsToRepeat(calls, n - 1, s);
      CallsToConcat(Repeat(calls, n - 1), calls, s);
      MulSucc(n, c);
    }
  }

  /** One frame calls `s` once per tick for each time it is fixed and once for each time it is variable. */
  lemma CallsToFrame(fixed: seq<System>, variable: seq<System>, t: nat, d: TimeStep, frameDelta: real, s: System)
    ensures CallsTo(FrameCalls(fixed, variable, t, d, frameDelta), s) == t * multiset(fixed)[s] + multiset(variable)[s]
  {
    CallsToConcat(Repeat(Each(fixed, d), t), Each(variable, frameDelta), s);
    CallsToRepeat(Each(fixed, d), t, s);
    CallsToEach(fixed, d, s);
    CallsToEach(variable, frameDelta, s);
  }

  /** `n` times `c`, added one at a time. */
  function Times(n: nat, c: nat): nat
  {
    if n == 0 then 0 else Times(n - 1, c) + c
  }

  lemma {:induction false} TimesIsProduct(n: nat, c: nat)
    ensures Times(n, c) == c * n
  {
    if n > 0 {
      TimesIsProduct(n - 1, c);
      MulSucc(n, c);
    }
  }

  lemma {:induction false} TimesAdd(m: nat, n: nat, c: nat)
    ensures Times(m + n, c) == Times(m, c) + Times(n, c)
  {
    if n > 0 {
      TimesAdd(m, n - 1, c);
    }
  }

  lemma {:induction false} StartCallsToFixedTimes(fixed: seq<System>, variable: seq<System>, elapsed: seq<real>,
                                                  d: TimeStep, s: System)
    requires s !in variable
    ensures CallsTo(StartCalls(fixed, variable, elapsed, d), s) == Times(TotalTicks(elapsed, d), multiset(fixed)[s])
  {
    if elapsed != [] {
      var prefix := elapsed[..|elapsed| - 1];
      var t := LastTicks(elapsed, d);
      var frame := FrameCalls(fixed, variable, t, d, Steps(t, d));
      var before := StartCalls(fixed, variable, prefix, d);
      var f, ticks := multiset(fixed)[s], TotalTicks(prefix, d);
      StartCallsToFixedTimes(fixed, variable, prefix, d, s);
      assert StartCalls(fixed, variable, elapsed, d) == before + frame;
      assert TotalTicks(elapsed, d) == ticks + t;
      CallsToConcat(before, frame, s);
      CallsToFrame(fixed, variable, t, d, Steps(t, d), s);
      assert multiset(variable)[s] == 0;
      TimesIsProduct(t, f);
      TimesAdd(ticks, t, f);
    }
  }

  /** A fixed system that is not also variable is updated once per fixed tick for each time it is listed. */
  lemma StartCallsToFixed(fixed: seq<System>, variable: seq<System>, elapsed: seq<real>, d: TimeStep, s: System)
    requires s !in variable
    ensures CallsTo(StartCalls(fixed, variable, elapsed, d), s) == multiset(fixed)[s] * TotalTicks(elapsed, d)
  {
    StartCallsToFixedTimes(fixed, variable, elapsed, d, s);
    TimesIsProduct(TotalTicks(elapsed, d), multiset(fixed)[s]);
  }

  /** A variable system that is not also fixed is updated once per frame for each time it is listed. */
  lemma {:induction false} StartCallsToVariable(fixed: seq<System>, variable: seq<System>, elapsed: seq<real>,
                                                d: TimeStep, s: System)
    requires s !in fixed
    ensures CallsTo(StartCalls(fixed, variable, elapsed, d), s) == multiset(variable)[s] * |elapsed|
  {
    if elapsed != [] {
      var prefix := elapsed[..|elapsed| - 1];
      var t := LastTicks(elapsed, d);
      var frame := FrameCalls(fixed, variable, t, d, Steps(t, d));
      var before := StartCalls(fixed, variable, prefix, d);
      var v := multiset(variable)[s];
      StartCallsToVariable(fixed, variable, prefix, d, s);
      assert StartCalls(fixed, variable, elapsed, d) == before + frame;
      CallsToConcat(before, frame, s);
      CallsToFrame(fixed, variable, t, d, Steps(t, d), s);
      assert multiset(fixed)[s] == 0;
      CountStep(0, v, 0, |prefix|, t, CallsTo(before, s), CallsTo(before, s) + CallsTo(frame, s));
    }
  }

  /**
   * Over frames of non-negative elapsed time the inner loop accounts for
   * every second: the steps taken plus the accumulator are the initial step
   * plus the clamped elapsed times, and after a frame the accumulator lies
   * in `[0, DELTA)`.
   */
  lemma {:induction false} AcumAccounts(elapsed: seq<real>, d: TimeStep)
    requires forall k :: 0 <= k < |elapsed| ==> elapsed[k] >= 0.0
    ensures Steps(TotalTicks(elapsed, d), d) + AcumAfter(elapsed, d) == d + ClampedSum(elapsed)
    ensures AcumAfter(elapsed, d) >= 0.0
    ensures elapsed != [] ==> AcumAfter(elapsed, d) < d
  {
    if elapsed != [] {
      var prefix := elapsed[..|elapsed| - 1];
      AcumAccounts(prefix, d);
      var a := AcumAfter(prefix, d) + Clamp(elapsed[|elapsed| - 1]);
      TicksConsumeWholeSteps(a, d);
      StepsAdd(TotalTicks(prefix, d), Ticks(a, d), d);
    }
  }

  /** One or more steps are at least one step. */
  lemma {:induction false} StepsAtLeastStep(k: nat, d: TimeStep)
    requires k > 0
    ensures Steps(k, d) >= d
  {
    if k > 1 {
      StepsAtLeastStep(k - 1, d);
    }
  }

  /** Two whole numbers of steps with remainders below one step that add up alike are equal. */
  lemma WholeStepsUnique(m: nat, n: nat, a: real, b: real, d: TimeStep)
    requires Steps(m, d) + a == Steps(n, d) + b
    requires 0.0 <= a < d && 0.0 <= b < d
    ensures m == n
  {
    if m > n {
      StepsAdd(n, m - n, d);
      StepsAtLeastStep(m - n, d);
    } else if n > m {
      StepsAdd(m, n - m, d);
      StepsAtLeastStep(n - m, d);
    }
  }

  /**
   * Fixed-step determinism: two runs of at least one frame each, with
   * non-negative elapsed times and the same clamped total, take the same
   * number of fixed ticks and leave the same accumulator, however the time
   * was split into frames. The total is the clamped one: a frame longer than
   * one second loses the excess (see `ClampLosesTime`).
   */
  lemma TicksDeterministic(e1: seq<real>, e2: seq<real>, d: TimeStep)
    requires e1 != [] && e2 != []
    requires forall k :: 0 <= k < |e1| ==> e1[k] >= 0.0
    requires forall k :: 0 <= k < |e2| ==> e2[k] >= 0.0
    requires ClampedSum(e1) == ClampedSum(e2)
    ensures TotalTicks(e1, d) == TotalTicks(e2, d)
    ensures AcumAfter(e1, d) == AcumAfter(e2, d)
  {
    AcumAccounts(e1, d);
    AcumAccounts(e2, d);
    WholeStepsUnique(TotalTicks(e1, d), TotalTicks(e2, d), AcumAfter(e1, d), AcumAfter(e2, d), d);
  }

  /**
   * The clamp makes the split matter for frames over one second: two seconds
   * in one frame give two ticks of one second, the same two seconds in two
   * frames give three (the first frame starts from a full step).
   */
  lemma ClampLosesTime()
    ensures TotalTicks([2.0], 1.0) == 2 && TotalTicks([1.0, 1.0], 1.0) == 3
  {
    assert [1.0, 1.0][..1] == [1.0];
    assert [2.0][..0] == [] && [1.0][..0] == [];
  }

  class Engine {
    const delta: TimeStep
    /** The most recently attached system of each class. */
    var systems: map<ClassId, System>
    var fixed: seq<System>
    var variable: seq<System>
    var running: bool
    /** The accumulator of `start`, carried from one frame to the next. */
    var acum: real

    /**
     * Every registered system is the one attached under its class, belongs
     * to this engine and sits in the list its `update_loop` names.
     */
    ghost predicate Valid()
      reads this
    {
      (forall s :: s in fixed ==> s.engine == this && s.updateLoop == Some("fixed")) &&
      (forall s :: s in variable ==> s.engine == this && s.updateLoop == Some("variable")) &&
      (forall c :: c in systems ==> systems[c].cls == c && (systems[c] in fixed || systems[c] in variable))
    }

    constructor(delta: TimeStep)
      ensures Valid() && this.delta == delta
      ensures systems == map[] && fixed == [] && variable == [] && !running
    {
      this.delta := delta;
      systems, fixed, variable := map[], [], [];
      running, acum := false, 0.0;
    }

    /**
     * `attach`: builds the system, files it under `fixed` or `variable` by
     * its `update_loop`, and records it as the system of its class. A
     * second system of a class replaces the first in `systems`, while the
     * first stays in its list.
     */
    method Attach(cls: ClassId, updateLoop: Option<string>) returns (r: Result<System, RegistryError>)
      requires Valid()
      modifies this
      ensures Valid()
      ensures r.Ok? <==> updateLoop == Some("fixed") || updateLoop == Some("variable")
      ensures r.Err? ==> r.error == (if updateLoop.None? then AttributeError else ValueError)
      ensures r.Err? ==> systems == old(systems) && fixed == old(fixed) && variable == old(variable)
      ensures r.Ok? ==> fresh(r.value) && r.value.components == []
      ensures r.Ok? ==> r.value.cls == cls && r.value.updateLoop == updateLoop && r.value.engine == this
      ensures r.Ok? ==> systems == old(systems)[cls := r.value]
      ensures r.Ok? && updateLoop == Some("fixed") ==> fixed == old(fixed) + [r.value] && variable == old(variable)
      ensures r.Ok? && updateLoop == Some("variable") ==> variable == old(variable) + [r.value] && fixed == old(fixed)
      ensures running == old(running) && acum == old(acum)
    {
      var system := new System(cls, updateLoop, this);
      if updateLoop == Some("fixed") {
        fixed := fixed + [system];
      } else if updateLoop == Some("variable") {
        variable := variable + [system];
      } else if updateLoop.None? {
        return Err(AttributeError);
      } else {
        return Err(ValueError);
      }
      systems := systems[cls := system];
      r := Ok(system);
    }

    /** `new()` with no entity class: a fresh entity of this engine, without components. */
    method New() returns (e: Entity)
      ensures fresh(e) && e.engine == this && e.components == map[]
    {
      e := new Entity(this);
    }

    /** `for system in systems: system.update(d)`: one call per system, in list order. */
    method Dispatch(systems: seq<System>, d: real) returns (calls: seq<Call>)
      ensures calls == Each(systems, d)
    {
      calls := [];
      var k := 0;
      while k < |systems|
        invariant k <= |systems|
        invariant calls == Each(systems, d)[..k]
      {
        calls := calls + [Update(systems[k], d)];
        k := k + 1;
      }
      assert Each(systems, d)[..k] == Each(systems, d);
    }

    /**
     * The inner loop of a frame: while a whole step is left in the
     * accumulator, take it out, add it to the frame's time and update every
     * fixed system by the step.
     */
    method FixedSteps() returns (frameDelta: real, calls: seq<Call>)
      modifies this`acum
      ensures frameDelta == Steps(Ticks(old(acum), delta), delta)
      ensures acum == old(acum) - frameDelta
      ensures acum < delta && (old(acum) >= 0.0 ==> 0.0 <= acum)
      ensures calls == Repeat(Each(fixed, delta), Ticks(old(acum), delta))
    {
      ghost var a0 := acum;
      ghost var total := Ticks(a0, delta);
      TicksConsumeWholeSteps(a0, delta);
      ghost var steps := Each(fixed, delta);
      frameDelta := 0.0;
      calls := [];
      ghost var ticks := 0;
      while acum >= delta
        invariant ticks <= total
        invariant frameDelta == Steps(ticks, delta) && acum == a0 - frameDelta
        invariant ticks > 0 ==> acum >= 0.0
        invariant calls == Repeat(steps, ticks)
        decreases total - ticks
      {
        TicksAtLeast(ticks + 1, a0, delta);
        acum := acum - delta;
        frameDelta := frameDelta + delta;
        var more := Dispatch(fixed, delta);
        calls := calls + more;
        ticks := ticks + 1;
      }
      if ticks > 0 {
        TicksExact(ticks, a0, delta);
      }
    }

    /**
     * One pass of the outer loop of `start`, given the clock's elapsed
     * seconds: the accumulator grows by at most one second, then every whole
     * step is consumed, each step updating the fixed systems; the variable
     * systems then receive the time consumed. Returns that time and the
     * calls made.
     */
    method Frame(elapsed: real) returns (frameDelta: real, calls: seq<Call>)
      modifies this`acum
      ensures frameDelta == Steps(Ticks(old(acum) + Clamp(elapsed), delta), delta)
      ensures acum == old(acum) + Clamp(elapsed) - frameDelta
      ensures acum < delta && (old(acum) + Clamp(elapsed) >= 0.0 ==> 0.0 <= acum)
      ensures calls == FrameCalls(fixed, variable, Ticks(old(acum) + Clamp(elapsed), delta), delta, frameDelta)
    {
      acum := acum + Clamp(elapsed);
      frameDelta, calls := FixedSteps();
      var rest := Dispatch(variable, frameDelta);
      calls := calls + rest;
    }

    /**
     * `start`: the accumulator starts at one step and the engine runs one
     * frame per entry of `elapsed` (the clock's readings, until a system
     * stops the engine). No simulated time is lost or invented: the steps
     * taken plus what is left in the accumulator are the initial step plus
     * the clamped elapsed times. The model is a prefix of the run: it ends
     * after the given frames with the engine still running, where the source
     * returns only once `stop()` has set `is_running` to false.
     */
    method Start(elapsed: seq<real>) returns (calls: seq<Call>, ghost steps: nat)
      modifies this`acum, this`running
      ensures running
      ensures acum == AcumAfter(elapsed, delta)
      ensures calls == StartCalls(fixed, variable, elapsed, delta)
      ensures steps == TotalTicks(elapsed, delta)
      ensures Steps(steps, delta) + acum == delta + ClampedSum(elapsed)
      ensures |elapsed| > 0 && (forall k :: 0 <= k < |elapsed| ==> elapsed[k] >= 0.0) ==> 0.0 <= acum < delta
    {
      acum := delta;
      running := true;
      calls, steps := [], 0;
      var i := 0;
      while i < |elapsed|
        invariant i <= |elapsed| && running
        invariant StartedAs(fixed, variable, elapsed[..i], delta, acum, calls, steps)
        invariant (forall k :: 0 <= k < i ==> elapsed[k] >= 0.0) ==> acum >= 0.0
        invariant i > 0 ==> acum < delta
      {
        ghost var a := acum + Clamp(elapsed[i]);
        StartStep(fixed, variable, elapsed[..i], elapsed[i], delta, acum, calls, steps);
        var frameDelta, frameCalls := Frame(elapsed[i]);
        calls := calls + frameCalls;
        steps := steps + Ticks(a, delta);
        assert elapsed[..i + 1] == elapsed[..i] + [elapsed[i]];
        i := i + 1;
      }
      assert elapsed[..i] == elapsed;
    }
  }

  // ================================================================ components and entities

  class Component {
    const cls: ClassId
    /** The class attribute `system_cls`. */
    const systemCls: ClassId
    const entity: Entity
    const engine: Engine
    const system: System

    /** `Component.__init__` once its system is found: binds to the entity and joins the system. */
    constructor(cls: ClassId, systemCls: ClassId, entity: Entity)
      requires systemCls in entity.engine.systems
      modifies entity.engine.systems[systemCls]
      ensures this.cls == cls && this.systemCls == systemCls && this.entity == entity
      ensures engine == entity.engine && system == entity.engine.systems[systemCls]
      ensures system.components == old(entity.engine.systems[systemCls].components) + [this]
    {
      this.cls := cls;
      this.systemCls := systemCls;
      this.entity := entity;
      engine := entity.engine;
      system := entity.engine.systems[systemCls];
      new;
      system.Add(this);
    }
  }

  /** The system a component of `systemCls` joins, if its engine has one. */
  function SystemFor(engine: Engine, systemCls: ClassId): set<System>
    reads engine
  {
    if systemCls in engine.systems then {engine.systems[systemCls]} else {}
  }

  /**
   * Constructing a component: `KeyError` when the engine has no system of
   * its `system_cls`, and nothing changes; otherwise the new component is
   * appended to that system.
   */
  method NewComponent(cls: ClassId, systemCls: ClassId, entity: Entity) returns (r: Result<Component, RegistryError>)
    modifies SystemFor(entity.engine, systemCls)
    ensures r.Err? <==> systemCls !in entity.engine.systems
    ensures r.Err? ==> r.error == KeyError
    ensures r.Ok? ==> fresh(r.value) && r.value.cls == cls && r.value.entity == entity
    ensures r.Ok? ==> r.value.system == entity.engine.systems[systemCls]
    ensures r.Ok? ==> r.value.system.components == old(entity.engine.systems[systemCls].components) + [r.value]
  {
    if systemCls !in entity.engine.systems {
      return Err(KeyError);
    }
    var c := new Component(cls, systemCls, entity);
    r := Ok(c);
  }

  class Entity {
    const engine: Engine
    /** The most recently attached component of each class. */
    var components: map<ClassId, Component>

    constructor(engine: Engine)
      ensures this.engine == engine && components == map[]
    {
      this.engine := engine;
      components := map[];
    }

    /**
     * `attach`: constructs the component and stores it under its class,
     * replacing any earlier one (which stays in its system's list).
     */
    method Attach(cls: ClassId, systemCls: ClassId) returns (r: Result<Component, RegistryError>)
      modifies this, SystemFor(engine, systemCls)
      ensures r.Err? <==> systemCls !in engine.systems
      ensures r.Err? ==> r.error == KeyError && components == old(components)
      ensures r.Ok? ==> fresh(r.value) && r.value.cls == cls && r.value.entity == this
      ensures r.Ok? ==> components == old(components)[cls := r.value]
      ensures r.Ok? ==> r.value.system == engine.systems[systemCls]
      ensures r.Ok? ==> r.value.system.components == old(engine.systems[systemCls].components) + [r.value]
    {
      r := NewComponent(cls, systemCls, this);
      if r.Ok? {
        components := components[cls := r.value];
      }
    }

    /** `cls in entity`. */
    predicate Contains(cls: ClassId)
      reads this
    {
      cls in components
    }

    /** `entity[cls]`: the component stored under `cls`, or `None`. */
    function Get(cls: ClassId): (r: Option<Component>)
      reads this
      ensures r.Some? <==> Contains(cls)
      ensures r.Some? ==> r.value == components[cls] && r.value in components.Values
    {
      if cls in components then Some(components[cls]) else None
    }
  }
}
