/** The simulated level-controlled tank, over exact reals: float64 rounding is idealised away. The
    square root is given to each step as the number whose square is the level. */
module Tank {
  import opened Bytes
  import opened Server

  const DT := 0.1

  function Max(a: real, b: real): real { if a < b then b else a }

  function Min(a: real, b: real): real { if b < a then b else a }

  ghost predicate IsRoot(r: real, x: real) { r >= 0.0 && r * r == x }

  /** The physical constants, fixed at construction. */
  datatype Plant = Plant(area: real, outletK: real, maxInflow: real, fullScale: real, kp: real, ki: real)

  const DEFAULT_PLANT := Plant(2.0, 0.05, 0.05, 2.5, 0.9, 0.08)

  datatype State = State(level: real, setpoint: real, integral: real)

  const START := State(0.5, 1.5, 0.0)

  // ---- One step ----

  function Control(p: Plant, e: real, integral: real): real { p.kp * e + p.ki * integral }

  /** The controller output before it is clamped to the valve's range. */
  function Demand(p: Plant, s: State): real
  {
    Control(p, s.setpoint - s.level, s.integral + (s.setpoint - s.level) * DT)
  }

  function Valve(p: Plant, s: State): real { Max(0.0, Min(1.0, Demand(p, s))) }

  /** The rise over one step with the valve this far open. */
  function Rise(p: Plant, valve: real, root: real): real
    requires p.area > 0.0
  {
    (valve * p.maxInflow - p.outletK * root) / p.area * DT
  }

  function NextLevel(p: Plant, s: State, root: real): real
    requires p.area > 0.0
  {
    Max(0.0, s.level + Rise(p, Valve(p, s), root))
  }

  function Next(p: Plant, s: State, root: real): State
    requires p.area > 0.0
  {
    State(NextLevel(p, s, root), s.setpoint, s.integral + (s.setpoint - s.level) * DT)
  }

  function Published(p: Plant, s: State): int
    requires p.fullScale > 0.0
  {
    var v := (s.level / p.fullScale * 100.0 * 100.0 + 0.5).Floor;
    if v < 0 then 0 else if v > 65535 then 65535 else v
  }

  // ---- Any schedule ----

  /** What happens to the process: somebody moves the setpoint, or the ticker fires. A tick carries
      the root of the level it finds. */
  datatype Command = SetPoint(meters: real) | Tick(root: real)

  function After(p: Plant, s: State, cmd: Command): State
    requires p.area > 0.0
  {
    match cmd
    case SetPoint(m) => s.(setpoint := m)
    case Tick(r) => Next(p, s, r)
  }

  ghost predicate Schedule(p: Plant, s: State, cmds: seq<Command>)
    requires p.area > 0.0
    decreases |cmds|
  {
    cmds == [] ||
    ((cmds[0].Tick? ==> IsRoot(cmds[0].root, Max(0.0, s.level))) && Schedule(p, After(p, s, cmds[0]), cmds[1..]))
  }

  /** The states a schedule passes through, the first included. */
  ghost function Trace(p: Plant, s: State, cmds: seq<Command>): (run: seq<State>)
    requires p.area > 0.0
    ensures |run| == |cmds| + 1 && run[0] == s
    decreases |cmds|
  {
    if cmds == [] then [s] else [s] + Trace(p, After(p, s, cmds[0]), cmds[1..])
  }

  /** What a register that only the ticks write reads after the k-th command. */
  function Reading(p: Plant, run: seq<State>, cmds: seq<Command>, before: uint16, shown: seq<uint16>, k: nat): int
    requires p.fullScale > 0.0 && k < |cmds| < |run| && k <= |shown|
  {
    if cmds[k].Tick? then Published(p, run[k + 1]) else if k == 0 then before else shown[k - 1]
  }

  ghost predicate Shows(p: Plant, run: seq<State>, cmds: seq<Command>, before: uint16, shown: seq<uint16>)
    requires p.fullScale > 0.0 && |shown| <= |cmds| < |run|
  {
    forall k | 0 <= k < |shown| :: shown[k] == Reading(p, run, cmds, before, shown, k)
  }

  lemma ShowsOneMore(p: Plant, run: seq<State>, cmds: seq<Command>, before: uint16, shown: seq<uint16>, v: uint16)
    requires p.fullScale > 0.0 && |shown| < |cmds| < |run| && Shows(p, run, cmds, before, shown)
    requires v == Reading(p, run, cmds, before, shown, |shown|)
    ensures Shows(p, run, cmds, before, shown + [v])
  {
    hide Published;
    forall k | 0 <= k <= |shown| ensures (shown + [v])[k] == Reading(p, run, cmds, before, shown + [v], k) {
      assert Reading(p, run, cmds, before, shown + [v], k) == Reading(p, run, cmds, before, shown, k);
    }
  }

  class TankProcess {
    const plant: Plant
    var level: real
    var setpoint: real
    var integral: real

    ghost function Current(): State
      reads this
    {
      State(level, setpoint, integral)
    }

    constructor ()
      ensures plant == DEFAULT_PLANT && Current() == START
    {
      plant := DEFAULT_PLANT;
      level, setpoint, integral := 0.5, 1.5, 0.0;
    }

    method SetSetpoint(meters: real)
      modifies this
      ensures Current() == old(Current()).(setpoint := meters)
    {
      setpoint := meters;
    }

    method Step(root: real) returns (newLevel: real)
      requires plant.area > 0.0 && IsRoot(root, Max(0.0, level))
      modifies this
      ensures Current() == Next(plant, old(Current()), root) && newLevel == level
    {
      hide Control, Rise;
      var e := setpoint - level;
      integral := integral + e * DT;
      var valve := Control(plant, e, integral);
      valve := Max(0.0, Min(1.0, valve));
      level := level + Rise(plant, valve, root);
      if level < 0.0 {
        level := 0.0;
      }
      newLevel := level;
    }

    /** Rounding is the floor after adding one half, up to halves below zero, all clamped to 0. */
    method PercentX100() returns (v: int)
      requires plant.fullScale > 0.0
      ensures v == Published(plant, Current()) && 0 <= v <= 65535
    {
      var pct := level / plant.fullScale * 100.0;
      v := (pct * 100.0 + 0.5).Floor;
      if v < 0 {
        v := 0;
      }
      if v > 65535 {
        v := 65535;
      }
    }

    /** The ticker goroutine until it is stopped, the setpoint moving as it may. `shown` is the driven
        register as read after each command: a tick puts the level there, nothing else moves it, and
        no other register is ever touched. */
    method Drive(s: Server, addr: uint16, cmds: seq<Command>) returns (shown: seq<uint16>)
      requires s.Valid() && plant.area > 0.0 && plant.fullScale > 0.0
      requires Schedule(plant, Current(), cmds)
      modifies this, s.holding
      ensures var run := Trace(plant, old(Current()), cmds);
              && Current() == run[|cmds|]
              && |shown| == |cmds| && Shows(plant, run, cmds, old(s.holding[addr]), shown)
      ensures s.holding[..] == if cmds == [] then old(s.holding[..]) else old(s.holding[..])[addr := shown[|cmds| - 1]]
    {
      hide Next, Published, IsRoot;
      shown := [];
      ghost var run := Trace(plant, Current(), cmds);
      assert cmds[0..] == cmds;
      for i := 0 to |cmds|
        invariant Schedule(plant, Current(), cmds[i..])
        invariant run[i..] == Trace(plant, Current(), cmds[i..])
        invariant |shown| == i
        invariant Shows(plant, run, cmds, old(s.holding[addr]), shown)
        invariant s.holding[..] == if i == 0 then old(s.holding[..]) else old(s.holding[..])[addr := shown[i - 1]]
      {
        assert cmds[i..][1..] == cmds[i + 1..];
        assert run[i..][1..] == run[i + 1..];
        match cmds[i] {
          case SetPoint(meters) =>
            SetSetpoint(meters);
          case Tick(root) =>
            var _ := Step(root);
            var v := PercentX100();
            s.SetHolding(addr, v);
        }
        var now := s.GetHolding(addr);
        ShowsOneMore(plant, run, cmds, old(s.holding[addr]), shown, now);
        shown := shown + [now];
      }
    }
  }

  /** The hole in the bottom bounds the level: `cap` is where a full inflow balances the outflow. A
      level at or below cap^2 stays there when the step is short enough, and one above it falls. */
  lemma LevelCapped(p: Plant, s: State, root: real, cap: real)
    requires p.area > 0.0 && p.outletK > 0.0 && p.maxInflow >= 0.0
    requires cap * p.outletK == p.maxInflow && cap >= 0.0
    requires p.outletK * DT <= cap * p.area
    requires s.level >= 0.0 && IsRoot(root, s.level)
    ensures NextLevel(p, s, root) >= 0.0
    ensures NextLevel(p, s, root) <= Max(s.level, cap * cap)
  {
    hide Valve, NextLevel;
    var valve := Valve(p, s);
    ValveIsFraction(p, s);
    LevelByNetFlow(p, s, root, cap);
    StepShort(p, cap);
    Scale(cap, valve, 1.0);
    CapStep(s.level, root, p.outletK / p.area * DT, cap, valve * cap);
  }

  lemma ValveIsFraction(p: Plant, s: State)
    ensures 0.0 <= Valve(p, s) <= 1.0
  {
    hide Demand;
  }

  lemma LevelByNetFlow(p: Plant, s: State, root: real, cap: real)
    requires p.area > 0.0 && cap * p.outletK == p.maxInflow
    ensures NextLevel(p, s, root) == Max(0.0, s.level + p.outletK / p.area * DT * (Valve(p, s) * cap - root))
  {
    hide Valve, Rise;
    NetFlow(p, cap, Valve(p, s), root);
  }

  lemma CapStep(h: real, root: real, c: real, cap: real, inflow: real)
    requires inflow <= cap && 0.0 <= c <= cap && IsRoot(root, h)
    ensures h + c * (inflow - root) <= Max(h, cap * cap)
  {
    Scale(c, inflow - root, cap - root);
    if root >= cap {
      Scale(c, cap - root, 0.0);
      assert c * 0.0 == 0.0;
    } else {
      Scale(cap - root, c, cap + root);
      assert (cap - root) * (cap + root) == cap * cap - root * root;
      assert c * (cap - root) <= cap * cap - root * root;
      assert h == root * root;
    }
  }

  lemma Scale(k: real, a: real, b: real)
    requires k >= 0.0 && a <= b
    ensures k * a <= k * b && a * k <= b * k
  {
    assert k * (b - a) >= 0.0;
  }

  lemma NetFlow(p: Plant, cap: real, valve: real, root: real)
    requires p.area > 0.0 && cap * p.outletK == p.maxInflow
    ensures Rise(p, valve, root) == p.outletK / p.area * DT * (valve * cap - root)
  {
    assert valve * p.maxInflow - p.outletK * root == p.outletK * (valve * cap - root);
    Quotient(p.outletK, p.area, valve * cap - root);
  }

  lemma Quotient(a: real, b: real, x: real)
    requires b > 0.0
    ensures a * x / b == a / b * x
  {
  }

  lemma StepShort(p: Plant, cap: real)
    requires p.area > 0.0 && p.outletK > 0.0 && p.outletK * DT <= cap * p.area
    ensures 0.0 <= p.outletK / p.area * DT <= cap
  {
    assert p.outletK / p.area * DT == p.outletK * DT / p.area;
  }

  lemma {:induction false} LevelCappedForever(p: Plant, s: State, cmds: seq<Command>, cap: real)
    requires p.area > 0.0 && p.outletK > 0.0 && p.maxInflow >= 0.0
    requires cap * p.outletK == p.maxInflow && cap >= 0.0
    requires p.outletK * DT <= cap * p.area
    requires s.level >= 0.0 && Schedule(p, s, cmds)
    ensures forall k | 0 <= k <= |cmds| :: 0.0 <= Trace(p, s, cmds)[k].level <= Max(s.level, cap * cap)
    decreases |cmds|
  {
    hide NextLevel;
    if cmds != [] {
      var s' := After(p, s, cmds[0]);
      if cmds[0].Tick? {
        LevelCapped(p, s, cmds[0].root, cap);
      }
      LevelCappedForever(p, s', cmds[1..], cap);
      var rest, run := Trace(p, s', cmds[1..]), Trace(p, s, cmds);
      assert run == [s] + rest;
      forall k | 0 <= k <= |cmds| ensures 0.0 <= run[k].level <= Max(s.level, cap * cap) {
        if k > 0 {
          assert run[k] == rest[k - 1];
        }
      }
    }
  }

  /** The built tank, under any setpoints at any times: the level stays between 0 and 1 metre and
      the published register between 0 and 4000, so its clamp at 65535 never acts. */
  lemma DefaultTankBounds(cmds: seq<Command>)
    requires Schedule(DEFAULT_PLANT, START, cmds)
    ensures forall k | 0 <= k <= |cmds| ::
              var s := Trace(DEFAULT_PLANT, START, cmds)[k];
              && 0.0 <= s.level <= 1.0 && 0 <= Published(DEFAULT_PLANT, s) <= 4000
              && Published(DEFAULT_PLANT, s) == (4000.0 * s.level + 0.5).Floor
  {
    hide Trace, Schedule, Published;
    LevelCappedForever(DEFAULT_PLANT, START, cmds, 1.0);
    forall k | 0 <= k <= |cmds|
      ensures var s := Trace(DEFAULT_PLANT, START, cmds)[k];
              && 0.0 <= s.level <= 1.0 && 0 <= Published(DEFAULT_PLANT, s) <= 4000
              && Published(DEFAULT_PLANT, s) == (4000.0 * s.level + 0.5).Floor
    {
      PublishedOfLevel(Trace(DEFAULT_PLANT, START, cmds)[k]);
    }
  }

  lemma PublishedOfLevel(s: State)
    requires 0.0 <= s.level <= 1.0
    ensures 0 <= Published(DEFAULT_PLANT, s) <= 4000
    ensures Published(DEFAULT_PLANT, s) == (4000.0 * s.level + 0.5).Floor
  {
    assert s.level / 2.5 * 100.0 * 100.0 == 4000.0 * s.level;
  }

  // ---- With the default setpoint ----

  /** The invariant the code does not show: the unclamped controller output stays above a line in
      the level, steep enough that it has passed 1 long before the level could catch up. */
  ghost predicate Climbing(s: State)
  {
    s.setpoint == 1.5 && 0.5 <= s.level < 1.0 && Demand(DEFAULT_PLANT, s) >= 0.9 + 4.0 * (s.level - 0.5)
  }

  /** From 0.5 m up, with the setpoint left alone, every step raises the level, strictly, and never to
      1 metre: the 1.5 m setpoint is out of reach. */
  lemma ClimbingStep(s: State, root: real)
    requires Climbing(s) && IsRoot(root, Max(0.0, s.level))
    ensures Climbing(Next(DEFAULT_PLANT, s, root))
    ensures s.level < NextLevel(DEFAULT_PLANT, s, root) < 1.0
    ensures Published(DEFAULT_PLANT, s) <= Published(DEFAULT_PLANT, Next(DEFAULT_PLANT, s, root))
  {
    hide Demand, NextLevel, Rise, Published, IsRoot;
    var h, h' := s.level, NextLevel(DEFAULT_PLANT, s, root);
    var s' := Next(DEFAULT_PLANT, s, root);
    RootNear(h, root);
    DefaultStep(s, root);
    DefaultDemand(s);
    DefaultDemand(s');
    assert 0.0 < h' - h <= 0.0025 * (1.0 - root) <= 0.00075;
    PublishedOfLevel(s);
    PublishedOfLevel(s');
  }

  lemma DefaultDemand(s: State)
    ensures Demand(DEFAULT_PLANT, s) == 0.908 * (s.setpoint - s.level) + 0.08 * s.integral
  {
  }

  lemma DefaultStep(s: State, root: real)
    ensures NextLevel(DEFAULT_PLANT, s, root) == Max(0.0, s.level + 0.0025 * (Valve(DEFAULT_PLANT, s) - root))
  {
    hide Demand;
    var valve := Valve(DEFAULT_PLANT, s);
    assert (valve * 0.05 - 0.05 * root) / 2.0 * 0.1 == 0.0025 * (valve - root);
  }

  lemma RootNear(h: real, root: real)
    requires 0.5 <= h < 1.0 && IsRoot(root, Max(0.0, h))
    ensures 0.7 < root < 1.0 && 1.0 - root <= 1.0 - h
    ensures h < 0.525 ==> root < 0.73
  {
    NoLarger(root, 0.7);
    NoLarger(1.0, root);
    NoLarger(0.73, root);
    SquareBelow(h, root);
  }

  lemma SquareBelow(h: real, root: real)
    requires IsRoot(root, h)
    ensures root <= 1.0 ==> h <= root
  {
    if root <= 1.0 {
      Scale(root, root, 1.0);
      assert root * 1.0 == root;
      assert root * root <= root;
    }
  }

  lemma NoLarger(a: real, b: real)
    requires a >= 0.0 && b >= 0.0
    ensures a <= b ==> a * a <= b * b
  {
    if a <= b {
      assert a * (b - a) >= 0.0;
      assert b * (b - a) >= 0.0;
    }
  }

  ghost predicate Rises(s: State, s': State)
  {
    s.level < s'.level < 1.0 && Published(DEFAULT_PLANT, s) <= Published(DEFAULT_PLANT, s')
  }

  predicate OnlyTicks(cmds: seq<Command>) { forall k | 0 <= k < |cmds| :: cmds[k].Tick? }

  ghost predicate Climbs(run: seq<State>)
  {
    && (forall k | 0 <= k < |run| :: Climbing(run[k]))
    && (forall k | 0 <= k < |run| - 1 :: Rises(run[k], run[k + 1]))
  }

  lemma ClimbsFrom(s: State, rest: seq<State>)
    requires Climbing(s) && rest != [] && Rises(s, rest[0]) && Climbs(rest)
    ensures Climbs([s] + rest)
  {
    hide Climbing, Rises;
    var run := [s] + rest;
    forall k | 0 <= k < |run| - 1 ensures Rises(run[k], run[k + 1]) {
      if k > 0 {
        assert run[k] == rest[k - 1] && run[k + 1] == rest[k - 1 + 1];
      }
    }
  }

  lemma {:induction false} ClimbsForever(s: State, cmds: seq<Command>)
    requires Climbing(s) && Schedule(DEFAULT_PLANT, s, cmds) && OnlyTicks(cmds)
    ensures Climbs(Trace(DEFAULT_PLANT, s, cmds))
    decreases |cmds|
  {
    hide Climbing, Published, NextLevel, IsRoot;
    if cmds != [] {
      var s' := After(DEFAULT_PLANT, s, cmds[0]);
      ClimbingStep(s, cmds[0].root);
      ClimbsForever(s', cmds[1..]);
      ClimbsFrom(s, Trace(DEFAULT_PLANT, s', cmds[1..]));
    }
  }

  /** Every run of the tank as built, setpoint untouched: the level rises at every step and stays below
      1 metre, and the driven register never falls. */
  lemma DefaultRunClimbs(cmds: seq<Command>)
    requires Schedule(DEFAULT_PLANT, START, cmds) && OnlyTicks(cmds)
    ensures var run := Trace(DEFAULT_PLANT, START, cmds);
            forall k | 0 <= k < |cmds| :: Rises(run[k], run[k + 1])
  {
    hide Trace, Schedule, Rises, OnlyTicks;
    assert Climbing(START);
    ClimbsForever(START, cmds);
  }

  /** One step of the tank as built, in numbers. */
  lemma DefaultStepInNumbers(s: State, root: real)
    ensures var e := s.setpoint - s.level;
            var u := 0.9 * e + 0.08 * (s.integral + 0.1 * e);
            var valve := if u < 0.0 then 0.0 else if u > 1.0 then 1.0 else u;
            var level := s.level + 0.0025 * (valve - root);
            Next(DEFAULT_PLANT, s, root) == State(if level < 0.0 then 0.0 else level, s.setpoint, s.integral + 0.1 * e)
  {
    DefaultStep(s, root);
    DefaultDemand(s);
  }

  /** The published number is the percentage times 100 to the nearest half, within 16 bits. */
  lemma PublishedExactly(p: Plant, s: State)
    requires p.fullScale > 0.0
    ensures var x := s.level / p.fullScale * 100.0 * 100.0;
            if x < 0.0 then Published(p, s) == 0
            else if x >= 65535.0 then Published(p, s) == 65535
            else -0.5 <= Published(p, s) as real - x <= 0.5
  {
  }
}
