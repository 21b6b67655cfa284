/** The write side of the command line: the confirmation gate, the write stream and its dry run. */
module CliApp {
  import opened Wrappers
  import opened Text
  import opened Driver
  import opened Journeys

  /** ExitFor stands for the code classifyErr picks for a driver error. */
  datatype Exit = ExitOK | ExitUsage | ExitWriteAborted | ExitIO | ExitFor(error: DriverError)

  // ---- The stream ----

  predicate Skipped(lit: string) { lit == "" || lit[0] == '#' }

  /** The literals of a stream: its lines trimmed, without blanks and comments. */
  function Literals(lines: seq<string>): seq<string>
  {
    if lines == [] then [] else
    var lit := TrimSpace(lines[0]);
    (if Skipped(lit) then [] else [lit]) + Literals(lines[1..])
  }

  /** A line is a write unless, with the white space around it taken off, it is empty or begins with '#'. */
  lemma {:induction false} OneMoreLine(lines: seq<string>, l: string)
    ensures var lit := TrimSpace(l);
            Literals(lines + [l]) == Literals(lines) + if lit == "" || lit[0] == '#' then [] else [lit]
  {
    hide TrimSpace;
    if lines == [] {
      assert (lines + [l])[1..] == [];
    } else {
      assert (lines + [l])[1..] == lines[1..] + [l];
      OneMoreLine(lines[1..], l);
    }
  }

  predicate IsWrite(line: string)
  {
    var lit := TrimSpace(line);
    lit != "" && lit[0] != '#'
  }

  /** How many of these lines are writes. */
  function Writes(lines: seq<string>): nat
  {
    if lines == [] then 0 else Writes(lines[..|lines| - 1]) + if IsWrite(lines[|lines| - 1]) then 1 else 0
  }

  /** The n-th line, if it is a write, is the literal at its place among the writes. */
  lemma {:induction false} LineIsLiteral(lines: seq<string>, n: nat)
    requires n < |lines|
    ensures |Literals(lines)| == Writes(lines)
    ensures IsWrite(lines[n]) ==>
              Writes(lines[..n]) < Writes(lines) && Literals(lines)[Writes(lines[..n])] == TrimSpace(lines[n])
  {
    hide TrimSpace, Literals;
    var last := |lines| - 1;
    assert lines == lines[..last] + [lines[last]];
    OneMoreLine(lines[..last], lines[last]);
    if last == 0 {
      NoLines(lines[..0]);
    } else {
      LineIsLiteral(lines[..last], if n < last then n else 0);
      assert n < last ==> lines[..last][..n] == lines[..n];
    }
  }

  lemma NoLines(lines: seq<string>)
    requires lines == []
    ensures Literals(lines) == [] && Writes(lines) == 0
  {
  }

  /** What surrounds a stream: how each write travels, which acknowledgements can be printed, and
      whether the input ends in a read error. */
  datatype Setting = Setting(journey: nat -> Journey, printed: nat -> bool, scanFails: bool)

  function StreamFrom(opt: Options, spec: string, lits: seq<string>, env: Setting, i: nat, world: World): (Exit, World)
    requires world.tables.Valid()
    decreases |lits|
  {
    if lits == [] then (if env.scanFails then ExitIO else ExitOK, world) else
    var (world', r) := WriteOnce(opt, world, spec, lits[0], env.journey(i));
    if r.Err? then (ExitFor(r.error), world')
    else if !env.printed(i) then (ExitIO, world')
    else TablesStayValid(opt, world, spec, lits[0], env.journey(i)); StreamFrom(opt, spec, lits[1..], env, i + 1, world')
  }

  method RunWriteStream(opt: Options, spec: string, lines: seq<string>, env: Setting, start: World)
      returns (code: Exit, world: World)
    requires start.tables.Valid()
    ensures (code, world) == StreamFrom(opt, spec, Literals(lines), env, 0, start)
  {
    hide WriteOnce, TrimSpace;
    world := start;
    var writes := 0;
    for line := 0 to |lines|
      invariant world.tables.Valid()
      invariant StreamFrom(opt, spec, Literals(lines), env, 0, start) ==
                StreamFrom(opt, spec, Literals(lines[line..]), env, writes, world)
    {
      assert lines[line..][1..] == lines[line + 1..];
      var lit := TrimSpace(lines[line]);
      if Skipped(lit) {
        assert Literals(lines[line..]) == Literals(lines[line + 1..]);
        continue;
      }
      assert Literals(lines[line..])[1..] == Literals(lines[line + 1..]);
      TablesStayValid(opt, world, spec, lit, env.journey(writes));
      var (after, r) := WriteOnce(opt, world, spec, lit, env.journey(writes));
      world := after;
      if r.Err? {
        return ExitFor(r.error), world;
      }
      if !env.printed(writes) {
        return ExitIO, world;
      }
      writes := writes + 1;
    }
    if env.scanFails {
      return ExitIO, world;
    }
    return ExitOK, world;
  }

  // ---- The dry run ----

  function DryRunFrom(opt: Options, spec: string, lits: seq<string>, printed: nat -> bool, i: nat): (bool, seq<WritePlan>)
    decreases |lits|
  {
    if lits == [] then (true, []) else
    var (ok, plans) := DryRunFrom(opt, spec, lits[1..], printed, i + 1);
    match Plan(opt, spec, lits[0])
    case Err(_) => (false, plans)
    case Ok(plan) => if printed(i) then (ok, [plan] + plans) else (false, plans)
  }

  function DryRun(opt: Options, spec: string, lines: seq<string>, printed: nat -> bool, scanFails: bool): (Exit, seq<WritePlan>)
  {
    var (ok, plans) := DryRunFrom(opt, spec, Literals(lines), printed, 0);
    (if scanFails then ExitIO else if ok then ExitOK else ExitUsage, plans)
  }

  /** One value, or the stream. The exit codes differ: a plan that cannot be printed is an I/O error
      for one value and a usage error in a stream. */
  method RunDryRun(fromStdin: bool, opt: Options, spec: string, value: string, lines: seq<string>, printed: nat -> bool, scanFails: bool)
      returns (code: Exit, plans: seq<WritePlan>)
    ensures fromStdin ==> (code, plans) == DryRun(opt, spec, lines, printed, scanFails)
    ensures !fromStdin ==>
              match Plan(opt, spec, value)
              case Err(_) => code == ExitUsage && plans == []
              case Ok(plan) => if printed(0) then code == ExitOK && plans == [plan] else code == ExitIO && plans == []
  {
    hide Plan, TrimSpace;
    plans := [];
    if !fromStdin {
      var plan := Plan(opt, spec, value);
      if plan.Err? {
        return ExitUsage, [];
      }
      if !printed(0) {
        return ExitIO, [];
      }
      return ExitOK, [plan.value];
    }
    var hadErr := false;
    var explained := 0;
    ghost var whole := DryRunFrom(opt, spec, Literals(lines), printed, 0);
    for line := 0 to |lines|
      invariant var rest := DryRunFrom(opt, spec, Literals(lines[line..]), printed, explained);
                whole.1 == plans + rest.1 && whole.0 == (!hadErr && rest.0)
    {
      assert lines[line..][1..] == lines[line + 1..];
      var lit := TrimSpace(lines[line]);
      if Skipped(lit) {
        assert Literals(lines[line..]) == Literals(lines[line + 1..]);
        continue;
      }
      assert Literals(lines[line..])[1..] == Literals(lines[line + 1..]);
      var plan := Plan(opt, spec, lit);
      if plan.Ok? && printed(explained) {
        plans := plans + [plan.value];
      } else {
        hadErr := true;
      }
      explained := explained + 1;
    }
    assert lines[|lines|..] == [] && plans + [] == plans;
    code := if scanFails then ExitIO else if hadErr then ExitUsage else ExitOK;
  }

  // ---- The gate ----

  /** The operator's side: the flags, whether stdin is a terminal, and what is typed at the prompt
      (None at end of input) or whether reading it fails. */
  datatype Operator = Operator(confirm: bool, fromStdin: bool, interactive: bool, typed: Option<string>, readFails: bool)

  /** Explicit confirmation: the flag, or a yes typed at a terminal that is not also the data. */
  predicate Confirmed(op: Operator)
  {
    op.confirm || (!op.fromStdin && op.interactive && op.typed.Some? && Word(op.typed.value) in {"y", "yes"})
  }

  /** Only y and yes, in capitals or not and with white space around them, typed at a terminal that is not
      also the data, stand for the flag. */
  lemma ConfirmedExactly(op: Operator)
    ensures Confirmed(op) <==>
            op.confirm
            || (!op.fromStdin && op.interactive && op.typed.Some?
                && (AnyCase(TrimSpace(op.typed.value), "y") || AnyCase(TrimSpace(op.typed.value), "yes")))
  {
    hide TrimSpace;
    if op.typed.Some? {
      LowersExactly(TrimSpace(op.typed.value), "y");
      LowersExactly(TrimSpace(op.typed.value), "yes");
    }
  }

  method GateWrite(op: Operator) returns (code: Exit, pass: bool)
    ensures pass <==> Confirmed(op)
    ensures !pass ==> code == if !op.fromStdin && op.interactive && op.typed.None? && op.readFails then ExitIO else ExitWriteAborted
  {
    if op.confirm {
      return ExitOK, true;
    }
    if op.fromStdin {
      return ExitWriteAborted, false;
    }
    if !op.interactive {
      return ExitWriteAborted, false;
    }
    if op.typed.None? {
      return if op.readFails then ExitIO else ExitWriteAborted, false;
    }
    var answer := Word(op.typed.value);
    if answer == "y" || answer == "yes" {
      return ExitOK, true;
    }
    return ExitWriteAborted, false;
  }

  /** No write is ever issued, and the connection is not touched, without confirmation. */
  method RunWrite(op: Operator, opt: Options, spec: string, value: string, lines: seq<string>, env: Setting, start: World)
      returns (code: Exit, world: World)
    requires start.tables.Valid()
    ensures !Confirmed(op) ==> world == start && code in {ExitWriteAborted, ExitIO}
    ensures Confirmed(op) && op.fromStdin ==> (code, world) == StreamFrom(opt, spec, Literals(lines), env, 0, start)
    ensures Confirmed(op) && !op.fromStdin ==>
              var (after, r) := WriteOnce(opt, start, spec, value, env.journey(0));
              world == after && code == if r.Err? then ExitFor(r.error) else if env.printed(0) then ExitOK else ExitIO
  {
    hide WriteOnce, StreamFrom;
    var refusal, pass := GateWrite(op);
    if !pass {
      return refusal, start;
    }
    if op.fromStdin {
      code, world := RunWriteStream(opt, spec, lines, env, start);
      return;
    }
    var (after, r) := WriteOnce(opt, start, spec, value, env.journey(0));
    world := after;
    if r.Err? {
      return ExitFor(r.error), world;
    }
    code := if env.printed(0) then ExitOK else ExitIO;
  }
}
