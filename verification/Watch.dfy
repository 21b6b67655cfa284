/** The --watch polling loop, over every sequence of read outcomes. */
module Watch {
  import opened Wrappers
  import opened Backoff

  /** One turn of the loop as the outside world decides it: whether the context is already done at
      the top, what the read returns, whether the value can be emitted, the jitter drawn after a
      failure, and whether the sleep runs to its end. */
  datatype Turn<V, E> = Turn(cancelled: bool, read: Result<V, E>, emitOk: bool, draw: nat, slept: bool)

  datatype Options = Options(interval: int, maxBackoff: int, count: int) {
    function Interval(): int { if interval <= 0 then 1_000_000_000 else interval }

    function MaxBackoff(): int { if maxBackoff <= 0 then 30_000_000_000 else maxBackoff }
  }

  /** Finished is the nil return; Panicked is the random generator refusing its bound. */
  datatype End = Finished | Cancelled | EmitFailed | Panicked

  // ---- What the loop should have done, turn by turn ----

  function Values<V, E>(turns: seq<Turn<V, E>>): seq<V>
  {
    if turns == [] then [] else
    var last := turns[|turns| - 1].read;
    Values(turns[..|turns| - 1]) + if last.Ok? then [last.value] else []
  }

  function Failures<V, E>(turns: seq<Turn<V, E>>): seq<E>
  {
    if turns == [] then [] else
    var last := turns[|turns| - 1].read;
    Failures(turns[..|turns| - 1]) + if last.Err? then [last.error] else []
  }

  /** The failures since the last success. */
  function TrailingFailures<V, E>(turns: seq<Turn<V, E>>): nat
  {
    if turns == [] || turns[|turns| - 1].read.Ok? then 0 else 1 + TrailingFailures(turns[..|turns| - 1])
  }

  /** The retry delays: at each failure, one drawn below the ceiling for the failures in a row. */
  function Delays<V, E>(opt: Options, turns: seq<Turn<V, E>>): seq<int>
  {
    if turns == [] then [] else
    var before := Delays(opt, turns[..|turns| - 1]);
    if turns[|turns| - 1].read.Ok? then before else
    before + [turns[|turns| - 1].draw % (Upper(opt.Interval(), opt.MaxBackoff(), TrailingFailures(turns)) + 1)]
  }

  function Sum(s: seq<int>): int { if s == [] then 0 else Sum(s[..|s| - 1]) + s[|s| - 1] }

  lemma {:induction false} EveryTurnCounts<V, E>(turns: seq<Turn<V, E>>)
    ensures |Values(turns)| + |Failures(turns)| == |turns|
  {
    if turns != [] {
      EveryTurnCounts(turns[..|turns| - 1]);
    }
  }

  lemma {:induction false} DelaysBounded<V, E>(opt: Options, turns: seq<Turn<V, E>>)
    ensures |Delays(opt, turns)| == |Failures(turns)|
    ensures 0 <= Sum(Delays(opt, turns)) <= |Failures(turns)| * opt.MaxBackoff()
  {
    hide Upper, Sum, TrailingFailures, Options.Interval, Options.MaxBackoff;
    SettingsInRange(opt);
    NoSum();
    if turns != [] {
      var before := turns[..|turns| - 1];
      DelaysBounded(opt, before);
      var u := Upper(opt.Interval(), opt.MaxBackoff(), TrailingFailures(turns));
      UpperWithinMax(opt.Interval(), opt.MaxBackoff(), TrailingFailures(turns));
      if turns[|turns| - 1].read.Err? {
        var d := turns[|turns| - 1].draw % (u + 1);
        assert Delays(opt, turns) == Delays(opt, before) + [d];
        SumOfOneMore(Delays(opt, before), d);
        OneMore(|Failures(before)|, opt.MaxBackoff());
      }
    }
  }

  lemma SumOfOneMore(s: seq<int>, d: int)
    ensures Sum(s + [d]) == Sum(s) + d
  {
    assert (s + [d])[..|s|] == s;
  }

  lemma SettingsInRange(opt: Options)
    ensures opt.Interval() > 0 && opt.MaxBackoff() > 0
    ensures opt.maxBackoff <= MAX_INT64 ==> opt.MaxBackoff() <= MAX_INT64
  {
  }

  lemma NoSum()
    ensures Sum([]) == 0
  {
  }

  lemma OneMore(n: nat, m: int)
    ensures (n + 1) * m == n * m + m
  {
  }

  lemma OneMoreTurn<V, E>(opt: Options, script: seq<Turn<V, E>>, n: nat)
    requires n < |script|
    ensures var t := script[n];
            && Values(script[..n + 1]) == Values(script[..n]) + (if t.read.Ok? then [t.read.value] else [])
            && Failures(script[..n + 1]) == Failures(script[..n]) + (if t.read.Err? then [t.read.error] else [])
            && TrailingFailures(script[..n + 1]) == (if t.read.Ok? then 0 else TrailingFailures(script[..n]) + 1)
            && Delays(opt, script[..n + 1]) ==
               if t.read.Ok? then Delays(opt, script[..n])
               else Delays(opt, script[..n])
                    + [t.draw % (Upper(opt.Interval(), opt.MaxBackoff(), TrailingFailures(script[..n]) + 1) + 1)]
  {
    hide Upper;
    assert script[..n + 1][..n] == script[..n];
    UpperWithinMax(opt.Interval(), opt.MaxBackoff(), TrailingFailures(script[..n]) + 1);
  }

  lemma NothingYet<V, E>(opt: Options)
    ensures Values<V, E>([]) == [] && Failures<V, E>([]) == [] && TrailingFailures<V, E>([]) == 0 && Delays<V, E>(opt, []) == []
  {
  }

  // ---- The loop ----

  /** The polling loop. It stops at the latest when the script of turns does, which stands for the
      context ending. `used` counts the reads made, `steady` the sleeps of one interval; `emitted`,
      `reported` and `delays` are the values handed to emit, the errors handed to onErr and the
      retry delays slept, in order. */
  method Run<V, E>(opt: Options, script: seq<Turn<V, E>>)
      returns (end: End, used: nat, emitted: seq<V>, reported: seq<E>, delays: seq<int>, steady: nat, attempt: nat)
    requires opt.maxBackoff <= MAX_INT64
    ensures used <= |script|
    ensures emitted == Values(script[..used])
    ensures reported == Failures(script[..used])
    ensures attempt == TrailingFailures(script[..used])
    ensures end != Panicked ==> delays == Delays(opt, script[..used])
    ensures end == Panicked ==> opt.MaxBackoff() == MAX_INT64
    ensures end == Finished <==> opt.count > 0 && |emitted| == opt.count && end != EmitFailed
    ensures opt.count > 0 ==> |emitted| <= opt.count
    ensures end == EmitFailed <==> used > 0 && script[used - 1].read.Ok? && !script[used - 1].emitOk
    ensures end == Cancelled ==> used == |script| || script[used].cancelled || (used > 0 && !script[used - 1].slept)
    ensures forall k | 0 <= k < used - 1 :: script[k].slept && (script[k].read.Ok? ==> script[k].emitOk)
    ensures used == |emitted| + |reported|
    ensures opt.count > 0 ==> used <= opt.count + |reported|
    ensures opt.count > 0 && end != Panicked ==>
              steady * opt.Interval() + Sum(delays) <= (opt.count - 1) * opt.Interval() + |reported| * opt.MaxBackoff()
    ensures steady <= |emitted| && (end == Finished || end == EmitFailed ==> steady + 1 == |emitted|)
  {
    hide Upper, Values, Failures, TrailingFailures, Delays, Sum, Options.Interval, Options.MaxBackoff;
    SettingsInRange(opt);
    NothingYet<V, E>(opt);
    end, used, emitted, reported, delays, steady, attempt := Cancelled, 0, [], [], [], 0, 0;
    while used < |script|
      invariant 0 <= used <= |script| && end == Cancelled
      invariant emitted == Values(script[..used]) && reported == Failures(script[..used])
      invariant attempt == TrailingFailures(script[..used]) && delays == Delays(opt, script[..used])
      invariant steady == |emitted|
      invariant opt.count > 0 ==> |emitted| < opt.count
      invariant forall k | 0 <= k < used :: script[k].slept && (script[k].read.Ok? ==> script[k].emitOk)
      decreases |script| - used
    {
      var turn := script[used];
      if turn.cancelled {
        break;
      }
      OneMoreTurn(opt, script, used);
      used := used + 1;
      match turn.read {
        case Err(e) =>
          reported := reported + [e];
          attempt := attempt + 1;
          UpperWithinMax(opt.Interval(), opt.MaxBackoff(), attempt);
          var delay := FullJitterBackoff(opt.Interval(), opt.MaxBackoff(), attempt, turn.draw);
          if delay.None? {
            end := Panicked;
            break;
          }
          delays := delays + [delay.value];
          if !turn.slept {
            break;
          }
        case Ok(v) =>
          attempt := 0;
          emitted := emitted + [v];
          if !turn.emitOk {
            end := EmitFailed;
            break;
          }
          if opt.count > 0 && |emitted| >= opt.count {
            end := Finished;
            break;
          }
          steady := steady + 1;
          if !turn.slept {
            break;
          }
      }
    }
    EveryTurnCounts(script[..used]);
    DelaysBounded(opt, script[..used]);
    if opt.count > 0 {
      FewerIntervals(steady, opt.count - 1, opt.Interval());
    }
  }

  lemma FewerIntervals(a: nat, b: nat, m: int)
    requires a <= b && m >= 0
    ensures a * m <= b * m
  {
    assert (b - a) * m >= 0;
  }

  /** An interval or a maximum that is not positive means one second and thirty seconds. */
  lemma DefaultSettings(opt: Options)
    ensures opt.Interval() == if opt.interval > 0 then opt.interval else 1_000_000_000
    ensures opt.MaxBackoff() == if opt.maxBackoff > 0 then opt.maxBackoff else 30_000_000_000
  {
  }
}
