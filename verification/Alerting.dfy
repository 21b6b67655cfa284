/** Alert rules: the debounce state machine, its declarative form over the whole sample history, and
    several rules sharing one engine. */
module Alerting {
  import opened Wrappers

  datatype Event<V> = Triggered(value: V) | Cleared(value: V)

  /** A sample that reached the state machine: read without error, judged without error. */
  datatype Sample<V> = Sample(value: V, breached: bool)

  datatype Memory<V> = Memory(consecutive: int, active: bool, fired: seq<Event<V>>)

  // ---- The state machine ----

  /** What a rule makes of one reading: a failed read (None) and a raising predicate leave nothing. */
  function Heard<V>(judge: V -> Option<bool>, reading: Option<V>): seq<Sample<V>>
  {
    if reading.None? then [] else
    match judge(reading.value)
    case None => []
    case Some(breached) => [Sample(reading.value, breached)]
  }

  function History<V>(judge: V -> Option<bool>, readings: seq<Option<V>>): seq<Sample<V>>
  {
    if readings == [] then [] else
    History(judge, readings[..|readings| - 1]) + Heard(judge, readings[|readings| - 1])
  }

  function Advance<V>(debounce: int, onClear: bool, m: Memory<V>, x: Sample<V>): Memory<V>
  {
    if x.breached then
      if !m.active && m.consecutive + 1 >= debounce
      then Memory(m.consecutive + 1, true, m.fired + [Triggered(x.value)])
      else m.(consecutive := m.consecutive + 1)
    else
      Memory(0, false, m.fired + if m.active && onClear then [Cleared(x.value)] else [])
  }

  function Replay<V>(debounce: int, onClear: bool, m: Memory<V>, h: seq<Sample<V>>): Memory<V>
  {
    if h == [] then m else
    Advance(debounce, onClear, Replay(debounce, onClear, m, h[..|h| - 1]), h[|h| - 1])
  }

  class Rule<V> {
    const judge: V -> Option<bool>
    const debounce: int
    const onClear: bool

    var consecutive: int
    var active: bool
    /** The callbacks made so far, in order. */
    var fired: seq<Event<V>>

    ghost function Now(): Memory<V>
      reads this
    {
      Memory(consecutive, active, fired)
    }

    /** This rule's memory after it alone has been given the readings. */
    ghost function Alone(m: Memory<V>, readings: seq<Option<V>>): (after: Memory<V>)
      ensures readings == [] ==> after == m
    {
      Replay(debounce, onClear, m, History(judge, readings))
    }

    constructor (judge: V -> Option<bool>, debounce: int, onClear: bool)
      ensures this.judge == judge && this.debounce == debounce && this.onClear == onClear
      ensures Now() == Memory(0, false, [])
    {
      this.judge, this.debounce, this.onClear := judge, debounce, onClear;
      consecutive, active, fired := 0, false, [];
    }

    method Evaluate(value: V)
      modifies this
      ensures Now() == Alone(old(Now()), [Some(value)])
    {
      ghost var was := Now();
      OneReading(judge, Some(value));
      var breached := judge(value);
      if breached.None? {
        return;
      }
      OneSample(debounce, onClear, was, Sample(value, breached.value));
      if breached.value {
        consecutive := consecutive + 1;
        if !active && consecutive >= debounce {
          active := true;
          fired := fired + [Triggered(value)];
        }
      } else {
        consecutive := 0;
        if active {
          active := false;
          if onClear {
            fired := fired + [Cleared(value)];
          }
        }
      }
    }
  }

  lemma OneReading<V>(judge: V -> Option<bool>, reading: Option<V>)
    ensures History(judge, [reading]) == Heard(judge, reading)
  {
    assert [reading][..0] == [];
  }

  lemma OneSample<V>(debounce: int, onClear: bool, m: Memory<V>, x: Sample<V>)
    ensures Replay(debounce, onClear, m, [x]) == Advance(debounce, onClear, m, x)
  {
    assert [x][..0] == [];
  }

  // ---- The declarative form ----

  /** How many samples at the end of the history breach, with none between that does not. */
  function TrailingRun<V>(h: seq<Sample<V>>): (run: nat)
    ensures run <= |h|
  {
    if h == [] || !h[|h| - 1].breached then 0 else 1 + TrailingRun(h[..|h| - 1])
  }

  function Need(debounce: int): nat { if debounce < 1 then 1 else debounce }

  /** What the i-th sample sets off: a trigger when it completes a run of exactly the needed length,
      a clear when it ends one at least that long. */
  function EventAt<V>(h: seq<Sample<V>>, debounce: int, onClear: bool, i: nat): seq<Event<V>>
    requires i < |h|
  {
    if TrailingRun(h[..i + 1]) == Need(debounce) then [Triggered(h[i].value)]
    else if onClear && !h[i].breached && TrailingRun(h[..i]) >= Need(debounce) then [Cleared(h[i].value)]
    else []
  }

  function EventsUpTo<V>(h: seq<Sample<V>>, debounce: int, onClear: bool, n: nat): seq<Event<V>>
    requires n <= |h|
  {
    if n == 0 then [] else EventsUpTo(h, debounce, onClear, n - 1) + EventAt(h, debounce, onClear, n - 1)
  }

  lemma {:induction false} EventsOfPrefix<V>(h: seq<Sample<V>>, debounce: int, onClear: bool, m: nat, n: nat)
    requires n <= m <= |h|
    ensures EventsUpTo(h[..m], debounce, onClear, n) == EventsUpTo(h, debounce, onClear, n)
  {
    hide TrailingRun;
    if n > 0 {
      EventsOfPrefix(h, debounce, onClear, m, n - 1);
      assert h[..m][..n] == h[..n] && h[..m][..n - 1] == h[..n - 1];
    }
  }

  /** After any history: the counter is the trailing breaching run, the rule is active exactly when
      that run is long enough, and the callbacks made are those the history calls for. */
  lemma {:induction false} StateIsDeclarative<V>(debounce: int, onClear: bool, h: seq<Sample<V>>)
    ensures Replay(debounce, onClear, Memory(0, false, []), h) ==
            Memory(TrailingRun(h), TrailingRun(h) >= Need(debounce), EventsUpTo(h, debounce, onClear, |h|))
  {
    if h != [] {
      var last := |h| - 1;
      StateIsDeclarative(debounce, onClear, h[..last]);
      EventsOfPrefix(h, debounce, onClear, last, last);
      assert h[..last + 1] == h;
      assert EventsUpTo(h, debounce, onClear, |h|) == EventsUpTo(h, debounce, onClear, last) + EventAt(h, debounce, onClear, last);
    }
  }

  /** With a clear callback, callbacks alternate and begin with a trigger; the rule is active exactly
      after an odd number of them. */
  lemma {:induction false} CallbacksAlternate<V>(debounce: int, h: seq<Sample<V>>)
    ensures var m := Replay(debounce, true, Memory(0, false, []), h);
            (forall k | 0 <= k < |m.fired| :: m.fired[k].Triggered? <==> k % 2 == 0)
            && (m.active <==> |m.fired| % 2 == 1)
  {
    if h != [] {
      CallbacksAlternate(debounce, h[..|h| - 1]);
    }
  }

  function Triggers<V>(events: seq<Event<V>>): seq<Event<V>>
  {
    if events == [] then [] else
    var last := events[|events| - 1];
    Triggers(events[..|events| - 1]) + if last.Triggered? then [last] else []
  }

  lemma TriggersOfOneMore<V>(events: seq<Event<V>>, e: Event<V>)
    ensures Triggers(events + [e]) == Triggers(events) + if e.Triggered? then [e] else []
  {
    assert (events + [e])[..|events|] == events;
  }

  /** Without a clear callback the same triggers are made at the same samples, and nothing else. */
  lemma {:induction false} NoClearCallback<V>(debounce: int, h: seq<Sample<V>>)
    ensures var with := Replay(debounce, true, Memory(0, false, []), h);
            var without := Replay(debounce, false, Memory(0, false, []), h);
            without == with.(fired := Triggers(with.fired))
  {
    if h != [] {
      NoClearCallback(debounce, h[..|h| - 1]);
      var before := Replay(debounce, true, Memory(0, false, []), h[..|h| - 1]).fired;
      TriggersOfOneMore(before, Triggered(h[|h| - 1].value));
      TriggersOfOneMore(before, Cleared(h[|h| - 1].value));
      assert before + [] == before;
    }
  }

  // ---- One trigger for each long enough run ----

  predicate MaximalRun<V>(h: seq<Sample<V>>, lo: nat, hi: nat)
  {
    && lo < hi <= |h|
    && (forall k | lo <= k < hi :: h[k].breached)
    && (lo == 0 || !h[lo - 1].breached)
    && (hi == |h| || !h[hi].breached)
  }

  predicate StartsRun<V>(h: seq<Sample<V>>, need: nat, lo: nat)
  {
    && lo + need <= |h|
    && (forall k | lo <= k < lo + need :: h[k].breached)
    && (lo == 0 || !h[lo - 1].breached)
  }

  /** Where the maximal breaching runs of at least the needed length begin. */
  function RunStarts<V>(h: seq<Sample<V>>, need: nat): set<nat>
  {
    set lo: nat | lo < |h| && StartsRun(h, need, lo)
  }

  function RunEnd<V>(h: seq<Sample<V>>, hi: nat): (end: nat)
    requires hi <= |h|
    ensures hi <= end <= |h| && (end == |h| || !h[end].breached)
    ensures forall k | hi <= k < end :: h[k].breached
    decreases |h| - hi
  {
    if hi == |h| || !h[hi].breached then hi else RunEnd(h, hi + 1)
  }

  lemma RunStartsAreMaximalRuns<V>(h: seq<Sample<V>>, need: nat, lo: nat)
    requires need >= 1
    ensures lo in RunStarts(h, need) <==> exists hi :: lo + need <= hi && MaximalRun(h, lo, hi)
    ensures forall a, b | MaximalRun(h, lo, a) && MaximalRun(h, lo, b) :: a == b
  {
    if lo in RunStarts(h, need) {
      assert MaximalRun(h, lo, RunEnd(h, lo + need));
    }
  }

  lemma {:induction false} TrailingRunIsMaximal<V>(h: seq<Sample<V>>)
    ensures var t := TrailingRun(h);
            (forall k | |h| - t <= k < |h| :: h[k].breached) && (t == |h| || !h[|h| - t - 1].breached)
  {
    if h != [] {
      TrailingRunIsMaximal(h[..|h| - 1]);
    }
  }

  lemma RunStartsGrow<V>(h: seq<Sample<V>>, need: nat)
    requires need >= 1 && h != []
    ensures RunStarts(h, need) ==
            RunStarts(h[..|h| - 1], need) + if TrailingRun(h) == need then {|h| - need} else {}
    ensures TrailingRun(h) == need ==> |h| - need !in RunStarts(h[..|h| - 1], need)
  {
    hide TrailingRun, StartsRun, RunStarts;
    forall lo: nat
      ensures lo in RunStarts(h, need) <==>
              lo in RunStarts(h[..|h| - 1], need) || (TrailingRun(h) == need && lo == |h| - need)
    {
      StartsRunGrows(h, need, lo);
      InRunStarts(h, need, lo);
      InRunStarts(h[..|h| - 1], need, lo);
    }
    if TrailingRun(h) == need {
      StartsRunGrows(h, need, |h| - need);
      InRunStarts(h[..|h| - 1], need, |h| - need);
    }
  }

  lemma InRunStarts<V>(h: seq<Sample<V>>, need: nat, lo: nat)
    requires need >= 1
    ensures lo in RunStarts(h, need) <==> StartsRun(h, need, lo)
  {
  }

  /** A run start seen one sample later: either it was one already, or the last sample completes it. */
  lemma StartsRunGrows<V>(h: seq<Sample<V>>, need: nat, lo: nat)
    requires need >= 1 && h != []
    ensures StartsRun(h, need, lo) <==>
            StartsRun(h[..|h| - 1], need, lo) || (TrailingRun(h) == need && lo == |h| - need)
    ensures StartsRun(h[..|h| - 1], need, lo) ==> lo + need < |h|
    ensures StartsRun(h, need, lo) ==> lo < |h|
  {
    hide TrailingRun;
    var before := h[..|h| - 1];
    TrailingRunIsMaximal(h);
    if lo + need <= |before| {
      assert forall k | lo <= k < lo + need :: before[k] == h[k];
      assert lo > 0 ==> before[lo - 1] == h[lo - 1];
    } else if lo + need == |h| && StartsRun(h, need, lo) {
      TrailingRunFrom(h, lo);
    }
  }

  lemma TrailingRunFrom<V>(h: seq<Sample<V>>, lo: nat)
    requires lo <= |h| && (lo == 0 || !h[lo - 1].breached) && forall k | lo <= k < |h| :: h[k].breached
    ensures TrailingRun(h) == |h| - lo
  {
    hide TrailingRun;
    TrailingRunIsMaximal(h);
  }

  /** As many triggers as there are maximal breaching runs of at least the needed length. */
  lemma {:induction false} TriggersCountRuns<V>(debounce: int, h: seq<Sample<V>>)
    ensures |Replay(debounce, false, Memory(0, false, []), h).fired| == |RunStarts(h, Need(debounce))|
  {
    hide StartsRun, EventsUpTo;
    if h == [] {
      assert RunStarts(h, Need(debounce)) == {};
    } else {
      TriggersCountRuns(debounce, h[..|h| - 1]);
      StateIsDeclarative(debounce, false, h[..|h| - 1]);
      RunStartsGrow(h, Need(debounce));
    }
  }

  // ---- The documented clear debounce ----

  function TrailingQuiet<V>(h: seq<Sample<V>>): nat
  {
    if h == [] || h[|h| - 1].breached then 0 else 1 + TrailingQuiet(h[..|h| - 1])
  }

  /** The class comment: as many quiet samples in a row to clear as breaching ones to trigger. */
  predicate ActiveAsDocumented<V>(debounce: int, h: seq<Sample<V>>)
  {
    if h == [] then false
    else if ActiveAsDocumented(debounce, h[..|h| - 1]) then TrailingQuiet(h) < Need(debounce)
    else TrailingRun(h) >= Need(debounce)
  }

  predicate ActiveAsCoded<V>(debounce: int, h: seq<Sample<V>>)
  {
    Replay(debounce, false, Memory(0, false, []), h).active
  }

  /** The code never holds an alert that the comment would have cleared; the converse fails. */
  lemma {:induction false} CodedImpliesDocumented<V>(debounce: int, h: seq<Sample<V>>)
    ensures ActiveAsCoded(debounce, h) ==> ActiveAsDocumented(debounce, h)
    ensures debounce <= 1 ==> ActiveAsCoded(debounce, h) == ActiveAsDocumented(debounce, h)
  {
    StateIsDeclarative(debounce, false, h);
    if h != [] {
      CodedImpliesDocumented(debounce, h[..|h| - 1]);
    }
  }

  function Repeat<V>(x: Sample<V>, n: nat): (h: seq<Sample<V>>)
    ensures |h| == n && forall k | 0 <= k < n :: h[k] == x
  {
    seq(n, _ => x)
  }

  lemma {:induction false} RunOfBreaches<V>(debounce: int, v: V, n: nat)
    ensures TrailingRun(Repeat(Sample(v, true), n)) == n
    ensures n >= Need(debounce) ==> ActiveAsDocumented(debounce, Repeat(Sample(v, true), n))
  {
    if n > 0 {
      RunOfBreaches(debounce, v, n - 1);
      assert Repeat(Sample(v, true), n)[..n - 1] == Repeat(Sample(v, true), n - 1);
    }
  }

  /** With a debounce of two or more: exactly that many breaching samples, then one good sample. The
      code has cleared, the comment still waits. */
  lemma OneGoodSampleClears<V>(debounce: int, v: V)
    requires debounce > 1
    ensures var h := Repeat(Sample(v, true), debounce) + [Sample(v, false)];
            ActiveAsDocumented(debounce, h) && !ActiveAsCoded(debounce, h)
  {
    var run := Repeat(Sample(v, true), debounce);
    var h := run + [Sample(v, false)];
    RunOfBreaches(debounce, v, debounce);
    StateIsDeclarative(debounce, false, h);
    assert h[..|h| - 1] == run;
    assert run[|run| - 1].breached;
  }

  /** Code and comment agree on every history exactly when there is no debounce to speak of. */
  lemma ClearDebounceKeptExactlyWithoutDebounce<V>(debounce: int, v: V)
    ensures (forall h: seq<Sample<V>> :: ActiveAsCoded(debounce, h) == ActiveAsDocumented(debounce, h)) <==> debounce <= 1
  {
    if debounce <= 1 {
      forall h: seq<Sample<V>> ensures ActiveAsCoded(debounce, h) == ActiveAsDocumented(debounce, h) {
        CodedImpliesDocumented(debounce, h);
      }
    } else {
      OneGoodSampleClears(debounce, v);
    }
  }

  // ---- Several rules ----

  /** The readings of one round that were taken for this rule: one for each place it has in the list,
      for nothing stops the same rule from being added twice. */
  ghost function Own<V>(rules: seq<Rule<V>>, readings: seq<Option<V>>, rule: Rule<V>, n: nat): seq<Option<V>>
    requires n <= |rules| && n <= |readings|
  {
    if n == 0 then [] else
    Own(rules, readings, rule, n - 1) + if rules[n - 1] == rule then [readings[n - 1]] else []
  }

  ghost function OwnRounds<V>(rules: seq<Rule<V>>, rounds: nat -> seq<Option<V>>, rule: Rule<V>, n: nat): seq<Option<V>>
    requires forall i | 0 <= i < n :: |rounds(i)| == |rules|
  {
    if n == 0 then [] else
    OwnRounds(rules, rounds, rule, n - 1) + Own(rules, rounds(n - 1), rule, |rules|)
  }

  lemma {:induction false} HistoryAppends<V>(judge: V -> Option<bool>, a: seq<Option<V>>, b: seq<Option<V>>)
    ensures History(judge, a + b) == History(judge, a) + History(judge, b)
    decreases |b|
  {
    if b == [] {
      assert a + b == a;
    } else {
      assert (a + b)[..|a + b| - 1] == a + b[..|b| - 1];
      HistoryAppends(judge, a, b[..|b| - 1]);
    }
  }

  lemma {:induction false} ReplayAppends<V>(debounce: int, onClear: bool, m: Memory<V>, a: seq<Sample<V>>, b: seq<Sample<V>>)
    ensures Replay(debounce, onClear, m, a + b) == Replay(debounce, onClear, Replay(debounce, onClear, m, a), b)
    decreases |b|
  {
    if b == [] {
      assert a + b == a;
    } else {
      assert (a + b)[..|a + b| - 1] == a + b[..|b| - 1];
      ReplayAppends(debounce, onClear, m, a, b[..|b| - 1]);
    }
  }

  lemma AloneAppends<V>(rule: Rule<V>, m: Memory<V>, a: seq<Option<V>>, b: seq<Option<V>>)
    ensures rule.Alone(m, a + b) == rule.Alone(rule.Alone(m, a), b)
  {
    HistoryAppends(rule.judge, a, b);
    ReplayAppends(rule.debounce, rule.onClear, m, History(rule.judge, a), History(rule.judge, b));
  }

  lemma FailedReadIsAbsent<V>(rule: Rule<V>, m: Memory<V>, a: seq<Option<V>>, b: seq<Option<V>>, bad: Option<V>)
    requires bad.None? || rule.judge(bad.value).None?
    ensures rule.Alone(m, a + [bad] + b) == rule.Alone(m, a + b)
  {
    HistoryAppends(rule.judge, a + [bad], b);
    HistoryAppends(rule.judge, a, [bad]);
    HistoryAppends(rule.judge, a, b);
    OneReading(rule.judge, bad);
    assert History(rule.judge, a) + [] == History(rule.judge, a);
  }

  lemma NothingHeard<V>(rule: Rule<V>, m: Memory<V>)
    ensures rule.Alone(m, [None]) == m
  {
    OneReading(rule.judge, None);
  }

  function Rounds(iterations: int): nat { if iterations < 0 then 0 else iterations }

  class AlertEngine<V> {
    var rules: seq<Rule<V>>

    constructor ()
      ensures rules == []
    {
      rules := [];
    }

    method AddRule(rule: Rule<V>)
      modifies this
      ensures rules == old(rules) + [rule]
    {
      rules := rules + [rule];
    }

    /** One round: each rule's memory moves as if it had been polled alone. */
    method PollOnce(readings: seq<Option<V>>)
      requires |readings| == |rules|
      modifies rules
      ensures forall r | r in rules :: r.Now() == r.Alone(old(r.Now()), Own(rules, readings, r, |rules|))
    {
      hide Rule.Alone, Heard;
      for i := 0 to |rules|
        invariant forall r | r in rules :: r.Now() == r.Alone(old(r.Now()), Own(rules, readings, r, i))
      {
        var rule := rules[i];
        ghost var before := Own(rules, readings, rule, i);
        AloneAppends(rule, old(rule.Now()), before, [readings[i]]);
        if readings[i].Some? {
          rule.Evaluate(readings[i].value);
        } else {
          NothingHeard(rule, rule.Now());
        }
        forall r | r in rules
          ensures r.Now() == r.Alone(old(r.Now()), Own(rules, readings, r, i + 1))
        {
          if r != rule {
            assert Own(rules, readings, r, i + 1) == Own(rules, readings, r, i);
          }
        }
      }
    }

    /** The polling loop, for so many rounds or, with None, without end. `ended` is the number of rounds
        made when it returns or is stopped from outside; without end only the latter can happen. The
        sleeps lie between the rounds. */
    method Run(iterations: Option<int>, rounds: nat -> seq<Option<V>>, ended: nat) returns (sleeps: nat, returned: bool)
      requires forall i | 0 <= i < ended :: |rounds(i)| == |rules|
      requires iterations.Some? ==> ended <= Rounds(iterations.value)
      modifies rules
      ensures returned <==> iterations.Some? && ended == Rounds(iterations.value)
      ensures sleeps == if returned && ended > 0 then ended - 1 else ended
      ensures forall r | r in rules :: r.Now() == r.Alone(old(r.Now()), OwnRounds(rules, rounds, r, ended))
    {
      hide Rule.Alone, Own;
      var i := 0;
      sleeps := 0;
      while (iterations.None? || i < iterations.value) && i < ended
        invariant 0 <= i <= ended
        invariant sleeps == if iterations.Some? && 0 < i == iterations.value then i - 1 else i
        invariant forall r | r in rules :: r.Now() == r.Alone(old(r.Now()), OwnRounds(rules, rounds, r, i))
      {
        label round:
        PollOnce(rounds(i));
        forall r | r in rules
          ensures r.Now() == r.Alone(old(r.Now()), OwnRounds(rules, rounds, r, i + 1))
        {
          AloneAppends(r, old(r.Now()), OwnRounds(rules, rounds, r, i), Own(rules, rounds(i), r, |rules|));
          assert r.Now() == r.Alone(old@round(r.Now()), Own(rules, rounds(i), r, |rules|));
        }
        i := i + 1;
        if iterations.None? || i < iterations.value {
          sleeps := sleeps + 1;
        }
      }
      returned := iterations.Some? && i >= iterations.value;
    }
  }

  function Column<V>(rounds: nat -> seq<Option<V>>, at: nat, n: nat): seq<Option<V>>
    requires forall i | 0 <= i < n :: at < |rounds(i)|
  {
    if n == 0 then [] else Column(rounds, at, n - 1) + [rounds(n - 1)[at]]
  }

  lemma {:induction false} OwnIsOnePlace<V>(rules: seq<Rule<V>>, readings: seq<Option<V>>, at: nat, n: nat)
    requires |readings| == |rules| && n <= |rules| && at < |rules|
    requires forall i, j | 0 <= i < j < |rules| :: rules[i] != rules[j]
    ensures Own(rules, readings, rules[at], n) == if at < n then [readings[at]] else []
  {
    if n > 0 {
      OwnIsOnePlace(rules, readings, at, n - 1);
    }
  }

  /** Rules that are distinct objects do not interfere: what reaches one is its own column of readings,
      whatever the others are given. */
  lemma {:induction false} RulesDoNotInterfere<V>(rules: seq<Rule<V>>, rounds: nat -> seq<Option<V>>, at: nat, n: nat)
    requires at < |rules| && forall i | 0 <= i < n :: |rounds(i)| == |rules|
    requires forall i, j | 0 <= i < j < |rules| :: rules[i] != rules[j]
    ensures OwnRounds(rules, rounds, rules[at], n) == Column(rounds, at, n)
  {
    if n > 0 {
      RulesDoNotInterfere(rules, rounds, at, n - 1);
      OwnIsOnePlace(rules, rounds(n - 1), at, |rules|);
    }
  }

  // ---- The same over the readings themselves ----

  predicate Breaches<V>(judge: V -> Option<bool>, reading: Option<V>) { reading.Some? && judge(reading.value) == Some(true) }

  predicate Refutes<V>(judge: V -> Option<bool>, reading: Option<V>) { reading.Some? && judge(reading.value) == Some(false) }

  /** How many of the readings were judged to breach. */
  function BreachCount<V>(judge: V -> Option<bool>, readings: seq<Option<V>>): nat
  {
    if readings == [] then 0 else
    BreachCount(judge, readings[..|readings| - 1]) + if Breaches(judge, readings[|readings| - 1]) then 1 else 0
  }

  /** From some reading on, none was judged not to breach and at least max(1, debounce) were judged to. */
  ghost predicate Alarmed<V>(judge: V -> Option<bool>, debounce: int, readings: seq<Option<V>>)
  {
    exists lo: nat :: QuietlyBreaching(judge, debounce, readings, lo)
  }

  ghost predicate QuietlyBreaching<V>(judge: V -> Option<bool>, debounce: int, readings: seq<Option<V>>, lo: nat)
  {
    && lo <= |readings|
    && (forall j | lo <= j < |readings| :: !Refutes(judge, readings[j]))
    && BreachCount(judge, readings[lo..]) >= 1 && BreachCount(judge, readings[lo..]) >= debounce
  }

  /** Where the trailing run of breaching samples begins among the readings. */
  lemma {:induction false} TrailingRunOfReadings<V>(judge: V -> Option<bool>, readings: seq<Option<V>>) returns (lo: nat)
    ensures lo <= |readings| && (forall j | lo <= j < |readings| :: !Refutes(judge, readings[j]))
    ensures BreachCount(judge, readings[lo..]) == TrailingRun(History(judge, readings))
    ensures lo == 0 || Refutes(judge, readings[lo - 1])
  {
    hide History, TrailingRun, Refutes, Breaches;
    NothingRead(judge);
    if readings == [] {
      return 0;
    }
    var last := |readings| - 1;
    var before := readings[..last];
    lo := TrailingRunOfReadings(judge, before);
    OneMoreHeard(judge, before, readings[last]);
    assert before + [readings[last]] == readings;
    if Refutes(judge, readings[last]) {
      lo := |readings|;
      assert readings[lo..] == [];
    } else {
      assert readings[lo..][..|readings[lo..]| - 1] == before[lo..];
      forall j | lo <= j < |readings| ensures !Refutes(judge, readings[j]) {
        assert j < last ==> readings[j] == before[j];
      }
    }
  }

  lemma NothingRead<V>(judge: V -> Option<bool>)
    ensures TrailingRun(History(judge, [])) == 0 && BreachCount(judge, []) == 0
  {
  }

  lemma OneMoreHeard<V>(judge: V -> Option<bool>, readings: seq<Option<V>>, r: Option<V>)
    ensures var run, run' := TrailingRun(History(judge, readings)), TrailingRun(History(judge, readings + [r]));
            run' == if Refutes(judge, r) then 0 else run + if Breaches(judge, r) then 1 else 0
  {
    hide History, TrailingRun;
    var h := History(judge, readings);
    HistoryAppends(judge, readings, [r]);
    OneReading(judge, r);
    assert h + [] == h;
    if Heard(judge, r) != [] {
      var x := Heard(judge, r)[0];
      assert Heard(judge, r) == [x];
      OneMoreSample(h, x);
    }
  }

  lemma OneMoreSample<V>(h: seq<Sample<V>>, x: Sample<V>)
    ensures TrailingRun(h + [x]) == if x.breached then TrailingRun(h) + 1 else 0
  {
    assert (h + [x])[..|h|] == h;
  }

  lemma {:induction false} CountOfSuffix<V>(judge: V -> Option<bool>, a: seq<Option<V>>, b: seq<Option<V>>)
    ensures BreachCount(judge, a + b) == BreachCount(judge, a) + BreachCount(judge, b)
    decreases |b|
  {
    if b == [] {
      assert a + b == a;
    } else {
      assert (a + b)[..|a + b| - 1] == a + b[..|b| - 1];
      CountOfSuffix(judge, a, b[..|b| - 1]);
    }
  }

  lemma AlarmedIsLongRun<V>(judge: V -> Option<bool>, debounce: int, readings: seq<Option<V>>)
    ensures Alarmed(judge, debounce, readings) <==> TrailingRun(History(judge, readings)) >= Need(debounce)
  {
    hide BreachCount, History, TrailingRun, Breaches;
    var start := TrailingRunOfReadings(judge, readings);
    if TrailingRun(History(judge, readings)) >= Need(debounce) {
      assert QuietlyBreaching(judge, debounce, readings, start);
    }
    if Alarmed(judge, debounce, readings) {
      var lo: nat :| QuietlyBreaching(judge, debounce, readings, lo);
      assert start <= lo;
      assert readings[start..] == readings[start..lo] + readings[lo..];
      CountOfSuffix(judge, readings[start..lo], readings[lo..]);
    }
  }

  /** A fresh rule given any readings is active exactly when, of those that were read and judged, the
      last max(1, debounce) exist and all breach. */
  lemma ActiveExactly<V>(rule: Rule<V>, readings: seq<Option<V>>)
    ensures rule.Alone(Memory(0, false, []), readings).active <==> Alarmed(rule.judge, rule.debounce, readings)
  {
    hide Alarmed, History, TrailingRun;
    StateIsDeclarative(rule.debounce, rule.onClear, History(rule.judge, readings));
    AlarmedIsLongRun(rule.judge, rule.debounce, readings);
  }

  /** One more reading makes a trigger, with its value, exactly when the alarm begins with it, and a clear
      exactly when the alarm ends with it and there is somebody to tell. */
  lemma CallbackExactly<V>(rule: Rule<V>, readings: seq<Option<V>>, r: Option<V>)
    ensures var before, after := Alarmed(rule.judge, rule.debounce, readings), Alarmed(rule.judge, rule.debounce, readings + [r]);
            && (before != after ==> r.Some?)
            && rule.Alone(Memory(0, false, []), readings + [r]).fired ==
               rule.Alone(Memory(0, false, []), readings).fired
               + if after && !before then [Triggered(r.value)]
                 else if before && !after && rule.onClear then [Cleared(r.value)]
                 else []
  {
    hide Alarmed, Rule.Alone, History, Heard, Replay;
    ActiveExactly(rule, readings);
    ActiveExactly(rule, readings + [r]);
    AloneAppends(rule, Memory(0, false, []), readings, [r]);
    OneReadingCalls(rule, rule.Alone(Memory(0, false, []), readings), r);
  }

  lemma OneReadingCalls<V>(rule: Rule<V>, m: Memory<V>, r: Option<V>)
    ensures var after := rule.Alone(m, [r]);
            && (after.active != m.active ==> r.Some?)
            && after.fired == m.fired + if after.active && !m.active then [Triggered(r.value)]
                                        else if m.active && !after.active && rule.onClear then [Cleared(r.value)]
                                        else []
  {
    hide Replay;
    OneReading(rule.judge, r);
    NothingReplayed(rule.debounce, rule.onClear, m);
    if Heard(rule.judge, r) != [] {
      OneSample(rule.debounce, rule.onClear, m, Heard(rule.judge, r)[0]);
      assert Heard(rule.judge, r) == [Heard(rule.judge, r)[0]];
    }
    assert m.fired + [] == m.fired;
  }

  lemma NothingReplayed<V>(debounce: int, onClear: bool, m: Memory<V>)
    ensures Replay(debounce, onClear, m, []) == m
  {
  }
}
