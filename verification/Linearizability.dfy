/** What every interleaved run guarantees: it is equivalent to the one sequential run in which
    the dispatches and Set calls happen in the order of the log. */
module Linearizability {
  import opened Bytes
  import opened Device
  import opened Pdu
  import opened Dispatch
  import opened Client
  import opened EndToEnd
  import opened Interleaving

  predicate IsRun(t0: Tables, s0: System, events: seq<Event>)
  {
    t0.Valid() && Start(t0, s0) && Runs(s0, events)
  }

  /** The answer the device gives when the call is made alone, d entries into the log. */
  function AnswerInTurn(t0: Tables, log: seq<Entry>, d: nat, req: Request): Answer
    requires t0.Valid() && Replayable(log) && d <= |log| && req.Legal()
  {
    Apply(Replay(t0, log[..d]), req).1
  }

  lemma TablesAreReplayed(t0: Tables, s0: System, events: seq<Event>)
    requires IsRun(t0, s0, events)
    ensures var s := After(s0, events); Replayable(s.log) && s.tables == Replay(t0, s.log)
  {
    StartHasInv(t0, s0);
    RunKeepsInv(t0, s0, events);
  }

  /** Linearizability. On any connection, whatever is done on the others, a call all of whose
      predecessors got a reply either runs out of time or returns exactly what its request answers
      when carried out alone, at a point of the log between its start and its end, on the tables the
      entries before leave. */
  lemma CompletedCallIsSequential(t0: Tables, s0: System, events: seq<Event>, c: nat, j: nat)
    requires IsRun(t0, s0, events)
    requires c < |After(s0, events).links| && j < |After(s0, events).links[c].ops|
    requires !After(s0, events).links[c].mixed
    requires var ops := After(s0, events).links[c].ops; ops[j].ended.Some? && InStep(ops, j)
    ensures var s := After(s0, events);
            var l := s.links[c];
            var op := l.ops[j];
            && Replayable(s.log) && op.req.Legal()
            && if OutOfTime(op.ended.value.result) then true else
               && j in l.spot && op.invoked <= l.spot[j] < op.ended.value.at <= |s.log|
               && var a := AnswerInTurn(t0, s.log, l.spot[j], op.req);
                  && Answers(op.req, a)
                  && s.log[l.spot[j]] == Served(c, j, RequestPdu(op.req), AnswerPdu(op.req, a))
                  && Conclude(op.req, op.ended.value.result) == Told(op.req, a, op.id, l.unitId)
  {
    hide Hi, Lo, U16At, CheckResponse, Conclude, RequestPdu, AnswerPdu, Apply, ParseRequest, Stages, Flow, After, Runs;
    StartHasInv(t0, s0);
    RunKeepsInv(t0, s0, events);
    var s := After(s0, events);
    var l := s.links[c];
    var op := l.ops[j];
    assert Orderly(s.log, c, l);
    assert op.req.Legal();
    if !OutOfTime(op.ended.value.result) {
      var d := l.spot[j];
      RequestRoundTrip(op.req);
      ApplyAnswers(Replay(t0, s.log[..d]), op.req);
      AnswerUnderstood(op.req, AnswerInTurn(t0, s.log, d, op.req), op.id, l.unitId);
    }
  }

  /** Whatever became of a call, its request was dispatched at most once, never before the call
      began, and unaltered, on every connection on which nothing was written behind a request that
      had gone out in part. `CutRequests` shows that this is needed. */
  lemma DispatchedAtMostOnce(t0: Tables, s0: System, events: seq<Event>, d: nat, d': nat)
    requires IsRun(t0, s0, events)
    requires var log := After(s0, events).log;
             d < |log| && d' < |log| && log[d].Served? && log[d'].Served?
             && log[d].conn == log[d'].conn && log[d].op == log[d'].op
    requires var s := After(s0, events); s.log[d].conn < |s.links| ==> !s.links[s.log[d].conn].mixed
    ensures d == d'
    ensures var s := After(s0, events);
            && s.log[d].conn < |s.links|
            && var l := s.links[s.log[d].conn];
               && s.log[d].op < |l.ops| && l.ops[s.log[d].op].req.Legal()
               && s.log[d].pdu == RequestPdu(l.ops[s.log[d].op].req)
               && l.ops[s.log[d].op].invoked <= d
  {
    hide RequestPdu, Stages, Flow, Outcomes, After, Runs, Sequential;
    StartHasInv(t0, s0);
    RunKeepsInv(t0, s0, events);
    var s := After(s0, events);
    assert Orderly(s.log, s.log[d].conn, s.links[s.log[d].conn]);
  }

  /** A request discarded by fault injection is never dispatched. */
  lemma DroppedIsNeverDispatched(t0: Tables, s0: System, events: seq<Event>, c: nat, d: nat)
    requires IsRun(t0, s0, events)
    requires c < |After(s0, events).links| && After(s0, events).links[c].dropped.Some?
    requires !After(s0, events).links[c].mixed
    requires d < |After(s0, events).log|
    ensures var s := After(s0, events);
            !(s.log[d].Served? && s.log[d].conn == c && s.log[d].op == s.links[c].dropped.value)
  {
    hide RequestPdu, Flow, Outcomes, After, Runs, Sequential;
    StartHasInv(t0, s0);
    RunKeepsInv(t0, s0, events);
    var s := After(s0, events);
    assert Orderly(s.log, c, s.links[c]);
  }

  // ---- Real time ----

  /** From one moment of a run to a later one: the log only grows, finished calls stand, and any
      call begun in between is stamped no earlier than that moment. */
  ghost predicate Later(s: System, s': System)
  {
    && |s.links| == |s'.links| && |s.log| <= |s'.log| && s'.log[..|s.log|] == s.log
    && forall c | 0 <= c < |s.links| :: LaterLink(s.links[c], s'.links[c], |s.log|)
  }

  ghost predicate LaterLink(l: Link, l': Link, now: nat)
  {
    && |l.ops| <= |l'.ops| && l'.unitId == l.unitId && (l.mixed ==> l'.mixed)
    && (forall j | 0 <= j < |l.ops| :: l'.ops[j].req == l.ops[j].req && l'.ops[j].invoked == l.ops[j].invoked)
    && (forall j | 0 <= j < |l.ops| && l.ops[j].ended.Some? :: l'.ops[j] == l.ops[j])
    && (forall j | |l.ops| <= j < |l'.ops| :: now <= l'.ops[j].invoked)
  }

  lemma StepIsLater(s: System, e: Event)
    requires s.tables.Valid() && Enabled(s, e)
    ensures Later(s, Step(s, e))
  {
    hide Receive, RequestPdu, RequestFrame, Reply, ApplyChange;
  }

  lemma LaterIsTransitive(s: System, s': System, s'': System)
    requires Later(s, s') && Later(s', s'')
    ensures Later(s, s'')
  {
    assert s''.log[..|s.log|] == s''.log[..|s'.log|][..|s.log|];
    forall c | 0 <= c < |s.links| ensures LaterLink(s.links[c], s''.links[c], |s.log|) {
      assert LaterLink(s.links[c], s'.links[c], |s.log|) && LaterLink(s'.links[c], s''.links[c], |s'.log|);
    }
  }

  lemma {:induction false} RunIsLater(s: System, events: seq<Event>)
    requires s.tables.Valid() && Runs(s, events)
    ensures Later(s, After(s, events))
    decreases |events|
  {
    hide Later, Step, Enabled;
    if events == [] {
      NowIsLater(s);
    } else {
      StepValid(s, events[0]);
      StepIsLater(s, events[0]);
      RunIsLater(Step(s, events[0]), events[1..]);
      LaterIsTransitive(s, Step(s, events[0]), After(s, events));
    }
  }

  lemma NowIsLater(s: System)
    ensures Later(s, s)
  {
  }

  lemma {:induction false} RunsInTwo(s: System, first: seq<Event>, second: seq<Event>)
    requires s.tables.Valid() && Runs(s, first)
    requires After(s, first).tables.Valid() && Runs(After(s, first), second)
    ensures Runs(s, first + second) && After(s, first + second) == After(After(s, first), second)
    decreases |first|
  {
    hide Step, Enabled;
    if first == [] {
      assert first + second == second;
    } else {
      StepValid(s, first[0]);
      assert (first + second)[1..] == first[1..] + second;
      RunsInTwo(Step(s, first[0]), first[1..], second);
    }
  }

  /** The order of the log respects real time: a call that had ended before another began, on
      any two connections, was dispatched before it. */
  lemma OrderRespectsRealTime(t0: Tables, s0: System, first: seq<Event>, second: seq<Event>,
                              c: nat, j: nat, c': nat, j': nat)
    requires IsRun(t0, s0, first) && After(s0, first).tables.Valid() && Runs(After(s0, first), second)
    requires var mid := After(s0, first);
             && c < |mid.links| && j < |mid.links[c].ops| && InStep(mid.links[c].ops, j)
             && mid.links[c].ops[j].ended.Some? && Resolved(mid.links[c].ops[j].ended.value.result)
             && c' < |mid.links| && |mid.links[c'].ops| <= j'
    requires var s := After(After(s0, first), second);
             && c < |s.links| && c' < |s.links| && j' < |s.links[c'].ops| && j' in s.links[c'].spot
             && !s.links[c].mixed && !s.links[c'].mixed
    ensures var s := After(After(s0, first), second);
            && Runs(s0, first + second) && s == After(s0, first + second)
            && j in s.links[c].spot && s.links[c].spot[j] < s.links[c'].spot[j']
  {
    hide Stages, Flow, RequestPdu, Sequential, CheckResponse, Runs, After, SendingInOrder, OneAtATime, Resolved, Start, Replay;
    StartHasInv(t0, s0);
    RunKeepsInv(t0, s0, first);
    RunsInTwo(s0, first, second);
    RunKeepsInv(t0, s0, first + second);
    RunIsLater(After(s0, first), second);
    var mid, s := After(s0, first), After(After(s0, first), second);
    assert Orderly(mid.log, c, mid.links[c]) && Orderly(s.log, c, s.links[c]) && Orderly(s.log, c', s.links[c']);
    assert LaterLink(mid.links[c], s.links[c], |mid.log|) && LaterLink(mid.links[c'], s.links[c'], |mid.log|);
    assert forall i | 0 <= i < j :: s.links[c].ops[i] == mid.links[c].ops[i];
    assert InStep(s.links[c].ops, j);
    assert Explained(s.log, s.links[c], j);
  }
}
