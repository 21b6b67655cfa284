/** When a connection's next call gets its own reply, over whole runs: exactly when every earlier
    call on it was answered. The caller can tell beforehand, from its own results. */
module Synchrony {
  import opened Wrappers
  import opened Bytes
  import opened Device
  import opened Pdu
  import opened Dispatch
  import opened Network
  import opened Mbap
  import opened Server
  import opened Client
  import opened EndToEnd
  import opened ReplyMatching
  import opened Interleaving
  import opened Linearizability
  import opened CodeAsSteps

  /** Nothing is under way: every request has been read and answered, every reply received whole. */
  predicate Clear(l: Link)
  {
    l.read == |l.ops| && l.held.None? && l.reply.None? && l.toClient == []
  }

  /** The last call, running or over, got its reply, or that reply is still somewhere under way. */
  ghost predicate Owed(l: Link)
  {
    !l.mixed && l.open && l.ops != [] && InStep(l.ops, |l.ops| - 1) && Clear(l) ==>
      Idle(l) && Resolved(l.ops[|l.ops| - 1].ended.value.result)
  }

  // ---- Every step keeps what is owed ----

  lemma InvokeOwes(log: seq<Entry>, c: nat, l: Link, req: Request, now: nat)
    requires Orderly(log, c, l) && Idle(l) && req.Legal()
    ensures Owed(Invoked(l, req, now))
  {
    hide CheckResponse, RequestPdu, NextId, RequestFrame, ReplyFrame, Outcomes, Recorded, OneAtATime, Stages;
    var l' := Invoked(l, req, now);
    assert forall j | 0 <= j < |l.ops| :: l'.ops[j] == l.ops[j];
    assert InStep(l'.ops, |l.ops|) ==> InStep(l.ops, |l.ops|);
  }

  lemma FinishOwes(log: seq<Entry>, c: nat, l: Link, arrived: nat, now: nat)
    requires Orderly(log, c, l) && !l.mixed && Owed(l) && !Idle(l) && arrived <= |l.toClient|
    ensures Owed(Finished(l, arrived, now))
  {
    hide CheckResponse, RequestPdu, HeaderBytes, Receive, ReplyFrame, Outcomes, OneAtATime, Stages, Resolved, RequestStream;
    var k := |l.ops| - 1;
    var op := l.ops[k];
    var l' := Finished(l, arrived, now);
    assert forall j | 0 <= j < k :: l'.ops[j] == l.ops[j];
    assert InStep(l'.ops, k) == InStep(l.ops, k);
    if l.open && InStep(l.ops, k) {
      if l.toClient == [] {
        NothingReceived(op.id, l.unitId, FunctionCode(op.req));
      } else if arrived == |l.toClient| {
        var reply := log[l.spot[k]].reply;
        assert l.toClient[..arrived] == ReplyTo(log, l, k).Bytes() + [];
        AnsweredWhole(reply, op.id, l.unitId, FunctionCode(op.req));
      }
    }
  }

  lemma AnsweredWhole(reply: seq<byte>, id: uint16, unitId: byte, want: byte)
    requires 1 <= |reply| <= 252
    ensures Resolved(Receive(ReplyFrame(Header(id, PROTOCOL_ID, 0, unitId), reply).Bytes() + [], id, unitId, want).0)
  {
    hide HeaderBytes, CheckResponse, Receive;
    var f := ReplyFrame(Header(id, PROTOCOL_ID, 0, unitId), reply);
    ReceiveWholeFrame(f, [], id, unitId, want);
    CheckedIsResolved(reply, id, unitId, want);
  }

  lemma LinkStepOwes(s: System, e: Event, c: nat)
    requires s.tables.Valid() && Enabled(s, e) && c < |s.links| && LinkInv(s.log, c, s.links[c]) && Owed(s.links[c])
    ensures Owed(Step(s, e).links[c])
  {
    hide Orderly, Reply, Finished, Invoked, InvokedCut, Receive, RequestFrame, RequestPdu, HeaderBytes, Resolved;
    var l := s.links[c];
    if l.mixed {
      MixedStays(s, e, c);
    } else if !e.Set? && e.c == c {
      match e
      case Invoke(_, req) => InvokeOwes(s.log, c, l, req, |s.log|);
      case Finish(_, arrived) => FinishOwes(s.log, c, l, arrived, |s.log|);
      case InvokeCut(_, req, cut) => CutOwes(l, req, cut);
      case _ =>
    }
  }

  lemma CutOwes(l: Link, req: Request, cut: nat)
    requires Owed(l) && req.Legal()
    ensures Owed(InvokedCut(l, req, cut))
  {
  }

  lemma {:induction false} RunOwes(t0: Tables, s: System, events: seq<Event>, c: nat)
    requires t0.Valid() && s.tables.Valid() && Inv(t0, s) && Runs(s, events)
    requires c < |s.links| && Owed(s.links[c])
    ensures c < |After(s, events).links| && Owed(After(s, events).links[c])
    decreases |events|
  {
    hide LinkInv, Step, Owed, Sequential, Enabled;
    if events != [] {
      StepValid(s, events[0]);
      LinkStepOwes(s, events[0], c);
      StepKeepsInv(t0, s, events[0]);
      RunOwes(t0, Step(s, events[0]), events[1..], c);
    }
  }

  /** On an open connection with no call running, all of whose calls but perhaps the last were
      answered: the last was answered exactly when nothing is under way. */
  lemma AnsweredExactlyWhenClear(t0: Tables, s0: System, events: seq<Event>, c: nat)
    requires IsRun(t0, s0, events) && c < |After(s0, events).links|
    requires var l := After(s0, events).links[c];
             !l.mixed && l.open && Idle(l) && (l.ops != [] ==> InStep(l.ops, |l.ops| - 1))
    ensures var l := After(s0, events).links[c];
            InStep(l.ops, |l.ops|) <==> Clear(l)
  {
    hide After, Runs, Sequential, Orderly, Owed, Clear, InStep, Idle;
    StartHasInv(t0, s0);
    RunKeepsInv(t0, s0, events);
    RunIsLater(s0, events);
    assert s0.links[c] in s0.links;
    NothingOwed(s0.links[c]);
    RunOwes(t0, s0, events, c);
    var s := After(s0, events);
    LastAnswer(s.log, c, s.links[c]);
  }

  lemma NothingOwed(l: Link)
    requires Fresh(l)
    ensures Owed(l)
  {
  }

  lemma LastAnswer(log: seq<Entry>, c: nat, l: Link)
    requires Orderly(log, c, l) && Owed(l) && !l.mixed && l.open && Idle(l) && (l.ops != [] ==> InStep(l.ops, |l.ops| - 1))
    ensures InStep(l.ops, |l.ops|) <==> Clear(l)
  {
    hide Stages, Outcomes, SendingInOrder, OneAtATime, Recorded, Resolved;
  }

  // ---- A running call, from its beginning on ----

  /** The server is done with the connection: its last request is answered and the reply is out. */
  predicate Sent(l: Link) { l.read == |l.ops| && l.held.None? && l.reply.None? }

  /** Something is in front of the running call's reply. */
  ghost predicate Crowded(log: seq<Entry>, c: nat, l: Link)
    requires l.ops != [] && LegalOps(l.ops) && Recorded(log, c, l) && l.read <= |l.ops|
  {
    var k := |l.ops| - 1;
    if Sent(l) then k in l.spot && Behind(l.toClient, ReplyTo(log, l, k).Bytes())
    else if l.read == |l.ops| then l.toClient != []
    else l.toClient != [] || l.read < k || l.held.Some? || l.reply.Some?
  }

  /** These bytes end in `own`, and not with it alone. */
  predicate Behind(bytes: seq<byte>, own: seq<byte>)
  {
    |own| < |bytes| && bytes[|bytes| - |own|..] == own
  }

  /** What holds of a running call; `clear` says whether anything was under way when it began. */
  ghost predicate Queued(log: seq<Entry>, c: nat, l: Link, clear: bool)
    requires LegalOps(l.ops) && Recorded(log, c, l) && l.read <= |l.ops|
  {
    && !l.mixed && !Idle(l)
    && (if clear then OwnTurn(log, c, l) && (l.open && Sent(l) ==> l.toClient != []) else l.open ==> Crowded(log, c, l))
  }

  lemma BeginQueued(log: seq<Entry>, c: nat, l: Link, req: Request)
    requires Orderly(log, c, l) && Idle(l) && req.Legal() && !l.mixed && l.torn == []
    ensures var l' := Invoked(l, req, |log|);
            Orderly(log, c, l') && Queued(log, c, l', Clear(l))
  {
    hide CheckResponse, RequestPdu, NextId, RequestFrame, ReplyFrame, Outcomes, Recorded, OneAtATime, Stages, SendingInOrder, Flow;
    InvokeKeeps(log, c, l, req);
    UnreadIsLess(log, c, l);
  }

  lemma UnreadIsLess(log: seq<Entry>, c: nat, l: Link)
    requires Orderly(log, c, l)
    ensures l.read <= |l.ops|
  {
  }

  lemma GrownLogQueued(log: seq<Entry>, e: Entry, c: nat, l: Link, clear: bool)
    requires Orderly(log, c, l) && Orderly(log + [e], c, l) && Queued(log, c, l, clear)
    ensures Queued(log + [e], c, l, clear)
  {
    hide CheckResponse, ReplyFrame, Outcomes, Flow, Stages, OneAtATime, RequestPdu, Idle;
    assert forall d | 0 <= d < |log| :: (log + [e])[d] == log[d];
  }

  lemma TakeQueued(log: seq<Entry>, c: nat, l: Link, clear: bool)
    requires Orderly(log, c, l) && Queued(log, c, l, clear) && l.open && l.held.None? && l.reply.None? && NextFrame(l.toServer).Some?
    requires Orderly(log, c, Taken(l))
    ensures Queued(log, c, Taken(l), clear)
  {
    hide CheckResponse, ReplyFrame, Outcomes, Flow, Stages, OneAtATime, RequestPdu, NextFrame, SendingInOrder;
    UnreadIsLess(log, c, Taken(l));
  }

  lemma DispatchQueued(log: seq<Entry>, c: nat, l: Link, clear: bool, resp: seq<byte>)
    requires Orderly(log, c, l) && Queued(log, c, l, clear) && l.held.Some? && |resp| <= 252 && l.read > 0
    requires Orderly(log + [Served(c, l.read - 1, l.held.value.pdu, resp)], c, DispatchedAs(l, resp, |log|))
    ensures Queued(log + [Served(c, l.read - 1, l.held.value.pdu, resp)], c, DispatchedAs(l, resp, |log|), clear)
  {
    hide CheckResponse, ReplyFrame, Outcomes, Flow, OneAtATime, RequestPdu, SendingInOrder, Stages;
  }

  lemma DropQueued(log: seq<Entry>, c: nat, l: Link, clear: bool)
    requires Orderly(log, c, l) && Queued(log, c, l, clear) && l.held.Some?
    requires Orderly(log, c, l.(held := None, open := false, dropped := Some(l.read - 1)))
    ensures Queued(log, c, l.(held := None, open := false, dropped := Some(l.read - 1)), clear)
  {
    hide CheckResponse, ReplyFrame, Outcomes, Flow, OneAtATime, RequestPdu, SendingInOrder, Stages;
  }

  lemma SendQueued(log: seq<Entry>, c: nat, l: Link, clear: bool)
    requires Orderly(log, c, l) && Queued(log, c, l, clear) && l.reply.Some?
    requires Orderly(log, c, l.(toClient := l.toClient + l.reply.value.Bytes(), reply := None))
    ensures Queued(log, c, l.(toClient := l.toClient + l.reply.value.Bytes(), reply := None), clear)
  {
    hide CheckResponse, ReplyFrame, Outcomes, Flow, OneAtATime, RequestPdu, SendingInOrder;
    var own := l.reply.value.Bytes();
    assert (l.toClient + own)[|l.toClient|..] == own;
    assert l.toClient == [] ==> l.toClient + own == own;
  }

  lemma SendFailsQueued(log: seq<Entry>, c: nat, l: Link, clear: bool, cut: nat)
    requires Orderly(log, c, l) && Queued(log, c, l, clear) && l.reply.Some?
    requires Orderly(log, c, ReplyCut(l, cut))
    ensures Queued(log, c, ReplyCut(l, cut), clear)
  {
    hide CheckResponse, ReplyFrame, Outcomes, Flow, OneAtATime, RequestPdu, SendingInOrder, HeaderBytes, Part;
    assert l.toClient == [] ==> ReplyCut(l, cut).toClient == Part(l.reply.value.Bytes(), cut);
  }

  predicate Finishes(e: Event, c: nat) { e.Finish? && e.c == c }

  predicate Waiting(events: seq<Event>, c: nat) { forall e | e in events :: !Finishes(e, c) }

  /** Only the client's own steps touch its calls. */
  lemma StepWaits(s: System, e: Event, c: nat)
    requires s.tables.Valid() && Enabled(s, e) && !Finishes(e, c) && c < |s.links| && !Idle(s.links[c])
    ensures c < |Step(s, e).links| && Step(s, e).links[c].ops == s.links[c].ops
    ensures Step(s, e).links[c].unitId == s.links[c].unitId && Step(s, e).links[c].mixed == s.links[c].mixed
  {
    hide Reply, ApplyChange, ReplyFrame, NextFrame, HeaderBytes;
  }

  lemma StepQueued(s: System, e: Event, c: nat, clear: bool)
    requires s.tables.Valid() && Enabled(s, e) && !Finishes(e, c) && c < |s.links| && c < |Step(s, e).links|
    requires Orderly(s.log, c, s.links[c]) && Orderly(Step(s, e).log, c, Step(s, e).links[c])
    requires Queued(s.log, c, s.links[c], clear)
    ensures Queued(Step(s, e).log, c, Step(s, e).links[c], clear)
  {
    hide Orderly, OwnTurn, Crowded, Reply, ApplyChange, Finished, Invoked, InvokedCut, Taken, DispatchedAs, ReplyCut;
    var l := s.links[c];
    if e.Set? || e.c != c {
      if e.Set? || e.DispatchHeld? {
        GrownLogQueued(s.log, Step(s, e).log[|s.log|], c, l, clear);
      }
    } else {
      match e
      case Take(_) => TakeQueued(s.log, c, l, clear);
      case DropRequest(_) => DropQueued(s.log, c, l, clear);
      case DispatchHeld(_) => DispatchQueued(s.log, c, l, clear, Reply(s.tables, l.held.value.pdu).1);
      case SendReply(_) => SendQueued(s.log, c, l, clear);
      case SendFails(_, cut) => SendFailsQueued(s.log, c, l, clear, cut);
      case _ =>
    }
  }

  lemma {:induction false} RunQueued(t0: Tables, s: System, events: seq<Event>, c: nat, clear: bool)
    requires t0.Valid() && s.tables.Valid() && Inv(t0, s) && Runs(s, events) && Waiting(events, c)
    requires c < |s.links| && Orderly(s.log, c, s.links[c]) && Queued(s.log, c, s.links[c], clear)
    ensures var s' := After(s, events);
            && Inv(t0, s') && c < |s'.links| && Orderly(s'.log, c, s'.links[c])
            && Queued(s'.log, c, s'.links[c], clear)
            && s'.links[c].ops == s.links[c].ops && s'.links[c].unitId == s.links[c].unitId
    decreases |events|
  {
    hide Orderly, OwnTurn, Crowded, Step, Sequential, Enabled, Idle;
    if events != [] {
      assert events[0] in events;
      StepValid(s, events[0]);
      StepKeepsInv(t0, s, events[0]);
      StepWaits(s, events[0], c);
      StepQueued(s, events[0], c, clear);
      RunQueued(t0, Step(s, events[0]), events[1..], c, clear);
    }
  }

  // ---- The next call ----

  /** After a run, a further call is begun on an idle connection with no request cut short, and then
      anything at all happens, on any connections, but that this call does not end. */
  ghost predicate Scenario(t0: Tables, s0: System, events: seq<Event>, c: nat, req: Request, more: seq<Event>)
  {
    && IsRun(t0, s0, events) && req.Legal()
    && var s := After(s0, events);
       && s.tables.Valid() && c < |s.links|
       && Idle(s.links[c]) && !s.links[c].mixed && s.links[c].torn == []
       && var begun := Step(s, Invoke(c, req));
          begun.tables.Valid() && Runs(begun, more) && Waiting(more, c)
  }

  /** The connection just before the call. */
  ghost function Before(t0: Tables, s0: System, events: seq<Event>, c: nat, req: Request, more: seq<Event>): Link
    requires Scenario(t0, s0, events, c, req, more)
  {
    After(s0, events).links[c]
  }

  ghost function Now(t0: Tables, s0: System, events: seq<Event>, c: nat, req: Request, more: seq<Event>): (s: System)
    requires Scenario(t0, s0, events, c, req, more)
  {
    After(Step(After(s0, events), Invoke(c, req)), more)
  }

  lemma ScenarioQueued(t0: Tables, s0: System, events: seq<Event>, c: nat, req: Request, more: seq<Event>)
    requires Scenario(t0, s0, events, c, req, more)
    ensures t0.Valid()
    ensures var l, s := Before(t0, s0, events, c, req, more), Now(t0, s0, events, c, req, more);
            && Inv(t0, s) && c < |s.links| && Orderly(s.log, c, s.links[c])
            && Queued(s.log, c, s.links[c], Clear(l))
            && s.links[c].ops == l.ops + [Op(req, NextId(l.txID), |After(s0, events).log|, None)]
            && s.links[c].unitId == l.unitId
  {
    hide Orderly, OwnTurn, Crowded, Runs, After, Sequential, RequestFrame, RequestPdu, NextId, Clear;
    StartHasInv(t0, s0);
    RunKeepsInv(t0, s0, events);
    var s := After(s0, events);
    var begun := Step(s, Invoke(c, req));
    BeginQueued(s.log, c, s.links[c], req);
    StepKeepsInv(t0, s, Invoke(c, req));
    RunQueued(t0, begun, more, c, Clear(s.links[c]));
  }

  /** What the running call returns, and what stays unread, when it ends with so many bytes arrived. */
  function Ending(l: Link, arrived: nat, now: nat): (Result<seq<byte>, DoError>, seq<byte>)
    requires !Idle(l) && arrived <= |l.toClient|
  {
    var over := Finished(l, arrived, now);
    (over.ops[|l.ops| - 1].ended.value.result, over.toClient)
  }

  lemma InvIsReplayable(t0: Tables, s: System)
    requires t0.Valid() && Inv(t0, s)
    ensures Replayable(s.log)
  {
  }

  /** A dispatch of one of the calls is logged with the request as written and its answer in turn. */
  lemma LoggedAnswer(t0: Tables, s: System, c: nat, k: nat)
    requires t0.Valid() && Inv(t0, s) && Replayable(s.log) && c < |s.links| && Orderly(s.log, c, s.links[c])
    requires k < |s.links[c].ops| && k in s.links[c].spot
    ensures var l := s.links[c];
            var req := l.ops[k].req;
            && req.Legal() && l.ops[k].invoked <= l.spot[k] < |s.log|
            && var a := AnswerInTurn(t0, s.log, l.spot[k], req);
               && Answers(req, a)
               && s.log[l.spot[k]] == Served(c, k, RequestPdu(req), AnswerPdu(req, a))
  {
    hide Stages, Flow, Outcomes, RequestStream, OneAtATime, RequestPdu, AnswerPdu, Apply, Reply, LinkInv;
    var l := s.links[c];
    ReplyToRequest(Replay(t0, s.log[..l.spot[k]]), l.ops[k].req);
  }

  lemma AnsweredInTurn(log: seq<Entry>, c: nat, l: Link, arrived: nat)
    requires Orderly(log, c, l) && Queued(log, c, l, true) && arrived <= |l.toClient|
    ensures var k := |l.ops| - 1;
            var (r, left) := Ending(l, arrived, |log|);
            OutOfTime(r)
            || (&& k in l.spot && l.spot[k] < |log| && log[l.spot[k]].Served? && |log[l.spot[k]].reply| > 0
                && r == CheckResponse(log[l.spot[k]].reply, l.ops[k].id, l.unitId, FunctionCode(l.ops[k].req))
                && left == [])
  {
    hide Stages, Flow, Outcomes, SendingInOrder, OneAtATime, OwnTurn, CheckResponse, Receive, Recorded;
    FinishInTurn(log, c, l, arrived);
  }

  /** A call begun with nothing under way, whatever became of the calls before it, and ending at any
      moment: it runs out of time, or it returns what its request answers carried out alone at one
      point of the log while it was running, and then leaves nothing unread. */
  lemma CallFromClearIsSequential(t0: Tables, s0: System, events: seq<Event>, c: nat, req: Request, more: seq<Event>, arrived: nat)
    requires Scenario(t0, s0, events, c, req, more) && Clear(Before(t0, s0, events, c, req, more))
    requires var s := Now(t0, s0, events, c, req, more); c < |s.links| ==> arrived <= |s.links[c].toClient|
    ensures var s := Now(t0, s0, events, c, req, more);
            c < |s.links| && Replayable(s.log) && !Idle(s.links[c])
    ensures var s := Now(t0, s0, events, c, req, more);
            var l := s.links[c];
            var k := |l.ops| - 1;
            var (r, left) := Ending(l, arrived, |s.log|);
            OutOfTime(r)
            || (&& k in l.spot && |After(s0, events).log| <= l.spot[k] < |s.log|
                && var a := AnswerInTurn(t0, s.log, l.spot[k], req);
                   && Answers(req, a)
                   && s.log[l.spot[k]] == Served(c, k, RequestPdu(req), AnswerPdu(req, a))
                   && Conclude(req, r) == Told(req, a, l.ops[k].id, l.unitId)
                   && left == [])
  {
    hide Orderly, Crowded, OwnTurn, Clear, CheckResponse, Conclude, RequestPdu, AnswerPdu, Apply, After, Runs, Ending, Scenario, NextId, Sequential;
    ScenarioQueued(t0, s0, events, c, req, more);
    var s := Now(t0, s0, events, c, req, more);
    var l := s.links[c];
    var k := |l.ops| - 1;
    InvIsReplayable(t0, s);
    AnsweredInTurn(s.log, c, l, arrived);
    if !OutOfTime(Ending(l, arrived, |s.log|).0) {
      LoggedAnswer(t0, s, c, k);
      AnswerUnderstood(req, AnswerInTurn(t0, s.log, l.spot[k], req), l.ops[k].id, l.unitId);
    }
  }

  lemma SentIsDispatched(log: seq<Entry>, c: nat, l: Link, clear: bool)
    requires Orderly(log, c, l) && Queued(log, c, l, clear) && l.open && Sent(l)
    ensures |l.ops| - 1 in l.spot
  {
    hide Stages, Flow, Outcomes, SendingInOrder, OneAtATime, Recorded;
  }

  lemma SentIsLast(log: seq<Entry>, c: nat, l: Link, clear: bool, own: seq<byte>)
    requires l.open && Sent(l) && l.ops != []
    requires var k := |l.ops| - 1;
             && k in l.spot && l.spot[k] < |log| && log[l.spot[k]].Served? && 2 <= |log[l.spot[k]].reply| <= 252
             && own == ReplyWith(l.ops[k].id, l.unitId, log[l.spot[k]].reply).Bytes()
    requires Orderly(log, c, l) && Queued(log, c, l, clear)
    ensures if clear then l.toClient == own else Behind(l.toClient, own)
  {
    hide Stages, Flow, Outcomes, SendingInOrder, OneAtATime, HeaderBytes, Behind, Recorded;
  }

  /** What a call makes of its own reply with everything that stands in front of it. */
  lemma EndingBehind(l: Link, ahead: seq<byte>, a: Answer, now: nat)
    requires !Idle(l) && var op := l.ops[|l.ops| - 1];
             op.req.Legal() && Answers(op.req, a) && !a.Rejected?
             && l.toClient == ahead + ReplyWith(op.id, l.unitId, AnswerPdu(op.req, a)).Bytes()
    ensures Ending(l, |l.toClient|, now) == (Ok(AnswerPdu(l.ops[|l.ops| - 1].req, a)), []) <==> ahead == []
  {
    hide HeaderBytes, Receive, CheckResponse, AnswerPdu, Bit;
    var op := l.ops[|l.ops| - 1];
    AnswerFlag(op.req, a);
    assert l.toClient[..|l.toClient|] == l.toClient;
    var rest := Receive(l.toClient, op.id, l.unitId, FunctionCode(op.req)).1;
    assert rest + l.toClient[|l.toClient|..] == rest;
    OwnReplyExactlyWhenNothingAhead(ahead, op.id, l.unitId, AnswerPdu(op.req, a));
  }

  lemma RefusedExactlyOutside(t: Tables, req: Request)
    requires t.Valid()
    ensures Apply(t, req).1.Rejected? <==> !req.Fits()
  {
  }

  /** The next call, for every continuation in which the server gets to send its reply and everything
      sent arrives: for a request that fits its table, the call returns the answer its own dispatch
      gave and leaves nothing behind, if and only if nothing was under way when it began. */
  lemma NextCallExactlyWhenClear(t0: Tables, s0: System, events: seq<Event>, c: nat, req: Request, more: seq<Event>)
    requires Scenario(t0, s0, events, c, req, more) && req.Fits()
    requires var s := Now(t0, s0, events, c, req, more); c < |s.links| && s.links[c].open && Sent(s.links[c])
    ensures var s := Now(t0, s0, events, c, req, more); Replayable(s.log) && !Idle(s.links[c])
    ensures var s := Now(t0, s0, events, c, req, more);
            var l := s.links[c];
            var k := |l.ops| - 1;
            && k in l.spot && |After(s0, events).log| <= l.spot[k] < |s.log|
            && var a := AnswerInTurn(t0, s.log, l.spot[k], req);
               && Answers(req, a) && !a.Rejected?
               && s.log[l.spot[k]] == Served(c, k, RequestPdu(req), AnswerPdu(req, a))
               && (Ending(l, |l.toClient|, |s.log|) == (Ok(AnswerPdu(req, a)), [])
                   <==> Clear(Before(t0, s0, events, c, req, more)))
  {
    hide Orderly, Crowded, OwnTurn, Clear, RequestPdu, AnswerPdu, Apply, After, Runs, Ending, Scenario, NextId, Sequential, HeaderBytes;
    ScenarioQueued(t0, s0, events, c, req, more);
    var s := Now(t0, s0, events, c, req, more);
    var l := s.links[c];
    var k := |l.ops| - 1;
    InvIsReplayable(t0, s);
    SentIsDispatched(s.log, c, l, Clear(Before(t0, s0, events, c, req, more)));
    LoggedAnswer(t0, s, c, k);
    RefusedExactlyOutside(Replay(t0, s.log[..l.spot[k]]), req);
    var a := AnswerInTurn(t0, s.log, l.spot[k], req);
    var own := ReplyWith(l.ops[k].id, l.unitId, AnswerPdu(req, a)).Bytes();
    SentIsLast(s.log, c, l, Clear(Before(t0, s0, events, c, req, more)), own);
    var ahead := l.toClient[..|l.toClient| - |own|];
    assert l.toClient == ahead + own;
    EndingBehind(l, ahead, a, |s.log|);
  }

  /** Which the caller can tell from its own results: where every earlier call but perhaps the last was
      answered, the next call gets its own answer if and only if the last one got its. */
  lemma NextCallExactlyAfterAnswers(t0: Tables, s0: System, events: seq<Event>, c: nat, req: Request, more: seq<Event>)
    requires Scenario(t0, s0, events, c, req, more) && req.Fits()
    requires var l := Before(t0, s0, events, c, req, more); l.open && (l.ops != [] ==> InStep(l.ops, |l.ops| - 1))
    requires var s := Now(t0, s0, events, c, req, more); c < |s.links| && s.links[c].open && Sent(s.links[c])
    ensures var s := Now(t0, s0, events, c, req, more); Replayable(s.log) && !Idle(s.links[c])
    ensures var s := Now(t0, s0, events, c, req, more);
            var before, l := Before(t0, s0, events, c, req, more), s.links[c];
            var k := |l.ops| - 1;
            && k in l.spot && |After(s0, events).log| <= l.spot[k] < |s.log|
            && var a := AnswerInTurn(t0, s.log, l.spot[k], req);
               && Answers(req, a) && !a.Rejected?
               && s.log[l.spot[k]] == Served(c, k, RequestPdu(req), AnswerPdu(req, a))
               && (Ending(l, |l.toClient|, |s.log|) == (Ok(AnswerPdu(req, a)), []) <==> InStep(before.ops, |before.ops|))
  {
    hide After, Runs, Ending, Apply, AnswerPdu, Start, Clear, InStep, Step, RequestPdu;
    NextCallExactlyWhenClear(t0, s0, events, c, req, more);
    AnsweredExactlyWhenClear(t0, s0, events, c);
  }

  // ---- Such continuations exist ----

  /** The server finishes what it is doing for a connection. */
  lemma Settle(s: System, c: nat) returns (events: seq<Event>)
    requires s.tables.Valid() && c < |s.links| && s.links[c].open
    requires s.links[c].held.Some? ==> s.links[c].read > 0 && s.links[c].reply.None?
    ensures forall e | e in events :: ServerStep(e, c)
    ensures Runs(s, events)
    ensures var s' := After(s, events);
            && s'.tables.Valid() && |s'.links| == |s.links| && SameCalls(s.links[c], s'.links[c])
            && AtTop(s'.links[c])
  {
    hide Reply, HeaderBytes, Runs, After;
    var l := s.links[c];
    if l.held.Some? {
      var s1 := Step(s, DispatchHeld(c));
      var s2 := Step(s1, SendReply(c));
      events := [DispatchHeld(c), SendReply(c)];
      NoEvents(s2);
      OneStep(s1, SendReply(c), [], [SendReply(c)]);
      OneStep(s, DispatchHeld(c), [SendReply(c)], events);
    } else if l.reply.Some? {
      events := [SendReply(c)];
      NoEvents(Step(s, SendReply(c)));
      OneStep(s, SendReply(c), [], events);
    } else {
      events := [];
      NoEvents(s);
    }
  }

  /** On an open connection the server, left alone, always gets to send the reply. */
  lemma ReplyCanBeSent(t0: Tables, s0: System, events: seq<Event>, c: nat, req: Request) returns (more: seq<Event>)
    requires Scenario(t0, s0, events, c, req, []) && Before(t0, s0, events, c, req, []).open
    ensures Scenario(t0, s0, events, c, req, more) && forall e | e in more :: ServerStep(e, c)
    ensures var s := Now(t0, s0, events, c, req, more); c < |s.links| && s.links[c].open && Sent(s.links[c])
  {
    hide Runs, After, Step, NextFrame, Orderly, OwnTurn, Crowded, RequestPdu, Serve, Clear;
    ScenarioQueued(t0, s0, events, c, req, []);
    var begun := Step(After(s0, events), Invoke(c, req));
    NoEvents(begun);
    BegunIsOpen(After(s0, events), c, req);
    HeldHasBeenRead(begun.log, c, begun.links[c]);
    var first := Settle(begun, c);
    var second := LoopAsSteps(After(begun, first), c, AllAnswered(), 0);
    RunsInTwo(begun, first, second);
    more := first + second;
    assert Waiting(more, c);
    ScenarioQueued(t0, s0, events, c, req, more);
    NothingLeftToRead(Now(t0, s0, events, c, req, more).log, c, Now(t0, s0, events, c, req, more).links[c]);
  }

  lemma BegunIsOpen(s: System, c: nat, req: Request)
    requires s.tables.Valid() && Enabled(s, Invoke(c, req))
    ensures Step(s, Invoke(c, req)).links[c].open == s.links[c].open
  {
    hide RequestFrame, RequestPdu, NextId;
  }

  lemma HeldHasBeenRead(log: seq<Entry>, c: nat, l: Link)
    requires Orderly(log, c, l)
    ensures l.held.Some? ==> l.read > 0 && l.reply.None?
  {
  }

  lemma NothingLeftToRead(log: seq<Entry>, c: nat, l: Link)
    requires Orderly(log, c, l) && AtTop(l) && NextFrame(l.toServer).None?
    ensures Sent(l)
  {
    hide RequestPdu, HeaderBytes, NextFrame, Recorded, Stages, Flow, Outcomes, OneAtATime;
    if l.read < |l.ops| {
      var f := FrameOf(l.ops[l.read], l.unitId);
      var unread := l.ops[l.read..];
      var rest := RequestStream(unread[1..], l.unitId) + l.torn;
      assert l.toServer == f.Bytes() + rest;
      NextFrameOf(f, rest);
    }
  }
}
