/** Any number of connections to one server, their goroutines interleaved in any way, with
    direct Set calls in between. The mutex makes each dispatch one step; so is each Set call.
    Delays, drops, writes cut short at either end and client deadlines are steps that may happen
    at any time. */
module Interleaving {
  import opened Wrappers
  import opened Bytes
  import opened Device
  import opened Pdu
  import opened Dispatch
  import opened Network
  import opened Mbap
  import opened Server
  import opened Client
  import opened EndToEnd

  /** A client call: its stamps count the dispatches and Set calls made before it began and
      before it ended. */
  datatype Op = Op(req: Request, id: uint16, invoked: nat, ended: Option<End>)

  datatype End = End(at: nat, result: Result<seq<byte>, DoError>)

  /** One connection. `torn` is what got out of requests whose write failed; `mixed` says that the
      client then went on writing behind it, so that the peer no longer frames what it is sent.
      `ops`, `read`, `spot` and `dropped` only record history: the calls whose request was written,
      how many of those the server has read, where in the log each was dispatched, and which one
      fault injection discarded. */
  datatype Link = Link(
    unitId: byte,
    txID: nat,
    ops: seq<Op>,
    toServer: seq<byte>,
    torn: seq<byte>,
    mixed: bool,
    held: Option<Frame>,
    reply: Option<Frame>,
    toClient: seq<byte>,
    open: bool,
    read: nat,
    spot: map<nat, nat>,
    dropped: Option<nat>)

  datatype Change =
    | SetHolding(address: uint16, value: uint16)
    | SetInput(address: uint16, value: uint16)
    | SetCoil(address: uint16, on: bool)
    | SetDiscrete(address: uint16, on: bool)
    | SetHoldingRange(address: uint16, values: seq<uint16>)

  datatype Entry =
    | Served(conn: nat, op: nat, pdu: seq<byte>, reply: seq<byte>)
    | Direct(change: Change)

  datatype System = System(tables: Tables, links: seq<Link>, log: seq<Entry>)

  datatype Event =
    | Invoke(c: nat, req: Request)
    | InvokeCut(c: nat, req: Request, cut: nat)
    | Take(c: nat)
    | DropRequest(c: nat)
    | DispatchHeld(c: nat)
    | SendReply(c: nat)
    | SendFails(c: nat, cut: nat)
    | Finish(c: nat, arrived: nat)
    | Set(change: Change)

  // ---- Steps ----

  predicate Possible(ch: Change) { ch.SetHoldingRange? ==> ch.address + |ch.values| <= TABLE_SIZE }

  function ApplyChange(t: Tables, ch: Change): (r: Tables)
    requires t.Valid() && Possible(ch)
    ensures r.Valid()
  {
    match ch
    case SetHolding(a, v) => t.(holding := t.holding[a := v])
    case SetInput(a, v) => t.(input := t.input[a := v])
    case SetCoil(a, on) => t.(coils := t.coils[a := on])
    case SetDiscrete(a, on) => t.(discrete := t.discrete[a := on])
    case SetHoldingRange(a, vs) => t.(holding := Splice(t.holding, a, vs))
  }

  predicate Idle(l: Link) { l.ops == [] || l.ops[|l.ops| - 1].ended.Some? }

  predicate Enabled(s: System, e: Event)
  {
    match e
    case Set(ch) => Possible(ch)
    case _ =>
      && e.c < |s.links|
      && var l := s.links[e.c];
         match e
         case Invoke(_, req) => Idle(l) && req.Legal()
         case InvokeCut(_, req, _) => Idle(l) && req.Legal()
         case Take(_) => l.open && l.held.None? && l.reply.None? && NextFrame(l.toServer).Some?
         case DropRequest(_) => l.held.Some? && l.read > 0
         case DispatchHeld(_) => l.held.Some? && l.read > 0
         case SendReply(_) => l.reply.Some?
         case SendFails(_, _) => l.reply.Some?
         case Finish(_, arrived) => !Idle(l) && arrived <= |l.toClient|
         case Set(_) => true
  }

  /** The client writes its request. */
  function Invoked(l: Link, req: Request, now: nat): Link
    requires req.Legal()
  {
    var id := NextId(l.txID);
    l.(txID := (l.txID + 1) % UINT32,
       ops := l.ops + [Op(req, id, now, None)],
       toServer := l.toServer + RequestFrame(id, l.unitId, RequestPdu(req)),
       mixed := l.mixed || l.torn != [])
  }

  /** The client's write fails: the call reports that and is over, but part of the request may be out. */
  function InvokedCut(l: Link, req: Request, cut: nat): Link
    requires req.Legal()
  {
    var part := Part(RequestFrame(NextId(l.txID), l.unitId, RequestPdu(req)), cut);
    l.(txID := (l.txID + 1) % UINT32, toServer := l.toServer + part, torn := l.torn + part, mixed := l.mixed || l.torn != [])
  }

  /** The server's write fails, and it gives the connection up. */
  function ReplyCut(l: Link, cut: nat): Link
    requires l.reply.Some?
  {
    l.(toClient := l.toClient + Part(l.reply.value.Bytes(), cut), reply := None, open := false)
  }

  /** The client's read ends, with `arrived` bytes having reached it by then. */
  function Finished(l: Link, arrived: nat, now: nat): Link
    requires !Idle(l) && arrived <= |l.toClient|
  {
    var k := |l.ops| - 1;
    var op := l.ops[k];
    var (r, rest) := Receive(l.toClient[..arrived], op.id, l.unitId, FunctionCode(op.req));
    l.(ops := l.ops[k := op.(ended := Some(End(now, r)))], toClient := rest + l.toClient[arrived..])
  }

  function Taken(l: Link): Link
    requires NextFrame(l.toServer).Some?
  {
    var f := NextFrame(l.toServer).value;
    l.(held := Some(f), toServer := l.toServer[|f.Bytes()|..], read := l.read + 1)
  }

  function DispatchedAs(l: Link, resp: seq<byte>, now: nat): Link
    requires l.held.Some? && |resp| <= 252 && l.read > 0
  {
    l.(held := None, reply := Some(ReplyFrame(l.held.value.header, resp)), spot := l.spot[l.read - 1 := now])
  }

  function Step(s: System, e: Event): System
    requires s.tables.Valid() && Enabled(s, e)
  {
    match e
    case Set(ch) => s.(tables := ApplyChange(s.tables, ch), log := s.log + [Direct(ch)])
    case Invoke(c, req) => s.(links := s.links[c := Invoked(s.links[c], req, |s.log|)])
    case InvokeCut(c, req, cut) => s.(links := s.links[c := InvokedCut(s.links[c], req, cut)])
    case Take(c) => s.(links := s.links[c := Taken(s.links[c])])
    case DropRequest(c) =>
      var l := s.links[c];
      s.(links := s.links[c := l.(held := None, open := false, dropped := Some(l.read - 1))])
    case DispatchHeld(c) =>
      var l := s.links[c];
      var (after, resp) := Reply(s.tables, l.held.value.pdu);
      System(after, s.links[c := DispatchedAs(l, resp, |s.log|)],
             s.log + [Served(c, l.read - 1, l.held.value.pdu, resp)])
    case SendReply(c) =>
      var l := s.links[c];
      s.(links := s.links[c := l.(toClient := l.toClient + l.reply.value.Bytes(), reply := None)])
    case SendFails(c, cut) => s.(links := s.links[c := ReplyCut(s.links[c], cut)])
    case Finish(c, arrived) => s.(links := s.links[c := Finished(s.links[c], arrived, |s.log|)])
  }

  // ---- The sequential run ----

  predicate Replayable(log: seq<Entry>) { forall d | 0 <= d < |log| :: log[d].Direct? ==> Possible(log[d].change) }

  /** The tables after the logged dispatches and Set calls, one after another. */
  function Replay(t0: Tables, log: seq<Entry>): (t: Tables)
    requires t0.Valid() && Replayable(log)
    ensures t.Valid()
  {
    if log == [] then t0 else
    var t := Replay(t0, log[..|log| - 1]);
    match log[|log| - 1]
    case Served(_, _, pdu, _) => Reply(t, pdu).0
    case Direct(ch) => ApplyChange(t, ch)
  }

  // ---- Invariant ----

  function FrameOf(op: Op, unitId: byte): Frame
    requires op.req.Legal()
  {
    RequestAs(op.req, op.id, unitId)
  }

  predicate LegalOps(ops: seq<Op>) { forall j | 0 <= j < |ops| :: ops[j].req.Legal() }

  function RequestStream(ops: seq<Op>, unitId: byte): seq<byte>
    requires LegalOps(ops)
  {
    if ops == [] then [] else FrameOf(ops[0], unitId).Bytes() + RequestStream(ops[1..], unitId)
  }

  /** The bytes on their way to the server are exactly the requests it has not read, and then at most
      a part of one. */
  ghost predicate SendingInOrder(l: Link)
  {
    && LegalOps(l.ops) && l.read <= |l.ops|
    && l.toServer == RequestStream(l.ops[l.read..], l.unitId) + l.torn && NextFrame(l.torn).None?
  }

  ghost predicate OneAtATime(log: seq<Entry>, l: Link)
  {
    forall j | 0 <= j < |l.ops| ::
      && l.ops[j].invoked <= |log|
      && (j < |l.ops| - 1 ==> l.ops[j].ended.Some?)
      && (l.ops[j].ended.Some? ==> l.ops[j].invoked <= l.ops[j].ended.value.at <= |log|)
  }

  /** The log and the connection agree on which requests were dispatched, and where. */
  ghost predicate Recorded(log: seq<Entry>, c: nat, l: Link)
    requires LegalOps(l.ops)
  {
    && (forall j | j in l.spot ::
          && j < l.read <= |l.ops| && l.spot[j] < |log| && log[l.spot[j]].Served?
          && log[l.spot[j]].conn == c && log[l.spot[j]].op == j
          && log[l.spot[j]].pdu == RequestPdu(l.ops[j].req) && 2 <= |log[l.spot[j]].reply| <= 252
          && l.ops[j].invoked <= l.spot[j])
    && (forall d | 0 <= d < |log| :: log[d].Served? && log[d].conn == c ==> log[d].op in l.spot && l.spot[log[d].op] == d)
  }

  function ReplyTo(log: seq<Entry>, l: Link, j: nat): Frame
    requires j < |l.ops| && j in l.spot && l.spot[j] < |log| && log[l.spot[j]].Served? && 2 <= |log[l.spot[j]].reply| <= 252
  {
    ReplyFrame(Header(l.ops[j].id, PROTOCOL_ID, 0, l.unitId), log[l.spot[j]].reply)
  }

  /** A request the server holds is the last it read and is not dispatched; a reply it holds is
      to the last it read; a dropped request is never dispatched and was the connection's last. */
  ghost predicate Stages(log: seq<Entry>, c: nat, l: Link)
    requires LegalOps(l.ops) && Recorded(log, c, l) && l.read <= |l.ops|
  {
    && (l.held.Some? ==> l.open && l.reply.None? && l.read > 0 && l.read - 1 !in l.spot
                         && l.held.value == FrameOf(l.ops[l.read - 1], l.unitId))
    && (l.reply.Some? ==> l.open && l.read > 0 && l.read - 1 in l.spot && l.reply.value == ReplyTo(log, l, l.read - 1))
    && (l.dropped.Some? ==> !l.open && l.dropped.value == l.read - 1 && l.dropped.value !in l.spot)
  }

  /** How a call on a connection may end and leave it in step with its peer. */
  predicate Resolved(r: Result<seq<byte>, DoError>)
  {
    r.Ok? || r.error.Exception? || r.error.WrongFunction?
  }

  /** Every one of the first n calls ended in a reply. */
  predicate InStep(ops: seq<Op>, n: nat)
    requires n <= |ops|
  {
    forall j | 0 <= j < n :: ops[j].ended.Some? && Resolved(ops[j].ended.value.result)
  }

  /** Of all requests only that of the running call is under way, in one place. */
  ghost predicate OwnTurn(log: seq<Entry>, c: nat, l: Link)
    requires l.ops != [] && LegalOps(l.ops) && Recorded(log, c, l) && l.read <= |l.ops|
  {
    var k := |l.ops| - 1;
    && k <= l.read
    && (l.read == k ==> l.held.None? && l.reply.None? && l.toClient == [])
    && (l.toClient != [] ==>
          && l.held.None? && l.reply.None? && k in l.spot && l.toClient <= ReplyTo(log, l, k).Bytes()
          && (l.open ==> l.toClient == ReplyTo(log, l, k).Bytes()))
  }

  /** While in step, nothing is under way but the running call. */
  ghost predicate Flow(log: seq<Entry>, c: nat, l: Link)
    requires LegalOps(l.ops) && Recorded(log, c, l) && l.read <= |l.ops|
  {
    if Idle(l) then
      InStep(l.ops, |l.ops|) ==> l.read == |l.ops| && l.held.None? && l.reply.None? && l.toClient == []
    else
      InStep(l.ops, |l.ops| - 1) ==> OwnTurn(log, c, l)
  }

  /** The call returned what its own dispatch, made while it was under way, answered. */
  ghost predicate Explained(log: seq<Entry>, l: Link, j: nat)
    requires j < |l.ops|
  {
    var op := l.ops[j];
    && op.ended.Some? && j in l.spot
    && op.invoked <= l.spot[j] < op.ended.value.at <= |log|
    && log[l.spot[j]].Served? && |log[l.spot[j]].reply| > 0
    && op.ended.value.result == CheckResponse(log[l.spot[j]].reply, op.id, l.unitId, FunctionCode(op.req))
  }

  ghost predicate Outcomes(log: seq<Entry>, l: Link)
  {
    forall j | 0 <= j < |l.ops| && l.ops[j].ended.Some? && InStep(l.ops, j) ::
      if Resolved(l.ops[j].ended.value.result) then Explained(log, l, j) else OutOfTime(l.ops[j].ended.value.result)
  }

  /** What every step keeps of a connection on which nothing was written behind a cut request. */
  ghost predicate Orderly(log: seq<Entry>, c: nat, l: Link)
  {
    && SendingInOrder(l) && OneAtATime(log, l) && Recorded(log, c, l)
    && Stages(log, c, l) && Flow(log, c, l) && Outcomes(log, l)
  }

  ghost predicate LinkInv(log: seq<Entry>, c: nat, l: Link) { l.mixed || Orderly(log, c, l) }

  /** Each dispatch answered from the tables the sequential run had reached. */
  ghost predicate Sequential(t0: Tables, log: seq<Entry>)
    requires t0.Valid()
  {
    && Replayable(log)
    && forall d | 0 <= d < |log| && log[d].Served? :: log[d].reply == Reply(Replay(t0, log[..d]), log[d].pdu).1
  }

  ghost predicate Inv(t0: Tables, s: System)
    requires t0.Valid()
  {
    && Sequential(t0, s.log) && s.tables == Replay(t0, s.log)
    && (forall c | 0 <= c < |s.links| :: LinkInv(s.log, c, s.links[c]))
    && (forall d | 0 <= d < |s.log| && s.log[d].Served? :: s.log[d].conn < |s.links|)
  }

  predicate Fresh(l: Link)
  {
    && l.ops == [] && l.toServer == [] && l.torn == [] && !l.mixed && l.held.None? && l.reply.None? && l.toClient == []
    && l.open && l.read == 0 && l.spot == map[] && l.dropped.None?
  }

  predicate Start(t0: Tables, s: System)
  {
    s.tables == t0 && s.log == [] && forall l | l in s.links :: Fresh(l)
  }

  // ---- Steps that leave one connection alone ----

  lemma OthersKeepInv(log: seq<Entry>, e: Entry, c: nat, l: Link)
    requires Orderly(log, c, l)
    requires e.Served? ==> e.conn != c
    ensures Orderly(log + [e], c, l)
  {
    hide CheckResponse, ReplyFrame, FrameOf, RequestPdu, RequestStream, Outcomes, Stages, Flow, Recorded, Idle, InStep;
    OthersKeepRecorded(log, e, c, l);
    OthersKeepOutcomes(log, e, l);
    OthersKeepStages(log, e, c, l);
  }

  lemma OthersKeepRecorded(log: seq<Entry>, e: Entry, c: nat, l: Link)
    requires LegalOps(l.ops) && Recorded(log, c, l)
    requires e.Served? ==> e.conn != c
    ensures Recorded(log + [e], c, l)
    ensures forall j | j in l.spot :: ReplyTo(log + [e], l, j) == ReplyTo(log, l, j)
  {
    hide ReplyFrame, RequestPdu;
    var log' := log + [e];
    assert forall d | 0 <= d < |log| :: log'[d] == log[d];
  }

  lemma OthersKeepStages(log: seq<Entry>, e: Entry, c: nat, l: Link)
    requires LegalOps(l.ops) && Recorded(log, c, l) && l.read <= |l.ops| && Stages(log, c, l) && Flow(log, c, l)
    requires e.Served? ==> e.conn != c
    ensures Recorded(log + [e], c, l) && Stages(log + [e], c, l) && Flow(log + [e], c, l)
  {
    hide ReplyFrame, RequestPdu, Recorded, FrameOf, Resolved;
    OthersKeepRecorded(log, e, c, l);
  }

  lemma OthersKeepOutcomes(log: seq<Entry>, e: Entry, l: Link)
    requires Outcomes(log, l)
    ensures Outcomes(log + [e], l)
  {
    hide CheckResponse, RequestPdu, Resolved, OutOfTime;
    var log' := log + [e];
    assert forall d | 0 <= d < |log| :: log'[d] == log[d];
    assert forall j | 0 <= j < |l.ops| :: Explained(log, l, j) ==> Explained(log', l, j);
  }

  lemma SequentialGrows(t0: Tables, log: seq<Entry>, e: Entry)
    requires t0.Valid() && Sequential(t0, log)
    requires e.Direct? ==> Possible(e.change)
    requires e.Served? ==> e.reply == Reply(Replay(t0, log), e.pdu).1
    ensures Sequential(t0, log + [e])
    ensures Replay(t0, log + [e]) == if e.Served? then Reply(Replay(t0, log), e.pdu).0 else ApplyChange(Replay(t0, log), e.change)
  {
    hide Reply, ApplyChange;
    var log' := log + [e];
    assert log'[..|log|] == log;
    assert Replayable(log');
    forall d | 0 <= d < |log'| && log'[d].Served? ensures log'[d].reply == Reply(Replay(t0, log'[..d]), log'[d].pdu).1 {
      if d < |log| {
        assert log'[..d] == log[..d];
      }
    }
  }

  // ---- Steps of one connection ----

  /** Nothing the client can see of its finished and dispatched calls has changed. */
  ghost predicate SameHistory(l: Link, l': Link)
  {
    l'.ops == l.ops && l'.spot == l.spot && l'.unitId == l.unitId && l.read <= l'.read <= |l.ops|
  }

  lemma HistoryCarries(log: seq<Entry>, c: nat, l: Link, l': Link)
    requires Orderly(log, c, l) && SameHistory(l, l')
    ensures LegalOps(l'.ops) && OneAtATime(log, l') && Recorded(log, c, l') && Outcomes(log, l')
    ensures forall j | j in l.spot :: ReplyTo(log, l', j) == ReplyTo(log, l, j)
  {
    hide CheckResponse, RequestPdu, ReplyFrame, Resolved, Stages, Flow;
    assert forall j | 0 <= j < |l.ops| :: Explained(log, l, j) ==> Explained(log, l', j);
  }

  lemma {:induction false} StreamAppend(ops: seq<Op>, op: Op, unitId: byte)
    requires LegalOps(ops) && op.req.Legal()
    ensures LegalOps(ops + [op])
    ensures RequestStream(ops + [op], unitId) == RequestStream(ops, unitId) + FrameOf(op, unitId).Bytes()
  {
    hide RequestPdu, HeaderBytes;
    var all := ops + [op];
    if ops == [] {
      assert all[1..] == [];
      assert FrameOf(op, unitId).Bytes() + [] == FrameOf(op, unitId).Bytes() == [] + FrameOf(op, unitId).Bytes();
    } else {
      assert all[1..] == ops[1..] + [op];
      StreamAppend(ops[1..], op, unitId);
    }
  }

  lemma InvokeSends(l: Link, req: Request, now: nat)
    requires SendingInOrder(l) && req.Legal() && l.torn == []
    ensures SendingInOrder(Invoked(l, req, now))
  {
    hide RequestPdu, HeaderBytes, NextId, RequestFrame;
    var l' := Invoked(l, req, now);
    var op := l'.ops[|l.ops|];
    RequestIsFrame(req, op.id, l.unitId);
    StreamAppend(l.ops[l.read..], op, l.unitId);
    assert l'.ops[l.read..] == l.ops[l.read..] + [op];
    assert l'.toServer == RequestStream(l'.ops[l.read..], l.unitId) + [];
  }

  lemma InvokeCutSends(l: Link, req: Request, cut: nat)
    requires SendingInOrder(l) && req.Legal() && l.torn == []
    ensures SendingInOrder(InvokedCut(l, req, cut))
  {
    hide RequestPdu, HeaderBytes, NextId, RequestFrame, NextFrame, Part;
    var id := NextId(l.txID);
    RequestIsFrame(req, id, l.unitId);
    PartIsNoFrame(RequestAs(req, id, l.unitId), InvokedCut(l, req, cut).torn);
    assert l.toServer == RequestStream(l.ops[l.read..], l.unitId) + [] == RequestStream(l.ops[l.read..], l.unitId);
  }

  lemma InvokeCutKeeps(log: seq<Entry>, c: nat, l: Link, req: Request, cut: nat)
    requires Orderly(log, c, l) && Idle(l) && req.Legal() && l.torn == []
    ensures Orderly(log, c, InvokedCut(l, req, cut))
  {
    hide CheckResponse, RequestPdu, HeaderBytes, NextId, RequestFrame, ReplyFrame, Outcomes, OneAtATime, Part;
    InvokeCutSends(l, req, cut);
    HistoryCarries(log, c, l, InvokedCut(l, req, cut));
  }

  lemma InvokeExtends(log: seq<Entry>, c: nat, l: Link, req: Request)
    requires Orderly(log, c, l) && Idle(l) && req.Legal()
    ensures var l' := Invoked(l, req, |log|);
            && LegalOps(l'.ops) && OneAtATime(log, l') && Recorded(log, c, l')
            && forall j | j in l.spot :: ReplyTo(log, l', j) == ReplyTo(log, l, j)
  {
    hide CheckResponse, RequestPdu, NextId, RequestFrame, ReplyFrame, Flow, Stages, Outcomes;
    var l' := Invoked(l, req, |log|);
    assert forall j | 0 <= j < |l.ops| :: l'.ops[j] == l.ops[j];
  }

  lemma InvokeOutcomes(log: seq<Entry>, l: Link, req: Request)
    requires Outcomes(log, l) && req.Legal()
    ensures Outcomes(log, Invoked(l, req, |log|))
  {
    hide CheckResponse, RequestPdu, NextId, RequestFrame;
    var l' := Invoked(l, req, |log|);
    forall j | 0 <= j < |l'.ops| && l'.ops[j].ended.Some? && InStep(l'.ops, j)
      ensures if Resolved(l'.ops[j].ended.value.result) then Explained(log, l', j) else OutOfTime(l'.ops[j].ended.value.result)
    {
      assert j < |l.ops| && l'.ops[j] == l.ops[j];
      assert forall i | 0 <= i < j :: l.ops[i] == l'.ops[i];
      assert InStep(l.ops, j);
    }
  }

  lemma InvokeKeeps(log: seq<Entry>, c: nat, l: Link, req: Request)
    requires Orderly(log, c, l) && Idle(l) && req.Legal() && l.torn == []
    ensures Orderly(log, c, Invoked(l, req, |log|))
  {
    hide CheckResponse, RequestPdu, HeaderBytes, NextId, RequestFrame, ReplyFrame, Outcomes, OneAtATime, Recorded, RequestStream, Resolved;
    var l' := Invoked(l, req, |log|);
    InvokeSends(l, req, |log|);
    InvokeExtends(log, c, l, req);
    InvokeOutcomes(log, l, req);
    assert forall j | 0 <= j < |l.ops| :: l'.ops[j] == l.ops[j];
    assert InStep(l'.ops, |l.ops|) ==> InStep(l.ops, |l.ops|);
    assert l.held.Some? ==> FrameOf(l'.ops[l.read - 1], l.unitId) == FrameOf(l.ops[l.read - 1], l.unitId);
  }

  lemma TakeReadsNext(l: Link)
    requires SendingInOrder(l) && NextFrame(l.toServer).Some?
    ensures l.read < |l.ops| && NextFrame(l.toServer) == Some(FrameOf(l.ops[l.read], l.unitId))
    ensures SendingInOrder(Taken(l))
  {
    hide RequestPdu, HeaderBytes, NextFrame;
    var unread := l.ops[l.read..];
    assert unread == [] ==> l.toServer == l.torn;
    if unread != [] {
      var f := FrameOf(l.ops[l.read], l.unitId);
      assert unread[1..] == l.ops[l.read + 1..];
      var rest := RequestStream(unread[1..], l.unitId) + l.torn;
      assert l.toServer == f.Bytes() + rest;
      NextFrameOf(f, rest);
    }
  }

  lemma TakeKeeps(log: seq<Entry>, c: nat, l: Link)
    requires Orderly(log, c, l) && l.open && l.held.None? && l.reply.None? && NextFrame(l.toServer).Some?
    ensures Orderly(log, c, Taken(l))
  {
    hide CheckResponse, RequestPdu, HeaderBytes, NextFrame, ReplyFrame, Outcomes, OneAtATime;
    TakeReadsNext(l);
    HistoryCarries(log, c, l, Taken(l));
  }

  lemma DropKeeps(log: seq<Entry>, c: nat, l: Link)
    requires Orderly(log, c, l) && l.held.Some?
    ensures Orderly(log, c, l.(held := None, open := false, dropped := Some(l.read - 1)))
  {
    hide CheckResponse, RequestPdu, HeaderBytes, ReplyFrame, Outcomes, OneAtATime;
    HistoryCarries(log, c, l, l.(held := None, open := false, dropped := Some(l.read - 1)));
  }

  lemma SendFailsKeeps(log: seq<Entry>, c: nat, l: Link, cut: nat)
    requires Orderly(log, c, l) && l.reply.Some?
    ensures Orderly(log, c, ReplyCut(l, cut))
  {
    hide CheckResponse, RequestPdu, HeaderBytes, ReplyFrame, Outcomes, OneAtATime, Part;
    var l' := ReplyCut(l, cut);
    HistoryCarries(log, c, l, l');
    assert l.toClient == [] ==> l'.toClient == Part(l.reply.value.Bytes(), cut);
  }

  lemma SendKeeps(log: seq<Entry>, c: nat, l: Link)
    requires Orderly(log, c, l) && l.reply.Some?
    ensures Orderly(log, c, l.(toClient := l.toClient + l.reply.value.Bytes(), reply := None))
  {
    hide CheckResponse, RequestPdu, HeaderBytes, ReplyFrame, Outcomes, OneAtATime;
    var l' := l.(toClient := l.toClient + l.reply.value.Bytes(), reply := None);
    HistoryCarries(log, c, l, l');
    assert l.toClient == [] ==> l'.toClient == l.reply.value.Bytes();
  }

  lemma DispatchRecorded(log: seq<Entry>, c: nat, l: Link, resp: seq<byte>, log': seq<Entry>, l': Link)
    requires Orderly(log, c, l) && l.held.Some? && 2 <= |resp| <= 252
    requires log' == log + [Served(c, l.read - 1, l.held.value.pdu, resp)] && l' == DispatchedAs(l, resp, |log|)
    ensures LegalOps(l'.ops) && OneAtATime(log', l') && Recorded(log', c, l')
    ensures l'.reply.value == ReplyTo(log', l', l.read - 1)
    ensures forall j | j in l.spot :: ReplyTo(log', l', j) == ReplyTo(log, l, j)
  {
    hide CheckResponse, RequestPdu, HeaderBytes, Outcomes, Flow, Resolved, ReplyFrame, RequestStream, Idle, InStep;
    assert forall d | 0 <= d < |log| :: log'[d] == log[d];
    var f := FrameOf(l.ops[l.read - 1], l.unitId);
    SameReplyFrame(f.header, resp, l.ops[l.read - 1].id, l.unitId);
  }

  /** A reply takes only the ids from the request's header. */
  lemma SameReplyFrame(h: Header, resp: seq<byte>, id: uint16, unitId: byte)
    requires |resp| <= 252 && h.transactionId == id && h.unitId == unitId
    ensures ReplyFrame(h, resp) == ReplyFrame(Header(id, PROTOCOL_ID, 0, unitId), resp)
  {
  }

  lemma DispatchOutcomes(log: seq<Entry>, c: nat, l: Link, resp: seq<byte>, log': seq<Entry>, l': Link)
    requires Orderly(log, c, l) && l.held.Some? && 2 <= |resp| <= 252
    requires log' == log + [Served(c, l.read - 1, l.held.value.pdu, resp)] && l' == DispatchedAs(l, resp, |log|)
    ensures Outcomes(log', l')
  {
    hide CheckResponse, RequestPdu, HeaderBytes, Flow, ReplyFrame;
    assert forall d | 0 <= d < |log| :: log'[d] == log[d];
    assert forall j | 0 <= j < |l.ops| :: Explained(log, l, j) ==> Explained(log', l', j);
  }

  lemma DispatchKeeps(log: seq<Entry>, c: nat, l: Link, resp: seq<byte>)
    requires Orderly(log, c, l) && l.held.Some? && 2 <= |resp| <= 252
    ensures Orderly(log + [Served(c, l.read - 1, l.held.value.pdu, resp)], c, DispatchedAs(l, resp, |log|))
  {
    hide CheckResponse, RequestPdu, HeaderBytes, ReplyFrame, Outcomes, OneAtATime, Recorded;
    var log', l' := log + [Served(c, l.read - 1, l.held.value.pdu, resp)], DispatchedAs(l, resp, |log|);
    DispatchRecorded(log, c, l, resp, log', l');
    DispatchOutcomes(log, c, l, resp, log', l');
  }

  lemma FlowOfRunning(log: seq<Entry>, c: nat, l: Link)
    requires Orderly(log, c, l) && !Idle(l) && InStep(l.ops, |l.ops| - 1)
    ensures OwnTurn(log, c, l)
  {
    hide OwnTurn, Stages, Outcomes, OneAtATime;
  }

  lemma FinishInTurn(log: seq<Entry>, c: nat, l: Link, arrived: nat)
    requires Orderly(log, c, l) && !Idle(l) && arrived <= |l.toClient| && OwnTurn(log, c, l)
    ensures var k := |l.ops| - 1;
            var l' := Finished(l, arrived, |log|);
            if Resolved(l'.ops[k].ended.value.result)
            then Explained(log, l', k) && l'.toClient == [] && l.read == |l.ops| && l.held.None? && l.reply.None?
            else OutOfTime(l'.ops[k].ended.value.result)
  {
    hide CheckResponse, RequestPdu, HeaderBytes, NextFrame;
    var k := |l.ops| - 1;
    var op := l.ops[k];
    if l.toClient == [] {
      NothingReceived(op.id, l.unitId, FunctionCode(op.req));
    } else {
      var f := ReplyTo(log, l, k);
      if arrived < |f.Bytes()| {
        assert l.toClient[..arrived] == f.Bytes()[..arrived];
        ReceivePartOfFrame(f, arrived, l.unitId, FunctionCode(op.req));
      } else {
        assert l.toClient == f.Bytes();
        assert l.toClient[..arrived] == f.Bytes() + [];
        ReceiveWholeFrame(f, [], op.id, l.unitId, FunctionCode(op.req));
        CheckedIsResolved(f.pdu, op.id, l.unitId, FunctionCode(op.req));
      }
    }
  }

  lemma NothingReceived(id: uint16, unitId: byte, want: byte)
    ensures Receive([], id, unitId, want) == (Err(NoHeader), [])
  {
  }

  lemma CheckedIsResolved(pdu: seq<byte>, id: uint16, unitId: byte, want: byte)
    requires |pdu| > 0
    ensures Resolved(CheckResponse(pdu, id, unitId, want))
  {
  }

  lemma FinishSends(l: Link, arrived: nat, now: nat)
    requires SendingInOrder(l) && !Idle(l) && arrived <= |l.toClient|
    ensures SendingInOrder(Finished(l, arrived, now))
  {
    hide RequestPdu, HeaderBytes, Receive;
    SameRequestsSameStream(l.ops[l.read..], Finished(l, arrived, now).ops[l.read..], l.unitId);
  }

  lemma FinishRecorded(log: seq<Entry>, c: nat, l: Link, arrived: nat)
    requires Orderly(log, c, l) && !Idle(l) && arrived <= |l.toClient|
    ensures var l' := Finished(l, arrived, |log|);
            && LegalOps(l'.ops) && OneAtATime(log, l') && Recorded(log, c, l') && Stages(log, c, l')
  {
    hide CheckResponse, RequestPdu, HeaderBytes, Receive, Outcomes, Flow, ReplyFrame, Resolved, RequestStream, Stages;
    FinishStages(log, c, l, Finished(l, arrived, |log|));
  }

  lemma FinishStages(log: seq<Entry>, c: nat, l: Link, l': Link)
    requires LegalOps(l.ops) && Recorded(log, c, l) && l.read <= |l.ops| && Stages(log, c, l)
    requires |l'.ops| == |l.ops| && forall j | 0 <= j < |l.ops| :: l'.ops[j].req == l.ops[j].req && l'.ops[j].id == l.ops[j].id
    requires l' == l.(ops := l'.ops, toClient := l'.toClient) && Recorded(log, c, l')
    ensures Stages(log, c, l')
  {
    hide CheckResponse, RequestPdu, HeaderBytes, ReplyFrame;
  }

  /** Ending the last call changes nothing about the calls before it. */
  lemma FinishedPrefix(l: Link, arrived: nat, now: nat)
    requires !Idle(l) && arrived <= |l.toClient|
    ensures var l' := Finished(l, arrived, now);
            && |l'.ops| == |l.ops|
            && (forall j | 0 <= j < |l.ops| - 1 :: l'.ops[j] == l.ops[j])
            && (forall j | 0 <= j < |l.ops| :: InStep(l'.ops, j) == InStep(l.ops, j))
  {
    hide Receive, RequestPdu, Resolved;
    var l' := Finished(l, arrived, now);
    assert forall j | 0 <= j < |l.ops| - 1 :: l'.ops[j] == l.ops[j];
  }

  lemma FinishOutcomes(log: seq<Entry>, c: nat, l: Link, arrived: nat)
    requires Orderly(log, c, l) && !Idle(l) && arrived <= |l.toClient|
    ensures Outcomes(log, Finished(l, arrived, |log|))
  {
    hide CheckResponse, RequestPdu, HeaderBytes, ReplyFrame, OneAtATime, Recorded, Stages, SendingInOrder, Flow, Finished, Resolved, OutOfTime, InStep, Explained;
    var k := |l.ops| - 1;
    var l' := Finished(l, arrived, |log|);
    FinishedPrefix(l, arrived, |log|);
    if InStep(l.ops, k) {
      FlowOfRunning(log, c, l);
      FinishInTurn(log, c, l, arrived);
    }
    forall j | 0 <= j < k && Explained(log, l, j) ensures Explained(log, l', j) {
      SameExplanation(log, l, arrived, j);
    }
  }

  lemma SameExplanation(log: seq<Entry>, l: Link, arrived: nat, j: nat)
    requires !Idle(l) && arrived <= |l.toClient| && j < |l.ops| - 1 && Explained(log, l, j)
    ensures Explained(log, Finished(l, arrived, |log|), j)
  {
    hide CheckResponse, RequestPdu, Receive;
  }

  lemma FinishFlow(log: seq<Entry>, c: nat, l: Link, arrived: nat)
    requires Orderly(log, c, l) && !Idle(l) && arrived <= |l.toClient|
    ensures var l' := Finished(l, arrived, |log|);
            Idle(l') && (InStep(l'.ops, |l'.ops|) ==> l'.read == |l'.ops| && l'.held.None? && l'.reply.None? && l'.toClient == [])
  {
    hide CheckResponse, RequestPdu, HeaderBytes, Receive, ReplyFrame, OneAtATime, Recorded, Stages, SendingInOrder, Flow, Outcomes, Explained;
    FinishedPrefix(l, arrived, |log|);
    if InStep(l.ops, |l.ops| - 1) {
      FlowOfRunning(log, c, l);
      FinishInTurn(log, c, l, arrived);
    }
  }

  lemma FinishKeeps(log: seq<Entry>, c: nat, l: Link, arrived: nat)
    requires Orderly(log, c, l) && !Idle(l) && arrived <= |l.toClient|
    ensures Orderly(log, c, Finished(l, arrived, |log|))
  {
    hide Finished, OneAtATime, Recorded, Stages, SendingInOrder, Outcomes, Idle, InStep, ReplyTo;
    FinishSends(l, arrived, |log|);
    FinishRecorded(log, c, l, arrived);
    FinishOutcomes(log, c, l, arrived);
    FinishFlow(log, c, l, arrived);
  }

  lemma {:induction false} SameRequestsSameStream(a: seq<Op>, b: seq<Op>, unitId: byte)
    requires LegalOps(a) && |a| == |b|
    requires forall j | 0 <= j < |a| :: a[j].req == b[j].req && a[j].id == b[j].id
    ensures LegalOps(b) && RequestStream(a, unitId) == RequestStream(b, unitId)
  {
    hide RequestPdu, HeaderBytes;
    if a != [] {
      SameRequestsSameStream(a[1..], b[1..], unitId);
    }
  }

  // ---- Whole runs ----

  predicate Runs(s: System, events: seq<Event>)
    requires s.tables.Valid()
    decreases |events|
  {
    events == [] || (Enabled(s, events[0]) && (StepValid(s, events[0]); Runs(Step(s, events[0]), events[1..])))
  }

  function After(s: System, events: seq<Event>): System
    requires s.tables.Valid() && Runs(s, events)
    decreases |events|
  {
    if events == [] then s else (StepValid(s, events[0]); After(Step(s, events[0]), events[1..]))
  }

  lemma StepValid(s: System, e: Event)
    requires s.tables.Valid() && Enabled(s, e)
    ensures Step(s, e).tables.Valid() && |Step(s, e).links| == |s.links|
  {
  }

  lemma StartHasInv(t0: Tables, s: System)
    requires t0.Valid() && Start(t0, s)
    ensures Inv(t0, s)
  {
    forall c | 0 <= c < |s.links| ensures LinkInv(s.log, c, s.links[c]) {
      assert Fresh(s.links[c]);
    }
  }

  lemma LinkStepKeeps(s: System, e: Event, c: nat)
    requires s.tables.Valid() && Enabled(s, e) && !e.Set? && c == e.c && LinkInv(s.log, c, s.links[c])
    ensures LinkInv(Step(s, e).log, c, Step(s, e).links[c])
  {
    hide Orderly, Reply, Finished, Invoked, InvokedCut, ReplyCut, Taken, DispatchedAs;
    var l := s.links[c];
    if l.mixed || (l.torn != [] && (e.Invoke? || e.InvokeCut?)) {
      MixedStays(s, e, c);
      return;
    }
    match e
    case Invoke(_, req) => InvokeKeeps(s.log, c, l, req);
    case InvokeCut(_, req, cut) => InvokeCutKeeps(s.log, c, l, req, cut);
    case Take(_) => TakeKeeps(s.log, c, l);
    case DropRequest(_) => DropKeeps(s.log, c, l);
    case DispatchHeld(_) => DispatchKeeps(s.log, c, l, Reply(s.tables, l.held.value.pdu).1);
    case SendReply(_) => SendKeeps(s.log, c, l);
    case SendFails(_, cut) => SendFailsKeeps(s.log, c, l, cut);
    case Finish(_, arrived) => FinishKeeps(s.log, c, l, arrived);
  }

  lemma MixedStays(s: System, e: Event, c: nat)
    requires s.tables.Valid() && Enabled(s, e) && c < |s.links|
    ensures s.links[c].mixed ==> Step(s, e).links[c].mixed
    ensures (e.Invoke? || e.InvokeCut?) && e.c == c && s.links[c].torn != [] ==> Step(s, e).links[c].mixed
  {
    hide Reply, RequestFrame, RequestPdu, Receive, ApplyChange, Part;
  }

  lemma StepKeepsInv(t0: Tables, s: System, e: Event)
    requires t0.Valid() && s.tables.Valid() && Inv(t0, s) && Enabled(s, e)
    ensures Step(s, e).tables.Valid() && Inv(t0, Step(s, e))
  {
    hide Orderly, Sequential, Replay, Reply, ApplyChange, Finished, Invoked, InvokedCut, Taken, DispatchedAs, ReplyCut;
    var s' := Step(s, e);
    StepValid(s, e);
    if e.Set? || e.DispatchHeld? {
      SequentialGrows(t0, s.log, s'.log[|s.log|]);
    }
    forall c | 0 <= c < |s'.links| ensures LinkInv(s'.log, c, s'.links[c]) {
      if !e.Set? && e.c == c {
        LinkStepKeeps(s, e, c);
      } else if !s.links[c].mixed && (e.Set? || e.DispatchHeld?) {
        OthersKeepInv(s.log, s'.log[|s.log|], c, s.links[c]);
      }
    }
  }

  lemma {:induction false} RunKeepsInv(t0: Tables, s: System, events: seq<Event>)
    requires t0.Valid() && s.tables.Valid() && Inv(t0, s) && Runs(s, events)
    ensures Inv(t0, After(s, events))
    decreases |events|
  {
    hide Inv, Step;
    if events != [] {
      StepKeepsInv(t0, s, events[0]);
      RunKeepsInv(t0, Step(s, events[0]), events[1..]);
    }
  }
}
