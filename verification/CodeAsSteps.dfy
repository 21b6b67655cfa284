/** The steps of the interleaved system are the code's own: a connection left alone goes through
    exactly what the server's loop does, and a call is exactly what the client's `do` does. */
module CodeAsSteps {
  import opened Wrappers
  import opened Bytes
  import opened Device
  import opened Pdu
  import opened Dispatch
  import opened Network
  import opened Mbap
  import opened Server
  import opened Client
  import opened Interleaving
  import opened Linearizability

  /** A connection whose goroutine is at the top of its loop. */
  predicate AtTop(l: Link) { l.open && l.held.None? && l.reply.None? }

  predicate ServerStep(e: Event, c: nat)
  {
    (e.Take? || e.DropRequest? || e.DispatchHeld? || e.SendReply? || e.SendFails?) && e.c == c
  }

  /** One turn of the loop, by what befalls the request. */
  function Turn(c: nat, fate: Fate): seq<Event>
  {
    match fate
    case Answer => [Take(c), DispatchHeld(c), SendReply(c)]
    case Drop => [Take(c), DropRequest(c)]
    case WriteFails(cut) => [Take(c), DispatchHeld(c), SendFails(c, cut)]
  }

  /** The server's steps leave the client's side of a connection alone. */
  predicate SameCalls(l: Link, l': Link)
  {
    l'.ops == l.ops && l'.unitId == l.unitId && l'.txID == l.txID && l'.torn == l.torn && l'.mixed == l.mixed
  }

  lemma OneStep(s: System, e: Event, rest: seq<Event>, all: seq<Event>)
    requires all == [e] + rest
    requires s.tables.Valid() && Enabled(s, e) && Step(s, e).tables.Valid() && Runs(Step(s, e), rest)
    ensures Runs(s, all) && After(s, all) == After(Step(s, e), rest)
  {
    hide Enabled, Step;
    assert all[1..] == rest;
  }

  lemma TurnStep(s: System, c: nat, fate: Fate)
    requires s.tables.Valid() && c < |s.links| && AtTop(s.links[c]) && NextFrame(s.links[c].toServer).Some?
    ensures Runs(s, Turn(c, fate))
    ensures var l := s.links[c];
            var f := NextFrame(l.toServer).value;
            var (after, resp) := Reply(s.tables, f.pdu);
            var reply := ReplyFrame(f.header, resp).Bytes();
            var s' := After(s, Turn(c, fate));
            && s'.tables == (if fate.Drop? then s.tables else after)
            && |s'.links| == |s.links| && SameCalls(l, s'.links[c])
            && s'.links[c].toClient ==
               l.toClient + (match fate case Answer => reply case Drop => [] case WriteFails(cut) => Part(reply, cut))
            && (s'.links[c].open <==> fate.Answer?)
            && (fate.Answer? ==> AtTop(s'.links[c]) && s'.links[c].toServer == l.toServer[|f.Bytes()|..])
  {
    hide Reply, NextFrame, HeaderBytes, Runs, After, Part;
    var s1 := Step(s, Take(c));
    match fate {
      case Drop =>
        var s2 := Step(s1, DropRequest(c));
        NoEvents(s2);
        OneStep(s1, DropRequest(c), [], [DropRequest(c)]);
        OneStep(s, Take(c), [DropRequest(c)], Turn(c, fate));
        assert s2.links[c].toClient + [] == s2.links[c].toClient;
      case Answer =>
        var s2 := Step(s1, DispatchHeld(c));
        NoEvents(Step(s2, SendReply(c)));
        OneStep(s2, SendReply(c), [], [SendReply(c)]);
        OneStep(s1, DispatchHeld(c), [SendReply(c)], [DispatchHeld(c), SendReply(c)]);
        OneStep(s, Take(c), [DispatchHeld(c), SendReply(c)], Turn(c, fate));
      case WriteFails(cut) =>
        var s2 := Step(s1, DispatchHeld(c));
        NoEvents(Step(s2, SendFails(c, cut)));
        OneStep(s2, SendFails(c, cut), [], [SendFails(c, cut)]);
        OneStep(s1, DispatchHeld(c), [SendFails(c, cut)], [DispatchHeld(c), SendFails(c, cut)]);
        OneStep(s, Take(c), [DispatchHeld(c), SendFails(c, cut)], Turn(c, fate));
    }
  }

  /** Left alone, a connection goes through exactly the server's loop on what it has been sent: the
      same tables, the same bytes back, and a stop where the loop stops. */
  lemma {:induction false} LoopAsSteps(s: System, c: nat, fates: nat -> Fate, i: nat) returns (events: seq<Event>)
    requires s.tables.Valid() && c < |s.links| && AtTop(s.links[c])
    ensures forall e | e in events :: ServerStep(e, c)
    ensures Runs(s, events)
    ensures var s' := After(s, events);
            var (tables, sent) := Serve(s.tables, s.links[c].toServer, fates, i);
            && s'.tables == tables && |s'.links| == |s.links| && SameCalls(s.links[c], s'.links[c])
            && s'.links[c].toClient == s.links[c].toClient + sent
            && (s'.links[c].open ==> AtTop(s'.links[c]) && NextFrame(s'.links[c].toServer).None?)
            && ((forall n :: fates(n) == Answer) ==> s'.links[c].open)
    decreases |s.links[c].toServer|
  {
    hide Reply, NextFrame, HeaderBytes, Runs, After, Part;
    var stream := s.links[c].toServer;
    if NextFrame(stream).None? {
      events := [];
      NoEvents(s);
      assert s.links[c].toClient + [] == s.links[c].toClient;
      return;
    }
    var f := NextFrame(stream).value;
    TurnStep(s, c, fates(i));
    events := Turn(c, fates(i));
    if fates(i).Answer? {
      var s' := After(s, events);
      var more := LoopAsSteps(s', c, fates, i + 1);
      RunsInTwo(s, events, more);
      events := events + more;
      var sent := ReplyFrame(f.header, Reply(s.tables, f.pdu).1).Bytes();
      Associates(s.links[c].toClient, sent, Serve(s'.tables, s'.links[c].toServer, fates, i + 1).1);
    }
  }

  lemma Associates(a: seq<byte>, b: seq<byte>, c: seq<byte>)
    ensures a + (b + c) == (a + b) + c
  {
  }

  lemma NoEvents(s: System)
    requires s.tables.Valid()
    ensures Runs(s, []) && After(s, []) == s
  {
  }

  /** A call as two steps, with anything in between that leaves the client alone: what `do` makes of
      the bytes that reach it in time, and what it leaves unread. */
  lemma CallAsSteps(l: Link, req: Request, began: nat, waiting: seq<byte>, arrived: nat, ended: nat)
    requires Idle(l) && req.Legal() && arrived <= |waiting|
    ensures var sent := Invoked(l, req, began);
            var l' := Finished(sent.(toClient := waiting), arrived, ended);
            var (r, w) := Exchange(Wire(true, l.txID, l.unitId, [], []), RequestPdu(req), Net(None, waiting[..arrived]));
            && l'.ops == l.ops + [Op(req, NextId(l.txID), began, Some(End(ended, r)))]
            && l'.txID == w.txID && sent.toServer == l.toServer + w.outbox
            && l'.toClient == w.inbox + waiting[arrived..]
  {
    hide Receive, RequestFrame, CheckResponse, NextId, RequestPdu;
    RequestCode(req);
    var none: seq<byte> := [];
    assert none + waiting[..arrived] == waiting[..arrived];
    assert none + RequestFrame(NextId(l.txID), l.unitId, RequestPdu(req)) == RequestFrame(NextId(l.txID), l.unitId, RequestPdu(req));
  }

  /** A call whose request is cut short is one step. */
  lemma CutCallAsStep(l: Link, req: Request, cut: nat, arriving: seq<byte>)
    requires req.Legal()
    ensures var l' := InvokedCut(l, req, cut);
            var (r, w) := Exchange(Wire(true, l.txID, l.unitId, [], []), RequestPdu(req), Net(Some(cut), arriving));
            && r == Err(WriteFailed)
            && l' == l.(txID := w.txID, toServer := l.toServer + w.outbox, torn := l.torn + w.outbox, mixed := l'.mixed)
            && w.inbox == []
  {
    hide RequestFrame, Part;
    var part := Part(RequestFrame(NextId(l.txID), l.unitId, RequestPdu(req)), cut);
    assert [] + part == part;
  }

  /** A Set call changes the named entries of its own table and nothing else. */
  lemma SetAsStep(t: Tables, ch: Change)
    requires t.Valid() && Possible(ch)
    ensures var after := ApplyChange(t, ch);
            match ch
            case SetHolding(a, v) => after == t.(holding := t.holding[a := v])
            case SetInput(a, v) => after == t.(input := t.input[a := v])
            case SetCoil(a, on) => after == t.(coils := t.coils[a := on])
            case SetDiscrete(a, on) => after == t.(discrete := t.discrete[a := on])
            case SetHoldingRange(a, vs) =>
              && after == t.(holding := after.holding) && |after.holding| == 65536
              && forall i | 0 <= i < 65536 :: after.holding[i] == if a <= i < a + |vs| then vs[i - a] else t.holding[i]
  {
  }

  /** Without a connection a call touches nothing; with one, a request cut short costs an id and leaves
      what had arrived unread. */
  lemma CallEdges(w: Wire, pdu: seq<byte>, net: Net)
    requires |pdu| > 0
    ensures !w.connected ==> Exchange(w, pdu, net) == (Err(NotConnected), w)
    ensures w.connected && net.cut.Some? ==>
              var (r, w') := Exchange(w, pdu, net);
              && r == Err(WriteFailed) && w'.inbox == w.inbox && w'.connected && w'.unitId == w.unitId
              && w'.txID == (w.txID + 1) % 0x1_0000_0000
              && w.outbox <= w'.outbox < w.outbox + RequestFrame((w.txID + 1) % 0x1_0000_0000 % 0x1_0000, w.unitId, pdu)
  {
    hide RequestFrame, Part;
  }

  /** What may happen when: a call while none is running, its end at any byte of what is there, a read at
      the top of the loop when a whole frame is there, a drop or a dispatch of what was read, a whole or
      a broken write of what was answered, a Set at any time. */
  lemma StepsAvailable(s: System, c: nat, req: Request, cut: nat, arrived: nat, ch: Change)
    requires c < |s.links| && req.Legal()
    ensures var l := s.links[c];
            && (l.ops == [] || l.ops[|l.ops| - 1].ended.Some? ==> Enabled(s, Invoke(c, req)) && Enabled(s, InvokeCut(c, req, cut)))
            && (l.ops != [] && l.ops[|l.ops| - 1].ended.None? && arrived <= |l.toClient| ==> Enabled(s, Finish(c, arrived)))
            && (AtTop(l) && NextFrame(l.toServer).Some? ==> Enabled(s, Take(c)))
            && (l.held.Some? && l.read > 0 ==> Enabled(s, DropRequest(c)) && Enabled(s, DispatchHeld(c)))
            && (l.reply.Some? ==> Enabled(s, SendReply(c)) && Enabled(s, SendFails(c, cut)))
    ensures ch.SetHolding? || ch.SetInput? || ch.SetCoil? || ch.SetDiscrete? || ch.address + |ch.values| <= 65536 ==> Enabled(s, Set(ch))
  {
    hide NextFrame;
  }

  /** A drop is recorded as the request last read, and ends the connection. */
  lemma DropAsStep(s: System, c: nat)
    requires s.tables.Valid() && Enabled(s, DropRequest(c))
    ensures var l, l' := s.links[c], Step(s, DropRequest(c)).links[c];
            l' == l.(held := None, open := false, dropped := Some(l.read - 1))
            && Step(s, DropRequest(c)).tables == s.tables && Step(s, DropRequest(c)).log == s.log
  {
  }
}
