/** What a request that went out in part does to the one written behind it. The client keeps the
    connection after a failed write, and its next call writes on it. */
module CutRequests {
  import opened Wrappers
  import opened Bytes
  import opened Device
  import opened Pdu
  import opened Dispatch
  import opened Network
  import opened Mbap
  import opened Server
  import opened Client
  import opened EndToEnd
  import opened ReplyMatching
  import opened Interleaving
  import opened Linearizability
  import opened CodeAsSteps

  lemma IdOnTheWire(f: Frame)
    ensures f.Bytes()[..2] == WordBytes(f.header.transactionId) && f.Bytes()[2..4] == WordBytes(f.header.protocolId)
    ensures f.Bytes()[4..6] == WordBytes(f.header.length)
  {
    hide Hi, Lo;
    var h := f.header;
    assert f.Bytes() == WordBytes(h.transactionId) + WordBytes(h.protocolId) + WordBytes(h.length) + [h.unitId] + f.pdu;
  }

  lemma SameWord(v: uint16, w: uint16)
    requires WordBytes(v) == WordBytes(w)
    ensures v == w
  {
    hide Hi, Lo, U16;
    assert WordBytes(v)[0] == WordBytes(w)[0] && WordBytes(v)[1] == WordBytes(w)[1];
    WordRoundTrip(v, 0, 0);
    WordRoundTrip(w, 0, 0);
  }

  /** One stray byte: every byte of the frame would equal the one before it. */
  lemma OneByteAhead(b: byte, g: Frame, rest: seq<byte>)
    requires g.WellFormed() && g.header.protocolId == PROTOCOL_ID
    ensures !(g.Bytes() <= [b] + g.Bytes() + rest)
  {
    hide Hi, Lo, HeaderBytes;
    IdOnTheWire(g);
    WordOfZero();
    var bytes, all := g.Bytes(), [b] + g.Bytes() + rest;
    if bytes <= all {
      assert bytes[2..4][0] == 0 && bytes[2..4][1] == 0;
      assert bytes[4] == all[4] == bytes[3] == bytes[2..4][1];
      assert bytes[5] == all[5] == bytes[4];
      assert bytes[4..6] == [0, 0];
      SameWord(g.header.length, 0);
    }
  }

  lemma WordOfZero()
    ensures WordBytes(0) == [0, 0]
  {
  }

  /** Behind what got out of one frame, the server reads another as it was written if and only if
      nothing got out. It is enough that the two ids differ. */
  lemma NextFrameReadExactly(f: Frame, part: seq<byte>, g: Frame, rest: seq<byte>)
    requires f.WellFormed() && g.WellFormed() && g.header.protocolId == PROTOCOL_ID
    requires f.header.transactionId != g.header.transactionId && part < f.Bytes()
    ensures NextFrame(part + g.Bytes() + rest) == Some(g) <==> part == []
  {
    hide Hi, Lo, HeaderBytes, NextFrame;
    var all := part + g.Bytes() + rest;
    if part == [] {
      assert all == g.Bytes() + rest;
      NextFrameOf(g, rest);
    } else if NextFrame(all) == Some(g) {
      FrameIsPrefix(all);
      assert g.Bytes() <= all;
      if |part| == 1 {
        assert part == [part[0]];
        OneByteAhead(part[0], g, rest);
      } else {
        IdOnTheWire(f);
        IdOnTheWire(g);
        assert g.Bytes()[..2] == all[..2] == part[..2] == f.Bytes()[..2];
        SameWord(f.header.transactionId, g.header.transactionId);
      }
    }
  }

  /** In the client's terms: after a call whose request was cut short, the server reads the next call's
      request as it was written if and only if nothing of the first one got out. */
  lemma NextRequestReadExactly(w: Wire, first: Request, cut: nat, second: Request, arriving: seq<byte>, rest: seq<byte>)
    requires w.connected && w.txID < UINT32 && first.Legal() && second.Legal()
    ensures var (_, w1) := Exchange(w, RequestPdu(first), Net(Some(cut), arriving));
            var (_, w2) := Exchange(w1, RequestPdu(second), Net(None, arriving));
            && w.outbox <= w1.outbox <= w2.outbox
            && (NextFrame(w2.outbox[|w.outbox|..] + rest) == Some(RequestAs(second, NextId(w1.txID), w.unitId))
                <==> w1.outbox == w.outbox)
  {
    hide Hi, Lo, HeaderBytes, NextFrame, Part, RequestPdu, RequestFrame, NextId, Receive;
    var (_, w1) := Exchange(w, RequestPdu(first), Net(Some(cut), arriving));
    var (_, w2) := Exchange(w1, RequestPdu(second), Net(None, arriving));
    var f, g := RequestAs(first, NextId(w.txID), w.unitId), RequestAs(second, NextId(w1.txID), w.unitId);
    RequestIsFrame(first, NextId(w.txID), w.unitId);
    RequestIsFrame(second, NextId(w1.txID), w.unitId);
    IdsCollide(w.txID, 1);
    var part := Part(f.Bytes(), cut);
    assert w2.outbox[|w.outbox|..] == part + g.Bytes();
    NextFrameReadExactly(f, part, g, rest);
  }

  // ---- What the server may do then ----

  const WRITE_ONE := WriteSingleRegister(5, 1)

  const READ_ONE := ReadHoldingRegisters(0, 1)

  lemma WriteBytes()
    ensures WRITE_ONE.Legal() && RequestPdu(WRITE_ONE) == [0x06, 0, 5, 0, 1]
  {
    assert WordBytes(5) == [0, 5] && WordBytes(1) == [0, 1];
    assert Payload(WRITE_ONE) == [];
  }

  /** What follows the id of the read: half a header, and no frame. */
  const READ_TAIL: seq<byte> := [0, 0, 0, 6, 1, 0x03, 0, 0, 0, 1]

  lemma ReadBytes(next: uint16)
    ensures READ_ONE.Legal() && RequestAs(READ_ONE, next, 1).Bytes() == WordBytes(next) + READ_TAIL
  {
    assert WordBytes(0) == [0, 0] && WordBytes(1) == [0, 1] && WordBytes(6) == [0, 6];
    assert Payload(READ_ONE) == [];
    assert RequestPdu(READ_ONE) == [0x03, 0, 0, 0, 1];
  }

  lemma TailIsNoFrame()
    ensures NextFrame(READ_TAIL).None?
  {
  }

  /** The write of 1 to register 5 without its last two bytes, and a read behind it: the server sees a
      write whose value is the transaction id of the read. */
  lemma GluedFrame(id: uint16, next: uint16)
    ensures WRITE_ONE.Legal() && READ_ONE.Legal()
    ensures var glued := Part(RequestAs(WRITE_ONE, id, 1).Bytes(), 10) + RequestAs(READ_ONE, next, 1).Bytes();
            glued == RequestAs(WriteSingleRegister(5, next), id, 1).Bytes() + READ_TAIL
  {
    hide Hi, Lo, HeaderBytes, READ_TAIL;
    WriteBytes();
    ReadBytes(next);
    AlteredBytes(next);
    var f := RequestAs(WRITE_ONE, id, 1);
    assert Part(f.Bytes(), 10) == HeaderBytes(f.header) + [0x06, 0, 5];
    assert HeaderBytes(f.header) + [0x06, 0, 5] + (WordBytes(next) + READ_TAIL) ==
           HeaderBytes(f.header) + ([0x06, 0, 5] + WordBytes(next)) + READ_TAIL;
  }

  lemma AlteredBytes(next: uint16)
    ensures RequestPdu(WriteSingleRegister(5, next)) == [0x06, 0, 5] + WordBytes(next)
  {
    hide Hi, Lo;
    FiveBytes();
    assert Payload(WriteSingleRegister(5, next)) == [];
  }

  lemma FiveBytes()
    ensures WordBytes(5) == [0, 5]
  {
  }

  /** On any device: register 5 becomes the transaction id, and the read is never carried out. */
  lemma CutRequestOverwrites(t: Tables, id: uint16, next: uint16)
    requires t.Valid()
    ensures WRITE_ONE.Legal() && READ_ONE.Legal()
    ensures var glued := Part(RequestAs(WRITE_ONE, id, 1).Bytes(), 10) + RequestAs(READ_ONE, next, 1).Bytes();
            Serve(t, glued, AllAnswered(), 0).0 == t.(holding := t.holding[5 := next])
  {
    hide Hi, Lo, HeaderBytes, READ_TAIL, NextFrame, Reply, AnswerPdu, RequestPdu, Serve;
    var req := WriteSingleRegister(5, next);
    GluedFrame(id, next);
    ReplyToRequest(t, req);
    ServeFront(t, RequestAs(req, id, 1), READ_TAIL, 0);
    TailIsNoFrame();
    NoFrameToServe(Apply(t, req).0, READ_TAIL, AllAnswered(), 1);
    OverwrittenRegister(t, next);
  }

  lemma OverwrittenRegister(t: Tables, next: uint16)
    requires t.Valid()
    ensures Apply(t, WriteSingleRegister(5, next)).0 == t.(holding := t.holding[5 := next])
  {
    assert Splice(t.holding, 5, [next]) == t.holding[5 := next];
  }

  /** The connection after a call cut short and a call behind it. */
  lemma GluedLink(l: Link) returns (mixed: Link)
    requires Fresh(l) && l.unitId == 1
    ensures WRITE_ONE.Legal() && READ_ONE.Legal()
    ensures mixed == Invoked(InvokedCut(l, WRITE_ONE, 10), READ_ONE, 0)
    ensures var id, next := NextId(l.txID), NextId((l.txID + 1) % UINT32);
            && mixed.toServer == RequestAs(WriteSingleRegister(5, next), id, 1).Bytes() + READ_TAIL
            && mixed.ops == [Op(READ_ONE, next, 0, None)] && mixed.mixed
            && mixed.open && mixed.held.None? && mixed.reply.None? && mixed.read == 0
  {
    hide Hi, Lo, HeaderBytes, READ_TAIL, RequestFrame, RequestPdu, NextId;
    var id, next := NextId(l.txID), NextId((l.txID + 1) % UINT32);
    WriteBytes();
    ReadBytes(next);
    RequestIsFrame(WRITE_ONE, id, 1);
    RequestIsFrame(READ_ONE, next, 1);
    GluedFrame(id, next);
    mixed := Invoked(InvokedCut(l, WRITE_ONE, 10), READ_ONE, 0);
    var part := Part(RequestAs(WRITE_ONE, id, 1).Bytes(), 10);
    assert l.toServer + part == part == l.torn + part;
    assert |part| == 10;
  }

  /** In the system: one connection, a call cut short, a call behind it. The one dispatch so far is a
      write of the second call's id to register 5, which nobody asked for. */
  lemma AlteredDispatch(t: Tables, l: Link) returns (events: seq<Event>)
    requires t.Valid() && Fresh(l) && l.unitId == 1
    ensures IsRun(t, System(t, [l], []), events)
    ensures var s := After(System(t, [l], []), events);
            var next := NextId((l.txID + 1) % UINT32);
            && |s.links| == 1 && s.links[0].mixed && s.links[0].ops == [Op(READ_ONE, next, 0, None)]
            && |s.log| == 1 && s.log[0].Served? && s.log[0].conn == 0 && s.log[0].op == 0
            && s.log[0].pdu == RequestPdu(WriteSingleRegister(5, next))
  {
    hide Hi, Lo, HeaderBytes, READ_TAIL, NextFrame, Reply, Part, RequestPdu, Runs, After, NextId, Invoked, InvokedCut;
    var s0 := System(t, [l], []);
    var mixed := GluedLink(l);
    var f := RequestAs(WriteSingleRegister(5, NextId((l.txID + 1) % UINT32)), NextId(l.txID), 1);
    NextFrameOf(f, READ_TAIL);
    CutIsIdle(l);
    var s1 := Step(s0, InvokeCut(0, WRITE_ONE, 10));
    var s2 := Step(s1, Invoke(0, READ_ONE));
    assert s2 == System(t, [mixed], []);
    events := [InvokeCut(0, WRITE_ONE, 10), Invoke(0, READ_ONE), Take(0), DispatchHeld(0)];
    TakeAndDispatch(s2, f);
    OneStep(s1, Invoke(0, READ_ONE), [Take(0), DispatchHeld(0)], [Invoke(0, READ_ONE), Take(0), DispatchHeld(0)]);
    OneStep(s0, InvokeCut(0, WRITE_ONE, 10), [Invoke(0, READ_ONE), Take(0), DispatchHeld(0)], events);
  }

  lemma CutIsIdle(l: Link)
    requires Fresh(l) && WRITE_ONE.Legal()
    ensures Idle(l) && Idle(InvokedCut(l, WRITE_ONE, 10))
  {
    hide Part, RequestFrame;
  }

  lemma TakeAndDispatch(s: System, f: Frame)
    requires s.tables.Valid() && |s.links| == 1 && s.log == [] && s.links[0].open && s.links[0].held.None? && s.links[0].reply.None?
    requires NextFrame(s.links[0].toServer) == Some(f) && s.links[0].read == 0
    ensures Runs(s, [Take(0), DispatchHeld(0)])
    ensures var s' := After(s, [Take(0), DispatchHeld(0)]);
            && |s'.links| == 1 && s'.links[0].mixed == s.links[0].mixed && s'.links[0].ops == s.links[0].ops
            && |s'.log| == 1 && s'.log[0].Served? && s'.log[0].conn == 0 && s'.log[0].op == 0 && s'.log[0].pdu == f.pdu
  {
    hide NextFrame, Reply, Runs, After, HeaderBytes;
    var s1 := Step(s, Take(0));
    NoEvents(Step(s1, DispatchHeld(0)));
    OneStep(s1, DispatchHeld(0), [], [DispatchHeld(0)]);
    OneStep(s, Take(0), [DispatchHeld(0)], [Take(0), DispatchHeld(0)]);
  }
}
