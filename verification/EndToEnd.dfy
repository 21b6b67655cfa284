/** Client, wire and server as one system, when every byte sent is delivered: a typed client
    call is the direct operation on the device's tables. */
module EndToEnd {
  import opened Wrappers
  import opened Bytes
  import opened Packing
  import opened Device
  import opened Pdu
  import opened Dispatch
  import opened Network
  import opened Mbap
  import opened Server
  import opened Client

  /** What the caller is told: the device's answer, or its refusal as an exception error. */
  function Told(req: Request, a: Answer, id: uint16, unitId: byte): Result<Answer, CallError>
  {
    match a
    case Rejected(code) => Err(Transport(Exception(FunctionCode(req), code, unitId, id)))
    case _ => Ok(a)
  }

  // ---- The reply is understood ----

  lemma ReceiveWholeFrame(f: Frame, rest: seq<byte>, id: uint16, unitId: byte, want: byte)
    requires f.WellFormed() && f.header.protocolId == PROTOCOL_ID && |f.pdu| <= MAX_PDU
    ensures Receive(f.Bytes() + rest, id, unitId, want) ==
            if f.header.transactionId != id then (Err(Mismatch(id, f.header.transactionId)), f.pdu + rest)
            else (CheckResponse(f.pdu, id, unitId, want), rest)
  {
    hide Hi, Lo, U16At, CheckResponse;
    var inbox := f.Bytes() + rest;
    assert inbox[..MBAP_LEN] == HeaderBytes(f.header) + [];
    assert inbox[MBAP_LEN..] == f.pdu + rest;
    FieldsOfBytes(f.header, []);
  }

  /** The deadline passed, or the connection closed, before the reply was complete. */
  predicate OutOfTime(r: Result<seq<byte>, DoError>) { r.Err? && (r.error.NoHeader? || r.error.NoPdu?) }

  lemma ReceivePartOfFrame(f: Frame, n: nat, unitId: byte, want: byte)
    requires f.WellFormed() && f.header.protocolId == PROTOCOL_ID && |f.pdu| <= MAX_PDU && n < |f.Bytes()|
    ensures OutOfTime(Receive(f.Bytes()[..n], f.header.transactionId, unitId, want).0)
  {
    hide Hi, Lo, U16At, CheckResponse;
    if MBAP_LEN <= n {
      FieldsOfBytes(f.header, []);
      assert f.Bytes()[..n][..MBAP_LEN] == HeaderBytes(f.header) + [];
    }
  }

  lemma BitsUnderstood(req: Request, bits: seq<bool>)
    requires req.Legal() && Answers(req, Bits(bits))
    ensures DecodeAnswer(req, AnswerPdu(req, Bits(bits))) == Ok(Bits(bits))
  {
    var pdu := AnswerPdu(req, Bits(bits));
    assert pdu[2..] == Pack(bits);
    UnpackPack(bits);
  }

  lemma RegistersUnderstood(req: Request, words: seq<uint16>)
    requires req.Legal() && Answers(req, Registers(words))
    ensures DecodeAnswer(req, AnswerPdu(req, Registers(words))) == Ok(Registers(words))
  {
    hide Hi, Lo, U16At;
    var pdu := AnswerPdu(req, Registers(words));
    assert pdu[2..] == RegisterBytes(words);
    RegisterRoundTrip(words);
  }

  lemma EchoUnderstood(req: Request)
    requires req.Legal() && !req.IsRead()
    ensures DecodeAnswer(req, AnswerPdu(req, Written)) == Ok(Written)
  {
    hide Hi, Lo, U16At;
    var pdu := AnswerPdu(req, Written);
    WordInside(req.address, [FunctionCode(req)], WordBytes(Operand(req)));
    assert pdu == [FunctionCode(req)] + WordBytes(req.address) + WordBytes(Operand(req)) + [];
    WordInside(Operand(req), [FunctionCode(req)] + WordBytes(req.address), []);
    assert DecodeWriteEcho(pdu, req.address, Operand(req)) == Ok(());
  }

  lemma ExceptionUnderstood(fc: byte, code: byte, id: uint16, unitId: byte)
    requires fc < 0x80
    ensures CheckResponse(ExceptionPdu(fc, code), id, unitId, fc) == Err(Exception(fc, code, unitId, id))
  {
    hide Bit, WithBit, Pow2;
    SmallCodesAreClear(fc);
    Pow2Of8();
    WithBitAdds(fc, EXCEPTION_BIT);
    WithBitSets(fc, EXCEPTION_BIT, EXCEPTION_BIT);
  }

  lemma AnswerUnderstood(req: Request, a: Answer, id: uint16, unitId: byte)
    requires req.Legal() && Answers(req, a)
    ensures Conclude(req, CheckResponse(AnswerPdu(req, a), id, unitId, FunctionCode(req))) == Told(req, a, id, unitId)
  {
    hide Hi, Lo, U16At, DecodeAnswer, Bit;
    AnswerFlag(req, a);
    match a
    case Bits(bits) => BitsUnderstood(req, bits);
    case Registers(words) => RegistersUnderstood(req, words);
    case Written => EchoUnderstood(req);
    case Rejected(code) => ExceptionUnderstood(FunctionCode(req), code, id, unitId);
  }

  // ---- One call over the wire ----

  function AllAnswered(): nat -> Fate { (_: nat) => Answer }

  /** A call with intact delivery: the server serves exactly the bytes the client writes and the
      client receives exactly the bytes the server sends back. */
  function RemoteCall(t: Tables, w: Wire, req: Request): (Tables, Result<Answer, CallError>, Wire)
    requires t.Valid() && req.Legal() && w.connected
  {
    var sent := RequestFrame(NextId(w.txID), w.unitId, RequestPdu(req));
    var (t', replies) := Serve(t, sent, AllAnswered(), 0);
    var (r, w') := Call(w, req, Net(None, replies));
    (t', r, w')
  }

  /** A request as the server's reader sees it. */
  function RequestAs(req: Request, id: uint16, unitId: byte): Frame
    requires req.Legal()
  {
    Frame(Header(id, PROTOCOL_ID, |RequestPdu(req)| + 1, unitId), RequestPdu(req))
  }

  lemma RequestIsFrame(req: Request, id: uint16, unitId: byte)
    requires req.Legal()
    ensures var f := RequestAs(req, id, unitId);
            f.WellFormed() && RequestFrame(id, unitId, RequestPdu(req)) == f.Bytes()
  {
    hide Hi, Lo, U16At, WordBytes, HeaderBytes, RequestPdu;
  }

  lemma ServeFront(t: Tables, f: Frame, tail: seq<byte>, i: nat)
    requires t.Valid() && f.WellFormed()
    ensures var (after, resp) := Reply(t, f.pdu);
            var (final, more) := Serve(after, tail, AllAnswered(), i + 1);
            Serve(t, f.Bytes() + tail, AllAnswered(), i) == (final, ReplyFrame(f.header, resp).Bytes() + more)
  {
    hide Reply, NextFrame, HeaderBytes, ReplyFrame;
    NextFrameOf(f, tail);
  }

  lemma ReplyToRequest(t: Tables, req: Request)
    requires t.Valid() && req.Legal()
    ensures Answers(req, Apply(t, req).1) && Apply(t, req).0.Valid()
    ensures Reply(t, RequestPdu(req)) == (Apply(t, req).0, AnswerPdu(req, Apply(t, req).1))
  {
    hide Apply, ParseRequest, AnswerPdu, RequestPdu;
    RequestRoundTrip(req);
    ApplyAnswers(t, req);
  }

  lemma ServeOneRequest(t: Tables, req: Request, id: uint16, unitId: byte)
    requires t.Valid() && req.Legal()
    ensures var (t', a) := Apply(t, req);
            Serve(t, RequestFrame(id, unitId, RequestPdu(req)), AllAnswered(), 0) ==
            (t', ReplyFrame(Header(id, PROTOCOL_ID, 0, unitId), AnswerPdu(req, a)).Bytes())
  {
    hide Hi, Lo, U16At, HeaderBytes, ParseRequest, AnswerPdu, RequestPdu, Apply;
    var f := RequestAs(req, id, unitId);
    RequestIsFrame(req, id, unitId);
    NextFrameOf(f, []);
    assert f.Bytes() + [] == f.Bytes();
    RequestRoundTrip(req);
    ApplyAnswers(t, req);
    var sent := RequestFrame(id, unitId, RequestPdu(req));
    assert sent[|f.Bytes()|..] == [];
    assert Reply(t, f.pdu) == (Apply(t, req).0, AnswerPdu(req, Apply(t, req).1));
    NothingToServe(Apply(t, req).0, [], AllAnswered(), 1);
    var reply := ReplyFrame(f.header, AnswerPdu(req, Apply(t, req).1)).Bytes();
    assert reply + [] == reply;
  }

  /** End-to-end refinement. From any tables and any connection with nothing unread, a call
      changes the tables and reports as the direct operation does, and leaves nothing unread. */
  lemma RemoteCallRefinesDevice(t: Tables, w: Wire, req: Request)
    requires t.Valid() && req.Legal() && w.connected && w.inbox == []
    ensures var (t', r, w') := RemoteCall(t, w, req);
            && t' == Apply(t, req).0
            && r == Told(req, Apply(t, req).1, NextId(w.txID), w.unitId)
            && w' == w.(txID := (w.txID + 1) % UINT32,
                        outbox := w.outbox + RequestFrame(NextId(w.txID), w.unitId, RequestPdu(req)))
  {
    hide Hi, Lo, U16At, Serve, Receive, CheckResponse, Conclude, HeaderBytes, AnswerPdu, RequestFrame;
    var id := NextId(w.txID);
    var a := Apply(t, req).1;
    ServeOneRequest(t, req, id, w.unitId);
    var reply := ReplyFrame(Header(id, PROTOCOL_ID, 0, w.unitId), AnswerPdu(req, a));
    assert w.inbox + reply.Bytes() == reply.Bytes() + [];
    ReceiveWholeFrame(reply, [], id, w.unitId, FunctionCode(req));
    AnswerUnderstood(req, a, id, w.unitId);
  }

  /** The only way such a call can fail is a range that runs past the table, and then the one
      error is exception 2 with every table as before. */
  lemma RemoteCallSucceedsExactlyInRange(t: Tables, w: Wire, req: Request)
    requires t.Valid() && req.Legal() && w.connected && w.inbox == []
    ensures var (t', r, _) := RemoteCall(t, w, req);
            if req.address + req.Count() <= TABLE_SIZE
            then r.Ok? && ChangesOnlyItsRange(t, t', req)
            else t' == t && r == Err(Transport(Exception(FunctionCode(req), ILLEGAL_ADDRESS, w.unitId, NextId(w.txID))))
  {
    hide RemoteCall, ChangesOnlyItsRange, AnswerPdu;
    RemoteCallRefinesDevice(t, w, req);
    if req.Fits() {
      ApplyChangesOnlyItsRange(t, req);
    }
  }

  /** The same on the objects themselves: the client writes, the server serves the bytes written, and
      the client reads what the server sent back. */
  method Transact(c: Client, s: Server, pdu: seq<byte>, ghost req: Request) returns (r: Result<seq<byte>, DoError>)
    requires c.Valid() && s.Valid() && c.conn != null && c.conn.inbox == []
    requires req.Legal() && pdu == RequestPdu(req)
    modifies c`txID, c.conn, s.coils, s.holding
    ensures c.Valid() && s.Contents() == Apply(old(s.Contents()), req).0
    ensures Conclude(req, r) == Told(req, Apply(old(s.Contents()), req).1, NextId(old(c.txID)), c.unitID)
    ensures c.State() == RemoteCall(old(s.Contents()), old(c.State()), req).2 && c.State().inbox == []
  {
    hide Hi, Lo, U16At, Serve, Receive, CheckResponse, Conclude, HeaderBytes, AnswerPdu, RequestPdu, Apply, RequestFrame;
    RemoteCallRefinesDevice(s.Contents(), c.State(), req);
    var before := |c.conn.outbox|;
    var id, _ := c.Send(pdu, None);
    var link := new Conn();
    link.inbox := c.conn.outbox[before..];
    assert link.inbox == RequestFrame(id, c.unitID, pdu);
    s.Handle(link, AllAnswered());
    c.conn.inbox := c.conn.inbox + link.outbox;
    assert link.outbox == Serve(old(s.Contents()), RequestFrame(id, c.unitID, pdu), AllAnswered(), 0).1;
    r := c.Await(id, pdu[0]);
  }
}
