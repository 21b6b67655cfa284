/** What the server must answer to a PDU, as three independent stages: read the request out of
    the bytes, apply it to the abstract device, and lay the answer out as bytes. */
module Dispatch {
  import opened Wrappers
  import opened Bytes
  import opened Packing
  import opened Device
  import opened Pdu

  function ExceptionPdu(fc: byte, code: byte): seq<byte>
  {
    WithBitIsByte(fc, EXCEPTION_BIT);
    [WithBit(fc, EXCEPTION_BIT), code]
  }

  function CodeOf(pdu: seq<byte>): byte { if |pdu| == 0 then 0 else pdu[0] }

  /** A request, or the exception code (section 7) with which it is refused unread. */
  function ParseRequest(pdu: seq<byte>): (r: Result<Request, byte>)
    ensures r.Ok? ==> |pdu| > 0 && r.value.Legal() && FunctionCode(r.value) == pdu[0]
  {
    if |pdu| == 0 then Err(ILLEGAL_FUNCTION)
    else if 1 <= pdu[0] <= 4 then ParseRead(pdu)
    else if pdu[0] == FC_WRITE_COIL || pdu[0] == FC_WRITE_REGISTER then ParseSingleWrite(pdu)
    else if pdu[0] == FC_WRITE_COILS || pdu[0] == FC_WRITE_REGISTERS then ParseMultipleWrite(pdu)
    else Err(ILLEGAL_FUNCTION)
  }

  function ReadRequest(fc: byte, address: uint16, quantity: uint16): Request
    requires 1 <= fc <= 4
  {
    if fc == FC_READ_COILS then ReadCoils(address, quantity)
    else if fc == FC_READ_DISCRETE then ReadDiscreteInputs(address, quantity)
    else if fc == FC_READ_HOLDING then ReadHoldingRegisters(address, quantity)
    else ReadInputRegisters(address, quantity)
  }

  function ParseRead(pdu: seq<byte>): Result<Request, byte>
    requires |pdu| > 0 && 1 <= pdu[0] <= 4
  {
    if |pdu| != 5 then Err(ILLEGAL_VALUE) else
    var req := ReadRequest(pdu[0], U16At(pdu, 1), U16At(pdu, 3));
    if req.Legal() then Ok(req) else Err(ILLEGAL_VALUE)
  }

  function ParseSingleWrite(pdu: seq<byte>): Result<Request, byte>
    requires |pdu| > 0
  {
    if |pdu| != 5 then Err(ILLEGAL_VALUE) else
    var value := U16At(pdu, 3);
    if pdu[0] == FC_WRITE_REGISTER then Ok(WriteSingleRegister(U16At(pdu, 1), value))
    else if value == COIL_ON || value == COIL_OFF then Ok(WriteSingleCoil(U16At(pdu, 1), value == COIL_ON))
    else Err(ILLEGAL_VALUE)
  }

  function ParseMultipleWrite(pdu: seq<byte>): Result<Request, byte>
    requires |pdu| > 0
  {
    if |pdu| < 6 || |pdu| - 6 != pdu[5] then Err(ILLEGAL_VALUE) else
    var quantity := U16At(pdu, 3);
    if pdu[0] == FC_WRITE_COILS then
      if 1 <= quantity <= MAX_WRITE_BITS && pdu[5] == ByteCount(quantity)
      then Ok(WriteMultipleCoils(U16At(pdu, 1), Unpack(pdu[6..], quantity)))
      else Err(ILLEGAL_VALUE)
    else
      if 1 <= quantity <= MAX_WRITE_REGISTERS && pdu[5] == 2 * quantity
      then Ok(WriteMultipleRegisters(U16At(pdu, 1), RegistersOf(pdu[6..], quantity)))
      else Err(ILLEGAL_VALUE)
  }

  /** An answer of the kind the request asks for, of the right size. */
  predicate Answers(req: Request, a: Answer)
  {
    match a
    case Bits(bits) => (req.ReadCoils? || req.ReadDiscreteInputs?) && |bits| == req.quantity
    case Registers(words) => (req.ReadHoldingRegisters? || req.ReadInputRegisters?) && |words| == req.quantity
    case Written => !req.IsRead()
    case Rejected(_) => true
  }

  function AnswerPdu(req: Request, a: Answer): (pdu: seq<byte>)
    requires req.Legal() && Answers(req, a)
    ensures 2 <= |pdu| <= 252
  {
    match a
    case Bits(bits) => [FunctionCode(req), ByteCount(|bits|)] + Pack(bits)
    case Registers(words) => [FunctionCode(req), 2 * |words|] + RegisterBytes(words)
    case Written => [FunctionCode(req)] + WordBytes(req.address) + WordBytes(Operand(req))
    case Rejected(code) => ExceptionPdu(FunctionCode(req), code)
  }

  function Reply(t: Tables, pdu: seq<byte>): (r: (Tables, seq<byte>))
    requires t.Valid()
    ensures r.0.Valid() && 2 <= |r.1| <= 252
  {
    match ParseRequest(pdu)
    case Err(code) => (t, ExceptionPdu(CodeOf(pdu), code))
    case Ok(req) =>
      var (after, answer) := Apply(t, req);
      (after, AnswerPdu(req, answer))
  }

  // ---- Properties ----

  lemma OperandInRequest(req: Request)
    requires req.Legal()
    ensures U16At(RequestPdu(req), 1) == req.address && U16At(RequestPdu(req), 3) == Operand(req)
    ensures RequestPdu(req)[5..] == Payload(req)
  {
    hide Hi, Lo, U16At;
    var pdu := RequestPdu(req);
    WordInside(req.address, [FunctionCode(req)], pdu[3..]);
    assert pdu == [FunctionCode(req)] + WordBytes(req.address) + pdu[3..];
    WordInside(Operand(req), pdu[..3], pdu[5..]);
    assert pdu == pdu[..3] + WordBytes(Operand(req)) + pdu[5..];
  }

  lemma CoilsRoundTrip(req: Request)
    requires req.Legal() && req.WriteMultipleCoils?
    ensures ParseRequest(RequestPdu(req)) == Ok(req)
  {
    hide Hi, Lo, U16At;
    OperandInRequest(req);
    assert RequestPdu(req)[6..] == Payload(req)[1..] == Pack(req.bits);
    UnpackPack(req.bits);
  }

  lemma RegistersRoundTrip(req: Request)
    requires req.Legal() && req.WriteMultipleRegisters?
    ensures ParseRequest(RequestPdu(req)) == Ok(req)
  {
    hide Hi, Lo, U16At;
    OperandInRequest(req);
    assert RequestPdu(req)[6..] == Payload(req)[1..] == RegisterBytes(req.words);
    RegisterRoundTrip(req.words);
  }

  /** The server reads back exactly the request the client encoded. */
  lemma RequestRoundTrip(req: Request)
    requires req.Legal()
    ensures ParseRequest(RequestPdu(req)) == Ok(req)
  {
    hide Hi, Lo, U16At;
    if req.WriteMultipleCoils? {
      CoilsRoundTrip(req);
    } else if req.WriteMultipleRegisters? {
      RegistersRoundTrip(req);
    } else {
      OperandInRequest(req);
      assert |RequestPdu(req)[5..]| == 0;
    }
  }

  /** These bytes say exactly this request; only the padding of packed coils is free. */
  ghost predicate Says(pdu: seq<byte>, req: Request)
  {
    && req.Legal()
    && match req
       case WriteMultipleCoils(_, bits) =>
         |pdu| == |RequestPdu(req)| && pdu[..6] == RequestPdu(req)[..6] && Unpack(pdu[6..], |bits|) == bits
       case _ => pdu == RequestPdu(req)
  }

  lemma HeadIsReproduced(pdu: seq<byte>)
    requires |pdu| >= 5
    ensures [pdu[0]] + WordBytes(U16At(pdu, 1)) + WordBytes(U16At(pdu, 3)) == pdu[..5]
  {
    hide Hi, Lo, U16At;
    WordAt(pdu, 1);
    WordAt(pdu, 3);
    assert pdu[..5] == [pdu[0]] + pdu[1..3] + pdu[3..5];
  }

  lemma AcceptedCoils(pdu: seq<byte>)
    requires ParseRequest(pdu).Ok? && ParseRequest(pdu).value.WriteMultipleCoils?
    ensures Says(pdu, ParseRequest(pdu).value)
  {
    hide Hi, Lo, U16At, WordBytes, Bit, Pack, ReadRequest;
    var req := ParseRequest(pdu).value;
    HeadIsReproduced(pdu);
    assert RequestPdu(req)[..6] == pdu[..5] + [pdu[5]] == pdu[..6];
  }

  lemma AcceptedRegisters(pdu: seq<byte>)
    requires ParseRequest(pdu).Ok? && ParseRequest(pdu).value.WriteMultipleRegisters?
    ensures Says(pdu, ParseRequest(pdu).value)
  {
    hide Hi, Lo, U16At, WordBytes, RegisterBytes, ReadRequest;
    var req := ParseRequest(pdu).value;
    HeadIsReproduced(pdu);
    BytesRoundTrip(pdu[6..], |req.words|);
    assert pdu == pdu[..5] + ([pdu[5]] + pdu[6..]);
  }

  lemma AcceptedIsSaid(pdu: seq<byte>)
    requires ParseRequest(pdu).Ok?
    ensures Says(pdu, ParseRequest(pdu).value)
  {
    hide Hi, Lo, U16At, WordBytes, Unpack, RegistersOf;
    var req := ParseRequest(pdu).value;
    if req.WriteMultipleCoils? {
      AcceptedCoils(pdu);
    } else if req.WriteMultipleRegisters? {
      AcceptedRegisters(pdu);
    } else {
      HeadIsReproduced(pdu);
      assert [pdu[0]] + WordBytes(req.address) + WordBytes(Operand(req)) + [] == pdu[..5] == pdu;
    }
  }

  lemma SameHead(a: seq<byte>, b: seq<byte>)
    requires |a| >= 6 && |b| >= 6 && a[..6] == b[..6]
    ensures a[0] == b[0] && a[5] == b[5] && U16At(a, 1) == U16At(b, 1) && U16At(a, 3) == U16At(b, 3)
  {
    assert forall k | 0 <= k < 6 :: a[k] == a[..6][k] == b[..6][k] == b[k];
  }

  lemma SaidIsAccepted(pdu: seq<byte>, req: Request)
    requires Says(pdu, req)
    ensures ParseRequest(pdu) == Ok(req)
  {
    hide Hi, Lo, U16At, Bit, Unpack, Pack;
    if req.WriteMultipleCoils? {
      OperandInRequest(req);
      var like := RequestPdu(req);
      SameHead(pdu, like);
      assert like[5] == like[5..][0];
    } else {
      RequestRoundTrip(req);
    }
  }

  /** The server accepts a PDU as a request exactly when it says that request. */
  lemma AcceptedExactly(pdu: seq<byte>, req: Request)
    ensures ParseRequest(pdu) == Ok(req) <==> Says(pdu, req)
  {
    hide ParseRequest, Says;
    if ParseRequest(pdu) == Ok(req) {
      AcceptedIsSaid(pdu);
    }
    if Says(pdu, req) {
      SaidIsAccepted(pdu, req);
    }
  }

  /** And otherwise refuses it: as an illegal function when the code is not one of the eight, as an
      illegal value when it is. */
  lemma RefusalCodes(pdu: seq<byte>)
    ensures ParseRequest(pdu).Err? ==>
              ParseRequest(pdu).error ==
              if |pdu| > 0 && (1 <= pdu[0] <= 6 || pdu[0] == 15 || pdu[0] == 16) then ILLEGAL_VALUE else ILLEGAL_FUNCTION
    ensures ParseRequest(pdu).Err? <==> forall req: Request :: !Says(pdu, req)
  {
    hide Says, Unpack, RegistersOf;
    if ParseRequest(pdu).Ok? {
      AcceptedIsSaid(pdu);
    } else {
      forall req: Request ensures !Says(pdu, req) {
        AcceptedExactly(pdu, req);
      }
    }
  }

  /** The tables a request may change: outside the addressed range of one writable table,
      nothing moves. */
  ghost predicate ChangesOnlyItsRange(t: Tables, after: Tables, req: Request)
    requires t.Valid() && after.Valid() && req.Fits()
  {
    && after.discrete == t.discrete && after.input == t.input
    && (forall i | 0 <= i < TABLE_SIZE :: after.coils[i] ==
          match req
          case WriteSingleCoil(a, on) => if i == a then on else t.coils[i]
          case WriteMultipleCoils(a, bits) => if a <= i < a + |bits| then bits[i - a] else t.coils[i]
          case _ => t.coils[i])
    && (forall i | 0 <= i < TABLE_SIZE :: after.holding[i] ==
          match req
          case WriteSingleRegister(a, v) => if i == a then v else t.holding[i]
          case WriteMultipleRegisters(a, words) => if a <= i < a + |words| then words[i - a] else t.holding[i]
          case _ => t.holding[i])
  }

  lemma ApplyChangesOnlyItsRange(t: Tables, req: Request)
    requires t.Valid() && req.Fits()
    ensures ChangesOnlyItsRange(t, Apply(t, req).0, req) && !Apply(t, req).1.Rejected?
  {
  }

  lemma ApplyAnswers(t: Tables, req: Request)
    requires t.Valid() && req.Legal()
    ensures Answers(req, Apply(t, req).1)
  {
  }

  lemma AnswerFlag(req: Request, a: Answer)
    requires req.Legal() && Answers(req, a)
    ensures Bit(AnswerPdu(req, a)[0], EXCEPTION_BIT) <==> a.Rejected?
    ensures !a.Rejected? ==> AnswerPdu(req, a)[0] == FunctionCode(req)
  {
    hide Hi, Lo, U16At, Bit, WithBit;
    var fc := FunctionCode(req);
    SmallCodesAreClear(fc);
    WithBitSets(fc, EXCEPTION_BIT, EXCEPTION_BIT);
  }

  /** Every PDU whatever is answered in one of two ways: an exception that leaves all four
      tables alone, or the decoded request carried out in full. */
  lemma AllOrNothing(t: Tables, pdu: seq<byte>)
    requires t.Valid()
    ensures var (after, resp) := Reply(t, pdu);
            if Bit(resp[0], EXCEPTION_BIT)
            then after == t && |resp| == 2 && resp[0] == WithBit(CodeOf(pdu), EXCEPTION_BIT)
            else ParseRequest(pdu).Ok? && ParseRequest(pdu).value.Fits()
                 && ChangesOnlyItsRange(t, after, ParseRequest(pdu).value) && resp[0] == pdu[0]
  {
    match ParseRequest(pdu)
    case Err(_) =>
      WithBitSets(CodeOf(pdu), EXCEPTION_BIT, EXCEPTION_BIT);
    case Ok(req) =>
      AnswerFlag(req, Apply(t, req).1);
      if req.Fits() {
        ApplyChangesOnlyItsRange(t, req);
      }
  }

  lemma SmallCodesAreClear(fc: byte)
    ensures Bit(fc, EXCEPTION_BIT) <==> fc >= 0x80
  {
    assert Bit(fc, 7) == Bit(fc / 2, 6) == Bit(fc / 2 / 2, 5) == Bit(fc / 2 / 2 / 2, 4);
    var quarter := fc / 2 / 2 / 2;
    assert Bit(quarter, 4) == Bit(quarter / 2, 3) == Bit(quarter / 2 / 2, 2) == Bit(quarter / 2 / 2 / 2, 1);
  }
}
