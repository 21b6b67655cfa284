/** The synchronous Modbus TCP client: one request on the wire at a time. */
module Client {
  import opened Wrappers
  import opened Bytes
  import opened Packing
  import opened Device
  import opened Pdu
  import opened Dispatch
  import opened Network
  import opened Mbap

  /** Why an exchange did not return a PDU. NoHeader and NoPdu stand for a deadline or a closed
      connection before enough bytes had arrived. */
  datatype DoError =
    | NotConnected
    | WriteFailed
    | NoHeader
    | BadHeader(reason: HeaderError)
    | Mismatch(sent: uint16, received: uint16)
    | NoPdu(wanted: nat)
    | Exception(fc: byte, code: byte, unitId: byte, transactionId: uint16)
    | WrongFunction(want: byte, got: byte)

  datatype CallError =
    | BadQuantity(quantity: int)
    | Encoding(pduError: PduError)
    | Transport(error: DoError)
    | Decoding(pduError: PduError)

  /** What the network does during one call: whether the request goes out whole (None) or is cut
      short, and the bytes that reach the client before its deadline. */
  datatype Net = Net(cut: Option<nat>, arriving: seq<byte>)

  /** Everything a client call can read or change. */
  datatype Wire = Wire(connected: bool, txID: nat, unitId: byte, inbox: seq<byte>, outbox: seq<byte>)

  const UINT32 := 0x1_0000_0000

  function NextId(txID: nat): uint16 { (txID + 1) % UINT32 % 0x1_0000 }

  function RequestFrame(id: uint16, unitId: byte, pdu: seq<byte>): (frame: seq<byte>)
    ensures |frame| == MBAP_LEN + |pdu|
  {
    HeaderBytes(Header(id, PROTOCOL_ID, (|pdu| + 1) % 0x1_0000, unitId)) + pdu
  }

  /** The reading half of `do`: the outcome and the bytes left unread. */
  function Receive(inbox: seq<byte>, id: uint16, unitId: byte, want: byte): (Result<seq<byte>, DoError>, seq<byte>)
  {
    var (head, rest) := TakeFull(inbox, MBAP_LEN);
    if head.None? then (Err(NoHeader), rest) else
    match DecodeMBAP(head.value)
    case Err(e) => (Err(BadHeader(e)), rest)
    case Ok(h) =>
      if h.transactionId != id then (Err(Mismatch(id, h.transactionId)), rest) else
      var (body, rest') := TakeFull(rest, h.length - 1);
      if body.None? then (Err(NoPdu(h.length - 1)), rest')
      else (CheckResponse(body.value, id, unitId, want), rest')
  }

  function CheckResponse(pdu: seq<byte>, id: uint16, unitId: byte, want: byte): Result<seq<byte>, DoError>
    requires |pdu| > 0
  {
    match AsException(pdu)
    case Some(code) => Err(Exception(ClearFlag(pdu[0]), code, unitId, id))
    case None => if pdu[0] != want then Err(WrongFunction(want, pdu[0])) else Ok(pdu)
  }

  /** `b &^ 0x80` */
  function ClearFlag(b: byte): byte { b % 0x80 }

  function Exchange(w: Wire, pdu: seq<byte>, net: Net): (Result<seq<byte>, DoError>, Wire)
    requires |pdu| > 0
  {
    if !w.connected then (Err(NotConnected), w) else
    var id := NextId(w.txID);
    var counted := w.(txID := (w.txID + 1) % UINT32);
    var frame := RequestFrame(id, w.unitId, pdu);
    if net.cut.Some? then (Err(WriteFailed), counted.(outbox := w.outbox + Part(frame, net.cut.value))) else
    var (r, rest) := Receive(w.inbox + net.arriving, id, w.unitId, pdu[0]);
    (r, counted.(outbox := w.outbox + frame, inbox := rest))
  }

  /** Each typed operation reads its own answer out of the response. */
  function DecodeAnswer(req: Request, resp: seq<byte>): Result<Answer, PduError>
    requires req.Legal()
  {
    match req
    case ReadCoils(_, n) => AsBits(ReadBitsResponse(resp, n))
    case ReadDiscreteInputs(_, n) => AsBits(ReadBitsResponse(resp, n))
    case ReadHoldingRegisters(_, n) => AsRegisters(ReadRegistersResponse(resp, n))
    case ReadInputRegisters(_, n) => AsRegisters(ReadRegistersResponse(resp, n))
    case _ =>
      match DecodeWriteEcho(resp, req.address, Operand(req))
      case Ok(_) => Ok(Written)
      case Err(e) => Err(e)
  }

  function AsBits(r: Result<seq<bool>, PduError>): Result<Answer, PduError>
  {
    match r case Ok(bits) => Ok(Bits(bits)) case Err(e) => Err(e)
  }

  function AsRegisters(r: Result<seq<uint16>, PduError>): Result<Answer, PduError>
  {
    match r case Ok(words) => Ok(Registers(words)) case Err(e) => Err(e)
  }

  function Conclude(req: Request, r: Result<seq<byte>, DoError>): Result<Answer, CallError>
    requires req.Legal()
  {
    match r
    case Err(e) => Err(Transport(e))
    case Ok(resp) =>
      match DecodeAnswer(req, resp)
      case Ok(a) => Ok(a)
      case Err(e) => Err(Decoding(e))
  }

  function Call(w: Wire, req: Request, net: Net): (Result<Answer, CallError>, Wire)
    requires req.Legal()
  {
    var (r, w') := Exchange(w, RequestPdu(req), net);
    (Conclude(req, r), w')
  }

  /** A typed result seen as an answer. */
  function BitsAnswer(r: Result<seq<bool>, CallError>): Result<Answer, CallError>
  {
    match r case Ok(bits) => Ok(Bits(bits)) case Err(e) => Err(e)
  }

  function RegistersAnswer(r: Result<seq<uint16>, CallError>): Result<Answer, CallError>
  {
    match r case Ok(words) => Ok(Registers(words)) case Err(e) => Err(e)
  }

  function WriteAnswer(r: Result<(), CallError>): Result<Answer, CallError>
  {
    match r case Ok(_) => Ok(Written) case Err(e) => Err(e)
  }

  class Client {
    const unitID: byte
    var conn: Conn?
    var txID: nat

    ghost predicate Valid()
      reads this
    {
      txID < UINT32
    }

    ghost function State(): Wire
      reads this, conn
    {
      if conn == null then Wire(false, txID, unitID, [], []) else Wire(true, txID, unitID, conn.inbox, conn.outbox)
    }

    constructor (unitID: byte)
      ensures Valid() && State() == Wire(false, 0, unitID, [], [])
    {
      this.unitID := unitID;
      conn, txID := null, 0;
    }

    /** `dialled` is what the dialer returned; null when it failed. */
    method Connect(dialled: Conn?) returns (ok: bool)
      requires Valid()
      modifies this`conn
      ensures Valid() && ok == (dialled != null) && conn == if ok then dialled else old(conn)
    {
      if dialled == null {
        return false;
      }
      conn := dialled;
      ok := true;
    }

    method Close()
      requires Valid()
      modifies this`conn
      ensures Valid() && conn == null
    {
      conn := null;
    }

    method NextTxID() returns (id: uint16)
      requires Valid()
      modifies this`txID
      ensures Valid() && id == NextId(old(txID)) && txID == (old(txID) + 1) % UINT32
    {
      txID := (txID + 1) % UINT32;
      id := txID % 0x1_0000;
    }

    method Do(pdu: seq<byte>, net: Net) returns (r: Result<seq<byte>, DoError>)
      requires Valid() && |pdu| > 0
      modifies this`txID, conn
      ensures Valid() && (r, State()) == Exchange(old(State()), pdu, net)
    {
      hide RequestFrame, Receive, Part;
      if conn == null {
        return Err(NotConnected);
      }
      var id, ok := Send(pdu, net.cut);
      if !ok {
        return Err(WriteFailed);
      }
      conn.inbox := conn.inbox + net.arriving;
      r := Await(id, pdu[0]);
    }

    /** The writing half of `do`. */
    method Send(pdu: seq<byte>, cut: Option<nat>) returns (id: uint16, ok: bool)
      requires Valid() && conn != null && |pdu| > 0
      modifies this`txID, conn`outbox
      ensures Valid() && id == NextId(old(txID)) && txID == (old(txID) + 1) % UINT32
      ensures ok == cut.None?
      ensures var frame := RequestFrame(id, unitID, pdu);
              conn.outbox == old(conn.outbox) + if ok then frame else Part(frame, cut.value)
    {
      hide HeaderBytes, Part;
      id := NextTxID();
      var header := EncodeMBAP(Header(id, PROTOCOL_ID, (|pdu| + 1) % 0x1_0000, unitID));
      ok := conn.Write(header + pdu, cut);
    }

    /** The reading half. */
    method Await(id: uint16, want: byte) returns (r: Result<seq<byte>, DoError>)
      requires conn != null
      modifies conn`inbox
      ensures (r, conn.inbox) == Receive(old(conn.inbox), id, unitID, want)
    {
      var respHeader := conn.ReadFull(MBAP_LEN);
      if respHeader.None? {
        return Err(NoHeader);
      }
      var rh := DecodeMBAP(respHeader.value);
      if rh.Err? {
        return Err(BadHeader(rh.error));
      }
      if rh.value.transactionId != id {
        return Err(Mismatch(id, rh.value.transactionId));
      }
      var respPdu := conn.ReadFull(rh.value.length - 1);
      if respPdu.None? {
        return Err(NoPdu(rh.value.length - 1));
      }
      var resp := respPdu.value;
      // An empty PDU cannot get here: DecodeMBAP refuses any length below 2.
      var code := AsException(resp);
      if code.Some? {
        return Err(Exception(ClearFlag(resp[0]), code.value, unitID, id));
      }
      if resp[0] != want {
        return Err(WrongFunction(want, resp[0]));
      }
      return Ok(resp);
    }

    method ReadCoils(address: uint16, quantity: int, net: Net) returns (r: Result<seq<bool>, CallError>)
      requires Valid()
      modifies this`txID, conn
      ensures Valid()
      ensures if 1 <= quantity <= MAX_READ_BITS
              then (BitsAnswer(r), State()) == Call(old(State()), Request.ReadCoils(address, quantity), net)
              else r == Err(BadQuantity(quantity)) && State() == old(State())
    {
      if quantity < 1 || quantity > MAX_READ_BITS {
        return Err(BadQuantity(quantity));
      }
      var pdu := EncodeReadRequest(FC_READ_COILS, address, quantity);
      ReadPdu(Request.ReadCoils(address, quantity));
      var resp := Do(pdu, net);
      if resp.Err? {
        return Err(Transport(resp.error));
      }
      var bits := DecodeReadBitsResponse(resp.value, quantity);
      if bits.Err? {
        return Err(Decoding(bits.error));
      }
      return Ok(bits.value);
    }

    method ReadDiscreteInputs(address: uint16, quantity: int, net: Net) returns (r: Result<seq<bool>, CallError>)
      requires Valid()
      modifies this`txID, conn
      ensures Valid()
      ensures if 1 <= quantity <= MAX_READ_BITS
              then (BitsAnswer(r), State()) == Call(old(State()), Request.ReadDiscreteInputs(address, quantity), net)
              else r == Err(BadQuantity(quantity)) && State() == old(State())
    {
      if quantity < 1 || quantity > MAX_READ_BITS {
        return Err(BadQuantity(quantity));
      }
      var pdu := EncodeReadRequest(FC_READ_DISCRETE, address, quantity);
      ReadPdu(Request.ReadDiscreteInputs(address, quantity));
      var resp := Do(pdu, net);
      if resp.Err? {
        return Err(Transport(resp.error));
      }
      var bits := DecodeReadBitsResponse(resp.value, quantity);
      if bits.Err? {
        return Err(Decoding(bits.error));
      }
      return Ok(bits.value);
    }

    method ReadHoldingRegisters(address: uint16, quantity: int, net: Net) returns (r: Result<seq<uint16>, CallError>)
      requires Valid()
      modifies this`txID, conn
      ensures Valid()
      ensures if 1 <= quantity <= MAX_READ_REGISTERS
              then (RegistersAnswer(r), State()) == Call(old(State()), Request.ReadHoldingRegisters(address, quantity), net)
              else r == Err(BadQuantity(quantity)) && State() == old(State())
    {
      if quantity < 1 || quantity > MAX_READ_REGISTERS {
        return Err(BadQuantity(quantity));
      }
      var pdu := EncodeReadRequest(FC_READ_HOLDING, address, quantity);
      ReadPdu(Request.ReadHoldingRegisters(address, quantity));
      var resp := Do(pdu, net);
      if resp.Err? {
        return Err(Transport(resp.error));
      }
      var words := DecodeReadRegistersResponse(resp.value, quantity);
      if words.Err? {
        return Err(Decoding(words.error));
      }
      return Ok(words.value);
    }

    method ReadInputRegisters(address: uint16, quantity: int, net: Net) returns (r: Result<seq<uint16>, CallError>)
      requires Valid()
      modifies this`txID, conn
      ensures Valid()
      ensures if 1 <= quantity <= MAX_READ_REGISTERS
              then (RegistersAnswer(r), State()) == Call(old(State()), Request.ReadInputRegisters(address, quantity), net)
              else r == Err(BadQuantity(quantity)) && State() == old(State())
    {
      if quantity < 1 || quantity > MAX_READ_REGISTERS {
        return Err(BadQuantity(quantity));
      }
      var pdu := EncodeReadRequest(FC_READ_INPUT, address, quantity);
      ReadPdu(Request.ReadInputRegisters(address, quantity));
      var resp := Do(pdu, net);
      if resp.Err? {
        return Err(Transport(resp.error));
      }
      var words := DecodeReadRegistersResponse(resp.value, quantity);
      if words.Err? {
        return Err(Decoding(words.error));
      }
      return Ok(words.value);
    }

    method WriteSingleCoil(address: uint16, on: bool, net: Net) returns (r: Result<(), CallError>)
      requires Valid()
      modifies this`txID, conn
      ensures Valid()
      ensures (WriteAnswer(r), State()) == Call(old(State()), Request.WriteSingleCoil(address, on), net)
    {
      var pdu := EncodeWriteSingleCoil(address, on);
      var resp := Do(pdu, net);
      if resp.Err? {
        return Err(Transport(resp.error));
      }
      var want := COIL_OFF;
      if on {
        want := COIL_ON;
      }
      r := Acknowledge(DecodeWriteEcho(resp.value, address, want));
    }

    method WriteSingleRegister(address: uint16, value: uint16, net: Net) returns (r: Result<(), CallError>)
      requires Valid()
      modifies this`txID, conn
      ensures Valid()
      ensures (WriteAnswer(r), State()) == Call(old(State()), Request.WriteSingleRegister(address, value), net)
    {
      var pdu := EncodeWriteSingleRegister(address, value);
      var resp := Do(pdu, net);
      if resp.Err? {
        return Err(Transport(resp.error));
      }
      r := Acknowledge(DecodeWriteEcho(resp.value, address, value));
    }

    method WriteMultipleRegisters(address: uint16, values: seq<uint16>, net: Net) returns (r: Result<(), CallError>)
      requires Valid()
      modifies this`txID, conn
      ensures Valid()
      ensures if 1 <= |values| <= MAX_WRITE_REGISTERS
              then (WriteAnswer(r), State()) == Call(old(State()), Request.WriteMultipleRegisters(address, values), net)
              else r == Err(Encoding(if |values| == 0 then NothingToWrite else OverLimit(|values|))) && State() == old(State())
    {
      var pdu := EncodeWriteMultipleRegisters(address, values);
      if pdu.Err? {
        return Err(Encoding(pdu.error));
      }
      var resp := Do(pdu.value, net);
      if resp.Err? {
        return Err(Transport(resp.error));
      }
      r := Acknowledge(DecodeWriteEcho(resp.value, address, |values|));
    }

    method WriteMultipleCoils(address: uint16, values: seq<bool>, net: Net) returns (r: Result<(), CallError>)
      requires Valid()
      modifies this`txID, conn
      ensures Valid()
      ensures if 1 <= |values| <= MAX_WRITE_BITS
              then (WriteAnswer(r), State()) == Call(old(State()), Request.WriteMultipleCoils(address, values), net)
              else r == Err(Encoding(if |values| == 0 then NothingToWrite else OverLimit(|values|))) && State() == old(State())
    {
      var pdu := EncodeWriteMultipleCoils(address, values);
      if pdu.Err? {
        return Err(Encoding(pdu.error));
      }
      var resp := Do(pdu.value, net);
      if resp.Err? {
        return Err(Transport(resp.error));
      }
      r := Acknowledge(DecodeWriteEcho(resp.value, address, |values|));
    }
  }

  function Acknowledge(echo: Result<(), PduError>): Result<(), CallError>
  {
    match echo case Ok(_) => Ok(()) case Err(e) => Err(Decoding(e))
  }

  /** Whatever bytes come back, a call that succeeds returns an answer of the right kind and size. */
  lemma CallAnswersInKind(w: Wire, req: Request, net: Net)
    requires req.Legal()
    ensures Call(w, req, net).0.Ok? ==> Answers(req, Call(w, req, net).0.value) && !Call(w, req, net).0.value.Rejected?
  {
    hide Exchange, Unpack, RegistersOf;
  }

  lemma ReadPdu(req: Request)
    requires req.Legal() && req.IsRead()
    ensures RequestPdu(req) == [FunctionCode(req)] + WordBytes(req.address) + WordBytes(req.quantity)
  {
    assert Payload(req) == [];
  }

  /** Clearing the top bit is what `&^` does, for a byte that carries it. */
  lemma ClearFlagClears(b: byte)
    ensures ClearFlag(b) < 0x80 && (b >= 0x80 ==> ClearFlag(b) + 0x80 == b)
  {
  }
}
