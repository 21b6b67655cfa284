/** The client's half of the PDU codec: request encoders and response decoders. */
module Pdu {
  import opened Wrappers
  import opened Bytes
  import opened Packing
  import opened Device
  import Mbap

  const FC_READ_COILS: byte := 0x01
  const FC_READ_DISCRETE: byte := 0x02
  const FC_READ_HOLDING: byte := 0x03
  const FC_READ_INPUT: byte := 0x04
  const FC_WRITE_COIL: byte := 0x05
  const FC_WRITE_REGISTER: byte := 0x06
  const FC_WRITE_COILS: byte := 0x0F
  const FC_WRITE_REGISTERS: byte := 0x10

  const EXCEPTION_BIT := 7

  const COIL_ON: uint16 := 0xFF00
  const COIL_OFF: uint16 := 0x0000

  datatype PduError =
    | NothingToWrite
    | OverLimit(count: nat)
    | ShortResponse(have: nat)
    | WrongByteCount(said: byte)
    | Truncated(have: nat)
    | WrongEchoAddress(got: uint16)
    | WrongEchoValue(got: uint16)

  // ---- Requests ----

  function FunctionCode(req: Request): (fc: byte)
    ensures 1 <= fc < 0x80
  {
    match req
    case ReadCoils(_, _) => FC_READ_COILS
    case ReadDiscreteInputs(_, _) => FC_READ_DISCRETE
    case ReadHoldingRegisters(_, _) => FC_READ_HOLDING
    case ReadInputRegisters(_, _) => FC_READ_INPUT
    case WriteSingleCoil(_, _) => FC_WRITE_COIL
    case WriteSingleRegister(_, _) => FC_WRITE_REGISTER
    case WriteMultipleCoils(_, _) => FC_WRITE_COILS
    case WriteMultipleRegisters(_, _) => FC_WRITE_REGISTERS
  }

  /** The word after the address: a value for single writes, else how many entries. */
  function Operand(req: Request): uint16
    requires req.Legal()
  {
    match req
    case WriteSingleCoil(_, on) => if on then COIL_ON else COIL_OFF
    case WriteSingleRegister(_, v) => v
    case _ => req.Count()
  }

  /** What follows the operand; only the two multiple writes carry data. */
  function Payload(req: Request): seq<byte>
    requires req.Legal()
  {
    match req
    case WriteMultipleCoils(_, bits) => [ByteCount(|bits|)] + Pack(bits)
    case WriteMultipleRegisters(_, words) => [2 * |words|] + RegisterBytes(words)
    case _ => []
  }

  function RequestPdu(req: Request): (pdu: seq<byte>)
    requires req.Legal()
    ensures 5 <= |pdu| <= Mbap.MAX_PDU
  {
    [FunctionCode(req)] + WordBytes(req.address) + WordBytes(Operand(req)) + Payload(req)
  }

  lemma RequestCode(req: Request)
    requires req.Legal()
    ensures RequestPdu(req)[0] == FunctionCode(req)
  {
  }

  method EncodeReadRequest(fc: byte, address: uint16, quantity: uint16) returns (pdu: seq<byte>)
    ensures pdu == [fc] + WordBytes(address) + WordBytes(quantity)
  {
    var buf := new byte[5](_ => 0);
    buf[0] := fc;
    PutUint16(buf, 1, address);
    PutUint16(buf, 3, quantity);
    pdu := buf[..];
  }

  method EncodeWriteSingleCoil(address: uint16, on: bool) returns (pdu: seq<byte>)
    ensures pdu == RequestPdu(WriteSingleCoil(address, on))
  {
    var buf := new byte[5](_ => 0);
    buf[0] := FC_WRITE_COIL;
    PutUint16(buf, 1, address);
    var v := COIL_OFF;
    if on {
      v := COIL_ON;
    }
    PutUint16(buf, 3, v);
    pdu := buf[..];
  }

  method EncodeWriteSingleRegister(address: uint16, value: uint16) returns (pdu: seq<byte>)
    ensures pdu == RequestPdu(WriteSingleRegister(address, value))
  {
    var buf := new byte[5](_ => 0);
    buf[0] := FC_WRITE_REGISTER;
    PutUint16(buf, 1, address);
    PutUint16(buf, 3, value);
    pdu := buf[..];
  }

  /** The six bytes both multiple writes start with, in a buffer zeroed beyond them. */
  method MultipleWriteBuffer(fc: byte, address: uint16, n: uint16, byteCount: byte) returns (buf: array<byte>)
    ensures fresh(buf) && buf.Length == 6 + byteCount as int
    ensures buf[..6] == [fc] + WordBytes(address) + WordBytes(n) + [byteCount]
    ensures forall k | 6 <= k < buf.Length :: buf[k] == 0
  {
    buf := new byte[6 + byteCount as int](_ => 0);
    buf[0] := fc;
    PutUint16(buf, 1, address);
    PutUint16(buf, 3, n);
    buf[5] := byteCount;
  }

  method EncodeWriteMultipleRegisters(address: uint16, values: seq<uint16>) returns (r: Result<seq<byte>, PduError>)
    ensures r == (if |values| == 0 then Err(NothingToWrite)
                  else if |values| > MAX_WRITE_REGISTERS then Err(OverLimit(|values|))
                  else Ok(RequestPdu(WriteMultipleRegisters(address, values))))
  {
    hide Hi, Lo, RegisterBytes, WordBytes, StoredUpTo;
    var n := |values|;
    if n == 0 {
      return Err(NothingToWrite);
    }
    if n > MAX_WRITE_REGISTERS {
      return Err(OverLimit(n));
    }
    var buf := MultipleWriteBuffer(FC_WRITE_REGISTERS, address, n, 2 * n);
    ghost var head := buf[..6];
    NothingStored(buf[6..], values);
    for i := 0 to n
      invariant buf[..6] == head
      invariant StoredUpTo(buf[6..], values, i)
    {
      ghost var before := buf[6..];
      PutUint16(buf, 6 + 2 * i, values[i]);
      StoreOneMore(before, values, i, buf[6..]);
    }
    StoredIsRegisterBytes(buf[6..], values);
    assert buf[..] == head + RegisterBytes(values);
    assert buf[..] == RequestPdu(WriteMultipleRegisters(address, values));
    return Ok(buf[..]);
  }

  method EncodeWriteMultipleCoils(address: uint16, values: seq<bool>) returns (r: Result<seq<byte>, PduError>)
    ensures r == (if |values| == 0 then Err(NothingToWrite)
                  else if |values| > MAX_WRITE_BITS then Err(OverLimit(|values|))
                  else Ok(RequestPdu(WriteMultipleCoils(address, values))))
  {
    hide Hi, Lo, Bit, WithBit, PackedUpTo, PackedByte;
    var n := |values|;
    if n == 0 {
      return Err(NothingToWrite);
    }
    if n > MAX_WRITE_BITS {
      return Err(OverLimit(n));
    }
    var buf := MultipleWriteBuffer(FC_WRITE_COILS, address, n, (n + 7) / 8);
    ghost var head := buf[..6];
    NothingPacked(buf[6..], values);
    for i := 0 to n
      invariant buf[..6] == head
      invariant PackedUpTo(buf[6..], values, i)
    {
      ghost var before := buf[6..];
      if values[i] {
        WithBitIsByte(buf[6 + i / 8], i % 8);
        buf[6 + i / 8] := WithBit(buf[6 + i / 8], i % 8);
      }
      PackOneMore(before, values, i, buf[6..]);
    }
    PackIsUnique(buf[6..], values);
    assert buf[..] == head + Pack(values);
    assert buf[..] == RequestPdu(WriteMultipleCoils(address, values));
    return Ok(buf[..]);
  }

  // ---- Responses ----

  function AsException(pdu: seq<byte>): Option<byte>
  {
    if |pdu| >= 2 && Bit(pdu[0], EXCEPTION_BIT) then Some(pdu[1]) else None
  }

  function ReadBitsResponse(pdu: seq<byte>, quantity: nat): Result<seq<bool>, PduError>
  {
    if |pdu| < 2 then Err(ShortResponse(|pdu|))
    else if pdu[1] != ByteCount(quantity) then Err(WrongByteCount(pdu[1]))
    else if |pdu| - 2 < pdu[1] then Err(Truncated(|pdu| - 2))
    else Ok(Unpack(pdu[2..], quantity))
  }

  method DecodeReadBitsResponse(pdu: seq<byte>, quantity: nat) returns (r: Result<seq<bool>, PduError>)
    ensures r == ReadBitsResponse(pdu, quantity)
  {
    if |pdu| < 2 {
      return Err(ShortResponse(|pdu|));
    }
    var byteCount: int := pdu[1];
    var want := (quantity + 7) / 8;
    if byteCount != want {
      return Err(WrongByteCount(byteCount));
    }
    if |pdu| < 2 + byteCount {
      return Err(Truncated(|pdu| - 2));
    }
    var out := new bool[quantity](_ => false);
    for i := 0 to quantity
      invariant forall k | 0 <= k < i :: out[k] == Unpack(pdu[2..], quantity)[k]
    {
      out[i] := Bit(pdu[2 + i / 8], i % 8);
    }
    assert out[..] == Unpack(pdu[2..], quantity);
    return Ok(out[..]);
  }

  function ReadRegistersResponse(pdu: seq<byte>, quantity: nat): Result<seq<uint16>, PduError>
  {
    if |pdu| < 2 then Err(ShortResponse(|pdu|))
    else if pdu[1] != 2 * quantity then Err(WrongByteCount(pdu[1]))
    else if |pdu| - 2 < pdu[1] then Err(Truncated(|pdu| - 2))
    else Ok(RegistersOf(pdu[2..], quantity))
  }

  method DecodeReadRegistersResponse(pdu: seq<byte>, quantity: nat) returns (r: Result<seq<uint16>, PduError>)
    ensures r == ReadRegistersResponse(pdu, quantity)
  {
    if |pdu| < 2 {
      return Err(ShortResponse(|pdu|));
    }
    var byteCount: int := pdu[1];
    if byteCount != quantity * 2 {
      return Err(WrongByteCount(byteCount));
    }
    if |pdu| < 2 + byteCount {
      return Err(Truncated(|pdu| - 2));
    }
    var out := new uint16[quantity](_ => 0);
    for i := 0 to quantity
      invariant forall k | 0 <= k < i :: out[k] == RegistersOf(pdu[2..], quantity)[k]
    {
      out[i] := U16At(pdu, 2 + 2 * i);
    }
    assert out[..] == RegistersOf(pdu[2..], quantity);
    return Ok(out[..]);
  }

  function DecodeWriteEcho(pdu: seq<byte>, wantAddress: uint16, wantValue: uint16): Result<(), PduError>
  {
    if |pdu| < 5 then Err(ShortResponse(|pdu|)) else
    var gotAddress := U16At(pdu, 1);
    var gotValue := U16At(pdu, 3);
    if gotAddress != wantAddress then Err(WrongEchoAddress(gotAddress))
    else if gotValue != wantValue then Err(WrongEchoValue(gotValue))
    else Ok(())
  }

  /** Which quantities the 253-byte budget of section 4.1 admits. The register limits are the
      budget exactly; the coil limit 1968 is the specification's own and eight below it. */
  lemma LimitsAgainstBudget(n: nat)
    ensures 2 + 2 * n <= Mbap.MAX_PDU <==> n <= MAX_READ_REGISTERS
    ensures 6 + 2 * n <= Mbap.MAX_PDU <==> n <= MAX_WRITE_REGISTERS
    ensures 2 + ByteCount(n) <= Mbap.MAX_PDU <==> n <= MAX_READ_BITS + 8
    ensures 6 + ByteCount(n) <= Mbap.MAX_PDU <==> n <= MAX_WRITE_BITS + 8
  {
  }
}
