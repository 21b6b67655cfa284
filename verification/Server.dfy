/** The mock Modbus TCP server: four in-memory tables and the loop that serves one connection. */
module Server {
  import opened Wrappers
  import opened Bytes
  import opened Packing
  import opened Device
  import opened Pdu
  import opened Dispatch
  import opened Network
  import opened Mbap

  /** What befalls a request once read: answered, dropped before dispatch by fault injection,
      or dispatched with only part of the reply then going out. */
  datatype Fate = Answer | Drop | WriteFails(cut: nat)

  function ReplyFrame(h: Header, resp: seq<byte>): Frame
    requires |resp| <= 252
  {
    Frame(Header(h.transactionId, PROTOCOL_ID, |resp| + 1, h.unitId), resp)
  }

  /** A whole connection: from what the client sends, the tables afterwards and the bytes sent
      back. fates(i) is the fate of the i-th request. */
  function Serve(t: Tables, stream: seq<byte>, fates: nat -> Fate, i: nat): (r: (Tables, seq<byte>))
    requires t.Valid()
    ensures r.0.Valid()
    decreases |stream|
  {
    match NextFrame(stream)
    case None => (t, [])
    case Some(f) =>
      if fates(i) == Drop then (t, []) else
      var (after, resp) := Reply(t, f.pdu);
      var reply := ReplyFrame(f.header, resp).Bytes();
      if fates(i).WriteFails? then (after, Part(reply, fates(i).cut)) else
      var (final, more) := Serve(after, stream[|f.Bytes()|..], fates, i + 1);
      (final, reply + more)
  }

  /** What one turn of the loop reads off a stream, and what is left. */
  lemma TurnOfServe(t: Tables, stream: seq<byte>, fates: nat -> Fate, i: nat)
    requires t.Valid() && MBAP_LEN <= |stream|
    ensures var h := HeaderFields(stream);
            var body := TakeFull(stream[MBAP_LEN..], if h.length < 2 then 0 else h.length - 1);
            Serve(t, stream, fates, i) ==
            if h.length < 2 || body.0.None? || fates(i) == Drop then (t, []) else
            var (after, resp) := Reply(t, body.0.value);
            var reply := ReplyFrame(h, resp).Bytes();
            if fates(i).WriteFails? then (after, Part(reply, fates(i).cut)) else
            var (final, more) := Serve(after, body.1, fates, i + 1);
            (final, reply + more)
  {
    hide Hi, Lo, U16At, Reply, Part;
    var h := HeaderFields(stream);
    if 2 <= h.length && MBAP_LEN + h.length - 1 <= |stream| {
      assert stream[MBAP_LEN..][h.length - 1..] == stream[MBAP_LEN + h.length - 1..];
      assert stream[MBAP_LEN..][..h.length - 1] == stream[MBAP_LEN..MBAP_LEN + h.length - 1];
    }
  }

  lemma HeaderFieldsOfPrefix(stream: seq<byte>)
    requires MBAP_LEN <= |stream|
    ensures HeaderFields(stream[..MBAP_LEN]) == HeaderFields(stream)
  {
  }

  lemma NoFrameToServe(t: Tables, stream: seq<byte>, fates: nat -> Fate, i: nat)
    requires t.Valid() && NextFrame(stream).None?
    ensures Serve(t, stream, fates, i) == (t, [])
  {
    hide NextFrame;
  }

  lemma NothingToServe(t: Tables, stream: seq<byte>, fates: nat -> Fate, i: nat)
    requires t.Valid() && |stream| < MBAP_LEN
    ensures Serve(t, stream, fates, i) == (t, [])
  {
  }

  class Server {
    const coils: array<bool>
    const discrete: array<bool>
    const holding: array<uint16>
    const input: array<uint16>

    ghost predicate Valid()
    {
      && coils.Length == discrete.Length == holding.Length == input.Length == TABLE_SIZE
      && coils != discrete && holding != input
    }

    ghost function Contents(): (t: Tables)
      requires Valid()
      reads coils, discrete, holding, input
      ensures t.Valid()
    {
      Tables(coils[..], discrete[..], holding[..], input[..])
    }

    constructor ()
      ensures Valid()
      ensures fresh(coils) && fresh(discrete) && fresh(holding) && fresh(input)
      ensures forall i | 0 <= i < TABLE_SIZE :: !coils[i] && !discrete[i] && holding[i] == 0 && input[i] == 0
    {
      coils := new bool[TABLE_SIZE](_ => false);
      discrete := new bool[TABLE_SIZE](_ => false);
      holding := new uint16[TABLE_SIZE](_ => 0);
      input := new uint16[TABLE_SIZE](_ => 0);
    }

    method ReadBits(pdu: seq<byte>, fc: byte, table: array<bool>, ghost t: Tables) returns (out: seq<byte>)
      requires t.Valid() && |pdu| > 0 && pdu[0] == fc
      requires (fc == FC_READ_COILS && table[..] == t.coils) || (fc == FC_READ_DISCRETE && table[..] == t.discrete)
      ensures Reply(t, pdu) == (t, out)
    {
      hide Hi, Lo, U16At, Pack, ExceptionPdu;
      if |pdu| != 5 {
        return ExceptionPdu(fc, ILLEGAL_VALUE);
      }
      var addr, qty := U16At(pdu, 1), U16At(pdu, 3);
      if qty < 1 || qty > 2000 {
        return ExceptionPdu(fc, ILLEGAL_VALUE);
      }
      if addr + qty > table.Length {
        return ExceptionPdu(fc, ILLEGAL_ADDRESS);
      }
      out := PackRange(fc, table, addr, qty);
    }

    /** The reply of readBits, bit by bit. */
    method PackRange(fc: byte, table: array<bool>, addr: nat, qty: nat) returns (r: seq<byte>)
      requires addr + qty <= table.Length && 1 <= qty <= MAX_READ_BITS
      ensures r == [fc, ByteCount(qty)] + Pack(table[addr..addr + qty])
    {
      hide Hi, Lo, Bit, WithBit, PackedUpTo, PackedByte;
      var byteCount := (qty + 7) / 8;
      var out := new byte[2 + byteCount](_ => 0);
      out[0] := fc;
      out[1] := byteCount;
      ghost var bits := table[addr..addr + qty];
      NothingPacked(out[2..], bits);
      for i := 0 to qty
        invariant out[..2] == [fc, byteCount]
        invariant PackedUpTo(out[2..], bits, i)
      {
        ghost var before := out[2..];
        if table[addr + i] {
          WithBitIsByte(out[2 + i / 8], i % 8);
          out[2 + i / 8] := WithBit(out[2 + i / 8], i % 8);
        }
        PackOneMore(before, bits, i, out[2..]);
      }
      PackIsUnique(out[2..], bits);
      assert out[..] == out[..2] + out[2..];
      r := out[..];
    }

    method ReadRegs(pdu: seq<byte>, fc: byte, table: array<uint16>, ghost t: Tables) returns (out: seq<byte>)
      requires t.Valid() && |pdu| > 0 && pdu[0] == fc
      requires (fc == FC_READ_HOLDING && table[..] == t.holding) || (fc == FC_READ_INPUT && table[..] == t.input)
      ensures Reply(t, pdu) == (t, out)
    {
      hide Hi, Lo, U16At, RegisterBytes, ExceptionPdu;
      if |pdu| != 5 {
        return ExceptionPdu(fc, ILLEGAL_VALUE);
      }
      var addr, qty := U16At(pdu, 1), U16At(pdu, 3);
      if qty < 1 || qty > 125 {
        return ExceptionPdu(fc, ILLEGAL_VALUE);
      }
      if addr + qty > table.Length {
        return ExceptionPdu(fc, ILLEGAL_ADDRESS);
      }
      out := StoreRange(fc, table, addr, qty);
    }

    /** The reply of readRegs, register by register. */
    method StoreRange(fc: byte, table: array<uint16>, addr: nat, qty: nat) returns (r: seq<byte>)
      requires addr + qty <= table.Length && 1 <= qty <= MAX_READ_REGISTERS
      ensures r == [fc, 2 * qty] + RegisterBytes(table[addr..addr + qty])
    {
      hide Hi, Lo;
      var out := new byte[2 + 2 * qty](_ => 0);
      out[0] := fc;
      out[1] := 2 * qty;
      ghost var regs := table[addr..addr + qty];
      for i := 0 to qty
        invariant out[..2] == [fc, 2 * qty]
        invariant StoredUpTo(out[2..], regs, i)
      {
        ghost var before := out[2..];
        PutUint16(out, 2 + 2 * i, table[addr + i]);
        StoreOneMore(before, regs, i, out[2..]);
      }
      StoredIsRegisterBytes(out[2..], regs);
      assert out[..] == out[..2] + out[2..];
      r := out[..];
    }

    method WriteSingleCoil(pdu: seq<byte>) returns (out: seq<byte>)
      requires Valid() && |pdu| > 0 && pdu[0] == FC_WRITE_COIL
      modifies coils
      ensures (Contents(), out) == Reply(old(Contents()), pdu)
    {
      if |pdu| != 5 {
        return ExceptionPdu(FC_WRITE_COIL, ILLEGAL_VALUE);
      }
      var addr, val := U16At(pdu, 1), U16At(pdu, 3);
      if val != 0xFF00 && val != 0x0000 {
        return ExceptionPdu(FC_WRITE_COIL, ILLEGAL_VALUE);
      }
      coils[addr] := val == 0xFF00;
      EchoOfRequest(pdu);
      assert coils[..] == Splice(old(coils[..]), addr, [val == 0xFF00]);
      assert pdu[1..] == pdu[1..5];
      out := [FC_WRITE_COIL] + pdu[1..];
    }

    method WriteSingleRegister(pdu: seq<byte>) returns (out: seq<byte>)
      requires Valid() && |pdu| > 0 && pdu[0] == FC_WRITE_REGISTER
      modifies holding
      ensures (Contents(), out) == Reply(old(Contents()), pdu)
    {
      if |pdu| != 5 {
        return ExceptionPdu(FC_WRITE_REGISTER, ILLEGAL_VALUE);
      }
      var addr, val := U16At(pdu, 1), U16At(pdu, 3);
      holding[addr] := val;
      EchoOfRequest(pdu);
      assert holding[..] == Splice(old(holding[..]), addr, [val]);
      assert pdu[1..] == pdu[1..5];
      out := [FC_WRITE_REGISTER] + pdu[1..];
    }

    method WriteMultipleCoils(pdu: seq<byte>) returns (out: seq<byte>)
      requires Valid() && |pdu| > 0 && pdu[0] == FC_WRITE_COILS
      modifies coils
      ensures (Contents(), out) == Reply(old(Contents()), pdu)
    {
      if |pdu| < 6 {
        return ExceptionPdu(FC_WRITE_COILS, ILLEGAL_VALUE);
      }
      var addr, qty := U16At(pdu, 1), U16At(pdu, 3);
      var byteCount: int := pdu[5];
      if qty < 1 || qty > 1968 || byteCount != (qty + 7) / 8 || |pdu| != 6 + byteCount {
        return ExceptionPdu(FC_WRITE_COILS, ILLEGAL_VALUE);
      }
      if addr + qty > coils.Length {
        return ExceptionPdu(FC_WRITE_COILS, ILLEGAL_ADDRESS);
      }
      UnpackInto(pdu, addr, qty);
      EchoOfRequest(pdu);
      out := [FC_WRITE_COILS] + pdu[1..5];
    }

    method UnpackInto(pdu: seq<byte>, addr: nat, qty: nat)
      requires Valid() && 6 + ByteCount(qty) <= |pdu| && addr + qty <= coils.Length
      modifies coils
      ensures coils[..] == Splice(old(coils[..]), addr, Unpack(pdu[6..], qty))
    {
      for i := 0 to qty
        invariant forall k | 0 <= k < TABLE_SIZE ::
                    coils[k] == if addr <= k < addr + i then Unpack(pdu[6..], qty)[k - addr] else old(coils[k])
      {
        coils[addr + i] := Bit(pdu[6 + i / 8], i % 8);
      }
    }

    method WriteMultipleRegisters(pdu: seq<byte>) returns (out: seq<byte>)
      requires Valid() && |pdu| > 0 && pdu[0] == FC_WRITE_REGISTERS
      modifies holding
      ensures (Contents(), out) == Reply(old(Contents()), pdu)
    {
      hide Hi, Lo, U16At, WordBytes, ExceptionPdu, RegistersOf, Splice;
      if |pdu| < 6 {
        return ExceptionPdu(FC_WRITE_REGISTERS, ILLEGAL_VALUE);
      }
      var addr, qty := U16At(pdu, 1), U16At(pdu, 3);
      var byteCount: int := pdu[5];
      if qty < 1 || qty > 123 || byteCount != qty * 2 || |pdu| != 6 + byteCount {
        return ExceptionPdu(FC_WRITE_REGISTERS, ILLEGAL_VALUE);
      }
      if addr + qty > holding.Length {
        return ExceptionPdu(FC_WRITE_REGISTERS, ILLEGAL_ADDRESS);
      }
      LoadRange(pdu, addr, qty);
      EchoOfRequest(pdu);
      out := [FC_WRITE_REGISTERS] + pdu[1..5];
    }

    method LoadRange(pdu: seq<byte>, addr: nat, qty: nat)
      requires Valid() && 6 + 2 * qty <= |pdu| && addr + qty <= holding.Length
      modifies holding
      ensures holding[..] == Splice(old(holding[..]), addr, RegistersOf(pdu[6..], qty))
    {
      for i := 0 to qty
        invariant forall k | 0 <= k < TABLE_SIZE ::
                    holding[k] == if addr <= k < addr + i then RegistersOf(pdu[6..], qty)[k - addr] else old(holding[k])
      {
        holding[addr + i] := U16At(pdu, 6 + 2 * i);
      }
    }

    method Dispatch(pdu: seq<byte>) returns (out: seq<byte>)
      requires Valid()
      modifies coils, holding
      ensures (Contents(), out) == Reply(old(Contents()), pdu)
    {
      if |pdu| == 0 {
        return ExceptionPdu(0, ILLEGAL_FUNCTION);
      }
      var fc := pdu[0];
      ghost var t := Contents();
      if fc == FC_READ_COILS {
        out := ReadBits(pdu, fc, coils, t);
      } else if fc == FC_READ_DISCRETE {
        out := ReadBits(pdu, fc, discrete, t);
      } else if fc == FC_READ_HOLDING {
        out := ReadRegs(pdu, fc, holding, t);
      } else if fc == FC_READ_INPUT {
        out := ReadRegs(pdu, fc, input, t);
      } else if fc == FC_WRITE_COIL {
        out := WriteSingleCoil(pdu);
      } else if fc == FC_WRITE_REGISTER {
        out := WriteSingleRegister(pdu);
      } else if fc == FC_WRITE_COILS {
        out := WriteMultipleCoils(pdu);
      } else if fc == FC_WRITE_REGISTERS {
        out := WriteMultipleRegisters(pdu);
      } else {
        out := ExceptionPdu(fc, ILLEGAL_FUNCTION);
      }
    }

    /** Dispatch, and the whole reply frame. */
    method Respond(h: Header, pdu: seq<byte>) returns (frame: seq<byte>)
      requires Valid()
      modifies coils, holding
      ensures var (after, resp) := Reply(old(Contents()), pdu);
              Contents() == after && frame == ReplyFrame(h, resp).Bytes()
    {
      hide Reply, HeaderBytes;
      var resp := Dispatch(pdu);
      var respHeader := EncodeMBAP(Header(h.transactionId, 0, |resp| + 1, h.unitId));
      frame := respHeader + resp;
    }

    /** One connection served to its end. */
    method Handle(conn: Conn, fates: nat -> Fate)
      requires Valid()
      modifies coils, holding, conn
      ensures Contents() == Serve(old(Contents()), old(conn.inbox), fates, 0).0
      ensures conn.outbox == old(conn.outbox) + Serve(old(Contents()), old(conn.inbox), fates, 0).1
    {
      hide Hi, Lo, U16At, Reply, Serve, HeaderBytes, NextFrame, DecodeMBAP, Part, ReplyFrame, HeaderFields;
      ghost var whole := Serve(Contents(), conn.inbox, fates, 0);
      var i := 0;
      while true
        invariant 0 <= i
        invariant whole.0 == Serve(Contents(), conn.inbox, fates, i).0
        invariant old(conn.outbox) + whole.1 == conn.outbox + Serve(Contents(), conn.inbox, fates, i).1
        decreases |conn.inbox|
      {
        ghost var stream := conn.inbox;
        var header := conn.ReadFull(7);
        if header.None? {
          NothingToServe(Contents(), stream, fates, i);
          return;
        }
        TurnOfServe(Contents(), stream, fates, i);
        var h := HeaderFields(header.value);
        HeaderFieldsOfPrefix(stream);
        if h.length < 2 {
          return;
        }
        var pdu := conn.ReadFull(h.length - 1);
        if pdu.None? {
          return;
        }
        if fates(i) == Drop {
          return;
        }
        var reply := Respond(h, pdu.value);
        var ok := conn.Write(reply, if fates(i).WriteFails? then Some(fates(i).cut) else None);
        if !ok {
          return;
        }
        i := i + 1;
      }
    }

    // ---- Set-up helpers, each one atomic step ----

    method SetHolding(addr: uint16, v: uint16)
      requires Valid()
      modifies holding
      ensures holding[..] == old(holding[..])[addr := v]
    {
      holding[addr] := v;
    }

    method SetHoldingRange(addr: uint16, vs: seq<uint16>)
      requires Valid() && addr + |vs| <= TABLE_SIZE
      modifies holding
      ensures holding[..] == Splice(old(holding[..]), addr, vs)
    {
      for i := 0 to |vs|
        invariant forall k | 0 <= k < TABLE_SIZE ::
                    holding[k] == if addr <= k < addr as int + i then vs[k - addr] else old(holding[k])
      {
        holding[addr as int + i] := vs[i];
      }
    }

    method GetHolding(addr: uint16) returns (v: uint16)
      requires Valid()
      ensures v == holding[addr]
    {
      v := holding[addr];
    }

    method SetInput(addr: uint16, v: uint16)
      requires Valid()
      modifies input
      ensures input[..] == old(input[..])[addr := v]
    {
      input[addr] := v;
    }

    method SetCoil(addr: uint16, v: bool)
      requires Valid()
      modifies coils
      ensures coils[..] == old(coils[..])[addr := v]
    {
      coils[addr] := v;
    }

    method GetCoil(addr: uint16) returns (v: bool)
      requires Valid()
      ensures v == coils[addr]
    {
      v := coils[addr];
    }

    method SetDiscrete(addr: uint16, v: bool)
      requires Valid()
      modifies discrete
      ensures discrete[..] == old(discrete[..])[addr := v]
    {
      discrete[addr] := v;
    }
  }

  /** A write is acknowledged by repeating its address and operand. */
  lemma EchoOfRequest(pdu: seq<byte>)
    requires ParseRequest(pdu).Ok? && !ParseRequest(pdu).value.IsRead() && |pdu| >= 5
    ensures AnswerPdu(ParseRequest(pdu).value, Written) == [pdu[0]] + pdu[1..5]
  {
    hide Hi, Lo, U16At;
    WordAt(pdu, 1);
    WordAt(pdu, 3);
    assert pdu[1..5] == pdu[1..3] + pdu[3..5];
  }
}
