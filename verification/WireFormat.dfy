/** The protocol in numbers. Every function between a call and its bytes is fixed here by what the
    bytes are, so that none of them is the only witness of what it does. */
module WireFormat {
  import opened Wrappers
  import opened Bytes
  import opened Packing
  import opened Device
  import opened Pdu
  import opened Dispatch
  import opened Mbap
  import opened Client
  import opened EndToEnd
  import opened ReplyMatching

  /** From byte `at` on, the bytes hold these words, high byte first. */
  predicate WordsAt(words: seq<uint16>, bytes: seq<byte>, at: nat)
    requires at + 2 * |words| <= |bytes|
  {
    forall k | 0 <= k < |words| :: words[k] == 256 * bytes[at + 2 * k] as int + bytes[at + 2 * k + 1] as int
  }

  /** From byte `at` on, the bytes hold these bits, eight to a byte, lowest first. */
  predicate BitsAt(bits: seq<bool>, bytes: seq<byte>, at: nat)
    requires at + (|bits| + 7) / 8 <= |bytes|
  {
    forall k | 0 <= k < |bits| :: bits[k] <==> Bit(bytes[at + k / 8], k % 8)
  }

  lemma BlockHoldsWords(words: seq<uint16>, head: seq<byte>)
    ensures WordsAt(words, head + RegisterBytes(words), |head|)
  {
    hide RegisterBytes;
    var bytes := head + RegisterBytes(words);
    forall k | 0 <= k < |words| ensures words[k] == 256 * bytes[|head| + 2 * k] as int + bytes[|head| + 2 * k + 1] as int {
      RegisterInBlock(words, k);
    }
  }

  lemma RegisterInBlock(words: seq<uint16>, k: nat)
    requires k < |words|
    ensures words[k] == 256 * RegisterBytes(words)[2 * k] as int + RegisterBytes(words)[2 * k + 1] as int
  {
    assert (2 * k + 1) / 2 == k;
  }

  lemma BlockHoldsBits(bits: seq<bool>, head: seq<byte>)
    ensures BitsAt(bits, head + Pack(bits), |head|) && PaddingClear((head + Pack(bits))[|head|..], |bits|)
  {
    hide Bit, Pack;
    var bytes := head + Pack(bits);
    assert bytes[|head|..] == Pack(bits);
    PackIsPacked(bits);
    forall k | 0 <= k < |bits| ensures bits[k] <==> Bit(bytes[|head| + k / 8], k % 8) {
      assert k == 8 * (k / 8) + k % 8;
      assert bytes[|head| + k / 8] == Pack(bits)[k / 8];
    }
  }

  // ---- Words and frames ----

  lemma HighByteFirst(v: uint16, s: seq<byte>, i: nat)
    ensures WordBytes(v) == [v / 256, v % 256]
    ensures i + 2 <= |s| ==> U16At(s, i) == 256 * s[i] as int + s[i + 1] as int
  {
  }

  lemma FlagByte(fc: byte)
    ensures WithBit(fc, EXCEPTION_BIT) == if fc < 0x80 then fc as int + 0x80 else fc
  {
    hide Bit, WithBit, Pow2;
    SmallCodesAreClear(fc);
    Pow2Of8();
    WithBitAdds(fc, EXCEPTION_BIT);
  }

  /** Section 3.1.3 of the Messaging on TCP/IP Implementation Guide: transaction id, protocol 0, the
      number of bytes from the unit id on, the unit id. */
  lemma RequestFrameBytes(id: uint16, unitId: byte, pdu: seq<byte>)
    requires |pdu| <= 253
    ensures RequestFrame(id, unitId, pdu) ==
            [id / 256, id % 256, 0, 0, 0, |pdu| + 1, unitId] + pdu
  {
    HighByteFirst(id, [], 0);
  }

  lemma ReplyFrameBytes(id: uint16, unitId: byte, pdu: seq<byte>)
    requires 1 <= |pdu| <= 253
    ensures ReplyWith(id, unitId, pdu).Bytes() == [id / 256, id % 256, 0, 0, 0, |pdu| + 1, unitId] + pdu
  {
  }

  // ---- What the client sends ----

  /** Sections 6.1 to 6.6: five bytes. */
  lemma ShortRequestBytes(req: Request)
    requires req.Legal() && !req.WriteMultipleCoils? && !req.WriteMultipleRegisters?
    ensures var a := req.address;
            RequestPdu(req) ==
            match req
            case ReadCoils(_, n) => [1, a / 256, a % 256, n / 256, n % 256]
            case ReadDiscreteInputs(_, n) => [2, a / 256, a % 256, n / 256, n % 256]
            case ReadHoldingRegisters(_, n) => [3, a / 256, a % 256, n / 256, n % 256]
            case ReadInputRegisters(_, n) => [4, a / 256, a % 256, n / 256, n % 256]
            case WriteSingleCoil(_, on) => [5, a / 256, a % 256, if on then 255 else 0, 0]
            case WriteSingleRegister(_, v) => [6, a / 256, a % 256, v / 256, v % 256]
            case _ => []
  {
    assert Payload(req) == [];
  }

  /** Section 6.11. */
  lemma WriteCoilsBytes(a: uint16, bits: seq<bool>)
    requires 1 <= |bits| <= 1968
    ensures var pdu := RequestPdu(WriteMultipleCoils(a, bits));
            && |pdu| == 6 + (|bits| + 7) / 8
            && pdu[..6] == [15, a / 256, a % 256, |bits| / 256, |bits| % 256, (|bits| + 7) / 8]
            && BitsAt(bits, pdu, 6) && PaddingClear(pdu[6..], |bits|)
  {
    hide BitsAt, Pack, PaddingClear;
    var pdu := RequestPdu(WriteMultipleCoils(a, bits));
    assert pdu == pdu[..6] + Pack(bits);
    BlockHoldsBits(bits, pdu[..6]);
  }

  /** Section 6.12. */
  lemma WriteRegistersBytes(a: uint16, words: seq<uint16>)
    requires 1 <= |words| <= 123
    ensures var pdu := RequestPdu(WriteMultipleRegisters(a, words));
            && |pdu| == 6 + 2 * |words|
            && pdu[..6] == [16, a / 256, a % 256, |words| / 256, |words| % 256, 2 * |words|]
            && WordsAt(words, pdu, 6)
  {
    hide WordsAt, RegisterBytes;
    var pdu := RequestPdu(WriteMultipleRegisters(a, words));
    assert pdu == pdu[..6] + RegisterBytes(words);
    BlockHoldsWords(words, pdu[..6]);
  }

  // ---- What the server answers, for every PDU ----

  /** Functions 1 and 2, any five bytes: the bits of the answer are the addressed table's entries from
      the address on. */
  lemma BitReadByBytes(t: Tables, pdu: seq<byte>)
    requires t.Valid() && |pdu| == 5 && (pdu[0] == 1 || pdu[0] == 2)
    ensures var a, n := 256 * pdu[1] as int + pdu[2] as int, 256 * pdu[3] as int + pdu[4] as int;
            var table := if pdu[0] == 1 then t.coils else t.discrete;
            var (after, out) := Reply(t, pdu);
            && after == t
            && if n < 1 || n > 2000 then out == [pdu[0] as int + 0x80, 3]
               else if a + n > 65536 then out == [pdu[0] as int + 0x80, 2]
               else && |out| == 2 + (n + 7) / 8 && out[0] == pdu[0] && out[1] == (n + 7) / 8
                    && BitsAt(table[a..a + n], out, 2) && PaddingClear(out[2..], n)
  {
    hide WithBit, Pack, BitsAt, PaddingClear, Hi, Lo;
    FlagByte(pdu[0]);
    var a, n := U16At(pdu, 1) as int, U16At(pdu, 3) as int;
    if 1 <= n <= 2000 && a + n <= 65536 {
      var bits := (if pdu[0] == 1 then t.coils else t.discrete)[a..a + n];
      BlockHoldsBits(bits, [pdu[0], (n + 7) / 8]);
    }
  }

  /** Functions 3 and 4: the same, word by word. */
  lemma RegisterReadByBytes(t: Tables, pdu: seq<byte>)
    requires t.Valid() && |pdu| == 5 && (pdu[0] == 3 || pdu[0] == 4)
    ensures var a, n := 256 * pdu[1] as int + pdu[2] as int, 256 * pdu[3] as int + pdu[4] as int;
            var table := if pdu[0] == 3 then t.holding else t.input;
            var (after, out) := Reply(t, pdu);
            && after == t
            && if n < 1 || n > 125 then out == [pdu[0] as int + 0x80, 3]
               else if a + n > 65536 then out == [pdu[0] as int + 0x80, 2]
               else |out| == 2 + 2 * n && out[0] == pdu[0] && out[1] == 2 * n && WordsAt(table[a..a + n], out, 2)
  {
    hide WithBit, RegisterBytes, WordsAt, Hi, Lo;
    FlagByte(pdu[0]);
    var a, n := U16At(pdu, 1) as int, U16At(pdu, 3) as int;
    if 1 <= n <= 125 && a + n <= 65536 {
      var words := (if pdu[0] == 3 then t.holding else t.input)[a..a + n];
      BlockHoldsWords(words, [pdu[0], 2 * n]);
    }
  }

  /** Functions 5 and 6. */
  lemma SingleWriteByBytes(t: Tables, pdu: seq<byte>)
    requires t.Valid() && |pdu| == 5 && (pdu[0] == 5 || pdu[0] == 6)
    ensures var a, v := 256 * pdu[1] as int + pdu[2] as int, 256 * pdu[3] as int + pdu[4] as int;
            Reply(t, pdu) ==
            if pdu[0] == 6 then (t.(holding := t.holding[a := v]), pdu)
            else if v == 0xFF00 || v == 0 then (t.(coils := t.coils[a := v == 0xFF00]), pdu)
            else (t, [0x85, 3])
  {
    hide WithBit, Hi, Lo;
    FlagByte(pdu[0]);
    HeadIsReproduced(pdu);
    assert pdu[..5] == pdu;
    var a, v: uint16 := U16At(pdu, 1), U16At(pdu, 3);
    assert Splice(t.holding, a, [v]) == t.holding[a := v];
    assert Splice(t.coils, a, [v == 0xFF00]) == t.coils[a := v == 0xFF00];
  }

  /** Function 15. */
  lemma CoilsWriteByBytes(t: Tables, pdu: seq<byte>)
    requires t.Valid() && |pdu| >= 6 && pdu[0] == 15
    ensures var a, n := 256 * pdu[1] as int + pdu[2] as int, 256 * pdu[3] as int + pdu[4] as int;
            var (after, out) := Reply(t, pdu);
            if n < 1 || n > 1968 || pdu[5] != (n + 7) / 8 || |pdu| != 6 + pdu[5] as int then (after, out) == (t, [0x8F, 3])
            else if a + n > 65536 then (after, out) == (t, [0x8F, 2])
            else && out == pdu[..5]
                 && after == t.(coils := after.coils) && |after.coils| == 65536
                 && (forall i | 0 <= i < 65536 :: after.coils[i] ==
                       if a <= i < a + n then Bit(pdu[6 + (i - a) / 8], (i - a) % 8) else t.coils[i])
  {
    hide WithBit, Hi, Lo, Bit;
    FlagByte(pdu[0]);
    HeadIsReproduced(pdu);
    assert |pdu[6..]| == |pdu| - 6;
  }

  /** Function 16. */
  lemma RegistersWriteByBytes(t: Tables, pdu: seq<byte>)
    requires t.Valid() && |pdu| >= 6 && pdu[0] == 16
    ensures var a, n := 256 * pdu[1] as int + pdu[2] as int, 256 * pdu[3] as int + pdu[4] as int;
            var (after, out) := Reply(t, pdu);
            if n < 1 || n > 123 || pdu[5] != 2 * n || |pdu| != 6 + pdu[5] as int then (after, out) == (t, [0x90, 3])
            else if a + n > 65536 then (after, out) == (t, [0x90, 2])
            else && out == pdu[..5]
                 && after == t.(holding := after.holding) && |after.holding| == 65536
                 && (forall i | 0 <= i < 65536 :: after.holding[i] ==
                       if a <= i < a + n then 256 * pdu[6 + 2 * (i - a)] as int + pdu[7 + 2 * (i - a)] as int else t.holding[i])
  {
    hide WithBit, Hi, Lo;
    FlagByte(pdu[0]);
    HeadIsReproduced(pdu);
    assert |pdu[6..]| == |pdu| - 6;
  }

  /** Everything else is refused: exception 3 for one of the eight functions with the wrong number of
      bytes, exception 1 for any other code and for no bytes at all. */
  lemma RefusedByBytes(t: Tables, pdu: seq<byte>)
    requires t.Valid()
    ensures |pdu| == 0 ==> Reply(t, pdu) == (t, [0x80, 1])
    ensures |pdu| > 0 && 1 <= pdu[0] <= 6 && |pdu| != 5 ==> Reply(t, pdu) == (t, [pdu[0] as int + 0x80, 3])
    ensures |pdu| > 0 && 15 <= pdu[0] <= 16 && |pdu| < 6 ==> Reply(t, pdu) == (t, [pdu[0] as int + 0x80, 3])
    ensures |pdu| > 0 && (pdu[0] == 0 || 7 <= pdu[0] <= 14 || pdu[0] > 16) ==>
              Reply(t, pdu) == (t, [if pdu[0] < 0x80 then pdu[0] as int + 0x80 else pdu[0], 1])
  {
    hide WithBit;
    FlagByte(CodeOf(pdu));
  }

  // ---- What the client makes of what comes back ----

  /** Any bytes at all: the checks of `do` in their order, and what stays unread. */
  lemma ReceiveByBytes(inbox: seq<byte>, id: uint16, unitId: byte, want: byte)
    ensures |inbox| < 7 ==> Receive(inbox, id, unitId, want) == (Err(NoHeader), [])
    ensures 7 <= |inbox| ==>
              var protocol, length := 256 * inbox[2] as int + inbox[3] as int, 256 * inbox[4] as int + inbox[5] as int;
              var got := 256 * inbox[0] as int + inbox[1] as int;
              Receive(inbox, id, unitId, want) ==
              if protocol != 0 then (Err(BadHeader(WrongProtocol(protocol))), inbox[7..])
              else if length < 2 then (Err(BadHeader(LengthTooSmall(length))), inbox[7..])
              else if length > 254 then (Err(BadHeader(LengthTooBig(length))), inbox[7..])
              else if got != id then (Err(Mismatch(id, got)), inbox[7..])
              else if |inbox| < 6 + length then (Err(NoPdu(length - 1)), [])
              else
                var pdu := inbox[7..6 + length];
                (if length >= 3 && pdu[0] >= 0x80 then Err(Exception(pdu[0] - 0x80, pdu[1], unitId, id))
                 else if pdu[0] != want then Err(WrongFunction(want, pdu[0]))
                 else Ok(pdu), inbox[6 + length..])
  {
    hide CheckResponse;
    if 7 <= |inbox| {
      var head := inbox[..7];
      HeadOfInbox(inbox);
      var length := U16At(inbox, 4) as int;
      if 2 <= length <= 254 && 6 + length <= |inbox| {
        assert inbox[7..][..length - 1] == inbox[7..6 + length];
        assert inbox[7..][length - 1..] == inbox[6 + length..];
        PduByBytes(inbox[7..6 + length], id, unitId, want);
      }
    }
  }

  lemma HeadOfInbox(inbox: seq<byte>)
    requires 7 <= |inbox|
    ensures HeaderFields(inbox[..7]) == HeaderFields(inbox)
  {
  }

  /** An exception has its top bit set and a second byte; anything else must carry the function code
      asked for. */
  lemma PduByBytes(pdu: seq<byte>, id: uint16, unitId: byte, want: byte)
    requires |pdu| > 0
    ensures CheckResponse(pdu, id, unitId, want) ==
            if |pdu| >= 2 && pdu[0] >= 0x80 then Err(Exception(pdu[0] - 0x80, pdu[1], unitId, id))
            else if pdu[0] != want then Err(WrongFunction(want, pdu[0]))
            else Ok(pdu)
  {
    SmallCodesAreClear(pdu[0]);
    ClearFlagClears(pdu[0]);
  }

  lemma BitsResponseByBytes(pdu: seq<byte>, n: nat)
    ensures ReadBitsResponse(pdu, n).Err? ==>
              ReadBitsResponse(pdu, n).error ==
              if |pdu| < 2 then ShortResponse(|pdu|)
              else if pdu[1] != (n + 7) / 8 then WrongByteCount(pdu[1])
              else Truncated(|pdu| - 2)
    ensures ReadBitsResponse(pdu, n).Ok? <==> |pdu| >= 2 && pdu[1] == (n + 7) / 8 && |pdu| >= 2 + pdu[1] as int
    ensures ReadBitsResponse(pdu, n).Ok? ==>
              |ReadBitsResponse(pdu, n).value| == n && BitsAt(ReadBitsResponse(pdu, n).value, pdu, 2)
  {
    hide Bit;
  }

  lemma RegistersResponseByBytes(pdu: seq<byte>, n: nat)
    ensures ReadRegistersResponse(pdu, n).Err? ==>
              ReadRegistersResponse(pdu, n).error ==
              if |pdu| < 2 then ShortResponse(|pdu|)
              else if pdu[1] != 2 * n then WrongByteCount(pdu[1])
              else Truncated(|pdu| - 2)
    ensures ReadRegistersResponse(pdu, n).Ok? <==> |pdu| >= 2 && pdu[1] == 2 * n && |pdu| >= 2 + pdu[1] as int
    ensures ReadRegistersResponse(pdu, n).Ok? ==>
              |ReadRegistersResponse(pdu, n).value| == n && WordsAt(ReadRegistersResponse(pdu, n).value, pdu, 2)
  {
  }

  lemma EchoByBytes(pdu: seq<byte>, address: uint16, value: uint16)
    ensures DecodeWriteEcho(pdu, address, value) ==
            if |pdu| < 5 then Err(ShortResponse(|pdu|))
            else if 256 * pdu[1] as int + pdu[2] as int != address then Err(WrongEchoAddress(256 * pdu[1] as int + pdu[2] as int))
            else if 256 * pdu[3] as int + pdu[4] as int != value then Err(WrongEchoValue(256 * pdu[3] as int + pdu[4] as int))
            else Ok(())
  {
  }

  /** The response to a request, and what it answers, in bytes. */
  predicate Answering(req: Request, resp: seq<byte>, a: Answer)
  {
    match req
    case ReadCoils(_, n) => BitAnswer(1, n, resp, a)
    case ReadDiscreteInputs(_, n) => BitAnswer(2, n, resp, a)
    case ReadHoldingRegisters(_, n) => RegisterAnswer(3, n, resp, a)
    case ReadInputRegisters(_, n) => RegisterAnswer(4, n, resp, a)
    case WriteSingleCoil(at, on) => a == Written && |resp| >= 5 && resp[..5] == [5, at / 256, at % 256, if on then 255 else 0, 0]
    case WriteSingleRegister(at, v) => a == Written && |resp| >= 5 && resp[..5] == [6, at / 256, at % 256, v / 256, v % 256]
    case WriteMultipleCoils(at, bits) =>
      a == Written && |resp| >= 5 && |bits| < 65536 && resp[..5] == [15, at / 256, at % 256, |bits| / 256, |bits| % 256]
    case WriteMultipleRegisters(at, words) =>
      a == Written && |resp| >= 5 && |words| < 65536 && resp[..5] == [16, at / 256, at % 256, |words| / 256, |words| % 256]
  }

  predicate BitAnswer(fc: byte, n: nat, resp: seq<byte>, a: Answer)
  {
    && a.Bits? && |a.bits| == n && |resp| >= 2 + (n + 7) / 8
    && resp[0] == fc && resp[1] == (n + 7) / 8 && BitsAt(a.bits, resp, 2)
  }

  predicate RegisterAnswer(fc: byte, n: nat, resp: seq<byte>, a: Answer)
  {
    && a.Registers? && |a.words| == n && |resp| >= 2 + 2 * n
    && resp[0] == fc && resp[1] == 2 * n && WordsAt(a.words, resp, 2)
  }

  lemma BitsConcluded(req: Request, resp: seq<byte>, bits: seq<bool>)
    requires req.Legal() && (req.ReadCoils? || req.ReadDiscreteInputs?)
    requires |resp| > 0 && resp[0] == FunctionCode(req)
    ensures Conclude(req, Ok(resp)) == Ok(Bits(bits)) <==> Answering(req, resp, Bits(bits))
  {
    hide BitsAt, ReadBitsResponse;
    BitsResponseByBytes(resp, req.quantity);
    var r := ReadBitsResponse(resp, req.quantity);
    if r.Ok? && Answering(req, resp, Bits(bits)) {
      SameBitsAt(bits, r.value, resp, 2);
    }
  }

  lemma SameBitsAt(a: seq<bool>, b: seq<bool>, bytes: seq<byte>, at: nat)
    requires |a| == |b| && at + (|a| + 7) / 8 <= |bytes| && BitsAt(a, bytes, at) && BitsAt(b, bytes, at)
    ensures a == b
  {
    hide Bit;
  }

  lemma SameWordsAt(a: seq<uint16>, b: seq<uint16>, bytes: seq<byte>, at: nat)
    requires |a| == |b| && at + 2 * |a| <= |bytes| && WordsAt(a, bytes, at) && WordsAt(b, bytes, at)
    ensures a == b
  {
  }

  lemma RegistersConcluded(req: Request, resp: seq<byte>, words: seq<uint16>)
    requires req.Legal() && (req.ReadHoldingRegisters? || req.ReadInputRegisters?)
    requires |resp| > 0 && resp[0] == FunctionCode(req)
    ensures Conclude(req, Ok(resp)) == Ok(Registers(words)) <==> Answering(req, resp, Registers(words))
  {
    hide WordsAt, ReadRegistersResponse;
    RegistersResponseByBytes(resp, req.quantity);
    var r := ReadRegistersResponse(resp, req.quantity);
    if r.Ok? && Answering(req, resp, Registers(words)) {
      SameWordsAt(words, r.value, resp, 2);
    }
  }

  lemma EchoConcluded(req: Request, resp: seq<byte>)
    requires req.Legal() && !req.IsRead() && |resp| > 0 && resp[0] == FunctionCode(req)
    ensures Conclude(req, Ok(resp)) == Ok(Written) <==> Answering(req, resp, Written)
  {
    hide DecodeWriteEcho;
    EchoByBytes(resp, req.address, Operand(req));
    if |resp| >= 5 {
      WordsOfHead(resp, req.address, Operand(req));
    }
  }

  lemma WordsOfHead(resp: seq<byte>, v: uint16, w: uint16)
    requires |resp| >= 5
    ensures 256 * resp[1] as int + resp[2] as int == v && 256 * resp[3] as int + resp[4] as int == w
            <==> resp[..5] == [resp[0], v / 256, v % 256, w / 256, w % 256]
  {
    var h := resp[..5];
    assert h[1] == resp[1] && h[2] == resp[2] && h[3] == resp[3] && h[4] == resp[4];
    if 256 * resp[1] as int + resp[2] as int == v && 256 * resp[3] as int + resp[4] as int == w {
      assert resp[1] as int == v / 256 && resp[2] as int == v % 256 && resp[3] as int == w / 256 && resp[4] as int == w % 256;
    }
  }

  /** The client's dual of `AcceptedExactly`: which response each of the eight operations accepts, and
      as which answer. Every other response, exceptions included, is an error. */
  lemma ResponseAcceptedExactly(w: Wire, req: Request, unitId: byte, resp: seq<byte>, a: Answer)
    requires w.connected && w.inbox == [] && req.Legal() && 1 <= |resp| <= 253
    ensures Call(w, req, Net(None, ReplyWith(NextId(w.txID), unitId, resp).Bytes())).0 == Ok(a)
            <==> Answering(req, resp, a)
  {
    hide HeaderBytes, Receive, CheckResponse, RequestPdu, RequestFrame, NextId, Answering, Conclude;
    var f := ReplyWith(NextId(w.txID), unitId, resp);
    assert w.inbox + f.Bytes() == f.Bytes() + [];
    RequestCode(req);
    ReceiveWholeFrame(f, [], NextId(w.txID), w.unitId, FunctionCode(req));
    PduByBytes(resp, NextId(w.txID), w.unitId, FunctionCode(req));
    AnsweringCode(req, resp, a);
    var r := CheckResponse(resp, NextId(w.txID), w.unitId, FunctionCode(req));
    if r.Err? {
      ConcludeError(req, r.error);
    } else {
      ConcludedExactly(req, resp, a);
    }
  }

  lemma AnsweringCode(req: Request, resp: seq<byte>, a: Answer)
    requires req.Legal() && |resp| > 0
    ensures Answering(req, resp, a) ==> resp[0] == FunctionCode(req)
  {
    hide BitsAt, WordsAt;
    if !req.IsRead() && |resp| >= 5 {
      assert resp[..5][0] == resp[0];
    }
  }

  lemma ConcludedExactly(req: Request, resp: seq<byte>, a: Answer)
    requires req.Legal() && |resp| > 0 && resp[0] == FunctionCode(req)
    ensures Conclude(req, Ok(resp)) == Ok(a) <==> Answering(req, resp, a)
  {
    hide Answering, Conclude;
    OtherKind(req, resp, a);
    match a
    case Bits(bits) => if req.ReadCoils? || req.ReadDiscreteInputs? { BitsConcluded(req, resp, bits); }
    case Registers(words) => if req.ReadHoldingRegisters? || req.ReadInputRegisters? { RegistersConcluded(req, resp, words); }
    case Written => if !req.IsRead() { EchoConcluded(req, resp); }
    case Rejected(_) =>
  }

  lemma OtherKind(req: Request, resp: seq<byte>, a: Answer)
    requires req.Legal()
    ensures Answering(req, resp, a) || Conclude(req, Ok(resp)) == Ok(a) ==>
              match a
              case Bits(_) => req.ReadCoils? || req.ReadDiscreteInputs?
              case Registers(_) => req.ReadHoldingRegisters? || req.ReadInputRegisters?
              case Written => !req.IsRead()
              case Rejected(_) => false
  {
    hide BitsAt, WordsAt, ReadBitsResponse, ReadRegistersResponse, DecodeWriteEcho;
  }

  /** What is told of a response of the right function that does not decode. */
  lemma ResponseUndecodable(req: Request, resp: seq<byte>)
    requires req.Legal() && |resp| > 0
    ensures (req.ReadCoils? || req.ReadDiscreteInputs?) && Conclude(req, Ok(resp)).Err? ==>
              Conclude(req, Ok(resp)) ==
              Err(Decoding(if |resp| < 2 then ShortResponse(|resp|)
                           else if resp[1] != (req.quantity + 7) / 8 then WrongByteCount(resp[1])
                           else Truncated(|resp| - 2)))
    ensures (req.ReadHoldingRegisters? || req.ReadInputRegisters?) && Conclude(req, Ok(resp)).Err? ==>
              Conclude(req, Ok(resp)) ==
              Err(Decoding(if |resp| < 2 then ShortResponse(|resp|)
                           else if resp[1] != 2 * req.quantity then WrongByteCount(resp[1])
                           else Truncated(|resp| - 2)))
    ensures !req.IsRead() && Conclude(req, Ok(resp)).Err? ==>
              Conclude(req, Ok(resp)) ==
              Err(Decoding(if |resp| < 5 then ShortResponse(|resp|)
                           else if 256 * resp[1] as int + resp[2] as int != req.address
                           then WrongEchoAddress(256 * resp[1] as int + resp[2] as int)
                           else WrongEchoValue(256 * resp[3] as int + resp[4] as int)))
  {
    hide ReadBitsResponse, ReadRegistersResponse, DecodeWriteEcho;
    if req.IsRead() {
      BitsResponseByBytes(resp, req.quantity);
      RegistersResponseByBytes(resp, req.quantity);
    } else {
      EchoByBytes(resp, req.address, Operand(req));
    }
  }

  /** What is told of a call refused by any exception, or answered with another function's code. */
  lemma ResponseRefused(w: Wire, req: Request, unitId: byte, resp: seq<byte>)
    requires w.connected && w.inbox == [] && req.Legal() && 1 <= |resp| <= 253
    ensures var id := NextId(w.txID);
            var r := Call(w, req, Net(None, ReplyWith(id, unitId, resp).Bytes())).0;
            && (|resp| >= 2 && resp[0] >= 0x80 ==> r == Err(Transport(Exception(resp[0] - 0x80, resp[1], w.unitId, id))))
            && (resp[0] != RequestPdu(req)[0] && (|resp| < 2 || resp[0] < 0x80) ==>
                  r == Err(Transport(WrongFunction(RequestPdu(req)[0], resp[0]))))
  {
    hide HeaderBytes, Receive, CheckResponse, RequestPdu, RequestFrame, NextId, DecodeAnswer;
    var f := ReplyWith(NextId(w.txID), unitId, resp);
    assert w.inbox + f.Bytes() == f.Bytes() + [];
    ReceiveWholeFrame(f, [], NextId(w.txID), w.unitId, RequestPdu(req)[0]);
    PduByBytes(resp, NextId(w.txID), w.unitId, RequestPdu(req)[0]);
  }

  // ---- What a remote read returns ----

  lemma RemoteReadReturns(t: Tables, w: Wire, req: Request)
    requires t.Valid() && req.Legal() && w.connected && w.inbox == [] && req.address + req.Count() <= 65536
    ensures var (t', r, _) := RemoteCall(t, w, req);
            match req
            case ReadCoils(a, n) => t' == t && r == Ok(Bits(t.coils[a..a + n]))
            case ReadDiscreteInputs(a, n) => t' == t && r == Ok(Bits(t.discrete[a..a + n]))
            case ReadHoldingRegisters(a, n) => t' == t && r == Ok(Registers(t.holding[a..a + n]))
            case ReadInputRegisters(a, n) => t' == t && r == Ok(Registers(t.input[a..a + n]))
            case _ => r == Ok(Written)
  {
    hide RemoteCall;
    RemoteCallRefinesDevice(t, w, req);
  }
}
