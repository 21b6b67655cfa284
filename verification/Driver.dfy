/** The Modbus driver: address specs and literals above, the client below. */
module Driver {
  import opened Wrappers
  import opened Bytes
  import opened Text
  import opened Address
  import opened Convert
  import opened Device
  import opened Network
  import opened Client
  import Pdu

  datatype Options = Options(
    unitId: byte,
    dataType: DataType,
    byteOrder: ByteOrder,
    wordOrder: WordOrder,
    rawAddress: bool,
    numerals: Numerals)
  {
    function Orders(): Codec { Codec(byteOrder, wordOrder) }
  }

  datatype DriverError = Invalid(input: InputError) | Failed(call: CallError)

  /** A resolved write: the coil values or the register words it would send. */
  datatype Payload = Payload(spec: Spec, coils: seq<bool>, regs: seq<uint16>)

  datatype Reading = OneBit(bit: bool) | ManyBits(bits: seq<bool>) | OneValue(value: int) | ManyValues(values: seq<int>)

  datatype Quality = QualityGood | QualityBad | QualityStale

  /** A datum that describes itself, stamped with what the clock said. */
  datatype Value =
    Value(address: string, typeName: string, reading: Reading, quality: Quality, timestamp: int, raw: seq<uint16>)

  const DRIVER_NAME := "modbus"

  // ---- Literals ----

  /** The pieces converted one after another, stopping at the first that fails. */
  function Collect<T>(parts: seq<string>, convert: string -> Result<seq<T>, InputError>): Result<seq<T>, InputError>
  {
    if parts == [] then Ok([]) else
    match Collect(parts[..|parts| - 1], convert)
    case Err(e) => Err(e)
    case Ok(before) =>
      match convert(parts[|parts| - 1])
      case Err(e) => Err(e)
      case Ok(last) => Ok(before + last)
  }

  lemma {:induction false} CollectStops<T>(parts: seq<string>, i: nat, convert: string -> Result<seq<T>, InputError>)
    requires i <= |parts| && Collect(parts[..i], convert).Err?
    ensures Collect(parts, convert) == Collect(parts[..i], convert)
  {
    if i == |parts| {
      assert parts[..i] == parts;
    } else {
      assert parts[..|parts| - 1][..i] == parts[..i];
      CollectStops(parts[..|parts| - 1], i, convert);
    }
  }

  /** One piece more: its values behind the others', or the first error there is. */
  lemma CollectOneMore<T>(parts: seq<string>, p: string, convert: string -> Result<seq<T>, InputError>)
    ensures Collect(parts + [p], convert) ==
            match Collect(parts, convert)
            case Err(e) => Err(e)
            case Ok(before) =>
              match convert(p)
              case Err(e) => Err(e)
              case Ok(last) => Ok(before + last)
  {
    assert (parts + [p])[..|parts|] == parts;
  }

  function BoolPiece(p: string): Result<seq<bool>, InputError>
  {
    var w := Word(p);
    if w in {"1", "true", "on", "yes"} then Ok([true])
    else if w in {"0", "false", "off", "no"} then Ok([false])
    else Err(BadCoilValue(p))
  }

  function BoolList(s: string): Result<seq<bool>, InputError> { Collect(Split(s, ','), BoolPiece) }

  method ParseBoolList(s: string) returns (r: Result<seq<bool>, InputError>)
    ensures r == BoolList(s)
  {
    hide Word, Split;
    var parts := Split(s, ',');
    var out: seq<bool> := [];
    for i := 0 to |parts|
      invariant Collect(parts[..i], BoolPiece) == Ok(out)
    {
      assert parts[..i + 1][..i] == parts[..i];
      var w := Word(parts[i]);
      if w in {"1", "true", "on", "yes"} {
        out := out + [true];
      } else if w in {"0", "false", "off", "no"} {
        out := out + [false];
      } else {
        CollectStops(parts, i + 1, BoolPiece);
        return Err(BadCoilValue(parts[i]));
      }
    }
    assert parts[..|parts|] == parts;
    // The empty list cannot occur: splitting always yields at least one piece.
    return Ok(out);
  }

  function Converter(opt: Options): string -> Result<seq<uint16>, InputError>
  {
    (lit: string) => opt.Orders().Encoded(opt.dataType, opt.numerals, TrimSpace(lit))
  }

  function RegisterList(opt: Options, literal: string): Result<seq<uint16>, InputError>
  {
    Collect(Split(literal, ','), Converter(opt))
  }

  function EncodedWrite(opt: Options, spec: string, literal: string): Result<Payload, InputError>
  {
    match ParseSpec(spec, opt.rawAddress)
    case Err(e) => Err(e)
    case Ok(sp) =>
      if !sp.table.Writable() then Err(ReadOnlyTable(sp.table))
      else if sp.table == Coil then
        match BoolList(literal)
        case Err(e) => Err(e)
        case Ok(bits) => Ok(Payload(sp, bits, []))
      else
        match RegisterList(opt, literal)
        case Err(e) => Err(e)
        case Ok(regs) => Ok(Payload(sp, [], regs))
  }

  /** The request a payload is sent as: a single write for one entry, a multiple write otherwise. */
  function WriteRequest(p: Payload): Request
  {
    if p.spec.table == Coil then
      if |p.coils| == 1 then WriteSingleCoil(p.spec.address, p.coils[0]) else WriteMultipleCoils(p.spec.address, p.coils)
    else
      if |p.regs| == 1 then WriteSingleRegister(p.spec.address, p.regs[0]) else WriteMultipleRegisters(p.spec.address, p.regs)
  }

  /** A dry run's report: what would be sent, and where. */
  datatype WritePlan =
    WritePlan(driver: string, address: string, literal: string, typeName: string, coils: seq<bool>, regs: seq<uint16>)

  function Plan(opt: Options, spec: string, literal: string): Result<WritePlan, InputError>
  {
    match EncodedWrite(opt, spec, literal)
    case Err(e) => Err(e)
    case Ok(p) => Ok(WritePlan(DRIVER_NAME, p.spec.Print(), literal, PlanType(opt, p), p.coils, p.regs))
  }

  /** Coil writes have no type of their own to name. */
  function PlanType(opt: Options, p: Payload): string { if p.spec.table == Coil then "" else opt.dataType.Name() }

  // ---- Reads ----

  function ReadCount(opt: Options, sp: Spec): nat
  {
    if sp.count != 0 then sp.count else if sp.table.IsBits() then 1 else opt.dataType.RegisterCount()
  }

  function ReadRequestFor(sp: Spec, count: uint16): Request
  {
    match sp.table
    case Coil => ReadCoils(sp.address, count)
    case DiscreteInput => ReadDiscreteInputs(sp.address, count)
    case HoldingRegister => ReadHoldingRegisters(sp.address, count)
    case InputRegister => ReadInputRegisters(sp.address, count)
  }

  function ReadLimit(sp: Spec): nat { if sp.table.IsBits() then MAX_READ_BITS else MAX_READ_REGISTERS }

  function Chunks(opt: Options, regs: seq<uint16>, n: nat): (values: seq<int>)
    requires |regs| == n * opt.dataType.RegisterCount()
    ensures |values| == n
  {
    seq(n, i requires 0 <= i < n => Chunk(opt, regs, i))
  }

  function Chunk(opt: Options, regs: seq<uint16>, i: nat): int
    requires (i + 1) * opt.dataType.RegisterCount() <= |regs|
  {
    var width := opt.dataType.RegisterCount();
    opt.Orders().Decoded(opt.dataType, regs[i * width..(i + 1) * width]).value
  }

  function RegistersReading(opt: Options, regs: seq<uint16>): Result<Reading, DriverError>
  {
    var width := opt.dataType.RegisterCount();
    if |regs| == width then Ok(OneValue(opt.Orders().Decoded(opt.dataType, regs).value))
    else if |regs| % width != 0 then Err(Invalid(CountNotMultiple(|regs|)))
    else Ok(ManyValues(Chunks(opt, regs, |regs| / width)))
  }

  function ReadingOf(opt: Options, a: Answer): Result<Reading, DriverError>
    requires a.Bits? || a.Registers?
  {
    match a
    case Bits(bits) => if |bits| == 1 then Ok(OneBit(bits[0])) else Ok(ManyBits(bits))
    case Registers(regs) => RegistersReading(opt, regs)
  }

  function TypeName(opt: Options, r: Reading): string
  {
    match r
    case OneBit(_) => "bool"
    case ManyBits(_) => "bool[]"
    case OneValue(_) => opt.dataType.Name()
    case ManyValues(_) => opt.dataType.Name() + "[]"
  }

  /** What a read reports: the reading with its address as resolved, its type, and the wire words. */
  function Report(opt: Options, sp: Spec, r: Result<Answer, CallError>, now: int): Result<Value, DriverError>
    requires r.Ok? ==> r.value.Bits? || r.value.Registers?
  {
    match r
    case Err(e) => Err(Failed(e))
    case Ok(a) =>
      match ReadingOf(opt, a)
      case Err(e) => Err(e)
      case Ok(v) => Ok(Value(sp.Print(), TypeName(opt, v), v, QualityGood, now, if a.Bits? then [] else a.words))
  }

  class Driver {
    const opt: Options
    var client: Client?

    constructor (opt: Options)
      ensures this.opt == opt && client == null
    {
      this.opt := opt;
      client := null;
    }

    method Connect(dialled: Conn?) returns (ok: bool)
      modifies this`client
      ensures client != null && fresh(client) && client.Valid() && client.unitID == opt.unitId && client.txID == 0
      ensures ok == (dialled != null) && client.conn == dialled
    {
      client := new Client(opt.unitId);
      ok := client.Connect(dialled);
    }

    method EncodeWrite(spec: string, literal: string) returns (r: Result<Payload, InputError>)
      ensures r == EncodedWrite(opt, spec, literal)
    {
      hide ParseSpec, BoolList, RegisterList;
      var sp := ParseSpec(spec, opt.rawAddress);
      if sp.Err? {
        return Err(sp.error);
      }
      if !sp.value.table.Writable() {
        return Err(ReadOnlyTable(sp.value.table));
      }
      if sp.value.table == Coil {
        var values := ParseBoolList(literal);
        if values.Err? {
          return Err(values.error);
        }
        return Ok(Payload(sp.value, values.value, []));
      }
      var regs := EncodeRegisters(literal);
      if regs.Err? {
        return Err(regs.error);
      }
      return Ok(Payload(sp.value, [], regs.value));
    }

    /** The register half of encodeWrite. */
    method EncodeRegisters(literal: string) returns (r: Result<seq<uint16>, InputError>)
      ensures r == RegisterList(opt, literal)
    {
      hide TrimSpace, Split;
      var parts := Split(literal, ',');
      var allRegs: seq<uint16> := [];
      for i := 0 to |parts|
        invariant Collect(parts[..i], Converter(opt)) == Ok(allRegs)
      {
        assert parts[..i + 1][..i] == parts[..i];
        var regs := opt.Orders().Encode(opt.dataType, opt.numerals, TrimSpace(parts[i]));
        assert Converter(opt)(parts[i]) == regs;
        if regs.Err? {
          CollectStops(parts, i + 1, Converter(opt));
          return Err(regs.error);
        }
        allRegs := allRegs + regs.value;
      }
      assert parts[..|parts|] == parts;
      return Ok(allRegs);
    }

    /** Sends exactly the request of the encoded payload, or nothing. */
    method Write(spec: string, literal: string, net: Net) returns (r: Result<(), DriverError>)
      requires client != null && client.Valid()
      modifies client`txID, client.conn
      ensures client.Valid()
      ensures match EncodedWrite(opt, spec, literal)
              case Err(e) => r == Err(Invalid(e)) && client.State() == old(client.State())
              case Ok(p) =>
                var req := WriteRequest(p);
                if req.Legal()
                then var (a, w) := Call(old(client.State()), req, net);
                     client.State() == w && r == match a case Ok(_) => Ok(()) case Err(e) => Err(Failed(e))
                else r == Err(Failed(Encoding(if req.Count() == 0 then Pdu.NothingToWrite else Pdu.OverLimit(req.Count()))))
                     && client.State() == old(client.State())
    {
      hide Call, EncodedWrite;
      var p := EncodeWrite(spec, literal);
      if p.Err? {
        return Err(Invalid(p.error));
      }
      var sp, coils, regs := p.value.spec, p.value.coils, p.value.regs;
      var done: Result<(), CallError>;
      if sp.table == Coil {
        if |coils| == 1 {
          done := client.WriteSingleCoil(sp.address, coils[0], net);
        } else {
          done := client.WriteMultipleCoils(sp.address, coils, net);
        }
      } else if |regs| == 1 {
        done := client.WriteSingleRegister(sp.address, regs[0], net);
      } else {
        done := client.WriteMultipleRegisters(sp.address, regs, net);
      }
      r := match done case Ok(_) => Ok(()) case Err(e) => Err(Failed(e));
    }

    method ExplainWrite(spec: string, literal: string) returns (r: Result<WritePlan, InputError>)
      ensures r == Plan(opt, spec, literal)
    {
      var p := EncodeWrite(spec, literal);
      if p.Err? {
        return Err(p.error);
      }
      var typeName := "";
      if p.value.spec.table != Coil {
        typeName := opt.dataType.Name();
      }
      return Ok(WritePlan(DRIVER_NAME, p.value.spec.Print(), literal, typeName, p.value.coils, p.value.regs));
    }

    method Read(spec: string, net: Net, now: int) returns (r: Result<Value, DriverError>)
      requires client != null && client.Valid()
      modifies client`txID, client.conn
      ensures client.Valid()
      ensures match ParseSpec(spec, opt.rawAddress)
              case Err(e) => r == Err(Invalid(e)) && client.State() == old(client.State())
              case Ok(sp) =>
                var count := ReadCount(opt, sp);
                if 1 <= count <= ReadLimit(sp)
                then var (a, w) := Call(old(client.State()), ReadRequestFor(sp, count), net);
                     client.State() == w && (a.Ok? ==> a.value.Bits? || a.value.Registers?) && r == Report(opt, sp, a, now)
                else r == Err(Failed(BadQuantity(count))) && client.State() == old(client.State())
    {
      hide Call, ParseSpec;
      var sp := ParseSpec(spec, opt.rawAddress);
      if sp.Err? {
        return Err(Invalid(sp.error));
      }
      if sp.value.table.IsBits() {
        r := ReadBits(sp.value, net, now);
      } else {
        r := ReadRegisters(sp.value, net, now);
      }
    }

    method ReadBits(sp: Spec, net: Net, now: int) returns (r: Result<Value, DriverError>)
      requires client != null && client.Valid() && sp.table.IsBits()
      modifies client`txID, client.conn
      ensures client.Valid()
      ensures var count := ReadCount(opt, sp);
              if 1 <= count <= MAX_READ_BITS
              then var (a, w) := Call(old(client.State()), ReadRequestFor(sp, count), net);
                   client.State() == w && (a.Ok? ==> a.value.Bits?) && r == Report(opt, sp, a, now)
              else r == Err(Failed(BadQuantity(count))) && client.State() == old(client.State())
    {
      hide Call, ParseSpec;
      var count := sp.count;
      if count == 0 {
        count := 1;
      }
      var bits: Result<seq<bool>, CallError>;
      if 1 <= count <= MAX_READ_BITS {
        CallAnswersInKind(client.State(), ReadRequestFor(sp, count), net);
      }
      if sp.table == Coil {
        bits := client.ReadCoils(sp.address, count, net);
      } else {
        bits := client.ReadDiscreteInputs(sp.address, count, net);
      }
      if bits.Err? {
        return Err(Failed(bits.error));
      }
      if count == 1 {
        return Ok(Value(sp.Print(), "bool", OneBit(bits.value[0]), QualityGood, now, []));
      }
      return Ok(Value(sp.Print(), "bool[]", ManyBits(bits.value), QualityGood, now, []));
    }

    method ReadRegisters(sp: Spec, net: Net, now: int) returns (r: Result<Value, DriverError>)
      requires client != null && client.Valid() && !sp.table.IsBits()
      modifies client`txID, client.conn
      ensures client.Valid()
      ensures var count := ReadCount(opt, sp);
              if 1 <= count <= MAX_READ_REGISTERS
              then var (a, w) := Call(old(client.State()), ReadRequestFor(sp, count), net);
                   client.State() == w && (a.Ok? ==> a.value.Registers?) && r == Report(opt, sp, a, now)
              else r == Err(Failed(BadQuantity(count))) && client.State() == old(client.State())
    {
      hide Call, ParseSpec, RegistersReading;
      var width := opt.dataType.RegisterCount();
      var count := sp.count;
      if count == 0 {
        count := width;
      }
      var regs: Result<seq<uint16>, CallError>;
      if 1 <= count <= MAX_READ_REGISTERS {
        CallAnswersInKind(client.State(), ReadRequestFor(sp, count), net);
      }
      if sp.table == HoldingRegister {
        regs := client.ReadHoldingRegisters(sp.address, count, net);
      } else {
        regs := client.ReadInputRegisters(sp.address, count, net);
      }
      if regs.Err? {
        return Err(Failed(regs.error));
      }
      var val := DecodeAll(count, regs.value);
      if val.Err? {
        return Err(val.error);
      }
      return Ok(Value(sp.Print(), TypeName(opt, val.value), val.value, QualityGood, now, regs.value));
    }

    /** The decoding half of readRegisters. */
    method DecodeAll(count: nat, regs: seq<uint16>) returns (r: Result<Reading, DriverError>)
      requires |regs| == count
      ensures r == RegistersReading(opt, regs)
    {
      var width := opt.dataType.RegisterCount();
      var codec := opt.Orders();
      if count != width {
        if count % width != 0 {
          return Err(Invalid(CountNotMultiple(count)));
        }
        var n := count / width;
        var vals := new int[n](_ => 0);
        for i := 0 to n
          invariant forall k | 0 <= k < i :: vals[k] == Chunk(opt, regs, k)
        {
          // A slice of the right width always decodes.
          var v := codec.Decode(opt.dataType, regs[i * width..(i + 1) * width]);
          vals[i] := v.value;
        }
        assert vals[..] == Chunks(opt, regs, n);
        return Ok(ManyValues(vals[..]));
      }
      var val := codec.Decode(opt.dataType, regs);
      return Ok(OneValue(val.value));
    }
  }
}
