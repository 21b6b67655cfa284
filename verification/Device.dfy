/** The device as a Modbus user sees it: four tables of 65536 entries and eight operations.
    No bytes occur here; this is the abstract meaning the wire protocol must deliver. */
module Device {
  import opened Bytes

  const TABLE_SIZE := 0x1_0000

  const MAX_READ_BITS := 2000
  const MAX_READ_REGISTERS := 125
  const MAX_WRITE_BITS := 1968
  const MAX_WRITE_REGISTERS := 123

  const ILLEGAL_FUNCTION: byte := 1
  const ILLEGAL_ADDRESS: byte := 2
  const ILLEGAL_VALUE: byte := 3

  datatype Tables = Tables(coils: seq<bool>, discrete: seq<bool>, holding: seq<uint16>, input: seq<uint16>) {
    predicate Valid() {
      |coils| == |discrete| == |holding| == |input| == TABLE_SIZE
    }
  }

  datatype Request =
    | ReadCoils(address: uint16, quantity: uint16)
    | ReadDiscreteInputs(address: uint16, quantity: uint16)
    | ReadHoldingRegisters(address: uint16, quantity: uint16)
    | ReadInputRegisters(address: uint16, quantity: uint16)
    | WriteSingleCoil(address: uint16, on: bool)
    | WriteSingleRegister(address: uint16, value: uint16)
    | WriteMultipleCoils(address: uint16, bits: seq<bool>)
    | WriteMultipleRegisters(address: uint16, words: seq<uint16>)
  {
    function Count(): nat {
      match this
      case WriteSingleCoil(_, _) => 1
      case WriteSingleRegister(_, _) => 1
      case WriteMultipleCoils(_, bits) => |bits|
      case WriteMultipleRegisters(_, words) => |words|
      case _ => quantity
    }

    /** Sections 6.1 to 6.4, 6.11 and 6.12: how many entries one request may name. */
    function Limit(): nat {
      match this
      case ReadCoils(_, _) => MAX_READ_BITS
      case ReadDiscreteInputs(_, _) => MAX_READ_BITS
      case ReadHoldingRegisters(_, _) => MAX_READ_REGISTERS
      case ReadInputRegisters(_, _) => MAX_READ_REGISTERS
      case WriteMultipleCoils(_, _) => MAX_WRITE_BITS
      case WriteMultipleRegisters(_, _) => MAX_WRITE_REGISTERS
      case _ => 1
    }

    predicate Legal() { 1 <= Count() <= Limit() }

    predicate Fits() { address + Count() <= TABLE_SIZE }

    predicate IsRead() {
      ReadCoils? || ReadDiscreteInputs? || ReadHoldingRegisters? || ReadInputRegisters?
    }
  }

  datatype Answer =
    | Bits(bits: seq<bool>)
    | Registers(words: seq<uint16>)
    | Written
    | Rejected(code: byte)

  function Splice<T>(s: seq<T>, at: nat, values: seq<T>): (r: seq<T>)
    requires at + |values| <= |s|
    ensures |r| == |s|
    ensures forall i | 0 <= i < |s| :: r[i] == if at <= i < at + |values| then values[i - at] else s[i]
  {
    s[..at] + values + s[at + |values|..]
  }

  /** One operation on the tables. A range that runs past the end is refused whole. */
  function Apply(t: Tables, req: Request): (r: (Tables, Answer))
    requires t.Valid()
    ensures r.0.Valid()
  {
    if !req.Fits() then (t, Rejected(ILLEGAL_ADDRESS)) else
    match req
    case ReadCoils(a, n) => (t, Bits(t.coils[a..a + n]))
    case ReadDiscreteInputs(a, n) => (t, Bits(t.discrete[a..a + n]))
    case ReadHoldingRegisters(a, n) => (t, Registers(t.holding[a..a + n]))
    case ReadInputRegisters(a, n) => (t, Registers(t.input[a..a + n]))
    case WriteSingleCoil(a, on) => (t.(coils := Splice(t.coils, a, [on])), Written)
    case WriteSingleRegister(a, v) => (t.(holding := Splice(t.holding, a, [v])), Written)
    case WriteMultipleCoils(a, bs) => (t.(coils := Splice(t.coils, a, bs)), Written)
    case WriteMultipleRegisters(a, ws) => (t.(holding := Splice(t.holding, a, ws)), Written)
  }
}
