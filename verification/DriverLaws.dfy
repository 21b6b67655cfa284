/** What the driver's literals, specs and reads mean, for every table and type. */
module DriverLaws {
  import opened Wrappers
  import opened Bytes
  import opened Packing
  import opened Text
  import opened Address
  import opened Convert
  import opened Device
  import opened Pdu
  import opened Client
  import opened EndToEnd
  import opened Driver
  import opened Journeys
  import opened DriverRoundTrip

  // ---- Coils as they are written ----

  /** 1, true, on and yes; 0, false, off and no: in capitals or not, with white space around them. */
  lemma BoolPieceExactly(p: string)
    ensures var s := TrimSpace(p);
            BoolPiece(p) ==
            if AnyCase(s, "1") || AnyCase(s, "true") || AnyCase(s, "on") || AnyCase(s, "yes") then Ok([true])
            else if AnyCase(s, "0") || AnyCase(s, "false") || AnyCase(s, "off") || AnyCase(s, "no") then Ok([false])
            else Err(BadCoilValue(p))
  {
    hide TrimSpace, AnyCase, Lower;
    var s := TrimSpace(p);
    PlainWords();
    LowersExactly(s, "1");
    LowersExactly(s, "true");
    LowersExactly(s, "on");
    LowersExactly(s, "yes");
    LowersExactly(s, "0");
    LowersExactly(s, "false");
    LowersExactly(s, "off");
    LowersExactly(s, "no");
  }

  lemma PlainWords()
    ensures NoCapitals("1") && NoCapitals("true") && NoCapitals("on") && NoCapitals("yes")
    ensures NoCapitals("0") && NoCapitals("false") && NoCapitals("off") && NoCapitals("no")
  {
  }

  /** Zeros and ones separated by commas. */
  function JoinedBits(bits: seq<bool>): string
    requires bits != []
  {
    var first := if bits[0] then "1" else "0";
    if |bits| == 1 then first else first + [','] + JoinedBits(bits[1..])
  }

  lemma {:induction false} SplitJoinedBits(bits: seq<bool>)
    requires bits != []
    ensures |Split(JoinedBits(bits), ',')| == |bits|
    ensures forall i | 0 <= i < |bits| :: Split(JoinedBits(bits), ',')[i] == if bits[i] then "1" else "0"
  {
    hide Split;
    if |bits| == 1 {
      SplitWhole(JoinedBits(bits), ',');
    } else {
      SplitAt(if bits[0] then "1" else "0", ',', JoinedBits(bits[1..]));
      SplitJoinedBits(bits[1..]);
    }
  }

  lemma {:induction false} BitPieces(parts: seq<string>, bits: seq<bool>)
    requires |parts| == |bits| && forall i | 0 <= i < |bits| :: parts[i] == if bits[i] then "1" else "0"
    ensures Collect(parts, BoolPiece) == Ok(bits)
  {
    hide BoolPiece;
    if bits != [] {
      var n := |bits| - 1;
      BitPieces(parts[..n], bits[..n]);
      OneAndZero();
      assert bits == bits[..n] + [bits[n]];
    }
  }

  lemma OneAndZero()
    ensures BoolPiece("1") == Ok([true]) && BoolPiece("0") == Ok([false])
  {
    hide TrimSpace;
    NothingToTrim("1");
    NothingToTrim("0");
    BoolPieceExactly("1");
    BoolPieceExactly("0");
  }

  /** The coil round trip as a program prints it: any list of coil values at any raw address where it fits. */
  lemma PrintedCoilsRoundTrip(opt: Options, t: Tables, w: Wire, bits: seq<bool>, address: uint16, now: int)
    requires t.Valid() && w.connected && w.inbox == [] && opt.rawAddress
    requires 1 <= |bits| <= MAX_WRITE_BITS && address + |bits| <= TABLE_SIZE
    ensures var (t1, wrote, w1) := RemoteWrite(opt, t, w, Spec(Coil, address, 0).Print(), JoinedBits(bits));
            && wrote == Ok(()) && t1.Valid() && w1.connected
            && var (t2, got, w2) := RemoteRead(opt, t1, w1, Spec(Coil, address, |bits|).Print(), now);
               && got.Ok? && got.value.reading == (if |bits| == 1 then OneBit(bits[0]) else ManyBits(bits))
               && t2 == t1 && w2.inbox == []
               && t1.holding == t.holding && t1.discrete == t.discrete && t1.input == t.input
               && forall i | 0 <= i < TABLE_SIZE && !(address <= i < address + |bits|) :: t1.coils[i] == t.coils[i]
  {
    hide RemoteWrite, RemoteRead, Split, ParseSpec, Spec.Print, JoinedBits, Collect;
    RawRoundTrip(Spec(Coil, address, 0));
    RawRoundTrip(Spec(Coil, address, |bits|));
    SplitJoinedBits(bits);
    BitPieces(Split(JoinedBits(bits), ','), bits);
    DriverRoundTrip.CoilsRoundTrip(opt, t, w, Spec(Coil, address, 0).Print(), Spec(Coil, address, |bits|).Print(), JoinedBits(bits), bits, address, 0, now);
  }

  /** One entry is written by function 5 or 6, several by 15 or 16. */
  lemma WriteUsesFunction(p: Payload)
    requires WriteRequest(p).Legal()
    ensures RequestPdu(WriteRequest(p))[0] ==
            if p.spec.table == Coil then if |p.coils| == 1 then 5 else 15
            else if |p.regs| == 1 then 6 else 16
  {
    hide Pack, RegisterBytes;
  }

  /** A discrete input or an input register is never written. */
  lemma ReadOnlyRefused(opt: Options, t: Tables, w: Wire, table: Table, address: uint16, count: nat, literal: string)
    requires t.Valid() && w.connected && opt.rawAddress && (table == DiscreteInput || table == InputRegister) && count <= MAX_INT
    ensures RemoteWrite(opt, t, w, Spec(table, address, count).Print(), literal) == (t, Err(Invalid(ReadOnlyTable(table))), w)
  {
    hide ParseSpec, Spec.Print, SendOne;
    RawRoundTrip(Spec(table, address, count));
  }

  // ---- Reads of every table ----

  /** A spec of a bit table without a count reads one bit, and with one that many; it reads its own table
      from its address on. */
  lemma BitReadSays(opt: Options, t: Tables, w: Wire, table: Table, address: uint16, count: nat, now: int)
    requires t.Valid() && w.connected && w.inbox == [] && opt.rawAddress && (table == Coil || table == DiscreteInput)
    requires count <= MAX_INT
    ensures var n := if count == 0 then 1 else count;
            var spec := Spec(table, address, count).Print();
            var (after, got, w') := RemoteRead(opt, t, w, spec, now);
            && after == t && w'.inbox == []
            && if n > 2000 then got == Err(Failed(BadQuantity(n)))
               else if address + n > 65536
               then got == Err(Failed(Transport(Exception(if table == Coil then 1 else 2, 2, w.unitId, NextId(w.txID)))))
               else
                 var bits := (if table == Coil then t.coils else t.discrete)[address..address + n];
                 got == Ok(if n == 1 then Value(spec, "bool", OneBit(bits[0]), QualityGood, now, [])
                           else Value(spec, "bool[]", ManyBits(bits), QualityGood, now, []))
  {
    hide ParseSpec, Spec.Print, RemoteCall;
    RawRoundTrip(Spec(table, address, count));
    var n := if count == 0 then 1 else count;
    if n <= 2000 {
      RemoteCallRefinesDevice(t, w, ReadRequestFor(Spec(table, address, count), n));
    }
  }

  /** A spec of a register table without a count reads one value of the configured type. */
  lemma RegisterReadSays(opt: Options, t: Tables, w: Wire, table: Table, address: uint16, count: nat, now: int)
    requires t.Valid() && w.connected && w.inbox == [] && opt.rawAddress && (table == HoldingRegister || table == InputRegister)
    requires count <= MAX_INT
    ensures var width := if opt.dataType == Uint16 || opt.dataType == Int16 then 1 else 2;
            var n := if count == 0 then width else count;
            var spec := Spec(table, address, count).Print();
            var (after, got, w') := RemoteRead(opt, t, w, spec, now);
            && after == t && w'.inbox == []
            && if n > 125 then got == Err(Failed(BadQuantity(n)))
               else if address + n > 65536
               then got == Err(Failed(Transport(Exception(if table == HoldingRegister then 3 else 4, 2, w.unitId, NextId(w.txID)))))
               else if n % width != 0 then got == Err(Invalid(CountNotMultiple(n)))
               else
                 var regs := (if table == HoldingRegister then t.holding else t.input)[address..address + n];
                 && got.Ok? && got.value.raw == regs && got.value.address == spec
                 && got.value.timestamp == now && got.value.quality == QualityGood
                 && got.value.typeName == (if n == width then ScalarName(opt.dataType) else ScalarName(opt.dataType) + "[]")
                 && ReadAs(opt, regs, got.value.reading)
  {
    hide ParseSpec, Spec.Print, RemoteCall, Report, ReadAs, ScalarName;
    RawRoundTrip(Spec(table, address, count));
    var width := opt.dataType.RegisterCount();
    var n := if count == 0 then width else count;
    if n <= 125 {
      RemoteCallRefinesDevice(t, w, ReadRequestFor(Spec(table, address, count), n));
      if address + n <= 65536 {
        ReportSays(opt, Spec(table, address, count), (if table == HoldingRegister then t.holding else t.input)[address..address + n], now);
      } else {
        ReportRefuses(opt, Spec(table, address, count), if table == HoldingRegister then 3 else 4, w.unitId, NextId(w.txID), now);
      }
    }
  }

  function ScalarName(t: DataType): string
  {
    if t == Uint16 then "uint16" else if t == Int16 then "int16" else if t == Uint32 then "uint32"
    else if t == Int32 then "int32" else "float32"
  }

  /** One value from a block of the type's width, otherwise one from each such block in order. */
  predicate ReadAs(opt: Options, regs: seq<uint16>, reading: Reading)
  {
    var width := if opt.dataType == Uint16 || opt.dataType == Int16 then 1 else 2;
    if |regs| == width then reading.OneValue? && Codec(opt.byteOrder, opt.wordOrder).Decoded(opt.dataType, regs) == Ok(reading.value)
    else
      && reading.ManyValues? && width * |reading.values| == |regs|
      && forall i | 0 <= i < |reading.values| ::
           Codec(opt.byteOrder, opt.wordOrder).Decoded(opt.dataType, regs[width * i..width * i + width]) == Ok(reading.values[i])
  }

  lemma ReportRefuses(opt: Options, sp: Spec, fc: byte, unitId: byte, id: uint16, now: int)
    ensures Report(opt, sp, Err(Transport(Exception(fc, 2, unitId, id))), now) == Err(Failed(Transport(Exception(fc, 2, unitId, id))))
  {
  }

  lemma ReportSays(opt: Options, sp: Spec, regs: seq<uint16>, now: int)
    requires regs != []
    ensures var width := if opt.dataType == Uint16 || opt.dataType == Int16 then 1 else 2;
            var got := Report(opt, sp, Ok(Registers(regs)), now);
            if |regs| % width != 0 then got == Err(Invalid(CountNotMultiple(|regs|)))
            else
              && got.Ok? && got.value.raw == regs && got.value.address == sp.Print()
              && got.value.timestamp == now && got.value.quality == QualityGood
              && got.value.typeName == (if |regs| == width then ScalarName(opt.dataType) else ScalarName(opt.dataType) + "[]")
              && ReadAs(opt, regs, got.value.reading)
  {
    hide RegistersReading, Spec.Print, Codec.Decoded;
    ReadingSays(opt, regs);
  }

  lemma ReadingSays(opt: Options, regs: seq<uint16>)
    ensures var width := if opt.dataType == Uint16 || opt.dataType == Int16 then 1 else 2;
            if |regs| % width == 0 && regs != []
            then RegistersReading(opt, regs).Ok? && ReadAs(opt, regs, RegistersReading(opt, regs).value)
            else |regs| % width != 0 ==> RegistersReading(opt, regs) == Err(Invalid(CountNotMultiple(|regs|)))
  {
    hide ValueOf, Codec.Standard;
    var width := opt.dataType.RegisterCount();
    if |regs| != width && |regs| % width == 0 {
      var n := |regs| / width;
      forall i | 0 <= i < n ensures opt.Orders().Decoded(opt.dataType, regs[width * i..width * i + width]) == Ok(Chunks(opt, regs, n)[i]) {
        assert regs[i * width..(i + 1) * width] == regs[width * i..width * i + width];
      }
    }
  }

  // ---- Where a written value lies ----

  /** The bytes of a value, A the most significant: as they stand, or with the bytes of each register
      swapped, or with the registers swapped, or both. */
  function Layout(t: DataType, u: nat, byteOrder: ByteOrder, wordOrder: WordOrder): seq<int>
  {
    if t == Uint16 || t == Int16 then if byteOrder == BigEndian then [u / 256, u % 256] else [u % 256, u / 256]
    else
      var (A, B, C, D) := (u / 16777216, u / 65536 % 256, u / 256 % 256, u % 256);
      match (byteOrder, wordOrder)
      case (BigEndian, HighWordFirst) => [A, B, C, D]
      case (LittleEndian, HighWordFirst) => [B, A, D, C]
      case (BigEndian, LowWordFirst) => [C, D, A, B]
      case (LittleEndian, LowWordFirst) => [D, C, B, A]
  }

  /** The driver lays each value out by its own type and its own two orders. */
  lemma BlockLayout(opt: Options, v: int)
    requires opt.dataType.Holds(v)
    ensures RegisterBytes(Block(opt, v)) == Layout(opt.dataType, Unsigned(opt.dataType, v), opt.byteOrder, opt.wordOrder)
  {
    hide RegisterBytes, WordsOf, Codec.Wire;
    if opt.dataType == Uint16 || opt.dataType == Int16 {
      ShortLayout(Codec(opt.byteOrder, opt.wordOrder), opt.dataType, v);
    } else {
      LongLayout(Codec(opt.byteOrder, opt.wordOrder), opt.dataType, v);
    }
  }

  lemma WritePutsBlocks(opt: Options, t: Tables, w: Wire, spec: string, literal: string,
                        vs: seq<int>, address: uint16, count: nat, size: nat)
    requires t.Valid() && w.connected && w.inbox == [] && vs != []
    requires size == |vs| * opt.dataType.RegisterCount()
    requires ParseSpec(spec, opt.rawAddress) == Ok(Spec(HoldingRegister, address, count))
    requires |Split(literal, ',')| == |vs| && forall j | 0 <= j < |vs| :: Denotes(opt, Split(literal, ',')[j], vs[j])
    requires size <= MAX_WRITE_REGISTERS && address + size <= TABLE_SIZE
    ensures forall v | v in vs :: opt.dataType.Holds(v)
    ensures |Blocks(opt, vs)| == size
    ensures var (t1, wrote, _) := RemoteWrite(opt, t, w, spec, literal);
            wrote == Ok(()) && t1.holding == Splice(t.holding, address, Blocks(opt, vs))
  {
    hide ParseSpec, Split, RemoteCall, RemoteWrite, EncodedWrite, Denotes, Blocks, WriteRequest, Splice;
    EncodedBlocks(opt, spec, literal, vs, Spec(HoldingRegister, address, count));
    BlocksLength(opt, vs);
    var p := Payload(Spec(HoldingRegister, address, count), [], Blocks(opt, vs));
    WriteIsLegal(p);
    WriteAppliesToHolding(t, p);
    RemoteCallRefinesDevice(t, w, WriteRequest(p));
    RemoteWriteOf(opt, t, w, spec, literal, p);
  }

  /** After a write the i-th value of the list lies at its place among the registers, in that layout. */
  lemma WriteStores(opt: Options, t: Tables, w: Wire, spec: string, literal: string,
                    vs: seq<int>, address: uint16, count: nat, size: nat, i: nat)
    requires t.Valid() && w.connected && w.inbox == []
    requires size == |vs| * opt.dataType.RegisterCount()
    requires ParseSpec(spec, opt.rawAddress) == Ok(Spec(HoldingRegister, address, count))
    requires |Split(literal, ',')| == |vs| && forall j | 0 <= j < |vs| :: Denotes(opt, Split(literal, ',')[j], vs[j])
    requires size <= MAX_WRITE_REGISTERS && address + size <= TABLE_SIZE && i < |vs|
    ensures opt.dataType.Holds(vs[i])
    ensures var (t1, wrote, _) := RemoteWrite(opt, t, w, spec, literal);
            var at := address + (if opt.dataType == Uint16 || opt.dataType == Int16 then i else 2 * i);
            var width := if opt.dataType == Uint16 || opt.dataType == Int16 then 1 else 2;
            && wrote == Ok(()) && at + width <= |t1.holding|
            && RegisterBytes(t1.holding[at..at + width]) ==
               Layout(opt.dataType, Unsigned(opt.dataType, vs[i]), opt.byteOrder, opt.wordOrder)
  {
    hide ParseSpec, Split, RemoteWrite, Denotes, Blocks, Block, Layout, RegisterBytes, Unsigned, Splice;
    WritePutsBlocks(opt, t, w, spec, literal, vs, address, count, size);
    BlocksLength(opt, vs);
    BlockAt(opt, vs, i);
    assert vs[i] in vs;
    BlockLayout(opt, vs[i]);
    var width := opt.dataType.RegisterCount();
    SplicedPart(t.holding, address, Blocks(opt, vs), i * width, width);
  }

  lemma SplicedPart(s: seq<uint16>, at: nat, values: seq<uint16>, from: nat, n: nat)
    requires at + |values| <= |s| && from + n <= |values|
    ensures Splice(s, at, values)[at + from..at + from + n] == values[from..from + n]
  {
  }
}
