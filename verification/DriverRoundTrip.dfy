/** Write then read through all four layers: literal and codec, client, wire and server. */
module DriverRoundTrip {
  import opened Wrappers
  import opened Bytes
  import opened Text
  import opened Address
  import opened Convert
  import opened Device
  import opened Pdu
  import opened Dispatch
  import opened Server
  import opened Client
  import opened EndToEnd
  import opened Driver
  import opened Journeys

  /** Driver.Write against a device, every byte delivered. */
  function RemoteWrite(opt: Options, t: Tables, w: Wire, spec: string, literal: string): (Tables, Result<(), DriverError>, Wire)
    requires t.Valid() && w.connected
  {
    var (after, r) := WriteOnce(opt, World(t, w, []), spec, literal, Delivered);
    (after.tables, r, after.wire)
  }

  lemma RemoteAnswersInKind(t: Tables, w: Wire, req: Request)
    requires t.Valid() && w.connected && req.Legal()
    ensures var r := RemoteCall(t, w, req).1; r.Ok? ==> Answers(req, r.value) && !r.value.Rejected?
  {
    hide Call, Serve, RequestFrame, RequestPdu;
    CallAnswersInKind(w, req, Net(None, Serve(t, RequestFrame(NextId(w.txID), w.unitId, RequestPdu(req)), AllAnswered(), 0).1));
  }

  /** Driver.Read against a device, every byte delivered. */
  function RemoteRead(opt: Options, t: Tables, w: Wire, spec: string, now: int): (Tables, Result<Value, DriverError>, Wire)
    requires t.Valid() && w.connected
  {
    match ParseSpec(spec, opt.rawAddress)
    case Err(e) => (t, Err(Invalid(e)), w)
    case Ok(sp) =>
      var count := ReadCount(opt, sp);
      if !(1 <= count <= ReadLimit(sp)) then (t, Err(Failed(BadQuantity(count))), w) else
      var (t', a, w') := RemoteCall(t, w, ReadRequestFor(sp, count));
      RemoteAnswersInKind(t, w, ReadRequestFor(sp, count));
      (t', Report(opt, sp, a, now), w')
  }

  /** The piece of a literal denotes v, a value of the configured type. */
  ghost predicate Denotes(opt: Options, piece: string, v: int)
  {
    opt.dataType.Holds(v) && Numeral(opt.dataType, opt.numerals, TrimSpace(TrimSpace(piece))) == Some(v)
  }

  function Block(opt: Options, v: int): (regs: seq<uint16>)
    requires opt.dataType.Holds(v)
    ensures |regs| == opt.dataType.RegisterCount()
  {
    opt.Orders().Wire(WordsOf(opt.dataType, v))
  }

  function Blocks(opt: Options, vs: seq<int>): seq<uint16>
    requires forall v | v in vs :: opt.dataType.Holds(v)
  {
    if vs == [] then [] else Blocks(opt, vs[..|vs| - 1]) + Block(opt, vs[|vs| - 1])
  }

  lemma {:induction false} PiecesGiveBlocks(opt: Options, parts: seq<string>, vs: seq<int>)
    requires |parts| == |vs| && forall i | 0 <= i < |vs| :: Denotes(opt, parts[i], vs[i])
    ensures forall v | v in vs :: opt.dataType.Holds(v)
    ensures Collect(parts, Converter(opt)) == Ok(Blocks(opt, vs))
  {
    hide TrimSpace, WordsOf;
    if vs != [] {
      var n := |vs| - 1;
      PiecesGiveBlocks(opt, parts[..n], vs[..n]);
      assert Denotes(opt, parts[n], vs[n]);
      assert Converter(opt)(parts[n]) == Ok(Block(opt, vs[n]));
    }
  }

  lemma {:induction false} BlockAt(opt: Options, vs: seq<int>, i: nat)
    requires i < |vs| && forall v | v in vs :: opt.dataType.Holds(v)
    ensures var width := opt.dataType.RegisterCount();
            && |Blocks(opt, vs)| == |vs| * width && i * width <= (i + 1) * width <= |vs| * width
            && Blocks(opt, vs)[i * width..(i + 1) * width] == Block(opt, vs[i])
  {
    hide Block;
    var n := |vs| - 1;
    var width := opt.dataType.RegisterCount();
    assert width == 1 || width == 2;
    BlocksLength(opt, vs[..n]);
    BlocksLength(opt, vs);
    if i < n {
      BlockAt(opt, vs[..n], i);
      assert Blocks(opt, vs)[i * width..(i + 1) * width] == Blocks(opt, vs[..n])[i * width..(i + 1) * width];
    }
  }

  lemma {:induction false} BlocksLength(opt: Options, vs: seq<int>)
    requires forall v | v in vs :: opt.dataType.Holds(v)
    ensures |Blocks(opt, vs)| == |vs| * opt.dataType.RegisterCount()
  {
    if vs != [] {
      BlocksLength(opt, vs[..|vs| - 1]);
    }
  }

  function Outcome(vs: seq<int>): Reading
    requires vs != []
  {
    if |vs| == 1 then OneValue(vs[0]) else ManyValues(vs)
  }

  lemma ChunkIsValue(opt: Options, vs: seq<int>, i: nat)
    requires i < |vs| && forall v | v in vs :: opt.dataType.Holds(v)
    ensures var regs := Blocks(opt, vs);
            (i + 1) * opt.dataType.RegisterCount() <= |regs| && Chunk(opt, regs, i) == vs[i]
  {
    hide WordsOf, Blocks, ValueOf, Codec.Standard, Codec.Wire;
    BlockAt(opt, vs, i);
    CodecIsBijective(opt.Orders(), opt.dataType, vs[i], []);
  }

  /** The chunked decode of a read gives back the values the blocks were made from. */
  lemma BlocksReadBack(opt: Options, vs: seq<int>)
    requires vs != [] && forall v | v in vs :: opt.dataType.Holds(v)
    ensures RegistersReading(opt, Blocks(opt, vs)) == Ok(Outcome(vs))
  {
    hide WordsOf, ValueOf, DataType.Holds, Codec.Standard, Codec.Wire;
    var regs, width := Blocks(opt, vs), opt.dataType.RegisterCount();
    BlocksLength(opt, vs);
    if |vs| == 1 {
      assert regs == Block(opt, vs[0]);
      CodecIsBijective(opt.Orders(), opt.dataType, vs[0], []);
    } else {
      assert |regs| % width == 0 && |regs| / width == |vs|;
      forall i | 0 <= i < |vs| ensures Chunk(opt, regs, i) == vs[i] {
        ChunkIsValue(opt, vs, i);
      }
      assert Chunks(opt, regs, |vs|) == vs;
    }
  }

  lemma WriteAppliesToHolding(t: Tables, p: Payload)
    requires t.Valid() && p.spec.table == HoldingRegister && p.regs != []
    requires p.spec.address + |p.regs| <= TABLE_SIZE
    ensures Apply(t, WriteRequest(p)) == (t.(holding := Splice(t.holding, p.spec.address, p.regs)), Written)
  {
    assert p.regs == if |p.regs| == 1 then [p.regs[0]] else p.regs;
  }

  lemma WriteIsLegal(p: Payload)
    requires p.spec.table == HoldingRegister && 1 <= |p.regs| <= MAX_WRITE_REGISTERS
    ensures WriteRequest(p).Legal()
  {
  }

  lemma EncodedBlocks(opt: Options, spec: string, literal: string, vs: seq<int>, sp: Spec)
    requires ParseSpec(spec, opt.rawAddress) == Ok(sp) && sp.table == HoldingRegister
    requires |Split(literal, ',')| == |vs| && forall i | 0 <= i < |vs| :: Denotes(opt, Split(literal, ',')[i], vs[i])
    ensures forall v | v in vs :: opt.dataType.Holds(v)
    ensures EncodedWrite(opt, spec, literal) == Ok(Payload(sp, [], Blocks(opt, vs)))
    ensures vs != [] && Blocks(opt, vs) != []
  {
    hide ParseSpec, Split, Denotes, BoolList, Collect, Converter, Blocks;
    PiecesGiveBlocks(opt, Split(literal, ','), vs);
    SomeBlock(opt, vs);
  }

  lemma SomeBlock(opt: Options, vs: seq<int>)
    requires vs != [] && forall v | v in vs :: opt.dataType.Holds(v)
    ensures Blocks(opt, vs) != []
  {
  }

  lemma RemoteWriteOf(opt: Options, t: Tables, w: Wire, spec: string, literal: string, p: Payload)
    requires t.Valid() && w.connected && EncodedWrite(opt, spec, literal) == Ok(p) && WriteRequest(p).Legal()
    ensures var (t', a, w') := RemoteCall(t, w, WriteRequest(p));
            a == Ok(Written) ==> RemoteWrite(opt, t, w, spec, literal) == (t', Ok(()), w')
  {
    hide RemoteCall, EncodedWrite, SendOne, WriteRequest;
    DeliveredIsRemoteCall(World(t, w, []), WriteRequest(p));
  }

  lemma RemoteReadOf(opt: Options, t: Tables, w: Wire, spec: string, address: uint16, regs: seq<uint16>, now: int)
    requires t.Valid() && w.connected && 1 <= |regs| <= MAX_READ_REGISTERS
    requires ParseSpec(spec, opt.rawAddress) == Ok(Spec(HoldingRegister, address, |regs|))
    ensures var (t', a, w') := RemoteCall(t, w, ReadHoldingRegisters(address, |regs|));
            a == Ok(Registers(regs)) ==>
              RemoteRead(opt, t, w, spec, now) == (t', Report(opt, Spec(HoldingRegister, address, |regs|), a, now), w')
  {
    hide RemoteCall, ParseSpec;
  }

  /** For every type and both orders: writing a list of values at a holding address and reading
      values x width registers back returns exactly that list (a scalar when there is one value),
      and every other register and table is as before. */
  lemma RegistersRoundTrip(opt: Options, t: Tables, w: Wire, spec: string, readSpec: string, literal: string,
                           vs: seq<int>, address: uint16, count: nat, size: nat, now: int)
    requires t.Valid() && w.connected && w.inbox == []
    requires size == |vs| * opt.dataType.RegisterCount()
    requires ParseSpec(spec, opt.rawAddress) == Ok(Spec(HoldingRegister, address, count))
    requires ParseSpec(readSpec, opt.rawAddress) == Ok(Spec(HoldingRegister, address, size))
    requires |Split(literal, ',')| == |vs| && forall i | 0 <= i < |vs| :: Denotes(opt, Split(literal, ',')[i], vs[i])
    requires size <= MAX_WRITE_REGISTERS && address + size <= TABLE_SIZE
    ensures var (t1, wrote, w1) := RemoteWrite(opt, t, w, spec, literal);
            && wrote == Ok(()) && t1.Valid() && w1.connected
            && var (t2, got, w2) := RemoteRead(opt, t1, w1, readSpec, now);
               && got.Ok? && got.value.reading == Outcome(vs) && t2 == t1 && w2.inbox == []
               && t1.coils == t.coils && t1.discrete == t.discrete && t1.input == t.input
               && forall i | 0 <= i < TABLE_SIZE && !(address <= i < address + size) :: t1.holding[i] == t.holding[i]
  {
    hide ParseSpec, Split, RemoteCall, RemoteWrite, RemoteRead, EncodedWrite, Denotes, RegistersReading, Blocks, WriteRequest, Outcome;
    EncodedBlocks(opt, spec, literal, vs, Spec(HoldingRegister, address, count));
    BlocksLength(opt, vs);
    var p := Payload(Spec(HoldingRegister, address, count), [], Blocks(opt, vs));
    var t1 := t.(holding := Splice(t.holding, address, p.regs));
    WriteIsLegal(p);
    WriteAppliesToHolding(t, p);
    assert t1.holding[address..address + |p.regs|] == p.regs;
    RemoteCallRefinesDevice(t, w, WriteRequest(p));
    RemoteCallRefinesDevice(t1, RemoteCall(t, w, WriteRequest(p)).2, ReadHoldingRegisters(address, |p.regs|));
    RemoteWriteOf(opt, t, w, spec, literal, p);
    RemoteReadOf(opt, t1, RemoteCall(t, w, WriteRequest(p)).2, readSpec, address, p.regs, now);
    BlocksReadBack(opt, vs);
  }

  // ---- Everything printed ----

  /** Decimal numbers separated by commas. */
  function Joined(vs: seq<nat>): string
    requires vs != []
  {
    if |vs| == 1 then Decimal(vs[0]) else Decimal(vs[0]) + [','] + Joined(vs[1..])
  }

  lemma {:induction false} SplitJoined(vs: seq<nat>)
    requires vs != []
    ensures |Split(Joined(vs), ',')| == |vs|
    ensures forall i | 0 <= i < |vs| :: Split(Joined(vs), ',')[i] == Decimal(vs[i])
  {
    hide Split, Decimal;
    assert !IsDigit(',');
    if |vs| == 1 {
      SplitWhole(Decimal(vs[0]), ',');
    } else {
      SplitAt(Decimal(vs[0]), ',', Joined(vs[1..]));
      SplitJoined(vs[1..]);
    }
  }

  lemma DecimalIsTrimmed(n: nat)
    ensures TrimSpace(TrimSpace(Decimal(n))) == Decimal(n)
  {
    var s := Decimal(n);
    assert IsDigit(s[0]) && IsDigit(s[|s| - 1]);
    NothingToTrim(s);
  }

  /** A reader of unsigned numerals that reads what %d prints. */
  ghost predicate ReadsDecimals(num: Numerals)
  {
    forall n: nat | n < 0x1_0000_0000 :: num.unsigned(Decimal(n)) == Some(n)
  }

  lemma JoinedDenotes(opt: Options, vs: seq<nat>)
    requires (opt.dataType.Uint16? || opt.dataType.Uint32?) && ReadsDecimals(opt.numerals)
    requires vs != [] && forall v | v in vs :: opt.dataType.Holds(v)
    ensures |Split(Joined(vs), ',')| == |vs|
    ensures forall i | 0 <= i < |vs| :: Denotes(opt, Split(Joined(vs), ',')[i], vs[i])
  {
    hide Split, TrimSpace, Decimal, Joined;
    SplitJoined(vs);
    forall i | 0 <= i < |vs| ensures Denotes(opt, Split(Joined(vs), ',')[i], vs[i]) {
      DecimalIsTrimmed(vs[i]);
      assert vs[i] in vs;
    }
  }

  /** The round trip with the specs and the literal as a program would print them: any list of
      unsigned values, at any raw address where it fits. */
  lemma PrintedRoundTrip(opt: Options, t: Tables, w: Wire, vs: seq<nat>, address: uint16, size: nat, now: int)
    requires t.Valid() && w.connected && w.inbox == []
    requires opt.rawAddress && (opt.dataType.Uint16? || opt.dataType.Uint32?) && ReadsDecimals(opt.numerals)
    requires vs != [] && forall v | v in vs :: opt.dataType.Holds(v)
    requires size == |vs| * opt.dataType.RegisterCount()
    requires size <= MAX_WRITE_REGISTERS && address + size <= TABLE_SIZE
    ensures var (t1, wrote, w1) := RemoteWrite(opt, t, w, Spec(HoldingRegister, address, 0).Print(), Joined(vs));
            && wrote == Ok(()) && t1.Valid() && w1.connected
            && var (t2, got, w2) := RemoteRead(opt, t1, w1, Spec(HoldingRegister, address, size).Print(), now);
               && got.Ok? && got.value.reading == Outcome(vs) && t2 == t1 && w2.inbox == []
               && t1.coils == t.coils && t1.discrete == t.discrete && t1.input == t.input
               && forall i | 0 <= i < TABLE_SIZE && !(address <= i < address + size) :: t1.holding[i] == t.holding[i]
  {
    hide RemoteWrite, RemoteRead, Split, ParseSpec, Spec.Print, Joined, Denotes;
    RawRoundTrip(Spec(HoldingRegister, address, 0));
    RawRoundTrip(Spec(HoldingRegister, address, size));
    JoinedDenotes(opt, vs);
    var ints: seq<int> := vs;
    RegistersRoundTrip(opt, t, w, Spec(HoldingRegister, address, 0).Print(), Spec(HoldingRegister, address, size).Print(),
                       Joined(vs), ints, address, 0, size, now);
  }

  lemma WriteAppliesToCoils(t: Tables, p: Payload)
    requires t.Valid() && p.spec.table == Coil && p.coils != []
    requires p.spec.address + |p.coils| <= TABLE_SIZE
    ensures Apply(t, WriteRequest(p)) == (t.(coils := Splice(t.coils, p.spec.address, p.coils)), Written)
  {
    assert p.coils == if |p.coils| == 1 then [p.coils[0]] else p.coils;
  }

  /** The same for coils. */
  lemma CoilsRoundTrip(opt: Options, t: Tables, w: Wire, spec: string, readSpec: string, literal: string,
                       bits: seq<bool>, address: uint16, count: nat, now: int)
    requires t.Valid() && w.connected && w.inbox == [] && bits != []
    requires ParseSpec(spec, opt.rawAddress) == Ok(Spec(Coil, address, count))
    requires ParseSpec(readSpec, opt.rawAddress) == Ok(Spec(Coil, address, |bits|))
    requires BoolList(literal) == Ok(bits)
    requires |bits| <= MAX_WRITE_BITS && address + |bits| <= TABLE_SIZE
    ensures var (t1, wrote, w1) := RemoteWrite(opt, t, w, spec, literal);
            && wrote == Ok(()) && t1.Valid() && w1.connected
            && var (t2, got, w2) := RemoteRead(opt, t1, w1, readSpec, now);
               && got.Ok? && got.value.reading == (if |bits| == 1 then OneBit(bits[0]) else ManyBits(bits))
               && t2 == t1 && w2.inbox == []
               && t1.holding == t.holding && t1.discrete == t.discrete && t1.input == t.input
               && forall i | 0 <= i < TABLE_SIZE && !(address <= i < address + |bits|) :: t1.coils[i] == t.coils[i]
  {
    hide ParseSpec, BoolList, RemoteCall, RemoteWrite;
    var p := Payload(Spec(Coil, address, count), bits, []);
    RemoteWriteOf(opt, t, w, spec, literal, p);
    RemoteCallRefinesDevice(t, w, WriteRequest(p));
    WriteAppliesToCoils(t, p);
    var (t1, _, w1) := RemoteCall(t, w, WriteRequest(p));
    assert t1.coils[address..address + |bits|] == bits;
    RemoteCallRefinesDevice(t1, w1, ReadCoils(address, |bits|));
  }
}
