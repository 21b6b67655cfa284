/** The typed codec: how scalars are laid out in registers under a byte and a word order. */
module Convert {
  import opened Wrappers
  import opened Bytes
  import opened Text
  import opened Address

  datatype ByteOrder = BigEndian | LittleEndian

  datatype WordOrder = HighWordFirst | LowWordFirst

  datatype DataType = Uint16 | Int16 | Uint32 | Int32 | Float32 {
    function RegisterCount(): nat { if Uint16? || Int16? then 1 else 2 }

    function Name(): string {
      match this
      case Uint16 => "uint16"
      case Int16 => "int16"
      case Uint32 => "uint32"
      case Int32 => "int32"
      case Float32 => "float32"
    }

    /** The values of the type; a float32 is its 32-bit pattern. */
    predicate Holds(v: int) {
      match this
      case Uint16 => 0 <= v < 0x1_0000
      case Int16 => -0x8000 <= v < 0x8000
      case Uint32 => 0 <= v < 0x1_0000_0000
      case Int32 => -0x8000_0000 <= v < 0x8000_0000
      case Float32 => 0 <= v < 0x1_0000_0000
    }
  }

  /** The numeral readers of strconv: base-prefixed unsigned and signed integers, and the bit
      pattern of a decimal float. None is a syntax error. */
  datatype Numerals = Numerals(
    unsigned: string -> Option<nat>,
    signed: string -> Option<int>,
    float: string -> Option<nat>)

  /** `(r << 8) | (r >> 8)` */
  function SwapBytes(r: uint16): uint16 { U16(Lo(r), Hi(r)) }

  function SwapEach(regs: seq<uint16>): (out: seq<uint16>)
    ensures |out| == |regs|
  {
    seq(|regs|, i requires 0 <= i < |regs| => SwapBytes(regs[i]))
  }

  function SwapPair(regs: seq<uint16>): (out: seq<uint16>)
    ensures |out| == |regs|
  {
    if |regs| == 2 then [regs[1], regs[0]] else regs
  }

  datatype Codec = Codec(byteOrder: ByteOrder, wordOrder: WordOrder) {
    /** Wire registers in the specification's order: high byte and high word first. */
    function Standard(regs: seq<uint16>): (out: seq<uint16>)
      ensures |out| == |regs|
    {
      var bytewise := if byteOrder == LittleEndian then SwapEach(regs) else regs;
      if wordOrder == LowWordFirst then SwapPair(bytewise) else bytewise
    }

    function Wire(regs: seq<uint16>): (out: seq<uint16>)
      ensures |out| == |regs|
    {
      var wordwise := if wordOrder == LowWordFirst then SwapPair(regs) else regs;
      if byteOrder == LittleEndian then SwapEach(wordwise) else wordwise
    }

    method Normalize(regs: seq<uint16>) returns (r: seq<uint16>)
      ensures r == Standard(regs)
    {
      var out := new uint16[|regs|](i requires 0 <= i < |regs| => regs[i]);
      if byteOrder == LittleEndian {
        SwapInPlace(out);
      }
      if wordOrder == LowWordFirst && out.Length == 2 {
        out[0], out[1] := out[1], out[0];
      }
      r := out[..];
    }

    method Denormalize(regs: seq<uint16>) returns (r: seq<uint16>)
      ensures r == Wire(regs)
    {
      var out := new uint16[|regs|](i requires 0 <= i < |regs| => regs[i]);
      if wordOrder == LowWordFirst && out.Length == 2 {
        out[0], out[1] := out[1], out[0];
      }
      assert out[..] == if wordOrder == LowWordFirst then SwapPair(regs) else regs;
      if byteOrder == LittleEndian {
        SwapInPlace(out);
      }
      r := out[..];
    }

    static method SwapInPlace(out: array<uint16>)
      modifies out
      ensures out[..] == SwapEach(old(out[..]))
    {
      for i := 0 to out.Length
        invariant forall k | 0 <= k < out.Length ::
                    out[k] == if k < i then SwapBytes(old(out[k])) else old(out[k])
      {
        out[i] := SwapBytes(out[i]);
      }
    }

    function Decoded(t: DataType, regs: seq<uint16>): Result<int, InputError>
    {
      if |regs| != t.RegisterCount() then Err(WrongWidth(|regs|)) else Ok(ValueOf(t, Standard(regs)))
    }

    method Decode(t: DataType, regs: seq<uint16>) returns (r: Result<int, InputError>)
      ensures r == Decoded(t, regs)
    {
      if |regs| != t.RegisterCount() {
        return Err(WrongWidth(|regs|));
      }
      var std := Normalize(regs);
      return Ok(ValueOf(t, std));
    }

    function Encoded(t: DataType, num: Numerals, literal: string): Result<seq<uint16>, InputError>
    {
      match Numeral(t, num, TrimSpace(literal))
      case None => Err(BadLiteral(TrimSpace(literal)))
      case Some(v) => if t.Holds(v) then Ok(Wire(WordsOf(t, v))) else Err(BadLiteral(TrimSpace(literal)))
    }

    method Encode(t: DataType, num: Numerals, literal: string) returns (r: Result<seq<uint16>, InputError>)
      ensures r == Encoded(t, num, literal)
    {
      var lit := TrimSpace(literal);
      var v := Numeral(t, num, lit);
      if v.None? || !t.Holds(v.value) {
        return Err(BadLiteral(lit));
      }
      var regs := Denormalize(WordsOf(t, v.value));
      return Ok(regs);
    }
  }

  function Numeral(t: DataType, num: Numerals, literal: string): Option<int>
  {
    match t
    case Uint16 => num.unsigned(literal)
    case Uint32 => num.unsigned(literal)
    case Int16 => num.signed(literal)
    case Int32 => num.signed(literal)
    case Float32 => num.float(literal)
  }

  /** `uint32(r[0])<<16 | uint32(r[1])` */
  function Pair(high: uint16, low: uint16): int { 0x1_0000 * high as int + low as int }

  function Signed(u: int, half: int): int { if u < half then u else u - 2 * half }

  function ValueOf(t: DataType, regs: seq<uint16>): int
    requires |regs| == t.RegisterCount()
  {
    match t
    case Uint16 => regs[0]
    case Int16 => Signed(regs[0], 0x8000)
    case Uint32 => Pair(regs[0], regs[1])
    case Int32 => Signed(Pair(regs[0], regs[1]), 0x8000_0000)
    case Float32 => Pair(regs[0], regs[1])
  }

  /** Two's complement, high word first. */
  function WordsOf(t: DataType, v: int): (regs: seq<uint16>)
    requires t.Holds(v)
    ensures |regs| == t.RegisterCount()
  {
    var u := if v >= 0 then v else if t == Int16 then v + 0x1_0000 else v + 0x1_0000_0000;
    if t.RegisterCount() == 1 then [u] else [u / 0x1_0000, u % 0x1_0000]
  }

  // ---- Properties ----

  lemma SplitPair(high: uint16, low: uint16)
    ensures Pair(high, low) / 0x1_0000 == high && Pair(high, low) % 0x1_0000 == low
    ensures 0 <= Pair(high, low) < 0x1_0000_0000
  {
  }

  lemma ValueOfWords(t: DataType, v: int)
    requires t.Holds(v)
    ensures ValueOf(t, WordsOf(t, v)) == v
  {
  }

  lemma WordsOfValue(t: DataType, regs: seq<uint16>)
    requires |regs| == t.RegisterCount()
    ensures t.Holds(ValueOf(t, regs)) && WordsOf(t, ValueOf(t, regs)) == regs
  {
    if |regs| == 2 {
      var high, low := regs[0], regs[1];
      SplitPair(high, low);
      assert regs == [high, low];
      hide Pair;
    }
  }

  lemma SwapTwice(regs: seq<uint16>)
    ensures SwapEach(SwapEach(regs)) == regs
  {
    forall i | 0 <= i < |regs| ensures SwapBytes(SwapBytes(regs[i])) == regs[i] {
      WordRoundTrip(regs[i], Lo(regs[i]), Hi(regs[i]));
    }
  }

  /** Under every order the two directions undo each other, on register blocks of any length. */
  lemma OrdersAreInverse(c: Codec, regs: seq<uint16>)
    ensures c.Standard(c.Wire(regs)) == regs && c.Wire(c.Standard(regs)) == regs
  {
    hide Hi, Lo, U16, SwapBytes;
    SwapTwice(regs);
    SwapTwice(SwapPair(regs));
    assert SwapPair(SwapPair(regs)) == regs;
    assert SwapPair(SwapPair(SwapEach(regs))) == SwapEach(regs);
  }

  /** The codec is a bijection between the values of a type and the register blocks of its width. */
  lemma CodecIsBijective(c: Codec, t: DataType, v: int, regs: seq<uint16>)
    ensures t.Holds(v) ==> c.Decoded(t, c.Wire(WordsOf(t, v))) == Ok(v)
    ensures |regs| == t.RegisterCount() ==>
              c.Decoded(t, regs).Ok? && t.Holds(c.Decoded(t, regs).value)
              && c.Wire(WordsOf(t, c.Decoded(t, regs).value)) == regs
  {
    if t.Holds(v) {
      OrdersAreInverse(c, WordsOf(t, v));
      ValueOfWords(t, v);
    }
    if |regs| == t.RegisterCount() {
      OrdersAreInverse(c, regs);
      WordsOfValue(t, c.Standard(regs));
    }
  }

  // ---- Where the bytes go ----

  /** The value as an unsigned number of the type's width: two's complement for the signed types. */
  function Unsigned(t: DataType, v: int): nat
    requires t.Holds(v)
  {
    if v >= 0 then v else if t == Int16 then v + 65536 else v + 4294967296
  }

  lemma OneWordBytes(r: uint16)
    ensures RegisterBytes([r]) == [r / 256, r % 256]
    ensures RegisterBytes([SwapBytes(r)]) == [r % 256, r / 256]
  {
  }

  lemma TwoWordBytes(p: uint16, q: uint16)
    ensures RegisterBytes([p, q]) == RegisterBytes([p]) + RegisterBytes([q])
  {
    hide Hi, Lo;
    var b := RegisterBytes([p, q]);
    assert b[0] == Hi(p) && b[1] == Lo(p) && b[2] == Hi(q) && b[3] == Lo(q);
  }

  /** 16-bit types: AB on the wire, or BA when the bytes are swapped. The word order does not matter. */
  lemma ShortLayout(c: Codec, t: DataType, v: int)
    requires t.Holds(v) && (t == Uint16 || t == Int16)
    ensures var u := Unsigned(t, v);
            RegisterBytes(c.Wire(WordsOf(t, v))) ==
            if c.byteOrder == BigEndian then [u / 256, u % 256] else [u % 256, u / 256]
  {
    hide RegisterBytes, SwapBytes, Hi, Lo, U16;
    var u: uint16 := Unsigned(t, v);
    OneWordBytes(u);
    assert WordsOf(t, v) == [u];
    assert SwapEach([u]) == [SwapBytes(u)];
  }

  /** 32-bit types: ABCD, BADC, CDAB or DCBA, by byte order and word order. */
  lemma LongLayout(c: Codec, t: DataType, v: int)
    requires t.Holds(v) && (t == Uint32 || t == Int32 || t == Float32)
    ensures var u := Unsigned(t, v);
            var (A, B, C, D) := (u / 16777216, u / 65536 % 256, u / 256 % 256, u % 256);
            RegisterBytes(c.Wire(WordsOf(t, v))) ==
            match (c.byteOrder, c.wordOrder)
            case (BigEndian, HighWordFirst) => [A, B, C, D]
            case (LittleEndian, HighWordFirst) => [B, A, D, C]
            case (BigEndian, LowWordFirst) => [C, D, A, B]
            case (LittleEndian, LowWordFirst) => [D, C, B, A]
  {
    hide RegisterBytes, SwapBytes, Hi, Lo, U16;
    var u := Unsigned(t, v);
    var p: uint16, q: uint16 := u / 65536, u % 65536;
    BytesOfLong(u);
    OneWordBytes(p);
    OneWordBytes(q);
    TwoWordBytes(p, q);
    TwoWordBytes(q, p);
    TwoWordBytes(SwapBytes(p), SwapBytes(q));
    TwoWordBytes(SwapBytes(q), SwapBytes(p));
    assert WordsOf(t, v) == [p, q];
    assert SwapEach([p, q]) == [SwapBytes(p), SwapBytes(q)];
    assert SwapEach([q, p]) == [SwapBytes(q), SwapBytes(p)];
  }

  lemma BytesOfLong(u: nat)
    requires u < 4294967296
    ensures u / 65536 / 256 == u / 16777216 && u / 65536 % 256 == u / 65536 % 256
    ensures u % 65536 / 256 == u / 256 % 256 && u % 65536 % 256 == u % 256
  {
  }

  /** Decoding is the same layout read backwards: a block holds a value exactly when its bytes are those
      the value is laid out as. */
  lemma DecodedExactly(c: Codec, t: DataType, regs: seq<uint16>, v: int)
    requires t.Holds(v)
    ensures c.Decoded(t, regs) == Ok(v) <==> RegisterBytes(regs) == RegisterBytes(c.Wire(WordsOf(t, v)))
  {
    hide RegisterBytes, ValueOf, WordsOf, Codec.Standard, Codec.Wire;
    CodecIsBijective(c, t, v, regs);
    RegisterRoundTrip(regs);
    RegisterRoundTrip(c.Wire(WordsOf(t, v)));
    if RegisterBytes(regs) == RegisterBytes(c.Wire(WordsOf(t, v))) {
      assert |regs| == |c.Wire(WordsOf(t, v))|;
    }
  }

  /** A literal is encoded exactly when the reader for its type accepts it, trimmed, as a number that
      type can hold. */
  lemma EncodedExactly(c: Codec, t: DataType, num: Numerals, literal: string)
    ensures var lit := TrimSpace(literal);
            var read := match t
                        case Uint16 => num.unsigned(lit)
                        case Uint32 => num.unsigned(lit)
                        case Int16 => num.signed(lit)
                        case Int32 => num.signed(lit)
                        case Float32 => num.float(lit);
            var (least, most) := match t
                                 case Uint16 => (0, 65535)
                                 case Int16 => (-32768, 32767)
                                 case Uint32 => (0, 4294967295)
                                 case Int32 => (-2147483648, 2147483647)
                                 case Float32 => (0, 4294967295);
            if read.Some? && least <= read.value <= most
            then t.Holds(read.value) && c.Encoded(t, num, literal) == Ok(c.Wire(WordsOf(t, read.value)))
            else c.Encoded(t, num, literal) == Err(BadLiteral(lit))
  {
    hide TrimSpace, WordsOf, Codec.Wire;
  }
}
