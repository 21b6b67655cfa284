/** Address specs: "table:address[:count]", in raw or classic five-digit notation. */
module Address {
  import opened Wrappers
  import opened Bytes
  import opened Text

  datatype Table = Coil | DiscreteInput | HoldingRegister | InputRegister {
    function Name(): string {
      match this
      case Coil => "coil"
      case DiscreteInput => "discrete"
      case HoldingRegister => "holding"
      case InputRegister => "input"
    }

    predicate IsBits() { Coil? || DiscreteInput? }

    predicate Writable() { Coil? || HoldingRegister? }

    function ClassicBase(): nat {
      match this
      case Coil => 1
      case DiscreteInput => 10001
      case InputRegister => 30001
      case HoldingRegister => 40001
    }

    /** A numeral read as a classic reference number of this table. */
    predicate InBand(n: int) { ClassicBase() <= n <= ClassicBase() + CLASSIC_BAND_WIDTH - 1 }
  }

  const CLASSIC_BAND_WIDTH := 9999

  datatype InputError =
    | BadShape
    | UnknownTable
    | BadNumber
    | OffsetTooBig(offset: int)
    | BadCount
    | ReadOnlyTable(table: Table)
    | BadCoilValue(piece: string)
    | BadLiteral(piece: string)
    | CountNotMultiple(count: int)
    | WrongWidth(have: nat)

  function ParseTable(s: string): Result<Table, InputError>
  {
    var w := Word(s);
    if w in {"coil", "coils", "co", "c"} then Ok(Coil)
    else if w in {"discrete", "discreteinput", "discrete_input", "di", "d"} then Ok(DiscreteInput)
    else if w in {"holding", "holdingregister", "holding_register", "hr", "h"} then Ok(HoldingRegister)
    else if w in {"input", "inputregister", "input_register", "ir", "i"} then Ok(InputRegister)
    else Err(UnknownTable)
  }

  /** count 0 leaves the count to the caller. */
  datatype Spec = Spec(table: Table, address: uint16, count: nat) {
    function Print(): string {
      if count > 0 then table.Name() + ":" + Decimal(address) + ":" + Decimal(count)
      else table.Name() + ":" + Decimal(address)
    }
  }

  function Resolve(table: Table, n: nat, raw: bool): nat
  {
    if !raw && table.InBand(n) then n - table.ClassicBase() else n
  }

  function ParseCount(parts: seq<string>): Result<nat, InputError>
  {
    if |parts| != 3 then Ok(0) else
    match Atoi(TrimSpace(parts[2]))
    case None => Err(BadCount)
    case Some(c) => if c <= 0 then Err(BadCount) else Ok(c)
  }

  function ParseSpec(s: string, raw: bool): Result<Spec, InputError>
  {
    var parts := Split(s, ':');
    if |parts| < 2 || |parts| > 3 then Err(BadShape) else
    match ParseTable(parts[0])
    case Err(e) => Err(e)
    case Ok(table) =>
      match Atoi(TrimSpace(parts[1]))
      case None => Err(BadNumber)
      case Some(n) =>
        if n < 0 then Err(BadNumber) else
        var offset := Resolve(table, n, raw);
        if offset > 0xFFFF then Err(OffsetTooBig(offset)) else
        match ParseCount(parts)
        case Err(e) => Err(e)
        case Ok(count) => Ok(Spec(table, offset, count))
  }

  // ---- Round trips ----

  lemma NameParses(t: Table)
    ensures ParseTable(t.Name()) == Ok(t) && ':' !in t.Name()
  {
    hide Word;
    NameIsWord(t);
  }

  lemma NameIsWord(t: Table)
    ensures Word(t.Name()) == t.Name()
  {
    hide TrimSpace;
    var s := t.Name();
    NothingToTrim(s);
    assert Lower(s) == s;
  }

  lemma NoColonInDecimal(n: nat)
    ensures ':' !in Decimal(n)
  {
    assert !IsDigit(':');
  }

  /** What printing and re-reading a spec gives, in either mode. */
  lemma PartsOfPrint(sp: Spec)
    requires sp.count <= MAX_INT
    ensures Split(sp.Print(), ':') ==
            [sp.table.Name(), Decimal(sp.address)] + if sp.count > 0 then [Decimal(sp.count)] else []
  {
    NameParses(sp.table);
    NoColonInDecimal(sp.address);
    NoColonInDecimal(sp.count);
    var rest := if sp.count > 0 then Decimal(sp.address) + ":" + Decimal(sp.count) else Decimal(sp.address);
    assert sp.Print() == sp.table.Name() + [':'] + rest;
    SplitAt(sp.table.Name(), ':', rest);
    if sp.count > 0 {
      SplitAt(Decimal(sp.address), ':', Decimal(sp.count));
      SplitWhole(Decimal(sp.count), ':');
    } else {
      SplitWhole(Decimal(sp.address), ':');
    }
  }

  lemma ReparsedPrint(sp: Spec, raw: bool)
    requires sp.count <= MAX_INT
    ensures ParseSpec(sp.Print(), raw) == Ok(sp.(address := Resolve(sp.table, sp.address, raw)))
  {
    hide ParseTable, TrimSpace, Atoi, Decimal, Split;
    PartsOfPrint(sp);
    NameParses(sp.table);
    AtoiOfDecimal(sp.address);
    if sp.count > 0 {
      AtoiOfDecimal(sp.count);
    }
  }

  /** In raw mode every spec prints to a string that reads back as itself. */
  lemma RawRoundTrip(sp: Spec)
    requires sp.count <= MAX_INT
    ensures ParseSpec(sp.Print(), true) == Ok(sp)
  {
    ReparsedPrint(sp, true);
  }

  /** In classic mode it does so exactly when the address lies outside its table's band. */
  lemma ClassicRoundTripExactlyOutsideBand(sp: Spec)
    requires sp.count <= MAX_INT
    ensures ParseSpec(sp.Print(), false) == Ok(sp) <==> !sp.table.InBand(sp.address)
  {
    ReparsedPrint(sp, false);
  }

  /** The addresses classic notation can name at all: some numeral resolves to the address unless it
      lies in its table's band and past the 9999 offsets the band covers. Coil 9999 is one such. */
  lemma ClassicReach(table: Table, a: uint16)
    ensures (exists n: nat :: Resolve(table, n, false) == a) <==> !table.InBand(a) || a < CLASSIC_BAND_WIDTH
  {
    if !table.InBand(a) {
      assert Resolve(table, a, false) == a;
    } else if a < CLASSIC_BAND_WIDTH {
      assert Resolve(table, a + table.ClassicBase(), false) == a;
    }
  }

  lemma CoilBeyondClassicReach()
    ensures forall n: nat :: Resolve(Coil, n, false) != 9999
  {
    ClassicReach(Coil, 9999);
  }

  /** A numeral is accepted exactly when the offset it resolves to fits 16 bits. */
  lemma AcceptedExactlyWithinRange(table: Table, n: nat, raw: bool)
    requires n <= MAX_INT
    ensures var r := ParseSpec(table.Name() + ":" + Decimal(n), raw);
            var offset := if !raw && table.ClassicBase() <= n <= table.ClassicBase() + 9998 then n - table.ClassicBase() else n;
            if offset <= 0xFFFF then r == Ok(Spec(table, offset, 0)) else r == Err(OffsetTooBig(offset))
  {
    hide ParseTable, TrimSpace, Atoi, Decimal, Split;
    NameParses(table);
    NoColonInDecimal(n);
    assert table.Name() + ":" + Decimal(n) == table.Name() + [':'] + Decimal(n);
    SplitAt(table.Name(), ':', Decimal(n));
    SplitWhole(Decimal(n), ':');
    AtoiOfDecimal(n);
  }

  // ---- Names and numbers as they are written ----

  lemma AliasIsWord(s: string, word: string)
    requires AnyCase(TrimSpace(s), word) && NoCapitals(word)
    ensures Word(s) == word
  {
    AnyCaseLowers(TrimSpace(s), word);
  }

  /** Every spelling of a table, with capitals or not and with white space around it. */
  lemma NamesOfCoil(s: string, word: string)
    requires AnyCase(TrimSpace(s), word) && word in ["coil", "coils", "co", "c"]
    ensures ParseTable(s) == Ok(Coil)
  {
    hide TrimSpace, AnyCase, Word;
    AliasIsWord(s, word);
  }

  lemma NamesOfDiscreteInput(s: string, word: string)
    requires AnyCase(TrimSpace(s), word) && word in ["discrete", "discreteinput", "discrete_input", "di", "d"]
    ensures ParseTable(s) == Ok(DiscreteInput)
  {
    hide TrimSpace, AnyCase, Word;
    AliasIsWord(s, word);
  }

  lemma NamesOfHoldingRegister(s: string, word: string)
    requires AnyCase(TrimSpace(s), word) && word in ["holding", "holdingregister", "holding_register", "hr", "h"]
    ensures ParseTable(s) == Ok(HoldingRegister)
  {
    hide TrimSpace, AnyCase, Word;
    AliasIsWord(s, word);
  }

  lemma NamesOfInputRegister(s: string, word: string)
    requires AnyCase(TrimSpace(s), word) && word in ["input", "inputregister", "input_register", "ir", "i"]
    ensures ParseTable(s) == Ok(InputRegister)
  {
    hide TrimSpace, AnyCase, Word;
    AliasIsWord(s, word);
  }

  lemma NoOtherNames(s: string)
    ensures ParseTable(s).Err? <==>
            Word(s) !in ["coil", "coils", "co", "c", "discrete", "discreteinput", "discrete_input", "di", "d",
                         "holding", "holdingregister", "holding_register", "hr", "h",
                         "input", "inputregister", "input_register", "ir", "i"]
  {
    hide Word;
  }

  /** A spec by any name of its table. */
  lemma SpecByAnyName(name: string, table: Table, n: nat, raw: bool)
    requires ParseTable(name) == Ok(table) && ':' !in name && n <= MAX_INT
    ensures ParseSpec(name + ":" + Decimal(n), raw) == ParseSpec(table.Name() + ":" + Decimal(n), raw)
  {
    hide ParseTable, TrimSpace, Atoi, Decimal, Split;
    NameParses(table);
    NoColonInDecimal(n);
    assert table.Name() + ":" + Decimal(n) == table.Name() + [':'] + Decimal(n);
    assert name + ":" + Decimal(n) == name + [':'] + Decimal(n);
    SplitAt(table.Name(), ':', Decimal(n));
    SplitAt(name, ':', Decimal(n));
    SplitWhole(Decimal(n), ':');
  }

  /** The five-digit reference numbers: 1 to 9999, 10001 to 19999, 30001 to 39999 and 40001 to 49999. */
  lemma ClassicNumbers(k: nat)
    requires k <= 9998
    ensures ParseSpec("coil:" + Decimal(1 + k), false) == Ok(Spec(Coil, k, 0))
    ensures ParseSpec("discrete:" + Decimal(10001 + k), false) == Ok(Spec(DiscreteInput, k, 0))
    ensures ParseSpec("input:" + Decimal(30001 + k), false) == Ok(Spec(InputRegister, k, 0))
    ensures ParseSpec("holding:" + Decimal(40001 + k), false) == Ok(Spec(HoldingRegister, k, 0))
  {
    hide ParseSpec, Decimal;
    AcceptedExactlyWithinRange(Coil, 1 + k, false);
    AcceptedExactlyWithinRange(DiscreteInput, 10001 + k, false);
    AcceptedExactlyWithinRange(InputRegister, 30001 + k, false);
    AcceptedExactlyWithinRange(HoldingRegister, 40001 + k, false);
    assert "coil" + ":" == "coil:" && "discrete" + ":" == "discrete:" && "input" + ":" == "input:" && "holding" + ":" == "holding:";
  }

  /** Just outside its band a number is the offset itself. */
  lemma OutsideClassicNumbers(n: uint16)
    ensures n < 1 || n > 9999 ==> ParseSpec("coil:" + Decimal(n), false) == Ok(Spec(Coil, n, 0))
    ensures n < 10001 || n > 19999 ==> ParseSpec("discrete:" + Decimal(n), false) == Ok(Spec(DiscreteInput, n, 0))
    ensures n < 30001 || n > 39999 ==> ParseSpec("input:" + Decimal(n), false) == Ok(Spec(InputRegister, n, 0))
    ensures n < 40001 || n > 49999 ==> ParseSpec("holding:" + Decimal(n), false) == Ok(Spec(HoldingRegister, n, 0))
  {
    hide ParseSpec, Decimal;
    AcceptedExactlyWithinRange(Coil, n, false);
    AcceptedExactlyWithinRange(DiscreteInput, n, false);
    AcceptedExactlyWithinRange(InputRegister, n, false);
    AcceptedExactlyWithinRange(HoldingRegister, n, false);
    assert "coil" + ":" == "coil:" && "discrete" + ":" == "discrete:" && "input" + ":" == "input:" && "holding" + ":" == "holding:";
  }

  lemma PartsOfThree(table: Table, address: string, count: string)
    requires ':' !in address && ':' !in count
    ensures Split(table.Name() + ":" + address + ":" + count, ':') == [table.Name(), address, count]
  {
    NameParses(table);
    var rest := address + [':'] + count;
    assert table.Name() + ":" + address + ":" + count == table.Name() + [':'] + rest;
    SplitAt(table.Name(), ':', rest);
    SplitAt(address, ':', count);
    SplitWhole(count, ':');
  }

  /** A count is a positive number; 0 and anything past 64 bits are refused, and so is a negative address. */
  lemma CountsAndSigns(table: Table, a: uint16, c: nat)
    ensures ParseSpec(table.Name() + ":" + Decimal(a) + ":" + Decimal(c), true) ==
            if 1 <= c <= MAX_INT then Ok(Spec(table, a, c)) else Err(BadCount)
    ensures 1 <= c ==> ParseSpec(table.Name() + ":" + ("-" + Decimal(c)), true) == Err(BadNumber)
  {
    hide ParseTable, TrimSpace, Atoi, Decimal, Split;
    NameParses(table);
    NoColonInDecimal(a);
    NoColonInDecimal(c);
    PartsOfThree(table, Decimal(a), Decimal(c));
    AtoiOfDecimal(a);
    if c <= MAX_INT {
      AtoiOfDecimal(c);
    } else {
      AtoiTooBig(c);
      DecimalTrimmed(c);
    }
    var minus := "-" + Decimal(c);
    AtoiSigned(c);
    MinusTrimmed(c);
    assert table.Name() + ":" + minus == table.Name() + [':'] + minus;
    SplitAt(table.Name(), ':', minus);
    SplitWhole(minus, ':');
  }

  lemma DecimalTrimmed(n: nat)
    ensures TrimSpace(Decimal(n)) == Decimal(n)
  {
    var s := Decimal(n);
    assert IsDigit(s[0]) && IsDigit(s[|s| - 1]);
    NothingToTrim(s);
  }

  lemma MinusTrimmed(n: nat)
    ensures TrimSpace("-" + Decimal(n)) == "-" + Decimal(n)
  {
    var s := "-" + Decimal(n);
    assert s[|s| - 1] == Decimal(n)[|Decimal(n)| - 1] && IsDigit(s[|s| - 1]);
    NothingToTrim(s);
  }

  /** A spec has two or three parts, and its table is looked at before its number. */
  lemma ShapeExactly(s: string, raw: bool)
    ensures ParseSpec(s, raw) == Err(BadShape) <==> |Split(s, ':')| < 2 || |Split(s, ':')| > 3
    ensures 2 <= |Split(s, ':')| <= 3 && ParseTable(Split(s, ':')[0]).Err? ==> ParseSpec(s, raw) == Err(UnknownTable)
    ensures 2 <= |Split(s, ':')| <= 3 && ParseTable(Split(s, ':')[0]).Ok? ==>
              var n := Atoi(TrimSpace(Split(s, ':')[1]));
              (ParseSpec(s, raw) == Err(BadNumber) <==> n.None? || n.value < 0)
  {
    hide Split, TrimSpace, Atoi, Word;
  }
}
