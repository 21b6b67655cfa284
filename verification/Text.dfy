/** The few string operations the address and literal grammars rest on: splitting, trimming,
    lower-casing for comparison with ASCII words, and decimal integers. */
module Text {
  import opened Wrappers

  /** unicode.IsSpace */
  predicate IsSpace(c: char)
  {
    c in "\t\n\U{000B}\U{000C}\r \U{0085}\U{00A0}\U{1680}\U{2028}\U{2029}\U{202F}\U{205F}\U{3000}"
    || '\U{2000}' <= c <= '\U{200A}'
  }

  function TrimLeft(s: string): string
  {
    if s != [] && IsSpace(s[0]) then TrimLeft(s[1..]) else s
  }

  function TrimRight(s: string): string
  {
    if s != [] && IsSpace(s[|s| - 1]) then TrimRight(s[..|s| - 1]) else s
  }

  function TrimSpace(s: string): string { TrimRight(TrimLeft(s)) }

  lemma NothingToTrim(s: string)
    requires s != [] ==> !IsSpace(s[0]) && !IsSpace(s[|s| - 1])
    ensures TrimSpace(s) == s
  {
  }

  lemma SpaceCodes(c: char)
    ensures IsSpace(c) <==>
            var n := c as int;
            || 9 <= n <= 13 || n == 0x20 || n == 0x85 || n == 0xA0 || n == 0x1680 || 0x2000 <= n <= 0x200A
            || n == 0x2028 || n == 0x2029 || n == 0x202F || n == 0x205F || n == 0x3000
  {
  }

  predicate Blank(s: string) { forall i | 0 <= i < |s| :: IsSpace(s[i]) }

  predicate Tight(s: string) { s == [] || (!IsSpace(s[0]) && !IsSpace(s[|s| - 1])) }

  lemma {:induction false} TrimLeftExactly(a: string, s: string)
    requires Blank(a) && (s == [] || !IsSpace(s[0]))
    ensures TrimLeft(a + s) == s
  {
    if a == [] {
      assert a + s == s;
    } else {
      assert (a + s)[1..] == a[1..] + s;
      TrimLeftExactly(a[1..], s);
    }
  }

  lemma {:induction false} TrimRightExactly(s: string, b: string)
    requires Blank(b) && (s == [] || !IsSpace(s[|s| - 1]))
    ensures TrimRight(s + b) == s
  {
    if b == [] {
      assert s + b == s;
    } else {
      assert (s + b)[..|s + b| - 1] == s + b[..|b| - 1];
      TrimRightExactly(s, b[..|b| - 1]);
    }
  }

  /** White space around a text without any at its ends, and nothing else, is removed. */
  lemma TrimExactly(a: string, s: string, b: string)
    requires Blank(a) && Blank(b) && Tight(s)
    ensures TrimSpace(a + s + b) == s
  {
    if s == [] {
      assert a + s + b == (a + b) + [];
      TrimLeftExactly(a + b, []);
    } else {
      assert a + s + b == a + (s + b);
      TrimLeftExactly(a, s + b);
      TrimRightExactly(s, b);
    }
  }

  lemma {:induction false} LeftTrimmed(s: string) returns (a: string)
    ensures Blank(a) && s == a + TrimLeft(s) && (TrimLeft(s) == [] || !IsSpace(TrimLeft(s)[0]))
  {
    hide IsSpace;
    if s != [] && IsSpace(s[0]) {
      var a' := LeftTrimmed(s[1..]);
      a := [s[0]] + a';
      assert s == [s[0]] + s[1..];
    } else {
      a := [];
    }
  }

  lemma {:induction false} RightTrimmed(s: string) returns (b: string)
    ensures Blank(b) && s == TrimRight(s) + b && (TrimRight(s) == [] || !IsSpace(TrimRight(s)[|TrimRight(s)| - 1]))
  {
    hide IsSpace;
    if s != [] && IsSpace(s[|s| - 1]) {
      var b' := RightTrimmed(s[..|s| - 1]);
      b := b' + [s[|s| - 1]];
      assert s == s[..|s| - 1] + [s[|s| - 1]];
    } else {
      b := [];
    }
  }

  /** Every string is its trimmed text with white space around it. */
  lemma TrimShape(s: string) returns (a: string, b: string)
    ensures Blank(a) && Blank(b) && Tight(TrimSpace(s)) && s == a + TrimSpace(s) + b
  {
    hide IsSpace, TrimLeft, TrimRight;
    a := LeftTrimmed(s);
    b := RightTrimmed(TrimLeft(s));
    assert TrimLeft(s) == TrimSpace(s) + b;
    assert TrimSpace(s) != [] ==> TrimSpace(s)[0] == TrimLeft(s)[0];
    assert s == a + (TrimSpace(s) + b);
  }

  /** unicode.ToLower where its result is an ASCII letter: the capitals, and the two code points
      outside ASCII that Go folds onto one. Other characters never match an ASCII word. */
  function LowerChar(c: char): char
  {
    if 'A' <= c <= 'Z' then (c as int - 'A' as int + 'a' as int) as char
    else if c == '\U{0130}' then 'i'
    else if c == '\U{212A}' then 'k'
    else c
  }

  function Lower(s: string): (r: string)
    ensures |r| == |s|
  {
    seq(|s|, i requires 0 <= i < |s| => LowerChar(s[i]))
  }

  /** A spelling of a word in which each letter may be a capital. */
  predicate AnyCase(s: string, word: string)
  {
    |s| == |word| && forall i | 0 <= i < |s| :: s[i] == word[i] || ('A' <= s[i] <= 'Z' && s[i] as int + 32 == word[i] as int)
  }

  predicate NoCapitals(word: string) { forall i | 0 <= i < |word| :: word[i] as int < 128 && !('A' <= word[i] <= 'Z') }

  lemma AnyCaseLowers(s: string, word: string)
    requires AnyCase(s, word) && NoCapitals(word)
    ensures Lower(s) == word
  {
  }

  /** Of a word without i and k there is no other spelling. */
  lemma LowersExactly(s: string, word: string)
    requires NoCapitals(word) && 'i' !in word && 'k' !in word
    ensures Lower(s) == word <==> AnyCase(s, word)
  {
    if Lower(s) == word {
      forall i | 0 <= i < |s| ensures s[i] == word[i] || ('A' <= s[i] <= 'Z' && s[i] as int + 32 == word[i] as int) {
        assert Lower(s)[i] == LowerChar(s[i]) && word[i] in word;
      }
    }
  }

  /** The words as lower-cased, trimmed input is compared with. */
  function Word(s: string): string { Lower(TrimSpace(s)) }

  function Split(s: string, sep: char): (parts: seq<string>)
    ensures |parts| >= 1
  {
    if s == [] then [""]
    else
      var parts := Split(s[1..], sep);
      if s[0] == sep then [""] + parts else [[s[0]] + parts[0]] + parts[1..]
  }

  lemma {:induction false} SplitAt(a: string, sep: char, b: string)
    requires sep !in a
    ensures Split(a + [sep] + b, sep) == [a] + Split(b, sep)
  {
    var s := a + [sep] + b;
    if a == [] {
      assert s[1..] == b && a == "";
    } else {
      assert s[1..] == a[1..] + [sep] + b;
      SplitAt(a[1..], sep, b);
      assert a[0] in a && [s[0]] + a[1..] == a;
    }
  }

  lemma {:induction false} SplitWhole(a: string, sep: char)
    requires sep !in a
    ensures Split(a, sep) == [a]
  {
    if a != [] {
      SplitWhole(a[1..], sep);
      assert [a[0]] + a[1..] == a;
    }
  }

  // ---- Decimal integers ----

  predicate IsDigit(c: char) { '0' <= c <= '9' }

  function DigitChar(d: nat): (c: char)
    requires d < 10
    ensures IsDigit(c)
  {
    ('0' as int + d) as char
  }

  function DigitValue(c: char): nat
    requires IsDigit(c)
  {
    c as int - '0' as int
  }

  /** `%d` of a natural number. */
  function Decimal(n: nat): (s: string)
    ensures |s| > 0 && forall c | c in s :: IsDigit(c)
  {
    if n < 10 then [DigitChar(n)] else Decimal(n / 10) + [DigitChar(n % 10)]
  }

  function DigitsValue(s: string): nat
    requires forall c | c in s :: IsDigit(c)
  {
    if s == [] then 0 else 10 * DigitsValue(s[..|s| - 1]) + DigitValue(s[|s| - 1])
  }

  const MAX_INT := 0x7FFF_FFFF_FFFF_FFFF

  predicate AllDigits(s: string) { s != [] && forall c | c in s :: IsDigit(c) }

  /** strconv.Atoi: an optional sign and decimal digits, within 64 bits. */
  function Atoi(s: string): Option<int>
  {
    if s != [] && (s[0] == '+' || s[0] == '-') then
      if !AllDigits(s[1..]) then None else
      InRange(if s[0] == '-' then 0 - DigitsValue(s[1..]) as int else DigitsValue(s[1..]))
    else if AllDigits(s) then InRange(DigitsValue(s))
    else None
  }

  function InRange(n: int): Option<int>
  {
    if -MAX_INT - 1 <= n <= MAX_INT then Some(n) else None
  }

  lemma {:induction false} DecimalValue(n: nat)
    ensures DigitsValue(Decimal(n)) == n
  {
    if n >= 10 {
      DecimalValue(n / 10);
      assert Decimal(n)[..|Decimal(n)| - 1] == Decimal(n / 10);
    }
  }

  lemma AtoiOfDecimal(n: nat)
    requires n <= MAX_INT
    ensures Atoi(TrimSpace(Decimal(n))) == Some(n)
  {
    var s := Decimal(n);
    assert IsDigit(s[0]) && IsDigit(s[|s| - 1]);
    NothingToTrim(s);
    DecimalValue(n);
  }

  /** Past 64 bits there is no number. */
  lemma AtoiTooBig(n: nat)
    requires n > MAX_INT
    ensures Atoi(Decimal(n)) == None
  {
    DecimalValue(n);
    assert IsDigit(Decimal(n)[0]);
  }

  lemma AtoiSigned(n: nat)
    ensures Atoi("+" + Decimal(n)) == if n <= MAX_INT then Some(n) else None
    ensures Atoi("-" + Decimal(n)) == if n <= MAX_INT + 1 then Some(0 - n as int) else None
  {
    DecimalValue(n);
    assert ("+" + Decimal(n))[1..] == Decimal(n) && ("-" + Decimal(n))[1..] == Decimal(n);
  }

  /** A sign alone, nothing at all, and anything with a character that is neither a digit nor a leading
      sign are not numbers. */
  lemma AtoiRefuses(s: string, i: nat)
    requires s == [] || s == "+" || s == "-"
             || (i < |s| && !('0' <= s[i] <= '9') && (i > 0 || (s[0] != '+' && s[0] != '-')))
    ensures Atoi(s) == None
  {
    if i < |s| {
      assert s[i] in s && !IsDigit(s[i]);
      if i > 0 {
        assert s[1..][i - 1] == s[i] && s[i] in s[1..];
      }
    }
    assert |s| == 1 ==> s[1..] == [];
  }
}
