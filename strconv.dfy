/**
 * Go's `strconv.Atoi` (64-bit `int`) and `strconv.ParseInt(s, 0, bitSize)`,
 * modelled on mathematical integers. `None` stands for every returned error
 * (syntax or range); the parser turns each of them into 0.
 */
module GoStrconv {
  import opened Common

  function Pow2(n: nat): (r: nat)
    ensures r >= 1
  {
    if n == 0 then 1 else 2 * Pow2(n - 1)
  }

  const MaxInt64: int := 0x7fff_ffff_ffff_ffff
  const MinInt64: int := -0x8000_0000_0000_0000

  predicate IsDigit(c: char) { '0' <= c <= '9' }

  /** Go's `lower`: ASCII letters folded to lower case. */
  function Lower(c: char): char {
    if 'A' <= c <= 'Z' then (c as int + 32) as char else c
  }

  /** The value of a digit or letter in bases up to 36, as `ParseUint` reads it; 36 for anything else. */
  function DigitValue(c: char): (d: nat)
    ensures d <= 36
  {
    if IsDigit(c) then c as int - '0' as int
    else if 'a' <= Lower(c) <= 'z' then Lower(c) as int - 'a' as int + 10
    else 36
  }

  /** Value of `ds` in `base`, skipping underscores; `None` on a digit outside the base. */
  function DigitsValue(ds: string, base: nat): (r: Option<nat>)
    requires 2 <= base <= 36
  {
    if ds == [] then Some(0)
    else
      match DigitsValue(ds[..|ds| - 1], base)
      case None => None
      case Some(n) =>
        var c := ds[|ds| - 1];
        if c == '_' then Some(n)
        else if DigitValue(c) >= base then None
        else Some(n * base + DigitValue(c))
  }

  /**
   * Go's `underscoreOK`: underscores may only separate digits (a base prefix
   * counts as a digit). `saw` is '^' at the start, '0' after a digit or
   * prefix, '_' after an underscore, '!' after anything else.
   */
  function UnderscoreScan(s: string, i: nat, hex: bool, saw: char): bool
    requires i <= |s|
    decreases |s| - i
  {
    if i == |s| then saw != '_'
    else
      var c := s[i];
      if IsDigit(c) || (hex && 'a' <= Lower(c) <= 'f') then UnderscoreScan(s, i + 1, hex, '0')
      else if c == '_' then saw == '0' && UnderscoreScan(s, i + 1, hex, '_')
      else if saw == '_' then false
      else UnderscoreScan(s, i + 1, hex, '!')
  }

  function UnderscoreOK(s0: string): bool {
    var s := if |s0| >= 1 && (s0[0] == '-' || s0[0] == '+') then s0[1..] else s0;
    if |s| >= 2 && s[0] == '0' && Lower(s[1]) in {'b', 'o', 'x'} then
      UnderscoreScan(s, 2, Lower(s[1]) == 'x', '0')
    else UnderscoreScan(s, 0, false, '^')
  }

  /** The base `ParseUint` picks for base 0, and the digits that follow the prefix. */
  function BasePrefix(s: string): (r: (nat, string))
    requires s != ""
    ensures 2 <= r.0 <= 16
  {
    if s[0] != '0' then (10, s)
    else if |s| >= 3 && Lower(s[1]) == 'b' then (2, s[2..])
    else if |s| >= 3 && Lower(s[1]) == 'o' then (8, s[2..])
    else if |s| >= 3 && Lower(s[1]) == 'x' then (16, s[2..])
    else (8, s[1..])
  }

  /** `ParseUint(s, 0, _)` before its range check: syntax and unbounded value. */
  function ParseUnsigned0(s: string): (r: Option<nat>) {
    if s == "" then None
    else
      var (base, ds) := BasePrefix(s);
      match DigitsValue(ds, base)
      case None => None
      case Some(n) => if '_' in ds && !UnderscoreOK(s) then None else Some(n)
  }

  /**
   * `strconv.ParseInt(s, 0, bitSize)`: an optional sign, then a literal
   * whose base follows its prefix; the value must fit a signed `bitSize`-bit
   * integer.
   */
  function ParseInt0(s: string, bitSize: nat): (r: Option<int>)
    requires 2 <= bitSize <= 64
    ensures r.Some? ==> -(Pow2(bitSize - 1) as int) <= r.value < Pow2(bitSize - 1)
    ensures s == "" ==> r.None?
  {
    if s == "" then None
    else
      var neg := s[0] == '-';
      var body := if s[0] == '+' || s[0] == '-' then s[1..] else s;
      match ParseUnsigned0(body)
      case None => None
      case Some(u) =>
        var cutoff := Pow2(bitSize - 1);
        if !neg && u >= cutoff then None
        else if neg && u > cutoff then None
        else Some(if neg then -(u as int) else u as int)
  }

  /** Digits all below the base always have a value. */
  lemma {:induction false} DigitsValueSome(ds: string, base: nat)
    requires 2 <= base <= 36 && forall k :: 0 <= k < |ds| ==> DigitValue(ds[k]) < base
    ensures DigitsValue(ds, base).Some?
  {
    if ds != [] {
      DigitsValueSome(ds[..|ds| - 1], base);
    }
  }

  /**
   * The prefixes of a literal without underscores and the base each picks:
   * none for decimal digits not starting with 0, `0` for octal digits (none
   * at all in `"0"`), and `0b`, `0o` or `0x` before at least one digit.
   */
  predicate LiteralForm(prefix: string, base: nat, ds: string) {
    || (prefix == "" && base == 10 && ds != "" && ds[0] != '0')
    || (prefix == "0" && base == 8)
    || (ds != "" && ((prefix == "0b" && base == 2) || (prefix == "0o" && base == 8) || (prefix == "0x" && base == 16)))
  }

  /** The unsigned part of a literal: its prefix picks the base of its digits. */
  lemma UnsignedLiteral(prefix: string, base: nat, ds: string)
    requires 2 <= base <= 36 && forall k :: 0 <= k < |ds| ==> DigitValue(ds[k]) < base
    requires LiteralForm(prefix, base, ds)
    ensures DigitsValue(ds, base).Some?
    ensures ParseUnsigned0(prefix + ds) == DigitsValue(ds, base)
  {
    DigitsValueSome(ds, base);
    var body := prefix + ds;
    assert '_' !in ds by {
      forall k | 0 <= k < |ds| ensures ds[k] != '_' {
        assert DigitValue(ds[k]) < base;
      }
    }
    if prefix == "" {
      assert body == ds;
    } else if prefix == "0" {
      assert body[0] == '0' && body[1..] == ds;
      if |body| >= 3 {
        assert body[1] == ds[0] && DigitValue(ds[0]) < 8;
      }
    } else {
      assert body[0] == '0' && body[1] == prefix[1] && |body| >= 3 && body[2..] == ds;
    }
    assert BasePrefix(body) == (base, ds);
  }

  /** A sign in front of an unsigned literal negates it, within the range of `bitSize` bits. */
  lemma SignedLiteral(sign: string, body: string, bitSize: nat)
    requires 2 <= bitSize <= 64
    requires sign == "" || sign == "+" || sign == "-"
    requires body != "" && body[0] != '+' && body[0] != '-' && ParseUnsigned0(body).Some?
    ensures var v := ParseUnsigned0(body).value; var cutoff := Pow2(bitSize - 1);
      ParseInt0(sign + body, bitSize) ==
        if sign == "-" then (if v <= cutoff then Some(-(v as int)) else None)
        else if v < cutoff then Some(v as int) else None
  {
    var lit := sign + body;
    if sign == "" {
      assert lit == body;
    } else {
      assert lit[0] == sign[0] && lit[1..] == body;
    }
  }

  /**
   * Every literal `ParseInt(s, 0, bitSize)` accepts, apart from those with
   * underscores and the upper-case prefixes `0B`, `0O` and `0X`: an
   * optional sign, then decimal digits not starting with 0, or `0` followed
   * by octal digits (`"0"` itself and `"017"`, which is 15), or `0b`, `0o`
   * or `0x` followed by at least one digit of that base. It parses to its
   * value, negated after a '-', exactly when that fits a signed
   * `bitSize`-bit integer.
   */
  lemma ParseInt0Literal(sign: string, prefix: string, base: nat, ds: string, bitSize: nat)
    requires 2 <= bitSize <= 64
    requires sign == "" || sign == "+" || sign == "-"
    requires 2 <= base <= 36 && forall k :: 0 <= k < |ds| ==> DigitValue(ds[k]) < base
    requires LiteralForm(prefix, base, ds)
    ensures DigitsValue(ds, base).Some?
    ensures var v := DigitsValue(ds, base).value; var cutoff := Pow2(bitSize - 1);
      ParseInt0(sign + prefix + ds, bitSize) ==
        if sign == "-" then (if v <= cutoff then Some(-(v as int)) else None)
        else if v < cutoff then Some(v as int) else None
  {
    UnsignedLiteral(prefix, base, ds);
    var body := prefix + ds;
    ConcatAssoc(sign, prefix, ds);
    assert sign + prefix + ds == sign + body;
    assert ParseUnsigned0(body) == DigitsValue(ds, base);
    assert body != "" && body[0] != '+' && body[0] != '-' by {
      if prefix == "" {
        assert body[0] == ds[0] && DigitValue(ds[0]) < 10;
      } else {
        assert body[0] == prefix[0] == '0';
      }
    }
    SignedLiteral(sign, body, bitSize);
  }

  /** The decimal value of a string of digits. */
  function DecimalValue(ds: string): (n: nat)
    requires forall k :: 0 <= k < |ds| ==> IsDigit(ds[k])
  {
    if ds == [] then 0 else DecimalValue(ds[..|ds| - 1]) * 10 + DigitValue(ds[|ds| - 1])
  }

  /** `strconv.Atoi` with a 64-bit `int`: optional sign, decimal digits, in range. */
  function Atoi(s: string): (r: Option<int>)
    ensures r.Some? ==> MinInt64 <= r.value <= MaxInt64
    ensures r.Some? ==> s != ""
    ensures r.Some? && s[0] != '-' ==> r.value >= 0
  {
    var neg := |s| > 0 && s[0] == '-';
    var ds := if |s| > 0 && (s[0] == '+' || s[0] == '-') then s[1..] else s;
    if ds == [] || exists k | 0 <= k < |ds| :: !IsDigit(ds[k]) then None
    else
      var v: int := if neg then -(DecimalValue(ds) as int) else DecimalValue(ds);
      if MinInt64 <= v <= MaxInt64 then Some(v) else None
  }

  /** Without a sign, a run of digits reads back as its decimal value or fails only by overflow. */
  lemma AtoiDigits(ds: string)
    requires ds != [] && forall k :: 0 <= k < |ds| ==> IsDigit(ds[k])
    ensures Atoi(ds) == if DecimalValue(ds) <= MaxInt64 then Some(DecimalValue(ds)) else None
  {
    assert IsDigit(ds[0]);
  }

  /** "+0x720", the stack offset of a Go frame, is 1824. */
  lemma HexOffsetExample()
    ensures ParseInt0("+0x720", 64) == Some(1824)
  {
    assert BasePrefix("0x720") == (16, "720");
    assert "720"[..2] == "72" && "72"[..1] == "7" && "7"[..0] == "";
    assert DigitsValue("720", 16) == Some(1824);
  }

  /** A leading 0 means octal: "017" is 15, and "0" alone is 0. */
  lemma OctalExample()
    ensures ParseInt0("017", 64) == Some(15) && ParseInt0("0", 64) == Some(0)
  {
    assert BasePrefix("017") == (8, "17") && BasePrefix("0") == (8, "");
    assert "17"[..1] == "1" && "1"[..0] == "";
    assert DigitsValue("17", 8) == Some(15);
  }

  /** Signal code "0xffffffff" does not fit a signed 32-bit integer. */
  lemma SignalCodeOutOfRange()
    ensures ParseInt0("0xffffffff", 32).None?
  {
    assert BasePrefix("0xffffffff") == (16, "ffffffff");
    DigitsAllF(8);
    assert "ffffffff" == AllF(8);
    assert '_' !in "ffffffff";
    assert ParseUnsigned0("0xffffffff") == Some(Pow16(8) - 1);
    assert Pow16(8) == 0x1_0000_0000;
    Pow2Of31();
  }

  function AllF(n: nat): string { if n == 0 then "" else AllF(n - 1) + "f" }

  lemma {:induction false} DigitsAllF(n: nat)
    ensures DigitsValue(AllF(n), 16) == Some(Pow16(n) - 1)
  {
    if n > 0 {
      DigitsAllF(n - 1);
      assert AllF(n)[..|AllF(n)| - 1] == AllF(n - 1);
    }
  }

  function Pow16(n: nat): nat { if n == 0 then 1 else 16 * Pow16(n - 1) }

  lemma {:induction false} Pow2Sum(a: nat, b: nat)
    ensures Pow2(a + b) == Pow2(a) * Pow2(b)
  {
    if a > 0 { Pow2Sum(a - 1, b); }
  }

  lemma Pow2Of31()
    ensures Pow2(31) == 0x8000_0000
  {
    assert Pow2(8) == 256;
    Pow2Sum(8, 8);
    Pow2Sum(16, 8);
    Pow2Sum(24, 7);
    assert Pow2(7) == 128;
  }

  lemma Pow2Of63()
    ensures Pow2(63) == 0x8000_0000_0000_0000
  {
    Pow2Of31();
    Pow2Sum(31, 1);
    Pow2Sum(31, 32);
  }
}
