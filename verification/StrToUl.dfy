/**
 The two integer parsers lib/libc/legacy/strtoul.c and lib/libc/legacy/strtoull.c with 64-bit longs,
 both measured against the subject sequence of section 7.22.1.4 of ISO C11: the longest initial part
 of the text, after white space and a sign, that has the form of a number in the given base.

 A C string is a buffer whose last character is NUL. Verified indices are the proof that neither
 parser reads past it. Pointers are indices, and `errno` is a result.
 */
module StrToUl {
  import opened Common

  const ULONG_MAX: nat := 0xFFFF_FFFF_FFFF_FFFF

  datatype Errno = Unset | EINVAL | ERANGE

  datatype Outcome = Outcome(value: nat, end: nat, errno: Errno)

  type Buffer = b: seq<char> | |b| > 0 && b[|b| - 1] == '\0' witness ['\0']

  predicate IsSpace(c: char) {
    c == ' ' || '\t' <= c <= '\r'
  }

  /** The value of a digit in base 36; 36 for any other character. */
  function Digit(c: char): (d: nat)
    ensures d <= 36
  {
    if '0' <= c <= '9' then c as int - '0' as int
    else if 'a' <= c <= 'z' then c as int - 'a' as int + 10
    else if 'A' <= c <= 'Z' then c as int - 'A' as int + 10
    else 36
  }

  predicate BadBase(base: int) {
    base != 0 && !(2 <= base <= 36)
  }

  // ----- The number in a text, after ISO C11 ---------------------------------------------------

  predicate Digits(t: seq<char>, radix: int) {
    t != [] && forall c | c in t :: Digit(c) < radix
  }

  predicate HexNumeral(t: seq<char>) {
    |t| > 2 && t[0] == '0' && (t[1] == 'x' || t[1] == 'X') && Digits(t[2..], 16)
  }

  /** The expected form of a subject sequence, without its sign. */
  predicate Numeral(t: seq<char>, base: int) {
    if base == 0 then (Digits(t, 10) && t[0] != '0') || (Digits(t, 8) && t[0] == '0') || HexNumeral(t)
    else if base == 16 then Digits(t, 16) || HexNumeral(t)
    else Digits(t, base)
  }

  function Value(t: seq<char>, radix: nat): nat
    decreases |t|
  {
    if t == [] then 0 else Value(t[..|t| - 1], radix) * radix + Digit(t[|t| - 1])
  }

  function NumeralValue(t: seq<char>, base: nat): nat {
    if (base == 0 || base == 16) && HexNumeral(t) then Value(t[2..], 16)
    else if base == 0 then Value(t, if t != [] && t[0] == '0' then 8 else 10)
    else Value(t, base)
  }

  function SkipSpace(b: Buffer, i: nat): (j: nat)
    requires i < |b|
    ensures i <= j < |b| && !IsSpace(b[j]) && forall k | i <= k < j :: IsSpace(b[k])
    decreases |b| - i
  {
    if IsSpace(b[i]) then SkipSpace(b, i + 1) else i
  }

  function AfterSign(b: Buffer, s: nat): (q: nat)
    requires s < |b|
    ensures s <= q < |b|
  {
    if b[s] == '-' || b[s] == '+' then s + 1 else s
  }

  function NumberStart(b: Buffer): (q: nat)
    ensures q < |b|
  {
    AfterSign(b, SkipSpace(b, 0))
  }

  ghost predicate NoNumeral(b: Buffer, q: nat, base: int) {
    forall e | q <= e <= |b| :: !Numeral(b[q..e], base)
  }

  ghost predicate Longest(b: Buffer, q: nat, e: nat, base: int) {
    && q <= e <= |b| && Numeral(b[q..e], base)
    && forall x | e < x <= |b| :: !Numeral(b[q..x], base)
  }

  /** What is returned for a number: clamped, or else negated modulo 2^64 after a minus sign. */
  function Converted(v: nat, negative: bool): nat {
    if v > ULONG_MAX then ULONG_MAX
    else if negative then (ULONG_MAX + 1 - v) % (ULONG_MAX + 1)
    else v
  }

  /** The returned value and end pointer are those that section 7.22.1.4 of ISO C11 asks for. */
  ghost predicate Meets(b: Buffer, base: nat, value: nat, end: nat) {
    var s := SkipSpace(b, 0);
    var q := AfterSign(b, s);
    if NoNumeral(b, q, base) then value == 0 && end == 0
    else exists e: nat :: Longest(b, q, e, base) && end == e
                     && value == Converted(NumeralValue(b[q..e], base), b[s] == '-')
  }

  // ----- What each parser computes -------------------------------------------------------------

  predicate HexPrefix(b: Buffer, q: nat)
    requires q < |b|
  {
    b[q] == '0' && (b[q + 1] == 'x' || b[q + 1] == 'X')
  }

  /** "0x" without a hexadecimal digit after it. */
  predicate Dangling(b: Buffer, q: nat, base: int)
    requires q < |b|
  {
    (base == 0 || base == 16) && HexPrefix(b, q) && Digit(b[q + 2]) >= 16
  }

  /** In base 0, a zero that is neither a prefix nor followed by an octal digit. */
  predicate LoneZero(b: Buffer, q: nat, base: int)
    requires q < |b|
  {
    base == 0 && b[q] == '0' && !HexPrefix(b, q) && Digit(b[q + 1]) >= 8
  }

  datatype Start = Start(radix: nat, digits: nat)

  function StandardStart(b: Buffer, q: nat, base: nat): (r: Start)
    requires q < |b| && !BadBase(base)
    ensures q <= r.digits < |b| && 2 <= r.radix <= 36
  {
    if (base == 0 || base == 16) && HexPrefix(b, q) && Digit(b[q + 2]) < 16 then Start(16, q + 2)
    else if base == 0 then Start(if b[q] == '0' then 8 else 10, q)
    else Start(base, q)
  }

  /** strtoul takes the prefix whatever follows it. */
  function LongStart(b: Buffer, q: nat, base: nat): (r: Start)
    requires q < |b| && !BadBase(base)
    ensures q <= r.digits < |b| && 2 <= r.radix <= 36
  {
    if (base == 0 || base == 16) && HexPrefix(b, q) then Start(16, q + 2)
    else if base == 0 then Start(if b[q] == '0' then 8 else 10, q)
    else Start(base, q)
  }

  /** strtoull steps over the zero that says octal, and reads a dangling prefix in base 10. */
  function LongLongStart(b: Buffer, q: nat, base: nat): (r: Start)
    requires q < |b| && !BadBase(base)
    ensures q <= r.digits < |b| && 2 <= r.radix <= 36
  {
    if (base == 0 || base == 16) && HexPrefix(b, q) && Digit(b[q + 2]) < 16 then Start(16, q + 2)
    else if base == 0 && HexPrefix(b, q) then Start(10, q)
    else if base == 0 then (if b[q] == '0' then Start(8, q + 1) else Start(10, q))
    else Start(base, q)
  }

  function DigitsEnd(b: Buffer, i: nat, radix: nat): (j: nat)
    requires i < |b| && radix <= 36
    ensures i <= j < |b| && Digit(b[j]) >= radix && forall k | i <= k < j :: Digit(b[k]) < radix
    decreases |b| - i
  {
    if Digit(b[i]) < radix then DigitsEnd(b, i + 1, radix) else i
  }

  function Range(v: nat): Errno {
    if v > ULONG_MAX then ERANGE else Unset
  }

  function LongAnswer(v: nat, negative: bool, d: nat, e: nat): Outcome {
    if e == d then Outcome(0, 0, EINVAL) else Outcome(Converted(v, negative), e, Range(v))
  }

  /** What strtoull makes of a number it reads from `d` to `e`, with the first character after white space at `s`. */
  function LongLongAnswer(v: nat, negative: bool, s: nat, d: nat, e: nat): Outcome {
    if s < e == d then Outcome(0, 0, EINVAL)
    else Outcome(Converted(v, negative), if e == s then 0 else e, Range(v))
  }

  function Long(b: Buffer, base: int): Outcome {
    if BadBase(base) then Outcome(0, 0, EINVAL)
    else
      var s := SkipSpace(b, 0);
      var start := LongStart(b, AfterSign(b, s), base);
      var e := DigitsEnd(b, start.digits, start.radix);
      var v := Value(b[start.digits..e], start.radix);
      LongAnswer(v, b[s] == '-', start.digits, e)
  }

  function LongLong(b: Buffer, base: int): Outcome {
    if BadBase(base) then Outcome(0, 0, EINVAL)
    else
      var s := SkipSpace(b, 0);
      var start := LongLongStart(b, AfterSign(b, s), base);
      var e := DigitsEnd(b, start.digits, start.radix);
      var v := Value(b[start.digits..e], start.radix);
      LongLongAnswer(v, b[s] == '-', s, start.digits, e)
  }

  // ----- The longest number --------------------------------------------------------------------

  lemma SliceDigits(b: Buffer, i: nat, x: nat, radix: nat)
    requires i < x <= |b| && radix <= 36
    ensures Digits(b[i..x], radix) <==> x <= DigitsEnd(b, i, radix)
  {
    var e := DigitsEnd(b, i, radix);
    if e < x {
      assert b[i..x][e - i] == b[e] && b[e] in b[i..x];
    } else {
      forall c | c in b[i..x] ensures Digit(c) < radix {
        var k :| i <= k < x && b[k] == c;
      }
    }
  }

  lemma SliceHex(b: Buffer, q: nat, x: nat)
    requires q < |b| && q <= x <= |b|
    ensures HexNumeral(b[q..x]) <==>
            q + 2 < x && HexPrefix(b, q) && x <= DigitsEnd(b, q + 2, 16)
  {
    if q + 2 < x {
      assert b[q..x][2..] == b[q + 2..x];
      SliceDigits(b, q + 2, x, 16);
    }
  }

  /** Which texts are numbers, by where the digits end. */
  lemma SliceNumeral(b: Buffer, q: nat, x: nat, base: nat)
    requires q < |b| && q <= x <= |b| && !BadBase(base)
    ensures var r := StandardStart(b, q, base);
            Numeral(b[q..x], base) ==>
              x <= DigitsEnd(b, r.digits, r.radix) && r.digits < DigitsEnd(b, r.digits, r.radix)
    ensures var r := StandardStart(b, q, base);
            x == DigitsEnd(b, r.digits, r.radix) > r.digits ==> Numeral(b[q..x], base)
  {
    if q < x {
      SliceHex(b, q, x);
      SliceDigits(b, q, x, 8);
      SliceDigits(b, q, x, 10);
      SliceDigits(b, q, x, 16);
      if base > 0 {
        SliceDigits(b, q, x, base);
      }
    }
  }

  lemma StandardReading(b: Buffer, q: nat, base: nat)
    requires q < |b| && !BadBase(base)
    ensures var r := StandardStart(b, q, base);
            var e := DigitsEnd(b, r.digits, r.radix);
            if e == r.digits then NoNumeral(b, q, base)
            else Longest(b, q, e, base) && NumeralValue(b[q..e], base) == Value(b[r.digits..e], r.radix)
  {
    var r := StandardStart(b, q, base);
    var e := DigitsEnd(b, r.digits, r.radix);
    forall x | q <= x <= |b| ensures Numeral(b[q..x], base) ==> x <= e && r.digits < e {
      SliceNumeral(b, q, x, base);
    }
    SliceNumeral(b, q, e, base);
    SliceHex(b, q, e);
    if r.digits == q + 2 {
      assert b[q..e][2..] == b[q + 2..e];
    }
  }

  /** ISO C11 leaves exactly one answer, the one read off the standard start. */
  lemma MeetsIff(b: Buffer, base: nat, value: nat, end: nat)
    requires !BadBase(base)
    ensures var s := SkipSpace(b, 0);
            var r := StandardStart(b, AfterSign(b, s), base);
            var e := DigitsEnd(b, r.digits, r.radix);
            Meets(b, base, value, end) <==>
            if e == r.digits then value == 0 && end == 0
            else end == e && value == Converted(Value(b[r.digits..e], r.radix), b[s] == '-')
  {
    StandardReading(b, NumberStart(b), base);
  }

  // ----- Where the two parsers agree, with ISO C11 and with each other --------------------------

  lemma ZeroIsDigit(b: Buffer, q: nat, radix: nat)
    requires q < |b| && b[q] == '0' && 2 <= radix <= 36 && Digit(b[q + 1]) >= radix
    ensures DigitsEnd(b, q, radix) == q + 1 && Value(b[q..q + 1], radix) == 0
  {
    assert b[q..q + 1] == ['0'];
    assert Value(['0'][..0], radix) == 0;
  }

  /** Without a dangling prefix, both step over the same digits as the standard. */
  lemma StartsAgree(b: Buffer, q: nat, base: nat)
    requires q < |b| && !BadBase(base)
    ensures !Dangling(b, q, base) ==> LongStart(b, q, base) == StandardStart(b, q, base)
    ensures !Dangling(b, q, base) && !(base == 0 && b[q] == '0') ==>
              LongLongStart(b, q, base) == StandardStart(b, q, base)
  {
  }

  lemma {:induction false} LeadingZero(t: seq<char>, radix: nat)
    ensures Value(['0'] + t, radix) == Value(t, radix)
    decreases |t|
  {
    if t == [] {
      assert ['0'] + t == ['0'] && ['0'][..0] == [];
    } else {
      var z := ['0'] + t;
      assert z[..|z| - 1] == ['0'] + t[..|t| - 1];
      LeadingZero(t[..|t| - 1], radix);
    }
  }

  /** Leaving out the octal zero does no harm when an octal digit follows. */
  lemma OctalZero(b: Buffer, q: nat)
    requires q < |b| && b[q] == '0' && Digit(b[q + 1]) < 8
    ensures DigitsEnd(b, q, 8) == DigitsEnd(b, q + 1, 8) > q + 1
    ensures Value(b[q..DigitsEnd(b, q, 8)], 8) == Value(b[q + 1..DigitsEnd(b, q, 8)], 8)
  {
    var e := DigitsEnd(b, q, 8);
    assert b[q..e] == ['0'] + b[q + 1..e];
    LeadingZero(b[q + 1..e], 8);
  }

  /** strtoul conforms to ISO C11 except on "0x" without a hexadecimal digit after it. */
  lemma LongMeetsIff(b: Buffer, base: nat)
    requires !BadBase(base)
    ensures Meets(b, base, Long(b, base).value, Long(b, base).end) <==> !Dangling(b, NumberStart(b), base)
  {
    var s, q := SkipSpace(b, 0), NumberStart(b);
    MeetsIff(b, base, Long(b, base).value, Long(b, base).end);
    StartsAgree(b, q, base);
    if Dangling(b, q, base) {
      var radix := if base == 0 then 8 else 16;
      ZeroIsDigit(b, q, radix);
      assert StandardStart(b, q, base) == Start(radix, q);
      assert DigitsEnd(b, q + 2, 16) == q + 2;
    }
  }

  /** What strtoull reads has the value and the end that the standard start has. */
  lemma LongLongReading(b: Buffer, q: nat, base: nat)
    requires q < |b| && !BadBase(base) && !LoneZero(b, q, base)
    ensures var r, l := StandardStart(b, q, base), LongLongStart(b, q, base);
            var e := DigitsEnd(b, r.digits, r.radix);
            && e == DigitsEnd(b, l.digits, l.radix)
            && (e == r.digits <==> e == l.digits)
            && Value(b[r.digits..e], r.radix) == Value(b[l.digits..e], l.radix)
  {
    StartsAgree(b, q, base);
    if base == 0 && b[q] == '0' {
      if Dangling(b, q, base) {
        ZeroIsDigit(b, q, 8);
        ZeroIsDigit(b, q, 10);
      } else if !HexPrefix(b, q) {
        OctalZero(b, q);
      }
    } else if Dangling(b, q, base) {
      assert LongLongStart(b, q, base) == StandardStart(b, q, base);
    }
  }

  lemma LoneZeroFails(b: Buffer, base: nat)
    requires LoneZero(b, NumberStart(b), base)
    ensures !Meets(b, base, LongLong(b, base).value, LongLong(b, base).end)
  {
    var q := NumberStart(b);
    ZeroIsDigit(b, q, 8);
    MeetsIff(b, base, LongLong(b, base).value, LongLong(b, base).end);
    assert StandardStart(b, q, base) == Start(8, q);
    assert LongLong(b, base).end == 0;
  }

  /** strtoull conforms to ISO C11 except, in base 0, on a zero without an octal digit after it. */
  lemma LongLongMeetsIff(b: Buffer, base: nat)
    requires !BadBase(base)
    ensures Meets(b, base, LongLong(b, base).value, LongLong(b, base).end) <==> !LoneZero(b, NumberStart(b), base)
  {
    if LoneZero(b, NumberStart(b), base) {
      LoneZeroFails(b, base);
    } else {
      LongLongReading(b, NumberStart(b), base);
      MeetsIff(b, base, LongLong(b, base).value, LongLong(b, base).end);
    }
  }

  lemma MeetsOnce(b: Buffer, base: nat, value: nat, end: nat, value': nat, end': nat)
    requires !BadBase(base) && Meets(b, base, value, end) && Meets(b, base, value', end')
    ensures value == value' && end == end'
  {
    MeetsIff(b, base, value, end);
    MeetsIff(b, base, value', end');
  }

  lemma NeverBoth(b: Buffer, q: nat, base: int)
    requires q < |b|
    ensures !(Dangling(b, q, base) && LoneZero(b, q, base))
  {
  }

  /** The two parsers return the same number and end pointer, except in those two cases. */
  lemma ParsersAgreeIff(b: Buffer, base: int)
    ensures Long(b, base).value == LongLong(b, base).value && Long(b, base).end == LongLong(b, base).end
            <==> !Dangling(b, NumberStart(b), base) && !LoneZero(b, NumberStart(b), base)
  {
    if !BadBase(base) {
      var l, m := Long(b, base), LongLong(b, base);
      LongMeetsIff(b, base);
      LongLongMeetsIff(b, base);
      NeverBoth(b, NumberStart(b), base);
      if Meets(b, base, l.value, l.end) && Meets(b, base, m.value, m.end) {
        MeetsOnce(b, base, l.value, l.end, m.value, m.end);
      }
    }
  }

  /** There is no number, not even a sign; strtoull then says nothing, and strtoul says EINVAL. */
  predicate NothingThere(b: Buffer, base: int) {
    var s := SkipSpace(b, 0);
    AfterSign(b, s) == s && Digit(b[s]) >= if base == 0 then 10 else base
  }

  lemma ErrnosAgreeIff(b: Buffer, base: int)
    requires !Dangling(b, NumberStart(b), base) && !LoneZero(b, NumberStart(b), base)
    ensures Long(b, base).errno == LongLong(b, base).errno <==> BadBase(base) || !NothingThere(b, base)
  {
    if !BadBase(base) {
      var q := NumberStart(b);
      StartsAgree(b, q, base);
      if base == 0 && b[q] == '0' && !HexPrefix(b, q) {
        OctalZero(b, q);
      }
      var l, m := LongStart(b, q, base), LongLongStart(b, q, base);
      var s, le, me := SkipSpace(b, 0), DigitsEnd(b, l.digits, l.radix), DigitsEnd(b, m.digits, m.radix);
      LongIs(b, base, s, l, le, Value(b[l.digits..le], l.radix));
      LongLongIs(b, base, s, m, me, Value(b[m.digits..me], m.radix));
    }
  }

  // ----- Writing a number and reading it back --------------------------------------------------

  function DigitChar(d: nat): (c: char)
    requires d < 36
    ensures Digit(c) == d
  {
    if d < 10 then ('0' as int + d) as char else ('a' as int + d - 10) as char
  }

  function High(n: nat, base: nat): (q: nat)
    requires n >= base >= 2
    ensures q < n
  {
    n / base
  }

  function Low(n: nat, base: nat): (r: nat)
    requires base > 0
    ensures r < base
  {
    n % base
  }

  function Written(n: nat, base: nat): (t: seq<char>)
    requires 2 <= base <= 36
    ensures t != []
    decreases n
  {
    if n < base then [DigitChar(n)] else Written(High(n, base), base) + [DigitChar(Low(n, base))]
  }

  lemma DigitsSnoc(t: seq<char>, c: char, radix: int)
    requires Digits(t, radix) && Digit(c) < radix
    ensures Digits(t + [c], radix)
  {
  }

  lemma {:induction false} WrittenDigits(n: nat, base: nat)
    requires 2 <= base <= 36
    ensures Digits(Written(n, base), base)
    decreases n
  {
    if n >= base {
      WrittenDigits(High(n, base), base);
      DigitsSnoc(Written(High(n, base), base), DigitChar(Low(n, base)), base);
    }
  }

  lemma ValueSnoc(t: seq<char>, c: char, radix: nat)
    ensures Value(t + [c], radix) == Value(t, radix) * radix + Digit(c)
  {
    assert (t + [c])[..|t|] == t;
  }

  lemma HighLow(n: nat, base: nat)
    requires n >= base >= 2
    ensures High(n, base) * base + Low(n, base) == n
  {
  }

  lemma {:induction false} WrittenValue(n: nat, base: nat)
    requires 2 <= base <= 36
    ensures Value(Written(n, base), base) == n
    decreases n
  {
    if n < base {
      ValueSnoc([], DigitChar(n), base);
      assert [] + [DigitChar(n)] == Written(n, base);
    } else {
      WrittenValue(High(n, base), base);
      ValueSnoc(Written(High(n, base), base), DigitChar(Low(n, base)), base);
      HighLow(n, base);
    }
  }

  /** Neither white space nor a sign nor a prefix stands in front of digits, and nothing after them. */
  lemma DigitsScan(t: seq<char>, base: nat, b: Buffer)
    requires 2 <= base <= 36 && Digits(t, base) && b == t + ['\0']
    ensures SkipSpace(b, 0) == 0 && NumberStart(b) == 0 && b[0] != '-' && (base == 16 ==> !HexPrefix(b, 0))
    ensures DigitsEnd(b, 0, base) == |t| && b[0..|t|] == t
  {
    forall k | 0 <= k < |t| ensures Digit(b[k]) < base {
      assert t[k] in t;
    }
  }

  /** Both parsers read back what was written, whatever the base; what is too large is clamped. */
  lemma ReadBack(n: nat, base: nat)
    requires 2 <= base <= 36
    ensures var b: Buffer := Written(n, base) + ['\0'];
            Long(b, base) == LongLong(b, base) == Outcome(if n > ULONG_MAX then ULONG_MAX else n, |b| - 1, Range(n))
  {
    var b: Buffer := Written(n, base) + ['\0'];
    WrittenDigits(n, base);
    WrittenValue(n, base);
    DigitsScan(Written(n, base), base, b);
    LongIs(b, base, 0, Start(base, 0), |b| - 1, n);
    LongLongIs(b, base, 0, Start(base, 0), |b| - 1, n);
  }

  // ----- Characters, white space, signs and case ------------------------------------------------

  function NextChar(c: char): char
    requires c <= 'z'
  {
    (c as int + 1) as char
  }

  /** Digits and letters of either case count up from 0 and from 10, and nothing else is a digit. */
  lemma DigitsInOrder(c: char)
    ensures Digit('0') == 0 && Digit('a') == Digit('A') == 10
    ensures '0' <= c < '9' || 'a' <= c < 'z' || 'A' <= c < 'Z' ==> Digit(NextChar(c)) == Digit(c) + 1
    ensures Digit(c) < 36 <==> '0' <= c <= '9' || 'a' <= c <= 'z' || 'A' <= c <= 'Z'
  {
  }

  /** The white space of section 7.4.1.10 of ISO C11. */
  predicate WhiteSpace(c: char) {
    c == ' ' || c == '\t' || c == '\n' || c == '\U{000B}' || c == '\U{000C}' || c == '\r'
  }

  lemma SpaceIsWhite(c: char)
    ensures IsSpace(c) <==> WhiteSpace(c)
  {
  }

  /** The second buffer has one more character in front. */
  predicate Behind(b: Buffer, r: Buffer) {
    |r| == |b| + 1 && forall k {:trigger b[k]} | 0 <= k < |b| :: r[k + 1] == b[k]
  }

  lemma {:induction false} SkipBehind(b: Buffer, r: Buffer, i: nat)
    requires Behind(b, r) && i < |b|
    ensures SkipSpace(r, i + 1) == SkipSpace(b, i) + 1
    decreases |b| - i
  {
    if IsSpace(b[i]) {
      SkipBehind(b, r, i + 1);
    }
  }

  lemma {:induction false} DigitsBehind(b: Buffer, r: Buffer, i: nat, radix: nat)
    requires Behind(b, r) && i < |b| && radix <= 36
    ensures DigitsEnd(r, i + 1, radix) == DigitsEnd(b, i, radix) + 1
    decreases |b| - i
  {
    if Digit(b[i]) < radix {
      DigitsBehind(b, r, i + 1, radix);
    }
  }

  /** The number behind one more character, wherever it starts. */
  lemma NumberBehind(b: Buffer, r: Buffer, radix: nat, d: nat, e: nat)
    requires Behind(b, r) && radix <= 36 && d < |b| && e == DigitsEnd(b, d, radix)
    ensures e + 1 == DigitsEnd(r, d + 1, radix) && Value(r[d + 1..e + 1], radix) == Value(b[d..e], radix)
  {
    DigitsBehind(b, r, d, radix);
    assert r[d + 1..e + 1] == b[d..e];
  }

  lemma LongStartBehind(b: Buffer, r: Buffer, q: nat, base: nat)
    requires Behind(b, r) && q < |b| && !BadBase(base)
    ensures var l := LongStart(b, q, base); LongStart(r, q + 1, base) == Start(l.radix, l.digits + 1)
  {
  }

  lemma LongLongStartBehind(b: Buffer, r: Buffer, q: nat, base: nat)
    requires Behind(b, r) && q < |b| && !BadBase(base)
    ensures var m := LongLongStart(b, q, base); LongLongStart(r, q + 1, base) == Start(m.radix, m.digits + 1)
  {
  }

  /** The end pointer with so many characters more in front. */
  function Further(end: nat, n: nat): nat {
    if end == 0 then 0 else end + n
  }

  lemma AnswerMoves(v: nat, negative: bool, s: nat, d: nat, e: nat)
    requires s <= d <= e
    ensures var o := LongAnswer(v, negative, d, e);
            LongAnswer(v, negative, d + 1, e + 1) == o.(end := Further(o.end, 1))
    ensures var o := LongLongAnswer(v, negative, s, d, e);
            LongLongAnswer(v, negative, s + 1, d + 1, e + 1) == o.(end := Further(o.end, 1))
  {
  }

  /** strtoul reads the same number behind one more character, if it starts behind it. */
  lemma LongReadsBehind(b: Buffer, r: Buffer, base: nat, s: nat, s': nat) returns (d: nat, e: nat, v: nat)
    requires Behind(b, r) && !BadBase(base) && s == SkipSpace(b, 0) && s' == SkipSpace(r, 0)
    requires AfterSign(r, s') == AfterSign(b, s) + 1
    ensures s <= d <= e
    ensures Long(b, base) == LongAnswer(v, b[s] == '-', d, e)
    ensures Long(r, base) == LongAnswer(v, r[s'] == '-', d + 1, e + 1)
  {
    var l := LongStart(b, AfterSign(b, s), base);
    d, e, v := l.digits, DigitsEnd(b, l.digits, l.radix), Value(b[l.digits..DigitsEnd(b, l.digits, l.radix)], l.radix);
    LongIs(b, base, s, l, e, v);
    LongReadsLater(b, r, base, AfterSign(b, s), s', l, e, v);
  }

  lemma LongReadsLater(b: Buffer, r: Buffer, base: nat, q: nat, s': nat, l: Start, e: nat, v: nat)
    requires Behind(b, r) && !BadBase(base) && s' == SkipSpace(r, 0) && AfterSign(r, s') == q + 1
    requires q < |b| && l == LongStart(b, q, base)
    requires e == DigitsEnd(b, l.digits, l.radix) && v == Value(b[l.digits..e], l.radix)
    ensures Long(r, base) == LongAnswer(v, r[s'] == '-', l.digits + 1, e + 1)
  {
    LongStartBehind(b, r, q, base);
    NumberBehind(b, r, l.radix, l.digits, e);
    LongIs(r, base, s', Start(l.radix, l.digits + 1), e + 1, v);
  }

  lemma LongLongReadsBehind(b: Buffer, r: Buffer, base: nat, s: nat, s': nat) returns (d: nat, e: nat, v: nat)
    requires Behind(b, r) && !BadBase(base) && s == SkipSpace(b, 0) && s' == SkipSpace(r, 0)
    requires AfterSign(r, s') == AfterSign(b, s) + 1
    ensures s <= d <= e
    ensures LongLong(b, base) == LongLongAnswer(v, b[s] == '-', s, d, e)
    ensures LongLong(r, base) == LongLongAnswer(v, r[s'] == '-', s', d + 1, e + 1)
  {
    var m := LongLongStart(b, AfterSign(b, s), base);
    d, e, v := m.digits, DigitsEnd(b, m.digits, m.radix), Value(b[m.digits..DigitsEnd(b, m.digits, m.radix)], m.radix);
    LongLongIs(b, base, s, m, e, v);
    LongLongReadsLater(b, r, base, AfterSign(b, s), s', m, e, v);
  }

  lemma LongLongReadsLater(b: Buffer, r: Buffer, base: nat, q: nat, s': nat, m: Start, e: nat, v: nat)
    requires Behind(b, r) && !BadBase(base) && s' == SkipSpace(r, 0) && AfterSign(r, s') == q + 1
    requires q < |b| && m == LongLongStart(b, q, base)
    requires e == DigitsEnd(b, m.digits, m.radix) && v == Value(b[m.digits..e], m.radix)
    ensures LongLong(r, base) == LongLongAnswer(v, r[s'] == '-', s', m.digits + 1, e + 1)
  {
    LongLongStartBehind(b, r, q, base);
    NumberBehind(b, r, m.radix, m.digits, e);
    LongLongIs(r, base, s', Start(m.radix, m.digits + 1), e + 1, v);
  }

  lemma BehindSpace(b: Buffer, r: Buffer, base: int)
    requires Behind(b, r) && IsSpace(r[0])
    ensures var o := Long(b, base); Long(r, base) == o.(end := Further(o.end, 1))
    ensures var o := LongLong(b, base); LongLong(r, base) == o.(end := Further(o.end, 1))
  {
    if !BadBase(base) {
      var s := SkipSpace(b, 0);
      SkipBehind(b, r, 0);
      assert SkipSpace(r, 0) == s + 1 && r[s + 1] == b[s];
      var d, e, v := LongReadsBehind(b, r, base, s, s + 1);
      AnswerMoves(v, b[s] == '-', s, d, e);
      d, e, v := LongLongReadsBehind(b, r, base, s, s + 1);
      AnswerMoves(v, b[s] == '-', s, d, e);
    }
  }

  /** White space in front moves the end pointer and nothing else. */
  lemma {:induction false} WhiteSpaceSkipped(w: seq<char>, b: Buffer, base: int)
    requires forall c | c in w :: WhiteSpace(c)
    ensures var o := Long(b, base); Long(w + b, base) == o.(end := Further(o.end, |w|))
    ensures var o := LongLong(b, base); LongLong(w + b, base) == o.(end := Further(o.end, |w|))
    decreases |w|
  {
    if w == [] {
      assert w + b == b;
    } else {
      WhiteSpaceSkipped(w[1..], b, base);
      SpaceIsWhite(w[0]);
      BehindSpace(w[1..] + b, w + b, base);
    }
  }

  /** What a sign in front of a text without one makes of it. */
  predicate Signed(sign: char, plain: Outcome, signed: Outcome) {
    && signed.end == Further(plain.end, 1)
    && (signed.errno == ERANGE <==> plain.errno == ERANGE)
    && if plain.errno == ERANGE then plain.value == signed.value == ULONG_MAX
       else if sign == '-' then (plain.value + signed.value) % (ULONG_MAX + 1) == 0
       else plain.value == signed.value
  }

  lemma Negated(v: nat)
    ensures if v > ULONG_MAX then Converted(v, false) == Converted(v, true) == ULONG_MAX
            else Converted(v, false) == v && (v + Converted(v, true)) % (ULONG_MAX + 1) == 0
  {
  }

  /** There is no white space and no sign at the beginning. */
  predicate Plain(b: Buffer) {
    !IsSpace(b[0]) && b[0] != '-' && b[0] != '+'
  }

  lemma PlainStart(b: Buffer, r: Buffer)
    requires Plain(b) && Behind(b, r) && (r[0] == '-' || r[0] == '+')
    ensures SkipSpace(b, 0) == 0 && NumberStart(b) == 0 && SkipSpace(r, 0) == 0 && NumberStart(r) == 1
  {
  }

  /** Where nothing is read there is no value either. */
  lemma NothingRead(b: Buffer, base: nat)
    requires Plain(b) && !BadBase(base) && LongLong(b, base).end == 0
    ensures LongLong(b, base).value == 0 && LongLong(b, base).errno != ERANGE
  {
    var m := LongLongStart(b, 0, base);
    var e := DigitsEnd(b, m.digits, m.radix);
    LongLongIs(b, base, 0, m, e, Value(b[m.digits..e], m.radix));
    assert b[0..0] == [];
  }

  lemma LongAnswerSigned(c: char, v: nat, d: nat, e: nat)
    requires (c == '-' || c == '+') && d <= e
    ensures Signed(c, LongAnswer(v, false, d, e), LongAnswer(v, c == '-', d + 1, e + 1))
  {
    Negated(v);
  }

  lemma LongLongAnswerSigned(c: char, v: nat, d: nat, e: nat)
    requires (c == '-' || c == '+') && d <= e
    requires var o := LongLongAnswer(v, false, 0, d, e); o.end == 0 ==> o.value == 0 && o.errno != ERANGE
    ensures Signed(c, LongLongAnswer(v, false, 0, d, e), LongLongAnswer(v, c == '-', 0, d + 1, e + 1))
  {
    Negated(v);
  }

  /** A plus sign changes nothing, and a minus sign negates modulo 2^64, unless the number is clamped. */
  lemma SignsNegate(sign: char, b: Buffer, base: int)
    requires Plain(b) && (sign == '-' || sign == '+')
    ensures Signed(sign, Long(b, base), Long([sign] + b, base))
    ensures Signed(sign, LongLong(b, base), LongLong([sign] + b, base))
  {
    if !BadBase(base) {
      LongSigned(b, [sign] + b, base);
      LongLongSigned(b, [sign] + b, base);
    }
  }

  lemma LongSigned(b: Buffer, r: Buffer, base: nat)
    requires !BadBase(base) && Plain(b) && Behind(b, r) && (r[0] == '-' || r[0] == '+')
    ensures Signed(r[0], Long(b, base), Long(r, base))
  {
    PlainStart(b, r);
    var d, e, v := LongReadsBehind(b, r, base, 0, 0);
    LongAnswerSigned(r[0], v, d, e);
  }

  lemma LongLongSigned(b: Buffer, r: Buffer, base: nat)
    requires !BadBase(base) && Plain(b) && Behind(b, r) && (r[0] == '-' || r[0] == '+')
    ensures Signed(r[0], LongLong(b, base), LongLong(r, base))
  {
    PlainStart(b, r);
    var d, e, v := LongLongReadsBehind(b, r, base, 0, 0);
    if LongLong(b, base).end == 0 {
      NothingRead(b, base);
    }
    LongLongAnswerSigned(r[0], v, d, e);
  }

  /** The second text is the first one with some letters in upper case. */
  predicate SomeUpper(t: seq<char>, u: seq<char>) {
    |t| == |u| && forall k | 0 <= k < |t| ::
      u[k] == t[k] || ('a' <= t[k] <= 'z' && u[k] as int == t[k] as int - 'a' as int + 'A' as int)
  }

  lemma {:induction false} UpperSkips(b: Buffer, u: Buffer, i: nat)
    requires SomeUpper(b, u) && i < |b|
    ensures SkipSpace(u, i) == SkipSpace(b, i)
    decreases |b| - i
  {
    if IsSpace(b[i]) {
      UpperSkips(b, u, i + 1);
    }
  }

  lemma {:induction false} UpperDigits(b: Buffer, u: Buffer, i: nat, radix: nat)
    requires SomeUpper(b, u) && i < |b| && radix <= 36
    ensures DigitsEnd(u, i, radix) == DigitsEnd(b, i, radix)
    decreases |b| - i
  {
    if Digit(b[i]) < radix {
      UpperDigits(b, u, i + 1, radix);
    }
  }

  lemma {:induction false} UpperValue(t: seq<char>, u: seq<char>, radix: nat)
    requires SomeUpper(t, u)
    ensures Value(u, radix) == Value(t, radix)
    decreases |t|
  {
    if t != [] {
      UpperValue(t[..|t| - 1], u[..|u| - 1], radix);
    }
  }

  lemma UpperStarts(b: Buffer, u: Buffer, q: nat, base: nat)
    requires SomeUpper(b, u) && q < |b| && !BadBase(base)
    ensures AfterSign(u, q) == AfterSign(b, q) && (u[q] == '-' <==> b[q] == '-')
    ensures LongStart(u, q, base) == LongStart(b, q, base) && LongLongStart(u, q, base) == LongLongStart(b, q, base)
  {
    assert HexPrefix(u, q) <==> HexPrefix(b, q);
  }

  lemma UpperNumber(b: Buffer, u: Buffer, r: Start)
    requires SomeUpper(b, u) && r.digits < |b| && r.radix <= 36
    ensures DigitsEnd(u, r.digits, r.radix) == DigitsEnd(b, r.digits, r.radix)
    ensures var e := DigitsEnd(b, r.digits, r.radix);
            Value(u[r.digits..e], r.radix) == Value(b[r.digits..e], r.radix)
  {
    var e := DigitsEnd(b, r.digits, r.radix);
    UpperDigits(b, u, r.digits, r.radix);
    UpperValue(b[r.digits..e], u[r.digits..e], r.radix);
  }

  lemma UpperPlaces(b: Buffer, u: Buffer, base: nat)
    requires SomeUpper(b, u) && !BadBase(base)
    ensures SkipSpace(u, 0) == SkipSpace(b, 0) && (u[SkipSpace(b, 0)] == '-' <==> b[SkipSpace(b, 0)] == '-')
    ensures LongStart(u, NumberStart(u), base) == LongStart(b, NumberStart(b), base)
    ensures LongLongStart(u, NumberStart(u), base) == LongLongStart(b, NumberStart(b), base)
  {
    UpperSkips(b, u, 0);
    UpperStarts(b, u, SkipSpace(b, 0), base);
    UpperStarts(b, u, NumberStart(b), base);
  }

  /** The case of a letter, be it a digit or the prefix, makes no difference. */
  lemma CaseIrrelevant(b: Buffer, u: Buffer, base: int)
    requires SomeUpper(b, u)
    ensures Long(u, base) == Long(b, base) && LongLong(u, base) == LongLong(b, base)
  {
    if !BadBase(base) {
      UpperPlaces(b, u, base);
      var l, m := LongStart(b, NumberStart(b), base), LongLongStart(b, NumberStart(b), base);
      UpperNumber(b, u, l);
      UpperNumber(b, u, m);
    }
  }

  // ----- strtoul -------------------------------------------------------------------------------

  /** The test against the largest quotient and remainder tells exactly when the next digit overflows. */
  lemma CutoffIsOverflow(acc: nat, base: nat, digit: nat)
    requires 2 <= base <= 36 && digit < base
    ensures (acc > ULONG_MAX / base || (acc == ULONG_MAX / base && digit > ULONG_MAX % base))
            <==> acc * base + digit > ULONG_MAX
  {
    var cutoff := ULONG_MAX / base;
    assert ULONG_MAX == cutoff * base + ULONG_MAX % base;
    if acc > cutoff {
      assert acc * base >= (cutoff + 1) * base == cutoff * base + base;
    } else if acc < cutoff {
      assert acc * base + base == (acc + 1) * base <= cutoff * base;
    }
  }

  lemma NextDigit(b: Buffer, d: nat, i: nat, radix: nat)
    requires d <= i < |b| && 2 <= radix
    ensures Value(b[d..i + 1], radix) == Value(b[d..i], radix) * radix + Digit(b[i]) >= Value(b[d..i], radix)
  {
    assert b[d..i + 1][..i - d] == b[d..i];
    assert Value(b[d..i], radix) * radix >= Value(b[d..i], radix);
  }

  lemma LongIs(b: Buffer, base: nat, s: nat, start: Start, e: nat, v: nat)
    requires !BadBase(base) && s == SkipSpace(b, 0) && LongStart(b, AfterSign(b, s), base) == start
    requires e == DigitsEnd(b, start.digits, start.radix) && v == Value(b[start.digits..e], start.radix)
    ensures Long(b, base) == LongAnswer(v, b[s] == '-', start.digits, e)
  {
  }

  /** What the variables of strtoul's loop say about the digits read so far. */
  predicate Accumulated(acc: nat, any: int, v: nat) {
    if any < 0 then v > ULONG_MAX else acc == v <= ULONG_MAX
  }

  /** One more digit, or an overflow that lasts. */
  method NextLong(acc: nat, any: int, cutoff: nat, cutlim: nat, radix: nat, digit: nat,
                  ghost nptr: Buffer, ghost d: nat, ghost i: nat)
    returns (acc': nat, any': int)
    requires 2 <= radix <= 36 && d <= i < |nptr| && digit == Digit(nptr[i]) < radix
    requires cutoff == ULONG_MAX / radix && cutlim == ULONG_MAX % radix
    requires Accumulated(acc, any, Value(nptr[d..i], radix))
    ensures any' != 0 && Accumulated(acc', any', Value(nptr[d..i + 1], radix))
  {
    NextDigit(nptr, d, i, radix);
    CutoffIsOverflow(acc, radix, digit);
    acc' := acc;
    if any < 0 || acc > cutoff || (acc == cutoff && digit > cutlim) {
      any' := -1;
    } else {
      any' := 1;
      acc' := acc' * radix;
      acc' := acc' + digit;
    }
  }

  /** A digit or a letter, by its place in its range; upper case comes before lower case here. */
  method DigitLong(c: char) returns (digit: Option<nat>)
    ensures digit == if Digit(c) < 36 then Some(Digit(c)) else None
  {
    if '0' <= c <= '9' {
      return Some(c as int - '0' as int);
    } else if 'A' <= c <= 'Z' {
      return Some(c as int - ('A' as int - 10));
    } else if 'a' <= c <= 'z' {
      return Some(c as int - ('a' as int - 10));
    }
    return None;
  }

  /** The loop over the digits; `any` is negative after an overflow, and 0 if there was no digit. */
  method AccumulateLong(nptr: Buffer, start: nat, radix: nat) returns (acc: nat, any: int, s: nat)
    requires 0 < start <= |nptr| && 2 <= radix <= 36
    ensures s - 1 == DigitsEnd(nptr, start - 1, radix)
    ensures any == 0 <==> s == start
    ensures any == 0 ==> acc == 0
    ensures Accumulated(acc, any, Value(nptr[start - 1..s - 1], radix))
  {
    s := start;
    var c := nptr[s - 1];
    var cutoff, cutlim := ULONG_MAX / radix, ULONG_MAX % radix;
    acc, any := 0, 0;
    while true
      invariant start <= s <= |nptr| && c == nptr[s - 1]
      invariant DigitsEnd(nptr, start - 1, radix) == DigitsEnd(nptr, s - 1, radix)
      invariant any == 0 <==> s == start
      invariant any == 0 ==> acc == 0
      invariant Accumulated(acc, any, Value(nptr[start - 1..s - 1], radix))
      decreases |nptr| - s
    {
      var digit := DigitLong(c);
      if digit.None? || digit.value >= radix {
        break;
      }
      acc, any := NextLong(acc, any, cutoff, cutlim, radix, digit.value, nptr, start - 1, s - 1);
      c, s := nptr[s], s + 1;
    }
  }

  /** White space, sign and prefix; `s` is one past the first digit. */
  method PrefixLong(nptr: Buffer, base: int) returns (neg: bool, radix: int, s: nat)
    ensures 0 < s <= |nptr| && neg == (nptr[SkipSpace(nptr, 0)] == '-')
    ensures BadBase(base) <==> radix < 2 || radix > 36
    ensures !BadBase(base) ==> LongStart(nptr, NumberStart(nptr), base) == Start(radix, s - 1)
  {
    s, radix := 0, base;
    var c := nptr[s];
    s := s + 1;
    while IsSpace(c)
      invariant 0 < s <= |nptr| && c == nptr[s - 1]
      invariant SkipSpace(nptr, 0) == SkipSpace(nptr, s - 1)
      decreases |nptr| - s
    {
      c := nptr[s];
      s := s + 1;
    }
    neg := c == '-';
    if neg {
      c, s := nptr[s], s + 1;
    } else if c == '+' {
      c, s := nptr[s], s + 1;
    }
    if (radix == 0 || radix == 16) && c == '0' && (nptr[s] == 'x' || nptr[s] == 'X') {
      c, s, radix := nptr[s + 1], s + 2, 16;
    }
    if radix == 0 {
      radix := if c == '0' then 8 else 10;
    }
  }

  /** What is returned after the digits of a number `v` have been read. */
  method FinishLong(sum: nat, any: int, neg: bool, ghost v: nat) returns (acc: nat, errno: Errno)
    requires any == 0 ==> sum == 0
    requires Accumulated(sum, any, v)
    ensures any == 0 ==> acc == 0 && errno == EINVAL
    ensures any != 0 ==> acc == Converted(v, neg) && errno == Range(v)
  {
    acc, errno := sum, Unset;
    if any < 0 {
      acc, errno := ULONG_MAX, ERANGE;
    } else if any == 0 {
      errno := EINVAL;
    } else if neg {
      acc := (ULONG_MAX + 1 - acc) % (ULONG_MAX + 1);
    }
  }

  method ParseLong(nptr: Buffer, base: int) returns (acc: nat, end: nat, errno: Errno)
    ensures Outcome(acc, end, errno) == Long(nptr, base)
  {
    var neg, radix, s := PrefixLong(nptr, base);
    if radix < 2 || radix > 36 {
      return 0, 0, EINVAL;
    }
    ghost var d := s - 1;
    var any;
    acc, any, s := AccumulateLong(nptr, s, radix);
    LongIs(nptr, base, SkipSpace(nptr, 0), Start(radix, d), s - 1, Value(nptr[d..s - 1], radix));
    acc, errno := FinishLong(acc, any, neg, Value(nptr[d..s - 1], radix));
    end := if any != 0 then s - 1 else 0;
  }

  // ----- strtoull ------------------------------------------------------------------------------

  lemma TwoTestsAreOverflow(result: nat, base: nat, digit: nat)
    requires 2 <= base <= 36 && digit < base
    ensures (result > ULONG_MAX / base || result * base > ULONG_MAX - digit) <==> result * base + digit > ULONG_MAX
  {
    CutoffIsOverflow(result, base, digit);
  }

  lemma LongLongIs(b: Buffer, base: nat, s: nat, start: Start, e: nat, v: nat)
    requires !BadBase(base) && s == SkipSpace(b, 0) && LongLongStart(b, AfterSign(b, s), base) == start
    requires e == DigitsEnd(b, start.digits, start.radix) && v == Value(b[start.digits..e], start.radix)
    ensures LongLong(b, base) == LongLongAnswer(v, b[s] == '-', s, start.digits, e)
  {
  }

  predicate IsHexDigit(c: char) {
    '0' <= c <= '9' || 'a' <= c <= 'f' || 'A' <= c <= 'F'
  }

  /** One more digit; once out of range the result wraps around, and no longer matters. */
  method NextLongLong(result: nat, outOfRange: bool, radix: nat, digit: nat,
                      ghost nptr: Buffer, ghost d: nat, ghost i: nat)
    returns (result': nat, outOfRange': bool)
    requires 2 <= radix <= 36 && d <= i < |nptr| && digit == Digit(nptr[i]) < radix
    requires outOfRange <==> Value(nptr[d..i], radix) > ULONG_MAX
    requires !outOfRange ==> result == Value(nptr[d..i], radix)
    ensures outOfRange' <==> Value(nptr[d..i + 1], radix) > ULONG_MAX
    ensures !outOfRange' ==> result' == Value(nptr[d..i + 1], radix)
  {
    NextDigit(nptr, d, i, radix);
    result', outOfRange' := result, outOfRange;
    if !outOfRange' {
      TwoTestsAreOverflow(result, radix, digit);
      if result > ULONG_MAX / radix || result * radix > ULONG_MAX - digit {
        outOfRange' := true;
      }
      result' := (result * radix + digit) % (ULONG_MAX + 1);
    }
  }

  method AccumulateLongLong(nptr: Buffer, start: nat, radix: nat) returns (result: nat, outOfRange: bool, p: nat)
    requires start < |nptr| && 2 <= radix <= 36
    ensures p == DigitsEnd(nptr, start, radix)
    ensures outOfRange <==> Value(nptr[start..p], radix) > ULONG_MAX
    ensures !outOfRange ==> result == Value(nptr[start..p], radix)
  {
    result, outOfRange, p := 0, false, start;
    while nptr[p] != '\0'
      invariant start <= p < |nptr|
      invariant DigitsEnd(nptr, start, radix) == DigitsEnd(nptr, p, radix)
      invariant outOfRange <==> Value(nptr[start..p], radix) > ULONG_MAX
      invariant !outOfRange ==> result == Value(nptr[start..p], radix)
      decreases |nptr| - p
    {
      var digit := Digit(nptr[p]);
      if digit < radix {
        result, outOfRange := NextLongLong(result, outOfRange, radix, digit, nptr, start, p);
      } else {
        break;
      }
      p := p + 1;
    }
  }

  /** White space, sign, base and prefix. */
  method PrefixLongLong(nptr: Buffer, base: int) returns (firstNonspace: nat, negative: bool, radix: nat, p: nat)
    requires !BadBase(base)
    ensures firstNonspace == SkipSpace(nptr, 0) && negative == (nptr[firstNonspace] == '-')
    ensures LongLongStart(nptr, NumberStart(nptr), base) == Start(radix, p)
  {
    radix, p, negative := base, 0, false;
    while IsSpace(nptr[p])
      invariant 0 <= p < |nptr| && SkipSpace(nptr, 0) == SkipSpace(nptr, p)
      decreases |nptr| - p
    {
      p := p + 1;
    }
    firstNonspace := p;
    if nptr[p] == '+' {
      p := p + 1;
    } else if nptr[p] == '-' {
      p := p + 1;
      negative := true;
    }
    if radix == 0 {
      if nptr[p] == '0' {
        if nptr[p + 1] == 'x' || nptr[p + 1] == 'X' {
          if IsHexDigit(nptr[p + 2]) {
            radix, p := 16, p + 2;
          } else {
            radix := 10;
          }
        } else {
          radix, p := 8, p + 1;
        }
      } else {
        radix := 10;
      }
    } else if radix == 16 {
      if nptr[p] == '0' && (nptr[p + 1] == 'x' || nptr[p + 1] == 'X') && IsHexDigit(nptr[p + 2]) {
        p := p + 2;
      }
    }
  }

  method ParseLongLong(nptr: Buffer, base: int) returns (value: nat, end: nat, errno: Errno)
    ensures Outcome(value, end, errno) == LongLong(nptr, base)
  {
    value, end, errno := 0, 0, Unset;
    if base != 0 && (base < 2 || base > 36) {
      errno := EINVAL;
      return;
    }
    var firstNonspace, negative, radix, digitsStart := PrefixLongLong(nptr, base);
    var result, outOfRange, p := AccumulateLongLong(nptr, digitsStart, radix);
    LongLongIs(nptr, base, firstNonspace, Start(radix, digitsStart), p, Value(nptr[digitsStart..p], radix));
    if p > firstNonspace && p == digitsStart {
      errno := EINVAL;
      return;
    }
    end := if p == firstNonspace then 0 else p;
    if outOfRange {
      errno := ERANGE;
      value := ULONG_MAX;
      return;
    }
    value := if negative then (ULONG_MAX + 1 - result) % (ULONG_MAX + 1) else result;
  }
}
