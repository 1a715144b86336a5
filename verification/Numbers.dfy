/**
  Integers as text: `number` of vsprintf.c, its flags, padding and base conversion.
*/
module Numbers {
  import opened Basics

  datatype Flags = Flags(zeropad: bool, sign: bool, plus: bool, space: bool, left: bool, special: bool, small: bool)

  const NO_FLAGS := Flags(false, false, false, false, false, false, false)

  function Max(a: int, b: int): int {
    if a < b then b else a
  }

  /** `n` copies of `c`, none if `n` is negative. */
  function Repeat(c: char, n: int): (s: string)
    ensures |s| == Max(n, 0)
    ensures forall i | 0 <= i < |s| :: s[i] == c
    decreases n
  {
    if n <= 0 then "" else [c] + Repeat(c, n - 1)
  }

  lemma {:induction false} RepeatMore(c: char, n: nat)
    ensures Repeat(c, n + 1) == Repeat(c, n) + [c]
  {
    assert Repeat(c, n + 1) == Repeat(c, n) + [c];
  }

  const UPPER := "0123456789ABCDEFGHIJKLMNOPQRSTUVWXYZ"
  const LOWER := "0123456789abcdefghijklmnopqrstuvwxyz"

  function DigitSet(small: bool): (s: string)
    ensures |s| == 36
  {
    if small then LOWER else UPPER
  }

  function Remainder(n: nat, base: nat): (r: nat)
    requires base >= 2
    ensures r < base
    ensures n < base ==> r == n
  {
    n % base
  }

  function Quotient(n: nat, base: nat): (q: nat)
    requires base >= 2
    ensures n == q * base + Remainder(n, base)
    ensures n > 0 ==> 2 * q <= n && q < n
  {
    DivideMod(n, base);
    TwiceAtMost(n / base, base);
    n / base
  }

  lemma DivideMod(n: nat, base: nat)
    requires base >= 2
    ensures n / base >= 0 && n == n / base * base + n % base && n % base >= 0
  {
  }

  lemma TwiceAtMost(q: nat, base: nat)
    requires base >= 2
    ensures 2 * q <= q * base
  {
  }

  /** The digits of `n`, most significant first; zero has one digit. */
  function Digits(n: nat, base: nat): seq<nat>
    requires base >= 2
    decreases n
  {
    if n < base then [n] else Digits(Quotient(n, base), base) + [Remainder(n, base)]
  }

  function DigitChar(d: nat, small: bool): char
    requires d < 36
  {
    DigitSet(small)[d]
  }

  function Spell(ds: seq<nat>, small: bool): string
    requires forall i | 0 <= i < |ds| :: ds[i] < 36
  {
    seq(|ds|, i requires 0 <= i < |ds| => DigitChar(ds[i], small))
  }

  lemma {:induction false} DigitsSmall(n: nat, base: nat)
    requires base >= 2
    ensures forall i | 0 <= i < |Digits(n, base)| :: Digits(n, base)[i] < base
    ensures 1 <= |Digits(n, base)|
    decreases n
  {
    if n >= base {
      DigitsSmall(Quotient(n, base), base);
    }
  }

  function DigitText(n: nat, base: nat, small: bool): (s: string)
    requires 2 <= base <= 36
    ensures |s| == |Digits(n, base)| >= 1
  {
    DigitsSmall(n, base);
    Spell(Digits(n, base), small)
  }

  // ------------------------------------------------------------ what number writes

  predicate Negative(num: Word32, f: Flags) {
    f.sign && num >= 0x8000_0000
  }

  /** The magnitude written; the most negative integer is its own negative, read without sign. */
  function Magnitude(num: Word32, f: Flags): Word32 {
    if Negative(num, f) then 0x1_0000_0000 - num else num
  }

  function SignText(num: Word32, f: Flags): string {
    if Negative(num, f) then "-" else if f.plus then "+" else if f.space then " " else ""
  }

  function PrefixText(base: nat, f: Flags): string {
    if f.special && base == 8 then "0"
    else if f.special && base == 16 then ['0', DigitChar(33, f.small)]
    else ""
  }

  /** The digits with the zeros the precision asks for. */
  function Body(num: Word32, base: nat, precision: int, f: Flags): (s: string)
    requires 2 <= base <= 36
    ensures |s| == Max(precision, |Digits(Magnitude(num, f), base)|)
  {
    var t := DigitText(Magnitude(num, f), base, f.small);
    Repeat('0', precision - |t|) + t
  }

  /** What is left of the field for padding; may be negative. */
  function Slack(num: Word32, base: nat, size: int, precision: int, f: Flags): int
    requires 2 <= base <= 36
  {
    size - |SignText(num, f)| - |PrefixText(base, f)| - |Body(num, base, precision, f)|
  }

  /** Padding goes behind, between sign and digits as zeros, or in front. */
  function FieldText(slack: int, f: Flags, start: string, body: string): (s: string)
    ensures |s| == |start| + |body| + Max(slack, 0)
  {
    if f.left then start + (body + Repeat(' ', slack))
    else if f.zeropad then start + (Repeat('0', slack) + body)
    else Repeat(' ', slack) + (start + body)
  }

  function NumberText(num: Word32, base: nat, size: int, precision: int, f: Flags): string
    requires 2 <= base <= 36
  {
    FieldText(Slack(num, base, size, precision, f), f, SignText(num, f) + PrefixText(base, f),
              Body(num, base, precision, f))
  }

  /** The field is as wide as asked for, or as wide as its contents. */
  lemma NumberLength(num: Word32, base: nat, size: int, precision: int, f: Flags)
    requires 2 <= base <= 36
    ensures |NumberText(num, base, size, precision, f)|
         == Max(size, |SignText(num, f)| + |PrefixText(base, f)|
                      + Max(precision, |Digits(Magnitude(num, f), base)|))
  {
  }

  // ------------------------------------------------------------ reading it back

  function DigitValue(c: char): int {
    if '0' <= c <= '9' then c as int - '0' as int
    else if 'A' <= c <= 'Z' then c as int - 'A' as int + 10
    else if 'a' <= c <= 'z' then c as int - 'a' as int + 10
    else -1
  }

  lemma DigitSetValue(small: bool, d: nat)
    requires d < 36
    ensures DigitValue(DigitChar(d, small)) == d
  {
    if small {
      DigitSetIs(d);
    } else {
      DigitSetIs(d);
    }
  }

  lemma DigitSetIs(d: nat)
    requires d < 36
    ensures UPPER[d] as int == (if d < 10 then '0' as int + d else 'A' as int + d - 10)
    ensures LOWER[d] as int == (if d < 10 then '0' as int + d else 'a' as int + d - 10)
  {
  }

  /** One digit more at the low end. */
  function Shift(acc: nat, base: nat, digit: nat): nat {
    acc * base + digit
  }

  /** Reads digits of the base as far as they go. */
  function ReadDigits(s: string, base: nat, acc: nat): nat {
    if s == "" || !(0 <= DigitValue(s[0]) < base) then acc
    else ReadDigits(s[1..], base, Shift(acc, base, DigitValue(s[0])))
  }

  /** Skips blanks, reads a sign, skips the prefix of base 16 when there is one, reads digits. */
  function Read(s: string, base: nat, prefixed: bool): int {
    if s != "" && s[0] == ' ' then Read(s[1..], base, prefixed)
    else if s != "" && s[0] == '-' then 0 - ReadUnsigned(s[1..], base, prefixed)
    else if s != "" && s[0] == '+' then ReadUnsigned(s[1..], base, prefixed)
    else ReadUnsigned(s, base, prefixed)
  }

  function ReadUnsigned(s: string, base: nat, prefixed: bool): nat {
    if prefixed && base == 16 && |s| >= 2 then ReadDigits(s[2..], base, 0) else ReadDigits(s, base, 0)
  }

  /** The number meant by the argument under the sign flag. */
  function Meaning(num: Word32, f: Flags): int {
    if Negative(num, f) then num - 0x1_0000_0000 else num
  }

  function Value(ds: seq<nat>, base: nat): nat {
    if ds == [] then 0 else Shift(Value(ds[..|ds| - 1], base), base, ds[|ds| - 1])
  }

  lemma {:induction false} DigitsValue(n: nat, base: nat)
    requires base >= 2
    ensures Value(Digits(n, base), base) == n
    decreases n
  {
    if n >= base {
      DigitsValue(Quotient(n, base), base);
      var ds := Digits(Quotient(n, base), base);
      assert (ds + [Remainder(n, base)])[..|ds|] == ds;
    } else {
      assert [n][..0] == [];
    }
  }

  /** Reading digits after what has been read already. */
  lemma {:induction false} ReadSpelled(ds: seq<nat>, k: nat, small: bool, base: nat, rest: string)
    requires 2 <= base <= 36 && k <= |ds| && forall i | 0 <= i < |ds| :: ds[i] < base
    requires rest == "" || !(0 <= DigitValue(rest[0]) < base)
    ensures ReadDigits(Spell(ds[k..], small) + rest, base, Value(ds[..k], base)) == Value(ds, base)
    decreases |ds| - k
  {
    if k == |ds| {
      assert Spell(ds[k..], small) + rest == rest && ds[..k] == ds;
    } else {
      SpelledFirst(ds, k, small, rest);
      ValueMore(ds, k, base);
      hide Spell, Value, Shift, DigitValue;
      ReadSpelled(ds, k + 1, small, base, rest);
    }
  }

  lemma SpelledFirst(ds: seq<nat>, k: nat, small: bool, rest: string)
    requires k < |ds| && forall i | 0 <= i < |ds| :: ds[i] < 36
    ensures var s := Spell(ds[k..], small) + rest;
      s != "" && DigitValue(s[0]) == ds[k] && s[1..] == Spell(ds[k + 1..], small) + rest
  {
    hide DigitChar, DigitValue;
    DigitSetValue(small, ds[k]);
    var head, tail := [DigitChar(ds[k], small)], Spell(ds[k + 1..], small);
    assert Spell(ds[k..], small) == head + tail;
    assert head + tail + rest == head + (tail + rest);
  }

  lemma ValueMore(ds: seq<nat>, k: nat, base: nat)
    requires k < |ds|
    ensures Value(ds[..k + 1], base) == Shift(Value(ds[..k], base), base, ds[k])
  {
    assert ds[..k + 1][..k] == ds[..k];
  }

  lemma {:induction false} ReadZeros(n: int, s: string, base: nat)
    requires base >= 2
    ensures ReadDigits(Repeat('0', n) + s, base, 0) == ReadDigits(s, base, 0)
    decreases n
  {
    if n <= 0 {
      assert Repeat('0', n) + s == s;
    } else {
      var t := Repeat('0', n) + s;
      assert t[0] == '0' && t[1..] == Repeat('0', n - 1) + s;
      ReadZeros(n - 1, s, base);
    }
  }

  lemma {:induction false} ReadBlanks(n: int, s: string, base: nat, prefixed: bool)
    ensures Read(Repeat(' ', n) + s, base, prefixed) == Read(s, base, prefixed)
    decreases n
  {
    if n <= 0 {
      assert Repeat(' ', n) + s == s;
    } else {
      var t := Repeat(' ', n) + s;
      assert t[0] == ' ' && t[1..] == Repeat(' ', n - 1) + s;
      ReadBlanks(n - 1, s, base, prefixed);
    }
  }

  /** Zeros, then the digits of a number, then blanks: the number. */
  lemma ReadBody(n: nat, base: nat, small: bool, zeros: int, blanks: int)
    requires 2 <= base <= 36
    ensures ReadDigits(Repeat('0', zeros) + DigitText(n, base, small) + Repeat(' ', blanks), base, 0) == n
  {
    var ds, rest := Digits(n, base), Repeat(' ', blanks);
    DigitsSmall(n, base);
    DigitsValue(n, base);
    ReadSpelled(ds, 0, small, base, rest);
    assert ds[0..] == ds && ds[..0] == [];
    ReadZeros(zeros, DigitText(n, base, small) + rest, base);
    assert Repeat('0', zeros) + DigitText(n, base, small) + rest
        == Repeat('0', zeros) + (DigitText(n, base, small) + rest);
  }

  lemma {:induction false} TwoZeros(a: int, b: int)
    ensures Repeat('0', a) + Repeat('0', b) == Repeat('0', Max(a, 0) + Max(b, 0))
  {
  }

  /** Sign, prefix, zeros, digits, blanks. */
  lemma ReadParts(num: Word32, base: nat, f: Flags, zeros: int, blanks: int)
    requires 2 <= base <= 36
    ensures Read(SignText(num, f) + PrefixText(base, f)
                 + (Repeat('0', zeros) + DigitText(Magnitude(num, f), base, f.small) + Repeat(' ', blanks)),
                 base, f.special) == Meaning(num, f)
  {
    hide PrefixText, DigitText, ReadUnsigned, Repeat;
    var sign, prefix := SignText(num, f), PrefixText(base, f);
    var mag := Magnitude(num, f);
    var body := Repeat('0', zeros) + DigitText(mag, base, f.small) + Repeat(' ', blanks);
    var s := sign + prefix + body;
    ReadPrefixed(mag, base, f, zeros, blanks);
    if sign == "" {
      assert s == prefix + body;
      FirstIsDigit(mag, base, f, zeros, blanks);
    } else {
      assert s[1..] == prefix + body;
      FirstIsDigit(mag, base, f, zeros, blanks);
    }
  }

  lemma FirstIsDigit(n: nat, base: nat, f: Flags, zeros: int, blanks: int)
    requires 2 <= base <= 36
    ensures var s := PrefixText(base, f) + (Repeat('0', zeros) + DigitText(n, base, f.small) + Repeat(' ', blanks));
      s != "" && s[0] !in {' ', '-', '+'}
  {
    DigitsSmall(n, base);
    var d := Digits(n, base)[0];
    DigitSetValue(f.small, d);
    assert DigitText(n, base, f.small)[0] == DigitChar(d, f.small);
    hide DigitChar;
  }

  lemma ReadPrefixed(n: nat, base: nat, f: Flags, zeros: int, blanks: int)
    requires 2 <= base <= 36
    ensures ReadUnsigned(PrefixText(base, f) + (Repeat('0', zeros) + DigitText(n, base, f.small) + Repeat(' ', blanks)),
                         base, f.special) == n
  {
    var prefix := PrefixText(base, f);
    var body := Repeat('0', zeros) + DigitText(n, base, f.small) + Repeat(' ', blanks);
    ReadBody(n, base, f.small, zeros, blanks);
    if f.special && base == 16 {
      assert (prefix + body)[2..] == body;
    } else if f.special && base == 8 {
      assert prefix == Repeat('0', 1);
      ReadZeros(1, body, base);
    } else {
      assert prefix + body == body;
    }
  }

  /** Whatever the flags, the field reads back as the number it was made from. */
  lemma NumberReadsBack(num: Word32, base: nat, size: int, precision: int, f: Flags)
    requires 2 <= base <= 36
    ensures Read(NumberText(num, base, size, precision, f), base, f.special) == Meaning(num, f)
  {
    var start, digits := SignText(num, f) + PrefixText(base, f), DigitText(Magnitude(num, f), base, f.small);
    var slack, zeros := Slack(num, base, size, precision, f), precision - |digits|;
    hide SignText, PrefixText, DigitText, Magnitude, Read, Meaning, Slack, Digits;
    if f.left {
      ReadParts(num, base, f, zeros, slack);
    } else if f.zeropad {
      var all := Max(slack, 0) + Max(zeros, 0);
      TwoZeros(slack, zeros);
      ReadParts(num, base, f, all, 0);
      Regroup(Repeat('0', slack), Repeat('0', zeros), digits);
    } else {
      ReadParts(num, base, f, zeros, 0);
      Regroup(Repeat('0', zeros), digits, Repeat(' ', 0));
      ReadBlanks(slack, start + (Repeat('0', zeros) + digits), base, f.special);
    }
  }

  lemma Regroup(a: string, b: string, c: string)
    ensures a + (b + c) == a + b + c
    ensures c == "" ==> a + b + c == a + b
    ensures a + b + c + "" == a + b + c
  {
  }

  // ------------------------------------------------------------ the shape of a number

  /** Digits of the base, letters in one case, no zero in front but for zero itself. */
  predicate Numeral(s: string, base: nat, small: bool) {
    && s != "" && (s[0] == '0' ==> |s| == 1)
    && forall k | 0 <= k < |s| ::
         0 <= DigitValue(s[k]) < base && !(if small then 'A' <= s[k] <= 'Z' else 'a' <= s[k] <= 'z')
  }

  lemma {:induction false} DigitsLead(n: nat, base: nat)
    requires base >= 2
    ensures |Digits(n, base)| >= 1 && (Digits(n, base)[0] == 0 ==> n == 0 && |Digits(n, base)| == 1)
    decreases n
  {
    if n >= base {
      DigitsLead(Quotient(n, base), base);
      assert Quotient(n, base) > 0;
    }
  }

  lemma DigitCase(d: nat, base: nat, small: bool)
    requires d < base <= 36
    ensures 0 <= DigitValue(DigitChar(d, small)) < base && (DigitChar(d, small) == '0' ==> d == 0)
    ensures !(if small then 'A' <= DigitChar(d, small) <= 'Z' else 'a' <= DigitChar(d, small) <= 'z')
  {
    DigitSetValue(small, d);
    DigitSetIs(d);
  }

  /** The digits written are the numeral of the number. */
  lemma DigitTextNumeral(n: nat, base: nat, small: bool)
    requires 2 <= base <= 36
    ensures Numeral(DigitText(n, base, small), base, small) && ReadDigits(DigitText(n, base, small), base, 0) == n
  {
    var ds, s := Digits(n, base), DigitText(n, base, small);
    DigitsSmall(n, base);
    DigitsLead(n, base);
    forall k | 0 <= k < |s|
      ensures 0 <= DigitValue(s[k]) < base && !(if small then 'A' <= s[k] <= 'Z' else 'a' <= s[k] <= 'z')
      ensures s[k] == '0' ==> ds[k] == 0
    {
      DigitCase(ds[k], base, small);
    }
    hide Digits, DigitChar, DigitValue;
    ReadBody(n, base, small, 0, 0);
    assert Repeat('0', 0) + s + Repeat(' ', 0) == s;
  }

  /** What a number without field width looks like: sign, prefix, zeros up to the precision, numeral. */
  lemma Unpadded(num: Word32, base: nat, precision: int, f: Flags) returns (digits: string)
    requires 2 <= base <= 36
    ensures Numeral(digits, base, f.small)
    ensures ReadDigits(digits, base, 0) == if f.sign && num >= 0x8000_0000 then 0x1_0000_0000 - num else num
    ensures NumberText(num, base, 0, precision, f) == NumberSign(num, f) + NumberPrefix(base, f)
                                                      + (Repeat('0', precision - |digits|) + digits)
  {
    hide Digits, DigitText, Numeral, ReadDigits, FieldText, PrefixText, NumberPrefix, Repeat;
    digits := DigitText(Magnitude(num, f), base, f.small);
    DigitTextNumeral(Magnitude(num, f), base, f.small);
    PrefixIs(base, f);
    PadShape(NumberSign(num, f) + NumberPrefix(base, f), Repeat('0', precision - |digits|) + digits, 0, f);
  }

  /** The sign in front: of negative numbers under the sign flag a minus, else what the flags ask for. */
  function NumberSign(num: Word32, f: Flags): string {
    if f.sign && num >= 0x8000_0000 then "-" else if f.plus then "+" else if f.space then " " else ""
  }

  /** The mark of the base, if the flags ask for one. */
  function NumberPrefix(base: nat, f: Flags): string {
    if !f.special then "" else if base == 8 then "0" else if base == 16 then if f.small then "0x" else "0X" else ""
  }

  lemma PrefixIs(base: nat, f: Flags)
    ensures PrefixText(base, f) == NumberPrefix(base, f)
  {
    DigitSetIs(33);
  }

  /**
    A field width adds blanks behind, or zeros between the mark of the base and the digits, or
    blanks in front, and nothing else.
  */
  lemma Padded(num: Word32, base: nat, size: int, precision: int, f: Flags)
    requires 2 <= base <= 36
    ensures var t, k := NumberText(num, base, 0, precision, f), |NumberSign(num, f)| + |NumberPrefix(base, f)|;
      k <= |t| && NumberText(num, base, size, precision, f)
                  == if f.left then t + Repeat(' ', size - |t|)
                     else if f.zeropad then t[..k] + Repeat('0', size - |t|) + t[k..]
                     else Repeat(' ', size - |t|) + t
  {
    hide NumberSign, NumberPrefix, NumberText, Body, FieldText, Repeat;
    var start, body := NumberSign(num, f) + NumberPrefix(base, f), Body(num, base, precision, f);
    TextIs(num, base, size, precision, f);
    TextIs(num, base, 0, precision, f);
    PadShape(start, body, size, f);
    PadShape(start, body, 0, f);
  }

  lemma TextIs(num: Word32, base: nat, size: int, precision: int, f: Flags)
    requires 2 <= base <= 36
    ensures var start, body := NumberSign(num, f) + NumberPrefix(base, f), Body(num, base, precision, f);
      NumberText(num, base, size, precision, f) == FieldText(size - |start| - |body|, f, start, body)
  {
    hide NumberSign, NumberPrefix, SignText, PrefixText, Body, FieldText;
    StartIs(num, base, f);
  }

  lemma StartIs(num: Word32, base: nat, f: Flags)
    ensures SignText(num, f) == NumberSign(num, f) && PrefixText(base, f) == NumberPrefix(base, f)
  {
    PrefixIs(base, f);
  }

  lemma PadShape(start: string, body: string, size: int, f: Flags)
    ensures var t, pad := start + body, size - |start| - |body|;
      && t[..|start|] == start && t[|start|..] == body
      && FieldText(pad, f, start, body)
         == (if f.left then t + Repeat(' ', pad)
             else if f.zeropad then t[..|start|] + Repeat('0', pad) + t[|start|..] else Repeat(' ', pad) + t)
      && (size <= 0 ==> FieldText(pad, f, start, body) == t)
  {
  }
}
