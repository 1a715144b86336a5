/**
  vsprintf.c: the text buffer, `number` and `vsprintf`.  What they write is given by
  `Numbers.NumberText` and by parsing the format and rendering its directives.
*/
module Printf {
  import opened Basics
  import opened Numbers

  /** `after` is `before` with `text` written from `at` on. */
  ghost predicate Wrote(before: seq<char>, after: seq<char>, at: nat, text: string) {
    at + |text| <= |before| && after == before[..at] + text + before[at + |text|..]
  }

  lemma WroteNothing(b: seq<char>, at: nat)
    requires at <= |b|
    ensures Wrote(b, b, at, "")
  {
  }

  lemma WroteOn(a: seq<char>, b: seq<char>, c: seq<char>, at: nat, s: string, t: string)
    requires Wrote(a, b, at, s) && Wrote(b, c, at + |s|, t)
    ensures Wrote(a, c, at, s + t)
  {
    assert b[..at + |s|] == a[..at] + s;
    assert b[at + |s| + |t|..] == a[at + |s| + |t|..];
  }

  lemma WroteOne(a: seq<char>, b: seq<char>, at: nat, s: string, x: char)
    requires Wrote(a, b, at, s) && at + |s| < |a|
    ensures Wrote(a, b[at + |s| := x], at, s + [x])
  {
  }

  /** `while (size-- > 0) *str++ = c;` */
  method Fill(buf: array<char>, str: nat, size: int, c: char) returns (end: nat, left: int)
    requires str + Max(size, 0) <= buf.Length
    modifies buf
    ensures Wrote(old(buf[..]), buf[..], str, Repeat(c, size)) && end == str + Max(size, 0)
    ensures left == if size > 0 then -1 else size - 1
  {
    hide Repeat;
    end, left := str, size;
    ghost var b := buf[..];
    WroteNothing(b, str);
    while left > 0
      invariant left <= size && (size >= 0 ==> left >= 0) && (size < 0 ==> left == size)
      invariant end == str + (size - left) && Wrote(b, buf[..], str, Repeat(c, size - left))
    {
      WroteOne(b, buf[..], str, Repeat(c, size - left), c);
      RepeatMore(c, size - left);
      left := left - 1;
      buf[end] := c;
      end := end + 1;
    }
    left := left - 1;
  }

  function Pow2(k: nat): nat {
    if k == 0 then 1 else 2 * Pow2(k - 1)
  }

  lemma {:induction false} DigitCount(n: nat, base: nat, k: nat)
    requires base >= 2 && 0 < k && n < Pow2(k)
    ensures |Digits(n, base)| <= k
    decreases k
  {
    if n >= base {
      assert k > 1;
      DigitCount(Quotient(n, base), base, k - 1);
    }
  }

  lemma WordDigits(n: Word32, base: nat)
    requires base >= 2
    ensures |Digits(n, base)| <= 32
  {
    assert Pow2(8) == 256;
    assert Pow2(16) == 256 * Pow2(8);
    assert Pow2(24) == 256 * Pow2(16);
    assert Pow2(32) == 256 * Pow2(24);
    DigitCount(n, base, 32);
  }

  lemma DigitTextEnds(n: nat, base: nat, small: bool)
    requires 2 <= base <= 36
    ensures Remainder(n, base) < 36
    ensures DigitText(n, base, small)
         == (if n < base then "" else DigitText(Quotient(n, base), base, small))
            + [DigitChar(Remainder(n, base), small)]
  {
    DigitsSmall(n, base);
    var r := Remainder(n, base);
    if n >= base {
      DigitsSmall(Quotient(n, base), base);
      SpellMore(Digits(Quotient(n, base), base), r, small);
    } else {
      SpellMore([], r, small);
    }
    hide Spell, Remainder, Quotient, DigitChar;
  }

  lemma SpellMore(ds: seq<nat>, d: nat, small: bool)
    requires d < 36 && forall i | 0 <= i < |ds| :: ds[i] < 36
    ensures Spell(ds + [d], small) == Spell(ds, small) + [DigitChar(d, small)]
    ensures Spell([], small) == "" && [] + [d] == [d]
  {
    hide DigitChar;
  }

  /** The digits of a number into `tmp`, last digit first; zero has the digit 0. */
  method Convert(num: Word32, base: nat, small: bool) returns (tmp: array<char>, i: nat)
    requires 2 <= base <= 36
    ensures fresh(tmp) && i <= tmp.Length == 36 && i == |DigitText(num, base, small)|
    ensures forall k | 0 <= k < i :: tmp[k] == DigitText(num, base, small)[i - 1 - k]
  {
    hide DigitText, Digits, DigitChar;
    tmp := new char[36];
    i := 0;
    var n: nat := num;
    ghost var text := DigitText(num, base, small);
    WordDigits(num, base);
    if n == 0 {
      DigitTextEnds(n, base, small);
      DigitZero(small);
      tmp[i] := '0';
      i := i + 1;
    } else {
      while n != 0
        invariant i <= |text| <= 32
        invariant n != 0 ==> text == DigitText(n, base, small) + text[|text| - i..]
        invariant n == 0 ==> i == |text|
        invariant forall k | 0 <= k < i :: tmp[k] == text[|text| - 1 - k]
        decreases n
      {
        DigitTextEnds(n, base, small);
        var q := Quotient(n, base);
        assert text[|text| - i - 1..] == [DigitChar(Remainder(n, base), small)] + text[|text| - i..];
        tmp[i] := DigitChar(Remainder(n, base), small);
        i := i + 1;
        n := q;
      }
    }
  }

  lemma DigitZero(small: bool)
    ensures DigitChar(0, small) == '0'
  {
  }

  /** `while (i-- > 0) *str++ = tmp[i];` */
  method CopyBack(buf: array<char>, str: nat, tmp: array<char>, count: nat, ghost text: string) returns (end: nat)
    requires buf != tmp && count == |text| <= tmp.Length && str + count <= buf.Length
    requires forall k | 0 <= k < count :: tmp[k] == text[count - 1 - k]
    modifies buf
    ensures Wrote(old(buf[..]), buf[..], str, text) && end == str + count
  {
    end := str;
    var i := count;
    ghost var b := buf[..];
    WroteNothing(b, str);
    while i > 0
      invariant 0 <= i <= count && end == str + (count - i)
      invariant Wrote(b, buf[..], str, text[..count - i])
      invariant forall k | 0 <= k < count :: tmp[k] == text[count - 1 - k]
    {
      i := i - 1;
      WroteOne(b, buf[..], str, text[..count - i - 1], tmp[i]);
      assert text[..count - i] == text[..count - i - 1] + [tmp[i]];
      buf[end] := tmp[i];
      end := end + 1;
    }
    assert text[..count] == text;
  }

  /** `*str++ = c;` */
  method Put(buf: array<char>, str: nat, c: char) returns (end: nat)
    requires str < buf.Length
    modifies buf
    ensures Wrote(old(buf[..]), buf[..], str, [c]) && end == str + 1
  {
    buf[str] := c;
    end := str + 1;
  }

  /** A sign of NUL means none. */
  method PutSign(buf: array<char>, str: nat, sign: char, ghost text: string) returns (end: nat)
    requires text == (if sign == '\0' then "" else [sign]) && str + |text| <= buf.Length
    modifies buf
    ensures Wrote(old(buf[..]), buf[..], str, text) && end == str + |text|
  {
    hide Wrote;
    end := str;
    WroteNothing(buf[..], str);
    if sign != '\0' {
      end := Put(buf, end, sign);
    }
  }

  method PutPrefix(buf: array<char>, str: nat, base: int, kind: Flags) returns (end: nat)
    requires 2 <= base <= 36 && str + |PrefixText(base, kind)| <= buf.Length
    modifies buf
    ensures Wrote(old(buf[..]), buf[..], str, PrefixText(base, kind)) && end == str + |PrefixText(base, kind)|
  {
    hide DigitChar, Wrote;
    end := str;
    ghost var b := buf[..];
    WroteNothing(b, str);
    if kind.special {
      if base == 8 {
        end := Put(buf, end, '0');
      } else if base == 16 {
        end := Put(buf, end, '0');
        ghost var b1 := buf[..];
        var x := DigitChar(33, kind.small);
        end := Put(buf, end, x);
        WroteOn(b, b1, buf[..], str, ['0'], [x]);
        assert ['0'] + [x] == ['0', x];
      }
    }
  }

  method PutStart(buf: array<char>, str: nat, sign: char, base: int, kind: Flags, ghost num: Word32) returns (end: nat)
    requires 2 <= base <= 36 && SignText(num, kind) == if sign == '\0' then "" else [sign]
    requires str + |SignText(num, kind)| + |PrefixText(base, kind)| <= buf.Length
    modifies buf
    ensures Wrote(old(buf[..]), buf[..], str, SignText(num, kind) + PrefixText(base, kind))
    ensures end == str + |SignText(num, kind)| + |PrefixText(base, kind)|
  {
    hide Wrote, SignText, PrefixText;
    ghost var b := buf[..];
    end := PutSign(buf, str, sign, SignText(num, kind));
    ghost var b1 := buf[..];
    end := PutPrefix(buf, end, base, kind);
    WroteOn(b, b1, buf[..], str, SignText(num, kind), PrefixText(base, kind));
  }

  /** Everything before the body: blanks, sign, prefix, zeros.  `left` is the padding not yet written. */
  method PutHead(buf: array<char>, str: nat, slack: int, sign: char, base: int, kind: Flags, ghost num: Word32)
    returns (end: nat, left: int)
    requires 2 <= base <= 36 && SignText(num, kind) == if sign == '\0' then "" else [sign]
    requires !(kind.left && kind.zeropad)
    requires str + |SignText(num, kind)| + |PrefixText(base, kind)| + Max(slack, 0) <= buf.Length
    modifies buf
    ensures Wrote(old(buf[..]), buf[..], str, HeadText(slack, kind, SignText(num, kind), PrefixText(base, kind)))
    ensures end == str + |HeadText(slack, kind, SignText(num, kind), PrefixText(base, kind))|
    ensures if kind.left then left == slack else left < 0
  {
    hide Repeat, Wrote, SignText, PrefixText;
    ghost var sign0, prefix := SignText(num, kind), PrefixText(base, kind);
    ghost var b := buf[..];
    end, left := str, slack;
    ghost var text := "";
    WroteNothing(b, str);
    if !(kind.zeropad || kind.left) {
      end, left := Fill(buf, end, left, ' ');
      text := Repeat(' ', slack);
    }
    ghost var b1 := buf[..];
    end := PutStart(buf, end, sign, base, kind, num);
    WroteOn(b, b1, buf[..], str, text, sign0 + prefix);
    if !kind.left {
      ghost var b3, more := buf[..], if kind.zeropad then Repeat('0', slack) else "";
      RepeatNone(' ', if kind.zeropad then 0 else left);
      end, left := Fill(buf, end, left, if kind.zeropad then '0' else ' ');
      WroteOn(b, b3, buf[..], str, text + (sign0 + prefix), more);
    }
  }

  function HeadText(slack: int, f: Flags, sign: string, prefix: string): string {
    if f.left then "" + (sign + prefix)
    else if f.zeropad then "" + (sign + prefix) + Repeat('0', slack)
    else Repeat(' ', slack) + (sign + prefix) + ""
  }

  lemma HeadAndBody(slack: int, left: int, f: Flags, sign: string, prefix: string, body: string)
    requires if f.left then left == slack else left < 0
    ensures FieldText(slack, f, sign + prefix, body) == HeadText(slack, f, sign, prefix) + body + Repeat(' ', left)
  {
    if !f.left {
      RepeatNone(' ', left);
    }
    hide Repeat;
    Regroup(sign + prefix, Repeat('0', slack), body);
    Regroup(sign + prefix, body, Repeat(' ', slack));
    Regroup(Repeat(' ', slack), sign + prefix, body);
  }

  /** The zeros of the precision and the digits of the magnitude `n`. */
  method PutBody(buf: array<char>, str: nat, tmp: array<char>, i: nat, precision: int, ghost text: string)
    returns (end: nat)
    requires buf != tmp && i == |text| <= tmp.Length && i <= precision && str + precision <= buf.Length
    requires forall k | 0 <= k < i :: tmp[k] == text[i - 1 - k]
    modifies buf
    ensures Wrote(old(buf[..]), buf[..], str, Repeat('0', precision - i) + text) && end == str + precision
  {
    hide Repeat, Wrote;
    ghost var b := buf[..];
    var left;
    end, left := Fill(buf, str, precision - i, '0');
    ghost var b1 := buf[..];
    end := CopyBack(buf, end, tmp, i, text);
    WroteOn(b, b1, buf[..], str, Repeat('0', precision - i), text);
  }

  /** All that `number` writes, once it knows how much padding is left to write. */
  method PutField(buf: array<char>, str: nat, slack: int, sign: char, base: int, kind: Flags, tmp: array<char>, i: nat,
                  precision: int, ghost num: Word32, ghost digits: string) returns (end: nat)
    requires 2 <= base <= 36 && SignText(num, kind) == if sign == '\0' then "" else [sign]
    requires buf != tmp && i == |digits| <= tmp.Length && i <= precision && !(kind.left && kind.zeropad)
    requires forall k | 0 <= k < i :: tmp[k] == digits[i - 1 - k]
    requires str + |SignText(num, kind)| + |PrefixText(base, kind)| + precision + Max(slack, 0) <= buf.Length
    modifies buf
    ensures var text := FieldText(slack, kind, SignText(num, kind) + PrefixText(base, kind),
                                  Repeat('0', precision - i) + digits);
      Wrote(old(buf[..]), buf[..], str, text) && end == str + |text|
  {
    hide Repeat, Wrote, SignText, PrefixText, FieldText, HeadText;
    ghost var sign0, prefix := SignText(num, kind), PrefixText(base, kind);
    ghost var head, body := HeadText(slack, kind, sign0, prefix), Repeat('0', precision - i) + digits;
    ghost var b := buf[..];
    var left;
    HeadLength(slack, kind, sign0, prefix);
    end, left := PutHead(buf, str, slack, sign, base, kind, num);
    ghost var b1 := buf[..];
    end := PutBody(buf, end, tmp, i, precision, digits);
    WroteOn(b, b1, buf[..], str, head, body);
    ghost var b2, blanks := buf[..], Repeat(' ', left);
    end, left := Fill(buf, end, left, ' ');
    WroteOn(b, b2, buf[..], str, head + body, blanks);
    HeadAndBody(slack, if kind.left then slack else -1, kind, sign0, prefix, body);
    RepeatNone(' ', -1);
  }

  lemma HeadLength(slack: int, f: Flags, sign: string, prefix: string)
    ensures |HeadText(slack, f, sign, prefix)| == |sign| + |prefix| + if f.left then 0 else Max(slack, 0)
  {
  }

  method Number(buf: array<char>, str: nat, num: Word32, base: int, size: int, precision: int, f: Flags)
    returns (r: Option<nat>)
    requires 2 <= base <= 36 ==> str + |NumberText(num, base, size, precision, f)| <= buf.Length
    modifies buf
    ensures r.None? <==> base < 2 || base > 36
    ensures r.None? ==> buf[..] == old(buf[..])
    ensures r.Some? ==>
      var text := NumberText(num, base, size, precision, f);
      Wrote(old(buf[..]), buf[..], str, text) && r.value == str + |text|
  {
    hide Repeat, Wrote, DigitText, SignText, PrefixText, DigitChar, Digits, FieldText, Slack, Body;
    var kind := if f.left then f.(zeropad := false) else f;
    if base < 2 || base > 36 {
      return None;
    }
    var n, left, prec := num, size, precision;
    var sign;
    if kind.sign && n >= 0x8000_0000 {
      sign := '-';
      n := 0x1_0000_0000 - n;
    } else {
      sign := if kind.plus then '+' else if kind.space then ' ' else '\0';
    }
    SignIs(num, f, kind, sign);
    PrefixIs(base, f, kind);
    left := Narrowed(size, sign, base, kind, num);
    var tmp, i := Convert(n, base, kind.small);
    if i > prec {
      prec := i;
    }
    left := left - prec;
    ghost var digits := DigitText(n, base, kind.small);
    FieldParts(num, base, size, precision, f);
    ZerosSame(precision, i);
    FieldSame(left, f, kind, SignText(num, f) + PrefixText(base, f), Body(num, base, precision, f));
    var end := PutField(buf, str, left, sign, base, kind, tmp, i, prec, num, digits);
    return Some(end);
  }

  /** The field without sign and prefix. */
  method Narrowed(size: int, sign: char, base: int, kind: Flags, ghost num: Word32) returns (left: int)
    requires 2 <= base <= 36 && SignText(num, kind) == if sign == '\0' then "" else [sign]
    ensures left == size - |SignText(num, kind)| - |PrefixText(base, kind)|
  {
    left := size;
    if sign != '\0' {
      left := left - 1;
    }
    if kind.special {
      if base == 16 {
        left := left - 2;
      } else if base == 8 {
        left := left - 1;
      }
    }
  }

  lemma FieldParts(num: Word32, base: nat, size: int, precision: int, f: Flags)
    requires 2 <= base <= 36
    ensures var text := DigitText(Magnitude(num, f), base, f.small);
      && Body(num, base, precision, f) == Repeat('0', precision - |text|) + text
      && Slack(num, base, size, precision, f)
         == size - |SignText(num, f)| - |PrefixText(base, f)| - Max(precision, |text|)
  {
  }

  lemma FieldSame(slack: int, f: Flags, kind: Flags, start: string, body: string)
    requires kind == if f.left then f.(zeropad := false) else f
    ensures FieldText(slack, kind, start, body) == FieldText(slack, f, start, body)
  {
  }

  lemma SignIs(num: Word32, f: Flags, kind: Flags, sign: char)
    requires kind == if f.left then f.(zeropad := false) else f
    requires sign == if Negative(num, kind) then '-' else if kind.plus then '+' else if kind.space then ' ' else '\0'
    ensures SignText(num, f) == SignText(num, kind) == if sign == '\0' then "" else [sign]
  {
  }

  lemma PrefixIs(base: int, f: Flags, kind: Flags)
    requires 2 <= base <= 36 && kind == if f.left then f.(zeropad := false) else f
    ensures PrefixText(base, f) == PrefixText(base, kind)
  {
  }

  lemma ZerosSame(precision: int, i: nat)
    ensures Repeat('0', Max(precision, i) - i) == Repeat('0', precision - i)
  {
  }

  lemma RepeatNone(c: char, n: int)
    requires n <= 0
    ensures Repeat(c, n) == ""
  {
  }
}
