/**
  What each directive of a format does (vsprintf.c), told by the characters it is written
  with: the flag letters, the decimal numbers, the qualifier and the conversion character.
*/
module Directives {
  import opened Basics
  import opened Numbers
  import opened Formats

  /** What may stand between a percent sign and the conversion character; `None` is no point at all. */
  datatype Marks = Marks(flags: string, width: string, precision: Option<string>, qualifier: string) {
    predicate Valid() {
      && (forall c | c in flags :: c in {'-', '+', ' ', '#', '0'})
      && Decimal(width) && (width != "" ==> width[0] != '0')
      && (precision.Some? ==> Decimal(precision.value))
      && qualifier in {"", "h", "l", "L"}
    }

    function Text(): string {
      flags + (width + (PrecisionPart() + qualifier))
    }

    function PrecisionPart(): string {
      if precision.None? then "" else "." + precision.value
    }

    /** The number written as width, -1 without one. */
    function Width(): int {
      if width == "" then -1 else ReadDigits(width, 10, 0)
    }

    /** The number written behind the point, 0 when there is only the point, -1 without one. */
    function Precision(): int {
      if precision.None? then -1 else ReadDigits(precision.value, 10, 0)
    }

    /** A star where a number could have begun: it takes an argument and is the conversion character. */
    predicate Star(c: char) {
      c == '*' && qualifier == "" && if precision.None? then width == "" else precision.value == ""
    }

    /** What follows, if anything does, does not belong to the marks. */
    predicate Stop(rest: string) {
      rest != "" && qualifier == "" ==>
        && rest[0] !in {'h', 'l', 'L'} && !('0' <= rest[0] <= '9')
        && (precision.None? ==> rest[0] != '.')
        && (precision.None? && width == "" ==> rest[0] !in {'-', '+', ' ', '#', '0'})
    }
  }

  predicate Decimal(s: string) {
    forall c | c in s :: '0' <= c <= '9'
  }

  lemma First(s: string, c: char)
    requires s != ""
    ensures s[0] in s && (c in s <==> c == s[0] || c in s[1..]) && forall d | d in s[1..] :: d in s
  {
    assert s == [s[0]] + s[1..];
  }

  lemma Drop(s: string, rest: string)
    requires s != ""
    ensures (s + rest)[0] == s[0] && (s + rest)[1..] == s[1..] + rest
  {
  }

  /** The flags after one more letter. */
  lemma FlagMeans(c: char, s: string, f: Flags) returns (g: Flags)
    requires c in {'-', '+', ' ', '#', '0'}
    ensures g == Flags(f.zeropad || c == '0', f.sign, f.plus || c == '+', f.space || c == ' ', f.left || c == '-',
                       f.special || c == '#', f.small)
    ensures s != "" && s[0] == c ==> TakeFlags(s, f) == TakeFlags(s[1..], g)
  {
    g := match c
      case '-' => f.(left := true)
      case '+' => f.(plus := true)
      case ' ' => f.(space := true)
      case '#' => f.(special := true)
      case _ => f.(zeropad := true);
  }

  /** Which flag each letter sets. */
  lemma {:induction false} FlagsMean(s: string, rest: string, f: Flags)
    requires forall c | c in s :: c in {'-', '+', ' ', '#', '0'}
    requires rest == "" || rest[0] !in {'-', '+', ' ', '#', '0'}
    ensures TakeFlags(s + rest, f) == (Flags(f.zeropad || '0' in s, f.sign, f.plus || '+' in s, f.space || ' ' in s,
                                             f.left || '-' in s, f.special || '#' in s, f.small), rest)
    decreases |s|
  {
    if s == "" {
      assert s + rest == rest;
    } else {
      hide TakeFlags;
      Drop(s, rest);
      First(s, '-');
      First(s, '+');
      First(s, ' ');
      First(s, '#');
      First(s, '0');
      var g := FlagMeans(s[0], s + rest, f);
      FlagsMean(s[1..], rest, g);
    }
  }

  lemma {:induction false} NumberMeans(s: string, rest: string, acc: nat)
    requires Decimal(s) && (rest == "" || !('0' <= rest[0] <= '9'))
    ensures TakeNumber(s + rest, acc) == (ReadDigits(s, 10, acc), rest)
    decreases |s|
  {
    if s == "" {
      assert s + rest == rest;
    } else {
      Drop(s, rest);
      First(s, s[0]);
      NumberMeans(s[1..], rest, Shift(acc, 10, s[0] as int - '0' as int));
    }
  }

  lemma WidthMeans(m: Marks, rest: string)
    requires m.Valid() && (rest == "" || !('0' <= rest[0] <= '9'))
    ensures TakeWidth(m.width + rest)
         == (m.Width(), if m.width == "" && rest != "" && rest[0] == '*' then 1 else 0, rest)
  {
    hide TakeNumber, ReadDigits;
    if m.width == "" {
      assert m.width + rest == rest;
    } else {
      Drop(m.width, rest);
      assert m.width[0] in m.width;
      NumberMeans(m.width, rest, 0);
    }
  }

  lemma PrecisionMeans(m: Marks, rest: string)
    requires m.Valid() && (rest == "" || !('0' <= rest[0] <= '9'))
    requires m.precision.None? ==> rest == "" || rest[0] != '.'
    ensures TakePrecision(m.PrecisionPart() + rest)
         == (m.Precision(), if m.precision == Some("") && rest != "" && rest[0] == '*' then 1 else 0, rest)
  {
    hide TakeNumber;
    if m.precision.None? {
      assert m.PrecisionPart() + rest == rest;
    } else {
      var s := m.precision.value;
      Drop("." + s, rest);
      if s == "" {
        assert ("." + s)[1..] + rest == rest;
      } else {
        assert ("." + s)[1..] == s && s[0] in s && (s + rest)[0] == s[0];
        NumberMeans(s, rest, 0);
      }
    }
  }

  lemma QualifierMeans(m: Marks, rest: string)
    requires m.Valid() && m.Stop(rest)
    ensures TakeQualifier(m.qualifier + rest) == rest
  {
    if m.qualifier == "" {
      assert m.qualifier + rest == rest;
    } else {
      Drop(m.qualifier, rest);
      assert m.qualifier[1..] + rest == rest;
    }
  }

  lemma Nest(a: string, b: string, c: string, d: string, e: string)
    ensures a + (b + (c + d)) + e == a + (b + (c + (d + e)))
  {
    assert a + (b + (c + d)) + e == a + (b + (c + d) + e);
    assert b + (c + d) + e == b + (c + d + e);
    assert c + d + e == c + (d + e);
  }

  /** How any text behind a percent sign is read, in terms of its characters alone. */
  lemma MarksMean(m: Marks, rest: string)
    requires m.Valid() && m.Stop(rest)
    ensures ParseDirective(m.Text() + rest)
         == if rest == "" then (Cut(0), "")
            else (Conversion(Flags('0' in m.flags, false, '+' in m.flags, ' ' in m.flags, '-' in m.flags,
                                   '#' in m.flags, false),
                             m.Width(), m.Precision(), if m.Star(rest[0]) then 1 else 0, rest[0]), rest[1..])
  {
    hide TakeFlags, TakeWidth, TakePrecision, TakeQualifier, ReadDigits;
    var s4 := m.qualifier + rest;
    var s3 := m.PrecisionPart() + s4;
    var s2 := m.width + s3;
    Nest(m.flags, m.width, m.PrecisionPart(), m.qualifier, rest);
    Heads(m, rest);
    FlagsMean(m.flags, s2, NO_FLAGS);
    WidthMeans(m, s3);
    PrecisionMeans(m, s4);
    QualifierMeans(m, rest);
  }

  /** What stands first in each remainder. */
  lemma Heads(m: Marks, rest: string)
    requires m.Valid() && m.Stop(rest)
    ensures var s4 := m.qualifier + rest;
      var s3 := m.PrecisionPart() + s4;
      var s2 := m.width + s3;
      && (s2 == "" || s2[0] !in {'-', '+', ' ', '#', '0'})
      && (s3 == "" || !('0' <= s3[0] <= '9')) && (s4 == "" || !('0' <= s4[0] <= '9'))
      && (m.precision.None? ==> s4 == "" || s4[0] != '.')
      && (s3 != "" && s3[0] == '*' <==> rest != "" && m.precision.None? && m.qualifier == "" && rest[0] == '*')
      && (s4 != "" && s4[0] == '*' <==> rest != "" && m.qualifier == "" && rest[0] == '*')
  {
    var s4 := m.qualifier + rest;
    var s3 := m.PrecisionPart() + s4;
    assert m.qualifier == "" ==> s4 == rest;
    assert m.precision.None? ==> s3 == s4;
    assert m.width == "" ==> m.width + s3 == s3;
    assert m.width != "" ==> m.width[0] in m.width;
  }

  lemma ParseOne(s: string, d: Directive)
    requires ParseDirective(s) == (d, "")
    ensures Parse("%" + s) == [d]
  {
    hide ParseDirective;
    assert ("%" + s)[1..] == s;
  }

  lemma RenderSingle(d: Directive, env: Env, a: nat, n: nat)
    ensures Render([d], env, a, n) == RenderOne(d, env, a, n)
  {
    hide RenderOne;
    var o := RenderOne(d, env, a, n);
    assert Render([d][1..], env, a + o.taken, n + |o.text|) == Output("", 0, []);
    assert o.text + "" == o.text && o.stores + [] == o.stores;
  }

  /** A whole directive: its marks and its conversion character. */
  lemma Renders(m: Marks, c: char, env: Env, a: nat, n: nat)
    requires m.Valid() && m.Stop([c])
    ensures Complete("%" + (m.Text() + [c]))
    ensures var f := Flags('0' in m.flags, false, '+' in m.flags, ' ' in m.flags, '-' in m.flags, '#' in m.flags,
                           false);
      Render(Parse("%" + (m.Text() + [c])), env, a, n)
      == RenderOne(Conversion(f, m.Width(), m.Precision(), if m.Star(c) then 1 else 0, c), env, a, n)
  {
    hide ParseDirective, Parse, Render, RenderOne;
    MarksMean(m, [c]);
    var d := ParseDirective(m.Text() + [c]).0;
    ParseOne(m.Text() + [c], d);
    RenderSingle(d, env, a, n);
  }

  /** A format that ends before the conversion character: a percent sign is all that is written. */
  lemma CutDirective(m: Marks, env: Env, a: nat, n: nat)
    requires m.Valid()
    ensures Render(Parse("%" + m.Text()), env, a, n) == Output("%", 0, [])
  {
    hide ParseDirective, Parse, Render;
    MarksMean(m, "");
    assert m.Text() + "" == m.Text();
    ParseOne(m.Text(), Cut(0));
    RenderSingle(Cut(0), env, a, n);
  }

  /** Conversion `%`, and every character that is none: a star may have taken an argument. */
  lemma OtherDirective(m: Marks, c: char, env: Env, a: nat, n: nat)
    requires m.Valid() && m.Stop([c]) && c !in {'c', 's', 'o', 'p', 'x', 'X', 'd', 'i', 'u', 'b', 'n'}
    ensures Render(Parse("%" + (m.Text() + [c])), env, a, n)
         == Output(if c == '%' then "%" else "%" + [c], if m.Star(c) then 1 else 0, [])
  {
    hide Parse, Render;
    Renders(m, c, env, a, n);
    assert "%" + [c] == ['%', c];
  }

  /** Conversion `n` writes nothing and stores how much has been written before it. */
  lemma CountDirective(m: Marks, env: Env, a: nat, n: nat)
    requires m.Valid()
    ensures Render(Parse("%" + (m.Text() + "n")), env, a, n) == Output("", 1, [Store(env.args(a), n)])
  {
    hide Parse, Render;
    Renders(m, 'n', env, a, n);
  }

  /** Conversion `c`: one character, its blanks behind under `-` and in front else. */
  lemma CharDirective(m: Marks, env: Env, a: nat, n: nat)
    requires m.Valid()
    ensures var ch, blanks := (env.args(a) % 256) as char, Repeat(' ', m.Width() - 1);
      Render(Parse("%" + (m.Text() + "c")), env, a, n)
      == Output(if '-' in m.flags then [ch] + blanks else blanks + [ch], 1, [])
  {
    hide Parse, Render, Repeat;
    Renders(m, 'c', env, a, n);
  }

  /** Conversion `s`: as much of the string as the precision allows, and blanks like those of `c`. */
  lemma StringDirective(m: Marks, env: Env, a: nat, n: nat)
    requires m.Valid()
    ensures var s := env.strings(env.args(a));
      var shown := if m.precision.None? || |s| <= m.Precision() then s else s[..m.Precision()];
      var blanks := Repeat(' ', m.Width() - |shown|);
      Render(Parse("%" + (m.Text() + "s")), env, a, n)
      == Output(if '-' in m.flags then shown + blanks else blanks + shown, 1, [])
  {
    hide Parse, Render, Repeat;
    Renders(m, 's', env, a, n);
  }

  /** Base, width and flags each conversion of an integer asks `number` for. */
  lemma WritesNumber(m: Marks, c: char, env: Env, a: nat, n: nat) returns (f: Flags, base: nat, w: int)
    requires m.Valid() && c in {'o', 'p', 'x', 'X', 'd', 'i', 'u', 'b'}
    ensures base == if c in {'x', 'X', 'p'} then 16 else if c == 'o' then 8 else if c == 'b' then 2 else 10
    ensures w == if c == 'p' && m.width == "" then 8 else m.Width()
    ensures f == Flags((c == 'p' && m.width == "") || '0' in m.flags, c in {'d', 'i'}, '+' in m.flags, ' ' in m.flags,
                       '-' in m.flags, '#' in m.flags, c == 'x')
    ensures Render(Parse("%" + (m.Text() + [c])), env, a, n)
         == Output(NumberText(env.args(a), base, w, m.Precision(), f), 1, [])
  {
    hide Parse, Render, NumberText;
    Renders(m, c, env, a, n);
    base := if c in {'x', 'X', 'p'} then 16 else if c == 'o' then 8 else if c == 'b' then 2 else 10;
    w := if c == 'p' && m.width == "" then 8 else m.Width();
    f := Flags((c == 'p' && m.width == "") || '0' in m.flags, c in {'d', 'i'}, '+' in m.flags, ' ' in m.flags,
               '-' in m.flags, '#' in m.flags, c == 'x');
  }

  lemma Marked(x: Word32, c: char, base: nat, f: Flags)
    requires base == if c in {'x', 'X', 'p'} then 16 else if c == 'o' then 8 else if c == 'b' then 2 else 10
    requires f.sign == (c in {'d', 'i'}) && f.small == (c == 'x')
    ensures NumberSign(x, f) == if c in {'d', 'i'} && x >= 0x8000_0000 then "-"
                                else if f.plus then "+" else if f.space then " " else ""
    ensures NumberPrefix(base, f) == if !f.special then "" else if c == 'o' then "0" else if c == 'x' then "0x"
                                     else if c in {'X', 'p'} then "0X" else ""
  {
  }

  /**
    The conversions of integers: `x`, `X` and `p` write in base 16, `o` in base 8, `b` in base
    2, the others in base 10, and only `d` and `i` know of a sign.  `p` without a width asks
    for eight places filled with zeros.
  */
  lemma NumberDirective(m: Marks, c: char, env: Env, a: nat, n: nat) returns (digits: string)
    requires m.Valid() && c in {'o', 'p', 'x', 'X', 'd', 'i', 'u', 'b'}
    ensures var x := env.args(a);
      var base := if c in {'x', 'X', 'p'} then 16 else if c == 'o' then 8 else if c == 'b' then 2 else 10;
      && Numeral(digits, base, c == 'x')
      && ReadDigits(digits, base, 0) == if c in {'d', 'i'} && x >= 0x8000_0000 then 0x1_0000_0000 - x else x
    ensures var sign := if c in {'d', 'i'} && env.args(a) >= 0x8000_0000 then "-"
                        else if '+' in m.flags then "+" else if ' ' in m.flags then " " else "";
      var prefix := if '#' !in m.flags then "" else if c == 'o' then "0" else if c == 'x' then "0x"
                    else if c in {'X', 'p'} then "0X" else "";
      var plain := sign + prefix + (Repeat('0', m.Precision() - |digits|) + digits);
      var bare := c == 'p' && m.width == "";
      var missing := (if bare then 8 else m.Width()) - |plain|;
      Render(Parse("%" + (m.Text() + [c])), env, a, n)
      == Output(if '-' in m.flags then plain + Repeat(' ', missing)
                else if bare || '0' in m.flags then
                  plain[..|sign| + |prefix|] + Repeat('0', missing) + plain[|sign| + |prefix|..]
                else Repeat(' ', missing) + plain, 1, [])
         && |Render(Parse("%" + (m.Text() + [c])), env, a, n).text| == Max(if bare then 8 else m.Width(), |plain|)
  {
    hide Parse, Render, Repeat, ReadDigits, Numeral, NumberText, NumberSign, NumberPrefix, Digits;
    var f, base, w := WritesNumber(m, c, env, a, n);
    digits := Unpadded(env.args(a), base, m.Precision(), f);
    Padded(env.args(a), base, w, m.Precision(), f);
    Marked(env.args(a), c, base, f);
  }

  /** Read back in its base the text is the argument, of `d` and `i` its signed meaning. */
  lemma DirectiveReadsBack(m: Marks, c: char, env: Env, a: nat, n: nat)
    requires m.Valid() && c in {'o', 'p', 'x', 'X', 'd', 'i', 'u', 'b'}
    ensures var x := env.args(a);
      var base := if c in {'x', 'X', 'p'} then 16 else if c == 'o' then 8 else if c == 'b' then 2 else 10;
      Read(Render(Parse("%" + (m.Text() + [c])), env, a, n).text, base, '#' in m.flags)
      == if c in {'d', 'i'} && x >= 0x8000_0000 then x - 0x1_0000_0000 else x
  {
    hide *;
    var f, base, w := WritesNumber(m, c, env, a, n);
    NumberReadsBack(env.args(a), base, w, m.Precision(), f);
    Meant(env.args(a), f);
  }

  lemma Meant(x: Word32, f: Flags)
    ensures Meaning(x, f) == if f.sign && x >= 0x8000_0000 then x - 0x1_0000_0000 else x
  {
  }

  /** The digits a text begins with. */
  lemma {:induction false} DigitPart(s: string) returns (digits: string, rest: string)
    ensures Decimal(digits) && s == digits + rest && (rest == "" || !('0' <= rest[0] <= '9'))
    decreases |s|
  {
    if s == "" || !('0' <= s[0] <= '9') {
      digits, rest := "", s;
    } else {
      digits, rest := DigitPart(s[1..]);
      digits := [s[0]] + digits;
    }
  }

  lemma {:induction false} FlagPart(s: string) returns (flags: string, rest: string)
    ensures (forall c | c in flags :: c in {'-', '+', ' ', '#', '0'}) && s == flags + rest
    ensures rest == "" || rest[0] !in {'-', '+', ' ', '#', '0'}
    decreases |s|
  {
    if s == "" || s[0] !in {'-', '+', ' ', '#', '0'} {
      flags, rest := "", s;
    } else {
      flags, rest := FlagPart(s[1..]);
      flags := [s[0]] + flags;
    }
  }

  lemma PointPart(s: string) returns (precision: Option<string>, rest: string)
    ensures (precision.Some? ==> Decimal(precision.value)) && (precision.None? ==> rest == "" || rest[0] != '.')
    ensures s == (if precision.None? then "" else "." + precision.value) + rest
    ensures if precision.None? then rest == s else rest == "" || !('0' <= rest[0] <= '9')
  {
    hide Decimal;
    precision, rest := None, s;
    if s != "" && s[0] == '.' {
      var digits;
      digits, rest := DigitPart(s[1..]);
      precision := Some(digits);
    }
  }

  /** Every text is marks followed by what does not belong to them: all directives are covered. */
  lemma EveryText(s: string) returns (m: Marks, rest: string)
    ensures m.Valid() && m.Stop(rest) && s == m.Text() + rest
  {
    hide Decimal;
    var flags, s1 := FlagPart(s);
    var width, s2 := DigitPart(s1);
    var precision, s3 := PointPart(s2);
    var q := if s3 != "" && s3[0] in {'h', 'l', 'L'} then 1 else 0;
    m, rest := Marks(flags, width, precision, s3[..q]), s3[q..];
    Nest(flags, width, m.PrecisionPart(), s3[..q], rest);
    assert s3[..q] + s3[q..] == s3;
    assert if width == "" then s1 == s2 else width[0] == s1[0];
    assert s3[..q] == if q == 0 then "" else [s3[0]];
  }

  /** Two of them: 255 under `%x` and -7 under `%+05d`. */
  lemma Examples(env: Env)
    requires env.args(0) == 255 && env.args(1) == 0x1_0000_0000 - 7
    ensures Formatted("%x", env) == Output("ff", 1, [])
    ensures Render(Parse("%+05d"), env, 1, 2) == Output("-0007", 1, [])
  {
    hide Parse, Render, NumberText;
    var m := Marks("", "", None, "");
    assert "%" + (m.Text() + "x") == "%x";
    var f, base, w := WritesNumber(m, 'x', env, 0, 0);
    Hex255(w, m.Precision(), f);
    m := Marks("+0", "5", None, "");
    assert "%" + (m.Text() + "d") == "%+05d";
    f, base, w := WritesNumber(m, 'd', env, 1, 2);
    MinusSeven(w, m.Precision(), f);
  }

  lemma Hex255(w: int, precision: int, f: Flags)
    requires w == -1 && precision == -1 && f == NO_FLAGS.(small := true)
    ensures NumberText(255, 16, w, precision, f) == "ff"
  {
    assert Digits(15, 16) == [15] && Quotient(255, 16) == 15;
    assert DigitText(255, 16, true) == "ff";
  }

  lemma MinusSeven(w: int, precision: int, f: Flags)
    requires w == 5 && precision == -1 && f == NO_FLAGS.(sign := true, plus := true, zeropad := true)
    ensures NumberText(0x1_0000_0000 - 7, 10, w, precision, f) == "-0007"
  {
    assert DigitText(7, 10, false) == "7";
    assert Repeat('0', 3) == "000";
  }
}
