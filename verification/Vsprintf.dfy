/**
  `vsprintf` (vsprintf.c), proved to write what the parsed format renders to.  The format
  ends with its only NUL, so that every index check says that nothing behind it is read.
*/
module Vsprintf {
  import opened Basics
  import opened Numbers
  import opened Formats
  import opened Printf

  predicate Terminated(fmt: seq<char>) {
    fmt != [] && fmt[|fmt| - 1] == '\0' && forall k | 0 <= k < |fmt| - 1 :: fmt[k] != '\0'
  }

  /** The format from place `i` on, without its NUL. */
  function Rest(fmt: seq<char>, i: nat): string
    requires i < |fmt|
  {
    fmt[i..|fmt| - 1]
  }

  lemma RestAt(fmt: seq<char>, i: nat)
    requires Terminated(fmt) && i < |fmt|
    ensures fmt[i] == '\0' <==> Rest(fmt, i) == ""
    ensures fmt[i] != '\0' ==>
      i + 1 < |fmt| && Rest(fmt, i)[0] == fmt[i] && Rest(fmt, i)[1..] == Rest(fmt, i + 1)
  {
  }

  method SkipAtoi(fmt: seq<char>, i: nat) returns (n: nat, j: nat)
    requires Terminated(fmt) && i < |fmt|
    ensures i <= j < |fmt| && (n, Rest(fmt, j)) == TakeNumber(Rest(fmt, i), 0)
  {
    hide Rest;
    n, j := 0, i;
    RestAt(fmt, j);
    while IsDigit(fmt[j])
      invariant i <= j < |fmt| && TakeNumber(Rest(fmt, i), 0) == TakeNumber(Rest(fmt, j), n)
      invariant fmt[j] == '\0' <==> Rest(fmt, j) == ""
      invariant fmt[j] != '\0' ==> Rest(fmt, j)[0] == fmt[j]
      decreases |fmt| - j
    {
      RestAt(fmt, j);
      n := Shift(n, 10, fmt[j] as int - '0' as int);
      j := j + 1;
      RestAt(fmt, j);
    }
  }

  /** The flags; `i` is the place of the percent sign. */
  method ReadFlags(fmt: seq<char>, i: nat) returns (f: Flags, j: nat)
    requires Terminated(fmt) && i + 1 < |fmt|
    ensures i < j < |fmt| && (f, Rest(fmt, j)) == TakeFlags(Rest(fmt, i + 1), NO_FLAGS)
  {
    hide Rest;
    f, j := NO_FLAGS, i + 1;
    RestAt(fmt, j);
    while fmt[j] in {'-', '+', ' ', '#', '0'}
      invariant i < j < |fmt| && TakeFlags(Rest(fmt, i + 1), NO_FLAGS) == TakeFlags(Rest(fmt, j), f)
      invariant fmt[j] == '\0' <==> Rest(fmt, j) == ""
      invariant fmt[j] != '\0' ==> Rest(fmt, j)[0] == fmt[j]
      decreases |fmt| - j
    {
      RestAt(fmt, j);
      match fmt[j] {
        case '-' => f := f.(left := true);
        case '+' => f := f.(plus := true);
        case ' ' => f := f.(space := true);
        case '#' => f := f.(special := true);
        case _ => f := f.(zeropad := true);
      }
      j := j + 1;
      RestAt(fmt, j);
    }
  }

  /** The field width.  A star takes an argument but stays in the format. */
  method ReadWidth(fmt: seq<char>, i: nat, env: Env, a: nat) returns (width: int, taken: nat, j: nat)
    requires Terminated(fmt) && i < |fmt|
    ensures i <= j < |fmt|
    ensures var (w, t, rest) := TakeWidth(Rest(fmt, i)); taken == t && rest == Rest(fmt, j) && (t == 0 ==> width == w)
  {
    hide Rest, TakeNumber;
    width, taken, j := -1, 0, i;
    RestAt(fmt, i);
    if IsDigit(fmt[i]) {
      width, j := SkipAtoi(fmt, i);
    } else if fmt[i] == '*' {
      width, taken := env.args(a), 1;
    }
  }

  method ReadPrecision(fmt: seq<char>, i: nat, env: Env, a: nat) returns (precision: int, taken: nat, j: nat)
    requires Terminated(fmt) && i < |fmt|
    ensures i <= j < |fmt|
    ensures var (p, t, rest) := TakePrecision(Rest(fmt, i));
      taken == t && rest == Rest(fmt, j) && (t == 0 ==> precision == p)
  {
    hide Rest, TakeNumber;
    precision, taken, j := -1, 0, i;
    RestAt(fmt, i);
    if fmt[i] == '.' {
      j := i + 1;
      RestAt(fmt, j);
      if IsDigit(fmt[j]) {
        precision, j := SkipAtoi(fmt, j);
      } else if fmt[j] == '*' {
        precision, taken := env.args(a), 1;
      }
      if precision < 0 {
        precision := 0;
      }
    }
  }

  method ReadQualifier(fmt: seq<char>, i: nat) returns (j: nat)
    requires Terminated(fmt) && i < |fmt|
    ensures i <= j < |fmt| && Rest(fmt, j) == TakeQualifier(Rest(fmt, i))
  {
    hide Rest;
    RestAt(fmt, i);
    j := if fmt[i] == 'h' || fmt[i] == 'l' || fmt[i] == 'L' then i + 1 else i;
  }

  /** A star is still there when the conversion character is looked for. */
  lemma StarStays(s: string)
    ensures var (w, t, s2) := TakeWidth(s);
            var (p, u, s3) := TakePrecision(s2);
      t + u > 0 ==> TakeQualifier(s3) != "" && TakeQualifier(s3)[0] == '*'
  {
    hide TakeNumber;
  }

  /** All that follows a percent sign; with a star the width and precision no longer matter. */
  method ReadDirective(fmt: seq<char>, i: nat, env: Env, a: nat)
    returns (f: Flags, width: int, precision: int, taken: nat, j: nat)
    requires Terminated(fmt) && i + 1 < |fmt|
    ensures i < j < |fmt|
    ensures var d := ParseDirective(Rest(fmt, i + 1)).0;
      if fmt[j] == '\0' then d == Cut(taken) && ParseDirective(Rest(fmt, i + 1)).1 == ""
      else
        && d.Conversion? && d.flags == f && d.taken == taken && d.conv == fmt[j]
        && ParseDirective(Rest(fmt, i + 1)).1 == Rest(fmt, j + 1)
        && (taken == 0 ==> d.width == width && d.precision == precision) && (taken > 0 ==> fmt[j] == '*')
  {
    hide Rest, TakeNumber, TakeFlags, TakeWidth, TakePrecision, TakeQualifier;
    f, j := ReadFlags(fmt, i);
    StarStays(Rest(fmt, j));
    var more;
    width, taken, j := ReadWidth(fmt, j, env, a);
    precision, more, j := ReadPrecision(fmt, j, env, a + taken);
    taken := taken + more;
    j := ReadQualifier(fmt, j);
    RestAt(fmt, j);
  }

  /** The padding on the left, if the text is to stand at the right; `rest` is what is left to pad. */
  method PadLeft(buf: array<char>, str: nat, left: bool, size: int) returns (end: nat, rest: int)
    requires str + Max(size, 0) <= buf.Length
    modifies buf
    ensures Wrote(old(buf[..]), buf[..], str, if left then "" else Repeat(' ', size))
    ensures end == str + (if left then 0 else Max(size, 0)) && (if left then rest == size else rest < 0)
  {
    hide Wrote, Repeat;
    end, rest := str, size;
    WroteNothing(buf[..], str);
    if !left {
      end, rest := Fill(buf, end, rest, ' ');
    }
  }

  /** Conversion `c`. */
  method PutChar(buf: array<char>, str: nat, left: bool, width: int, c: char) returns (end: nat)
    requires str + Max(width, 1) <= buf.Length
    modifies buf
    ensures Wrote(old(buf[..]), buf[..], str, Aligned(left, width, [c])) && end == str + Max(width, 1)
  {
    hide Wrote, Repeat, Aligned;
    ghost var b, before := buf[..], if left then "" else Repeat(' ', width - 1);
    var w;
    end, w := PadLeft(buf, str, left, width - 1);
    ghost var b1 := buf[..];
    end := Put(buf, end, c);
    WroteOn(b, b1, buf[..], str, before, [c]);
    ghost var b2, after := buf[..], Repeat(' ', w);
    end, w := Fill(buf, end, w, ' ');
    WroteOn(b, b2, buf[..], str, before + [c], after);
    AlignedIs(left, width, [c], before, after);
  }

  lemma AlignedIs(left: bool, width: int, s: string, before: string, after: string)
    requires before == if left then "" else Repeat(' ', width - |s|)
    requires if left then after == Repeat(' ', width - |s|) else after == ""
    ensures before + s + after == Aligned(left, width, s)
  {
    hide Repeat;
  }

  method CopyString(buf: array<char>, str: nat, s: string, len: nat) returns (end: nat)
    requires len <= |s| && str + len <= buf.Length
    modifies buf
    ensures Wrote(old(buf[..]), buf[..], str, s[..len]) && end == str + len
  {
    hide Wrote;
    end := str;
    ghost var b := buf[..];
    WroteNothing(b, str);
    for i := 0 to len
      invariant end == str + i && Wrote(b, buf[..], str, s[..i])
    {
      ghost var b1 := buf[..];
      end := Put(buf, end, s[i]);
      WroteOn(b, b1, buf[..], str, s[..i], [s[i]]);
      assert s[..i] + [s[i]] == s[..i + 1];
    }
  }

  /** The first `len` characters of a string in their field. */
  method PutText(buf: array<char>, str: nat, left: bool, width: int, s: string, len: nat) returns (end: nat)
    requires len <= |s| && str + Max(width, len) <= buf.Length
    modifies buf
    ensures Wrote(old(buf[..]), buf[..], str, Aligned(left, width, s[..len])) && end == str + Max(width, len)
  {
    hide Wrote, Repeat, Aligned;
    ghost var b, before := buf[..], if left then "" else Repeat(' ', width - len);
    var w;
    end, w := PadLeft(buf, str, left, width - len);
    ghost var b1 := buf[..];
    end := CopyString(buf, end, s, len);
    WroteOn(b, b1, buf[..], str, before, s[..len]);
    ghost var b2, after := buf[..], Repeat(' ', w);
    end, w := Fill(buf, end, w, ' ');
    WroteOn(b, b2, buf[..], str, before + s[..len], after);
    AlignedIs(left, width, s[..len], before, after);
  }

  /** Conversion `s`. */
  method PutString(buf: array<char>, str: nat, left: bool, width: int, precision: int, s: string) returns (end: nat)
    requires str + Max(width, |Clipped(s, precision)|) <= buf.Length
    modifies buf
    ensures Wrote(old(buf[..]), buf[..], str, Aligned(left, width, Clipped(s, precision)))
    ensures end == str + Max(width, |Clipped(s, precision)|)
  {
    hide Wrote, Repeat, Aligned;
    var len := |s|;
    if precision >= 0 && len > precision {
      len := precision;
    }
    assert s[..len] == Clipped(s, precision);
    end := PutText(buf, str, left, width, s, len);
  }

  /** The conversions that write an argument; `None` for every other character. */
  method PutConversion(buf: array<char>, str: nat, f: Flags, width: int, precision: int, conv: char, x: Word32,
                       env: Env)
    returns (r: Option<nat>)
    requires ConversionText(f, width, precision, conv, x, env).Some? ==>
      str + |ConversionText(f, width, precision, conv, x, env).value| <= buf.Length
    modifies buf
    ensures r.Some? <==> ConversionText(f, width, precision, conv, x, env).Some?
    ensures r.None? ==> buf[..] == old(buf[..])
    ensures r.Some? ==>
      var text := ConversionText(f, width, precision, conv, x, env).value;
      Wrote(old(buf[..]), buf[..], str, text) && r.value == str + |text|
  {
    hide NumberText, Wrote, Aligned, Clipped, Repeat;
    match conv
    case 'c' =>
      var end := PutChar(buf, str, f.left, width, (x % 256) as char);
      return Some(end);
    case 's' =>
      var end := PutString(buf, str, f.left, width, precision, env.strings(x));
      return Some(end);
    case 'o' =>
      r := Number(buf, str, x, 8, width, precision, f);
    case 'p' =>
      if width == -1 {
        r := Number(buf, str, x, 16, 8, precision, f.(zeropad := true));
      } else {
        r := Number(buf, str, x, 16, width, precision, f);
      }
    case 'x' =>
      r := Number(buf, str, x, 16, width, precision, f.(small := true));
    case 'X' =>
      r := Number(buf, str, x, 16, width, precision, f);
    case 'd' =>
      r := Number(buf, str, x, 10, width, precision, f.(sign := true));
    case 'i' =>
      r := Number(buf, str, x, 10, width, precision, f.(sign := true));
    case 'u' =>
      r := Number(buf, str, x, 10, width, precision, f);
    case 'b' =>
      r := Number(buf, str, x, 2, width, precision, f);
    case _ =>
      return None;
  }

  /** One directive: what it writes, where it ends, what it takes and stores. */
  method PutDirective(buf: array<char>, str: nat, fmt: seq<char>, i: nat, env: Env, a: nat)
    returns (end: nat, j: nat, taken: nat, stores: seq<Store>)
    requires Terminated(fmt) && i + 1 < |fmt|
    requires str + |RenderOne(ParseDirective(Rest(fmt, i + 1)).0, env, a, str).text| <= buf.Length
    modifies buf
    ensures var (d, rest) := ParseDirective(Rest(fmt, i + 1));
            var o := RenderOne(d, env, a, str);
      && Wrote(old(buf[..]), buf[..], str, o.text) && end == str + |o.text|
      && taken == o.taken && stores == o.stores && i < j < |fmt| && Rest(fmt, j) == rest
  {
    hide Rest, Wrote, ParseDirective, ConversionText, RenderOne;
    var f, width, precision;
    f, width, precision, taken, j := ReadDirective(fmt, i, env, a);
    end, stores := str, [];
    RestAt(fmt, j);
    RenderIs(ParseDirective(Rest(fmt, i + 1)).0, env, a, str);
    if fmt[j] == '\0' {
      end := Put(buf, end, '%');
    } else {
      end, taken, stores := PutOne(buf, str, f, width, precision, taken, fmt[j], env, a,
                                   ParseDirective(Rest(fmt, i + 1)).0);
      j := j + 1;
    }
  }

  lemma RenderIs(d: Directive, env: Env, a: nat, n: nat)
    ensures d.Cut? ==> RenderOne(d, env, a, n) == Output(['%'], d.taken, [])
    ensures d.Conversion? ==>
      var x := env.args(a + d.taken);
      RenderOne(d, env, a, n) ==
        match ConversionText(d.flags, d.width, d.precision, d.conv, x, env)
        case Some(text) => Output(text, d.taken + 1, [])
        case None => if d.conv == 'n' then Output("", d.taken + 1, [Store(x, n)])
                     else Output((if d.conv == '%' then "" else ['%']) + [d.conv], d.taken, [])
  {
    hide ConversionText;
    if d.Conversion? {
      assert ['%'] + [d.conv] == ['%', d.conv];
    }
  }

  /** Directive `d`, which has been read into flags, width and precision, with conversion character `c`. */
  method PutOne(buf: array<char>, str: nat, f: Flags, width: int, precision: int, taken: nat, c: char, env: Env, a: nat,
                ghost d: Directive) returns (end: nat, takes: nat, stores: seq<Store>)
    requires d.Conversion? && d.flags == f && d.taken == taken && d.conv == c
    requires (taken == 0 ==> d.width == width && d.precision == precision) && (taken > 0 ==> c == '*')
    requires str + |RenderOne(d, env, a, str).text| <= buf.Length
    modifies buf
    ensures var o := RenderOne(d, env, a, str);
      && Wrote(old(buf[..]), buf[..], str, o.text) && end == str + |o.text|
      && takes == o.taken && stores == o.stores
  {
    hide Wrote, ConversionText, RenderOne;
    var x := env.args(a + taken);
    RenderIs(d, env, a, str);
    StarIsPlain(width, precision, f, x, env, d);
    end, takes, stores := str, taken, [];
    var r := PutConversion(buf, str, f, width, precision, c, x, env);
    match r
    case Some(e) =>
      end, takes := e, taken + 1;
    case None =>
      ghost var b := buf[..];
      WroteNothing(b, str);
      if c == 'n' {
        stores := [Store(x, str)];
        takes := taken + 1;
      } else {
        if c != '%' {
          end := Put(buf, end, '%');
        }
        ghost var b1 := buf[..];
        end := Put(buf, end, c);
        WroteOn(b, b1, buf[..], str, if c == '%' then "" else ['%'], [c]);
      }
  }

  /** A star is no conversion, whatever its width and precision. */
  lemma StarIsPlain(width: int, precision: int, f: Flags, x: Word32, env: Env, d: Directive)
    ensures d.Conversion? && d.conv == '*' ==>
      && ConversionText(f, width, precision, d.conv, x, env) == None
      && ConversionText(d.flags, d.width, d.precision, d.conv, x, env) == None
  {
  }

  /** What has been written so far, followed by what the rest of the format renders to. */
  ghost predicate OnCourse(fmt: seq<char>, i: nat, env: Env, done: Output)
    requires i < |fmt|
  {
    Formatted(Rest(fmt, 0), env) == Then(done, Render(Parse(Rest(fmt, i)), env, done.taken, |done.text|))
  }

  lemma CourseStarts(fmt: seq<char>, env: Env)
    requires fmt != []
    ensures OnCourse(fmt, 0, env, Output("", 0, []))
  {
    hide Render, Parse;
    ThenNothing(Formatted(Rest(fmt, 0), env));
  }

  /** One directive further. */
  lemma CourseGoesOn(fmt: seq<char>, i: nat, j: nat, env: Env, done: Output, d: Directive)
    requires i < |fmt| && j < |fmt| && OnCourse(fmt, i, env, done)
    requires Parse(Rest(fmt, i)) == [d] + Parse(Rest(fmt, j))
    ensures var o := RenderOne(d, env, done.taken, |done.text|);
      && OnCourse(fmt, j, env, Then(done, o))
      && |done.text| + |o.text| <= |Formatted(Rest(fmt, 0), env).text|
  {
    hide Render, Parse, RenderOne, Rest, Formatted;
    var o := RenderOne(d, env, done.taken, |done.text|);
    var rest := Parse(Rest(fmt, j));
    RenderFirst(d, rest, env, done.taken, |done.text|);
    Reassoc(done, o, Render(rest, env, done.taken + o.taken, |done.text| + |o.text|));
  }

  lemma CourseEnds(fmt: seq<char>, i: nat, env: Env, done: Output)
    requires i < |fmt| && OnCourse(fmt, i, env, done) && Rest(fmt, i) == ""
    ensures done == Formatted(Rest(fmt, 0), env)
  {
    assert Render(Parse(""), env, done.taken, |done.text|) == Output("", 0, []);
    hide Formatted;
    assert done.text + "" == done.text && done.stores + [] == done.stores;
  }

  lemma FirstDirective(fmt: seq<char>, i: nat)
    requires Terminated(fmt) && i < |fmt| && fmt[i] != '\0'
    ensures i + 1 < |fmt| && Rest(fmt, i) != ""
    ensures fmt[i] != '%' ==> Parse(Rest(fmt, i)) == [Plain(fmt[i])] + Parse(Rest(fmt, i + 1))
    ensures fmt[i] == '%' ==>
      var (d, rest) := ParseDirective(Rest(fmt, i + 1)); Parse(Rest(fmt, i)) == [d] + Parse(rest)
  {
    hide ParseDirective, Rest;
    RestAt(fmt, i);
  }

  /**
    Writes exactly what the parsed format renders to, and a NUL; takes no character from
    behind the format's own NUL and changes nothing in the buffer behind the one it writes.
  */
  method Vsprintf(buf: array<char>, fmt: seq<char>, env: Env) returns (count: nat, stores: seq<Store>)
    requires Terminated(fmt) && |Formatted(Rest(fmt, 0), env).text| < buf.Length
    modifies buf
    ensures var o := Formatted(Rest(fmt, 0), env);
      && Wrote(old(buf[..]), buf[..], 0, o.text + ['\0']) && count == |o.text| && stores == o.stores
  {
    hide Wrote, OnCourse, Formatted, ParseDirective, Rest, RenderOne, Then;
    var i, a, str := 0, 0, 0;
    stores := [];
    ghost var b, done := buf[..], Output("", 0, []);
    WroteNothing(b, 0);
    CourseStarts(fmt, env);
    while fmt[i] != '\0'
      invariant i < |fmt| && OnCourse(fmt, i, env, done)
      invariant Wrote(b, buf[..], 0, done.text) && str == |done.text| && a == done.taken && stores == done.stores
      decreases |fmt| - i
    {
      ghost var b1 := buf[..];
      FirstDirective(fmt, i);
      if fmt[i] != '%' {
        ghost var o := RenderOne(Plain(fmt[i]), env, a, str);
        RenderPlain(fmt[i], env, a, str);
        CourseGoesOn(fmt, i, i + 1, env, done, Plain(fmt[i]));
        str := Put(buf, str, fmt[i]);
        i := i + 1;
        WroteOn(b, b1, buf[..], 0, done.text, o.text);
        ThenIs(done, o);
        done := Then(done, o);
      } else {
        ghost var d := ParseDirective(Rest(fmt, i + 1)).0;
        ghost var o, i0 := RenderOne(d, env, a, str), i;
        DirectiveFits(fmt, i, env, done);
        var taken, more;
        str, i, taken, more := PutDirective(buf, str, fmt, i, env, a);
        CourseGoesOn(fmt, i0, i, env, done, d);
        a, stores := a + taken, stores + more;
        WroteOn(b, b1, buf[..], 0, done.text, o.text);
        ThenIs(done, o);
        done := Then(done, o);
      }
    }
    RestAt(fmt, i);
    CourseEnds(fmt, i, env, done);
    ghost var b1 := buf[..];
    count := str;
    var end := Put(buf, str, '\0');
    WroteOn(b, b1, buf[..], 0, done.text, ['\0']);
  }

  lemma ThenIs(o: Output, p: Output)
    ensures Then(o, p).text == o.text + p.text && Then(o, p).stores == o.stores + p.stores
  {
  }

  lemma DirectiveFits(fmt: seq<char>, i: nat, env: Env, done: Output)
    requires Terminated(fmt) && i < |fmt| && fmt[i] == '%' && OnCourse(fmt, i, env, done)
    ensures i + 1 < |fmt|
    ensures var d := ParseDirective(Rest(fmt, i + 1)).0;
      |done.text| + |RenderOne(d, env, done.taken, |done.text|).text| <= |Formatted(Rest(fmt, 0), env).text|
  {
    hide ParseDirective, RenderOne, Formatted, Rest, Render, Parse;
    FirstDirective(fmt, i);
    var (d, rest) := ParseDirective(Rest(fmt, i + 1));
    RenderFirst(d, Parse(rest), env, done.taken, |done.text|);
  }
}
