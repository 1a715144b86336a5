/**
  What a format means (vsprintf.c): a format is parsed into directives, and the
  directives are rendered one after the other with the arguments they take.
*/
module Formats {
  import opened Basics
  import opened Numbers

  /** `taken` counts arguments taken by `*`, which the source does not step over. */
  datatype Directive =
    | Plain(c: char)
    | Conversion(flags: Flags, width: int, precision: int, taken: nat, conv: char)
    | Cut(taken: nat)            // the format ends inside a directive

  predicate IsDigit(c: char) {
    '0' <= c <= '9'
  }

  function TakeFlags(s: string, f: Flags): (r: (Flags, string))
    ensures |r.1| <= |s|
  {
    if s == "" then (f, s)
    else match s[0]
      case '-' => TakeFlags(s[1..], f.(left := true))
      case '+' => TakeFlags(s[1..], f.(plus := true))
      case ' ' => TakeFlags(s[1..], f.(space := true))
      case '#' => TakeFlags(s[1..], f.(special := true))
      case '0' => TakeFlags(s[1..], f.(zeropad := true))
      case _ => (f, s)
  }

  function TakeNumber(s: string, acc: nat): (r: (nat, string))
    ensures |r.1| <= |s|
  {
    if s == "" || !IsDigit(s[0]) then (acc, s)
    else TakeNumber(s[1..], Shift(acc, 10, s[0] as int - '0' as int))
  }

  /** Width, arguments taken, rest. */
  function TakeWidth(s: string): (r: (int, nat, string))
    ensures |r.2| <= |s|
  {
    if s != "" && IsDigit(s[0]) then var (n, rest) := TakeNumber(s, 0); (n, 0, rest)
    else (-1, if s != "" && s[0] == '*' then 1 else 0, s)
  }

  function TakePrecision(s: string): (r: (int, nat, string))
    ensures |r.2| <= |s|
  {
    if s == "" || s[0] != '.' then (-1, 0, s)
    else if |s| > 1 && IsDigit(s[1]) then var (n, rest) := TakeNumber(s[1..], 0); (n, 0, rest)
    else (0, if |s| > 1 && s[1] == '*' then 1 else 0, s[1..])
  }

  function TakeQualifier(s: string): (r: string)
    ensures |r| <= |s|
  {
    if s != "" && s[0] in {'h', 'l', 'L'} then s[1..] else s
  }

  /** The directive whose text follows a percent sign, and what comes after it. */
  function ParseDirective(s: string): (r: (Directive, string))
    ensures |r.1| <= |s|
  {
    var (f, s1) := TakeFlags(s, NO_FLAGS);
    var (w, t1, s2) := TakeWidth(s1);
    var (p, t2, s3) := TakePrecision(s2);
    var s4 := TakeQualifier(s3);
    if s4 == "" then (Cut(t1 + t2), "") else (Conversion(f, w, p, t1 + t2, s4[0]), s4[1..])
  }

  function Parse(s: string): seq<Directive>
    decreases |s|
  {
    if s == "" then []
    else if s[0] != '%' then [Plain(s[0])] + Parse(s[1..])
    else var (d, rest) := ParseDirective(s[1..]); [d] + Parse(rest)
  }

  // ------------------------------------------------------------ rendering

  /** What vsprintf is called with: its arguments in order, and the strings that stand in memory. */
  datatype Env = Env(args: nat -> Word32, strings: Word32 -> string)

  /** `%n`: the number of characters written so far goes to the address given. */
  datatype Store = Store(at: Word32, count: nat)

  datatype Output = Output(text: string, taken: nat, stores: seq<Store>)

  /** The text at the right or the left end of its field. */
  function Aligned(left: bool, width: int, s: string): (r: string)
    ensures |r| == Max(width, |s|)
  {
    if left then s + Repeat(' ', width - |s|) else Repeat(' ', width - |s|) + s
  }

  /** A precision cuts a string, but never lengthens it. */
  function Clipped(s: string, precision: int): (r: string)
    ensures r <= s && |r| == if precision < 0 then |s| else if precision < |s| then precision else |s|
  {
    if precision < 0 || precision > |s| then s else s[..precision]
  }

  /** How a conversion character writes an argument; `None` when it is not one that writes. */
  function ConversionText(f: Flags, w: int, p: int, conv: char, x: Word32, env: Env): Option<string> {
    match conv
    case 'c' => Some(Aligned(f.left, w, [(x % 256) as char]))
    case 's' => Some(Aligned(f.left, w, Clipped(env.strings(x), p)))
    case 'o' => Some(NumberText(x, 8, w, p, f))
    case 'p' => Some(if w == -1 then NumberText(x, 16, 8, p, f.(zeropad := true)) else NumberText(x, 16, w, p, f))
    case 'x' => Some(NumberText(x, 16, w, p, f.(small := true)))
    case 'X' => Some(NumberText(x, 16, w, p, f))
    case 'd' => Some(NumberText(x, 10, w, p, f.(sign := true)))
    case 'i' => Some(NumberText(x, 10, w, p, f.(sign := true)))
    case 'u' => Some(NumberText(x, 10, w, p, f))
    case 'b' => Some(NumberText(x, 2, w, p, f))
    case _ => None
  }

  /** One directive, after `a` arguments and `n` characters. */
  function RenderOne(d: Directive, env: Env, a: nat, n: nat): Output {
    match d
    case Plain(c) => Output([c], 0, [])
    case Cut(t) => Output("%", t, [])
    case Conversion(f, w, p, t, conv) =>
      var x := env.args(a + t);
      match ConversionText(f, w, p, conv, x, env)
      case Some(text) => Output(text, t + 1, [])
      case None =>
        if conv == 'n' then Output("", t + 1, [Store(x, n)])
        else if conv == '%' then Output("%", t, [])
        else Output(['%', conv], t, [])
  }

  /** First `o`, then `p`. */
  function Then(o: Output, p: Output): (r: Output)
    ensures |r.text| == |o.text| + |p.text| && r.taken == o.taken + p.taken
  {
    Output(o.text + p.text, o.taken + p.taken, o.stores + p.stores)
  }

  function Render(ds: seq<Directive>, env: Env, a: nat, n: nat): Output {
    if ds == [] then Output("", 0, [])
    else
      var o := RenderOne(ds[0], env, a, n);
      var rest := Render(ds[1..], env, a + o.taken, n + |o.text|);
      Then(o, rest)
  }

  /** What vsprintf makes of a format. */
  function Formatted(s: string, env: Env): Output {
    Render(Parse(s), env, 0, 0)
  }

  // ------------------------------------------------------------ properties

  lemma RenderPlain(c: char, env: Env, a: nat, n: nat)
    ensures RenderOne(Plain(c), env, a, n) == Output([c], 0, [])
  {
    hide ConversionText;
  }

  lemma RenderFirst(d: Directive, ds: seq<Directive>, env: Env, a: nat, n: nat)
    ensures var o := RenderOne(d, env, a, n);
      Render([d] + ds, env, a, n) == Then(o, Render(ds, env, a + o.taken, n + |o.text|))
  {
    hide RenderOne;
    assert ([d] + ds)[1..] == ds;
  }

  /** A format without percent signs is its own output and takes no argument. */
  lemma {:induction false} PlainText(s: string, env: Env, a: nat, n: nat)
    requires '%' !in s
    ensures Render(Parse(s), env, a, n) == Output(s, 0, [])
    decreases |s|
  {
    hide RenderOne, ParseDirective;
    if s != "" {
      PlainText(s[1..], env, a, n + 1);
      RenderPlain(s[0], env, a, n);
      RenderFirst(Plain(s[0]), Parse(s[1..]), env, a, n);
      hide Render;
      assert [s[0]] + s[1..] == s;
    }
  }

  lemma Reassoc(o: Output, p: Output, q: Output)
    ensures Then(o, Then(p, q)) == Then(Then(o, p), q)
  {
  }

  lemma ThenNothing(o: Output)
    ensures Then(Output("", 0, []), o) == o
  {
  }

  /** Rendering goes through the directives once, from left to right, handing on arguments and count. */
  lemma {:induction false} RenderSplits(ds: seq<Directive>, es: seq<Directive>, env: Env, a: nat, n: nat)
    ensures var o := Render(ds, env, a, n);
      Render(ds + es, env, a, n) == Then(o, Render(es, env, a + o.taken, n + |o.text|))
    decreases |ds|
  {
    hide RenderOne, Then;
    if ds == [] {
      assert ds + es == es;
      ThenNothing(Render(es, env, a, n));
    } else {
      hide Render;
      var d, tail := ds[0], ds[1..];
      var o := RenderOne(d, env, a, n);
      RenderSplits(tail, es, env, a + o.taken, n + |o.text|);
      RenderFirst(d, tail + es, env, a, n);
      RenderFirst(d, tail, env, a, n);
      assert [d] + (tail + es) == ds + es;
      assert [d] + tail == ds;
      var p := Render(tail, env, a + o.taken, n + |o.text|);
      Reassoc(o, p, Render(es, env, a + o.taken + p.taken, n + |o.text| + |p.text|));
    }
  }

  lemma {:induction false} FlagsSplit(s: string, t: string, f: Flags)
    requires TakeFlags(s, f).1 != ""
    ensures TakeFlags(s + t, f) == (TakeFlags(s, f).0, TakeFlags(s, f).1 + t)
    decreases |s|
  {
    assert (s + t)[0] == s[0] && (s + t)[1..] == s[1..] + t;
    match s[0]
    case '-' => FlagsSplit(s[1..], t, f.(left := true));
    case '+' => FlagsSplit(s[1..], t, f.(plus := true));
    case ' ' => FlagsSplit(s[1..], t, f.(space := true));
    case '#' => FlagsSplit(s[1..], t, f.(special := true));
    case '0' => FlagsSplit(s[1..], t, f.(zeropad := true));
    case _ =>
  }

  lemma {:induction false} NumberSplit(s: string, t: string, acc: nat)
    requires TakeNumber(s, acc).1 != ""
    ensures TakeNumber(s + t, acc) == (TakeNumber(s, acc).0, TakeNumber(s, acc).1 + t)
    decreases |s|
  {
    assert (s + t)[0] == s[0] && (s + t)[1..] == s[1..] + t;
    if IsDigit(s[0]) {
      NumberSplit(s[1..], t, Shift(acc, 10, s[0] as int - '0' as int));
    }
  }

  lemma WidthSplit(s: string, t: string)
    requires TakeWidth(s).2 != ""
    ensures TakeWidth(s + t) == (TakeWidth(s).0, TakeWidth(s).1, TakeWidth(s).2 + t)
  {
    if IsDigit(s[0]) {
      NumberSplit(s, t, 0);
    }
  }

  lemma PrecisionSplit(s: string, t: string)
    requires TakePrecision(s).2 != ""
    ensures TakePrecision(s + t) == (TakePrecision(s).0, TakePrecision(s).1, TakePrecision(s).2 + t)
  {
    if s[0] == '.' {
      assert (s + t)[1..] == s[1..] + t;
      if |s| > 1 && IsDigit(s[1]) {
        NumberSplit(s[1..], t, 0);
      }
    }
  }

  lemma QualifierSplit(s: string, t: string)
    requires TakeQualifier(s) != ""
    ensures TakeQualifier(s + t) == TakeQualifier(s) + t
  {
    assert (s + t)[1..] == s[1..] + t;
  }

  /** A directive that is complete is read the same whatever follows it. */
  lemma DirectiveSplit(s: string, t: string)
    requires !ParseDirective(s).0.Cut?
    ensures ParseDirective(s + t) == (ParseDirective(s).0, ParseDirective(s).1 + t)
  {
    var (f, s1) := TakeFlags(s, NO_FLAGS);
    var (w, t1, s2) := TakeWidth(s1);
    var (p, t2, s3) := TakePrecision(s2);
    var s4 := TakeQualifier(s3);
    hide TakeFlags, TakeWidth, TakePrecision, TakeQualifier;
    FlagsSplit(s, t, NO_FLAGS);
    WidthSplit(s1, t);
    PrecisionSplit(s2, t);
    QualifierSplit(s3, t);
    assert (s4 + t)[1..] == s4[1..] + t;
  }

  /** No directive of the format is cut off by its end. */
  predicate Complete(s: string) {
    forall d | d in Parse(s) :: !d.Cut?
  }

  /** The format that follows a complete one means what it would mean alone. */
  lemma {:induction false} ParseSplits(s: string, t: string)
    requires Complete(s)
    ensures Parse(s + t) == Parse(s) + Parse(t)
    decreases |s|
  {
    hide ParseDirective;
    if s == "" {
      assert s + t == t;
    } else {
      var ds := Parse(s);
      assert ds == [ds[0]] + ds[1..] && ds[0] in ds && forall d | d in ds[1..] :: d in ds;
      assert (s + t)[1..] == s[1..] + t && (s + t)[0] == s[0];
      if s[0] != '%' {
        ParseSplits(s[1..], t);
      } else {
        DirectiveSplit(s[1..], t);
        ParseSplits(ParseDirective(s[1..]).1, t);
      }
    }
  }

  /** Formatting by parts: the second part goes on with the arguments and the count the first left. */
  lemma FormatSplits(s: string, t: string, env: Env, a: nat, n: nat)
    requires Complete(s)
    ensures Render(Parse(s + t), env, a, n)
         == Then(Render(Parse(s), env, a, n),
                 Render(Parse(t), env, a + Render(Parse(s), env, a, n).taken, n + |Render(Parse(s), env, a, n).text|))
  {
    hide Render, Parse, Complete, Then, RenderOne;
    ParseSplits(s, t);
    RenderSplits(Parse(s), Parse(t), env, a, n);
  }
}
