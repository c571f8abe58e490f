/**
 The formatter of snprintk.c: conversions, padding and truncation of directives whose flags, width
 and precision have been read.  PrintfFormat reads them from a format string.
 */
module Printf {
  import opened Arith

  const BUFSIZE := 37

  // ---------------------------------------------------------------- digits

  predicate IsBase(base: int) { base == 8 || base == 10 || base == 16 }

  function DigitChar(d: int, upper: bool): char
    requires 0 <= d < 16
  {
    if upper then "0123456789ABCDEF"[d] else "0123456789abcdef"[d]
  }

  /** What a digit stands for. */
  function DigitValue(c: char): int {
    if '0' <= c <= '9' then c as int - '0' as int
    else if 'a' <= c <= 'f' then c as int - 'a' as int + 10
    else if 'A' <= c <= 'F' then c as int - 'A' as int + 10
    else 0
  }

  /** The number that digits denote, most significant first. */
  function ValueOf(s: string, base: int): int {
    if s == [] then 0 else ValueOf(s[..|s| - 1], base) * base + DigitValue(s[|s| - 1])
  }

  /** Division by one of the bases, and its remainder. */
  function Div(u: int, base: int): (q: int)
    requires u >= 0 && IsBase(base)
    ensures 0 <= q <= u && (q == 0 <==> u < base) && (u > 0 ==> q < u)
  {
    if base == 8 then u / 8 else if base == 10 then u / 10 else u / 16
  }

  function Mod(u: int, base: int): (d: int)
    requires u >= 0 && IsBase(base)
    ensures 0 <= d < base && (u < base ==> d == u)
  {
    if base == 8 then u % 8 else if base == 10 then u % 10 else u % 16
  }

  lemma DivMod(u: int, base: int)
    requires u >= 0 && IsBase(base)
    ensures Div(u, base) * base + Mod(u, base) == u
  {
  }

  function Numeral(u: int, base: int, upper: bool): (s: string)
    requires u >= 0 && IsBase(base)
    ensures |s| > 0
    decreases u
  {
    if u < base then [DigitChar(u, upper)] else Numeral(Div(u, base), base, upper) + [DigitChar(Mod(u, base), upper)]
  }

  lemma DigitRoundTrip(d: int, upper: bool)
    requires 0 <= d < 16
    ensures DigitValue(DigitChar(d, upper)) == d && (DigitChar(d, upper) == '0' <==> d == 0)
  {
  }

  lemma ValueLast(s: string, c: char, base: int)
    ensures ValueOf(s + [c], base) == ValueOf(s, base) * base + DigitValue(c)
  {
    assert (s + [c])[..|s|] == s;
  }

  /** All digits are of the base. */
  predicate InBase(s: string, base: int) { forall i :: 0 <= i < |s| ==> 0 <= DigitValue(s[i]) < base }

  /** A numeral denotes its number, in digits of the base, and starts with 0 only for zero. */
  lemma {:induction false} NumeralDenotes(u: int, base: int, upper: bool)
    requires u >= 0 && IsBase(base)
    ensures ValueOf(Numeral(u, base, upper), base) == u && InBase(Numeral(u, base, upper), base)
    ensures Numeral(u, base, upper)[0] == '0' ==> u == 0 && |Numeral(u, base, upper)| == 1
    decreases u
  {
    if u < base {
      DigitRoundTrip(u, upper);
      ValueLast([], DigitChar(u, upper), base);
      assert [] + [DigitChar(u, upper)] == [DigitChar(u, upper)];
    } else {
      DivMod(u, base);
      NumeralDenotes(Div(u, base), base, upper);
      DigitRoundTrip(Mod(u, base), upper);
      ValueLast(Numeral(Div(u, base), base, upper), DigitChar(Mod(u, base), upper), base);
    }
  }

  /** One more digit in front. */
  lemma NumeralStep(u: int, base: int, upper: bool, s: string)
    requires u >= 0 && IsBase(base)
    ensures u >= base ==>
      Numeral(u, base, upper) + s == Numeral(Div(u, base), base, upper) + ([DigitChar(Mod(u, base), upper)] + s)
    ensures u < base ==> Numeral(u, base, upper) + s == [DigitChar(Mod(u, base), upper)] + s
  {
    if u >= base {
      var a, c := Numeral(Div(u, base), base, upper), DigitChar(Mod(u, base), upper);
      assert (a + [c]) + s == a + ([c] + s);
    }
  }

  function Pow(b: int, n: nat): int { if n == 0 then 1 else b * Pow(b, n - 1) }

  lemma {:induction false} NumeralLength(u: int, base: int, upper: bool)
    requires u >= 1 && IsBase(base)
    ensures Pow(base, |Numeral(u, base, upper)| - 1) <= u
    decreases u
  {
    if u >= base {
      DivMod(u, base);
      NumeralLength(Div(u, base), base, upper);
      var n := |Numeral(Div(u, base), base, upper)|;
      assert Pow(base, n) == base * Pow(base, n - 1);
    }
  }

  lemma {:induction false} PowGrows(b: int, m: nat, n: nat)
    requires b >= 1 && m <= n
    ensures 1 <= Pow(b, m) <= Pow(b, n)
    decreases n
  {
    if m < n {
      PowGrows(b, m, n - 1);
      assert Pow(b, n) == b * Pow(b, n - 1);
    } else if n > 0 {
      PowGrows(b, n - 1, n - 1);
      assert Pow(b, n) == b * Pow(b, n - 1);
    }
  }

  lemma {:induction false} PowBase(b: int, c: int, n: nat)
    requires 1 <= b <= c
    ensures 1 <= Pow(b, n) <= Pow(c, n)
  {
    if n > 0 {
      PowBase(b, c, n - 1);
      var x, y := Pow(b, n - 1), Pow(c, n - 1);
      assert b * x <= c * x <= c * y by { assert (c - b) * x >= 0 && c * (y - x) >= 0; }
    }
  }

  /** The digits of a 64-bit number fit the conversion buffer, with a leading zero to spare. */
  lemma NumeralFits(u: int, base: int, upper: bool)
    requires 0 <= u < 0x1_0000_0000_0000_0000 && IsBase(base)
    ensures |Numeral(u, base, upper)| <= 22 < BUFSIZE
  {
    if u >= 1 {
      var n := |Numeral(u, base, upper)|;
      NumeralLength(u, base, upper);
      PowBase(8, base, n - 1);
      if n > 22 {
        PowGrows(8, 22, n - 1);
        Eight();
        assert false;
      }
    }
  }

  lemma Eight()
    ensures Pow(8, 22) >= 0x1_0000_0000_0000_0000
  {
    assert Pow(8, 4) == 4096 by { assert Pow(8, 2) == 64; }
    PowStep(4);
    PowStep(10);
    PowStep(16);
  }

  lemma PowStep(n: nat)
    ensures Pow(8, n + 6) == 262144 * Pow(8, n)
  {
    var p := Pow(8, n);
    assert Pow(8, n + 1) == 8 * p && Pow(8, n + 2) == 64 * p && Pow(8, n + 3) == 512 * p;
    assert Pow(8, n + 4) == 4096 * p && Pow(8, n + 5) == 32768 * p;
  }

  /** The conversion loops: digits are written from the end of the buffer to the front. */
  method Digits(value: int, base: int, upper: bool) returns (s: string)
    requires 0 <= value < 0x1_0000_0000_0000_0000 && IsBase(base)
    ensures s == Numeral(value, base, upper) && |s| < BUFSIZE
  {
    NumeralFits(value, base, upper);
    if base == 10 {
      s := DecimalDigits(value, upper);
    } else {
      s := BinaryDigits(value, base, upper);
    }
  }

  method DecimalDigits(value: int, upper: bool) returns (s: string)
    requires 0 <= value
    ensures s == Numeral(value, 10, upper)
  {
    var u := value;
    s := [];
    while u >= 10
      invariant 0 <= u && Numeral(value, 10, upper) == Numeral(u, 10, upper) + s
    {
      NumeralStep(u, 10, upper, s);
      s := [DigitChar(u % 10, upper)] + s;
      u := u / 10;
    }
    NumeralStep(u, 10, upper, s);
    s := [DigitChar(u, upper)] + s;
  }

  method BinaryDigits(value: int, base: int, upper: bool) returns (s: string)
    requires 0 <= value && (base == 8 || base == 16)
    ensures s == Numeral(value, base, upper)
  {
    var u, more := value, true;
    s := [];
    while more
      invariant 0 <= u && (more ==> Numeral(value, base, upper) == Numeral(u, base, upper) + s)
      invariant !more ==> Numeral(value, base, upper) == s
      decreases more, u
    {
      NumeralStep(u, base, upper, s);
      s := [DigitChar(Mod(u, base), upper)] + s;
      u := Div(u, base);
      more := u != 0;
    }
  }

  // ---------------------------------------------------------------- directives

  /** sign is what a plus or space flag asks for in front of a number that is not negative: at most one character. */
  datatype Flags = Flags(alt: bool, ladjust: bool, zeropad: bool, sign: string, width: nat, prec: int)

  /** prec is negative where none is given; Count is %n, which prints nothing. */
  datatype Directive =
    | Text(c: char)
    | Signed(value: int, flags: Flags)
    | Unsigned(magnitude: int, base: int, upper: bool, flags: Flags)
    | Pointer(address: int, flags: Flags)
    | Chr(ch: char, flags: Flags)
    | Str(s: string, flags: Flags)
    | Count

  predicate DirectiveOk(d: Directive) {
    match d
    case Signed(value, flags) => -0x8000_0000_0000_0000 <= value < 0x8000_0000_0000_0000 && |flags.sign| <= 1
    case Unsigned(magnitude, base, _, _) => 0 <= magnitude < 0x1_0000_0000_0000_0000 && IsBase(base)
    case Pointer(address, _) => 0 <= address < 0x1_0000_0000
    case _ => true
  }

  /** A converted field: its text, the prefix, and what it is to be padded to. */
  datatype Field = Field(body: string, prefix: string, dprec: int, width: nat, ladjust: bool, zeropad: bool)

  function Abs(x: int): int { if x < 0 then -x else x }

  /** The digits of a number under a precision and the alternate form. */
  function NumberBody(u: int, base: int, upper: bool, flags: Flags): string
    requires u >= 0 && IsBase(base)
  {
    if u == 0 && flags.prec == 0 then ""
    else if base == 8 && flags.alt && u != 0 then "0" + Numeral(u, base, upper)
    else Numeral(u, base, upper)
  }

  function NumberField(u: int, base: int, upper: bool, prefix: string, flags: Flags): Field
    requires u >= 0 && IsBase(base)
  {
    Field(NumberBody(u, base, upper, flags), prefix, flags.prec, flags.width, flags.ladjust, flags.zeropad
      && flags.prec < 0)
  }

  /** What a directive converts to. */
  function FieldOf(d: Directive): Field
    requires DirectiveOk(d) && !d.Text? && !d.Count?
  {
    match d
    case Signed(value, flags) => NumberField(Abs(value), 10, false, if value < 0 then "-" else flags.sign, flags)
    case Unsigned(u, base, upper, flags) =>
      NumberField(u, base, upper, if base == 16 && flags.alt && u != 0 then (if upper then "0X" else "0x")
        else "", flags)
    case Pointer(u, flags) => NumberField(u, 16, false, "0x", flags)
    case Chr(c, flags) => Field([c], "", 0, flags.width, flags.ladjust, flags.zeropad)
    case Str(s, flags) =>
      Field(if 0 <= flags.prec < |s| then s[..flags.prec] else s, "", 0, flags.width, flags.ladjust, flags.zeropad)
  }

  function Repeated(c: char, n: int): (s: string)
    ensures |s| == Max(n, 0)
  {
    seq(Max(n, 0), i => c)
  }

  /** The size of a field before padding. */
  function RealSize(f: Field): int { Max(f.dprec, |f.body|) + |f.prefix| }

  /** The text of a field: left-adjusted with blanks behind, or right-adjusted behind zeros or blanks. */
  function Rendered(f: Field): string {
    var pad := f.width - RealSize(f);
    var number := Repeated('0', f.dprec - |f.body|) + f.body;
    if f.ladjust then f.prefix + number + Repeated(' ', pad)
    else if f.zeropad then f.prefix + Repeated('0', pad) + number
    else Repeated(' ', pad) + f.prefix + number
  }

  /** What kprintf adds to its count for a field is what it prints for it. */
  lemma RenderedLength(f: Field)
    ensures |Rendered(f)| == Max(f.width, RealSize(f))
  {
  }

  function Text1(d: Directive): string
    requires DirectiveOk(d)
  {
    match d
    case Text(c) => [c]
    case Count => ""
    case _ => Rendered(FieldOf(d))
  }

  ghost predicate AllOk(ds: seq<Directive>) { forall i :: 0 <= i < |ds| ==> DirectiveOk(ds[i]) }

  /** The complete output. */
  ghost function FullText(ds: seq<Directive>): string
    requires AllOk(ds)
  {
    if ds == [] then "" else Text1(ds[0]) + FullText(ds[1..])
  }

  /** An integer directive's digits denote its value, and its sign says whether it is negative. */
  lemma IntegersDenote(d: Directive)
    requires DirectiveOk(d) && (d.Signed? || d.Unsigned? || d.Pointer?)
    ensures var u, base := (if d.Signed? then Abs(d.value) else if d.Unsigned? then d.magnitude else d.address),
                           (if d.Signed? then 10 else if d.Unsigned? then d.base else 16);
      && (ValueOf(FieldOf(d).body, base) == u && InBase(FieldOf(d).body, base))
      && (FieldOf(d).body == "" <==> u == 0 && d.flags.prec == 0)
      && (d.Signed? && |d.flags.sign| == 1 && d.flags.sign != "-" ==> (d.value < 0 <==> FieldOf(d).prefix == "-"))
  {
    var u, base := (if d.Signed? then Abs(d.value) else if d.Unsigned? then d.magnitude else d.address),
                   (if d.Signed? then 10 else if d.Unsigned? then d.base else 16);
    var upper := d.Unsigned? && d.upper;
    NumeralDenotes(u, base, upper);
    LeadingZero(Numeral(u, base, upper), base);
  }

  lemma {:induction false} LeadingZero(s: string, base: int)
    ensures ValueOf("0" + s, base) == ValueOf(s, base)
    ensures InBase(s, base) && base > 0 ==> InBase("0" + s, base)
    decreases |s|
  {
    if s == [] {
      assert "0" + s == "0" && "0"[..0] == [];
    } else {
      var n := |s| - 1;
      LeadingZero(s[..n], base);
      assert ("0" + s)[..n + 1] == "0" + s[..n];
    }
  }

  // ---------------------------------------------------------------- output

  /** The buffer that output goes to: what does not fit is dropped, but everything counts. */
  class Sink {
    const buf: array<char>
    const present: bool
    const size: nat
    var pos: nat
    ghost var out: string

    function Room(): nat { if present then size else 0 }

    ghost predicate Valid()
      reads this, buf
    {
      && size <= buf.Length && pos == (if |out| < Room() then |out| else Room())
      && pos <= |out| && buf[..pos] == out[..pos]
    }

    /** The array is as it was outside the room. */
    ghost predicate Beyond(was: seq<char>)
      reads buf
    {
      |was| == buf.Length && forall i :: Room() <= i < buf.Length ==> buf[i] == was[i]
    }

    constructor (buf: array<char>, present: bool, size: nat)
      requires size <= buf.Length
      ensures Valid() && out == "" && this.buf == buf && this.present == present && this.size == size
    {
      this.buf, this.present, this.size := buf, present, size;
      pos, out := 0, "";
    }

    /** KPRINTF_PUTCHAR */
    method Put(c: char)
      requires Valid()
      modifies this, buf
      ensures Valid() && out == old(out) + [c] && Beyond(old(buf[..]))
    {
      ghost var was := buf[..pos];
      if present && pos < size {
        buf[pos] := c;
        pos := pos + 1;
        assert buf[..pos] == was + [c];
      }
      out := out + [c];
    }

    method PutAll(s: string)
      requires Valid()
      modifies this, buf
      ensures Valid() && out == old(out) + s && Beyond(old(buf[..]))
    {
      var i := 0;
      while i < |s|
        invariant 0 <= i <= |s| && Valid() && out == old(out) + s[..i] && Beyond(old(buf[..]))
      {
        Put(s[i]);
        assert s[..i + 1] == s[..i] + [s[i]];
        i := i + 1;
      }
      assert s[..i] == s;
    }

    method Pad(c: char, count: int)
      requires Valid()
      modifies this, buf
      ensures Valid() && out == old(out) + Repeated(c, count) && Beyond(old(buf[..]))
    {
      var n := count;
      ghost var done := 0;
      while n > 0
        invariant 0 <= done && (count > 0 ==> n + done == count && n >= 0) && (count <= 0 ==> done == 0 && n == count)
        invariant Valid() && out == old(out) + Repeated(c, done) && Beyond(old(buf[..]))
      {
        Put(c);
        assert Repeated(c, done + 1) == Repeated(c, done) + [c];
        n, done := n - 1, done + 1;
      }
    }

    /** The end of kprintf's loop: one field, and what it adds to the count. */
    method PutField(f: Field) returns (added: int)
      requires Valid()
      modifies this, buf
      ensures Valid() && out == old(out) + Rendered(f) && added == |Rendered(f)| && Beyond(old(buf[..]))
    {
      var realsz := (if f.dprec > |f.body| then f.dprec else |f.body|) + |f.prefix|;
      added := if f.width > realsz then f.width else realsz;
      RenderedLength(f);
      ghost var zeros := Repeated('0', f.dprec - |f.body|);
      if !f.ladjust && !f.zeropad { Pad(' ', f.width - realsz); }
      PutAll(f.prefix);
      if !f.ladjust && f.zeropad { Pad('0', f.width - realsz); }
      Pad('0', f.dprec - |f.body|);
      PutAll(f.body);
      if f.ladjust { Pad(' ', f.width - realsz); }
      Pieces(old(out), f);
    }
  }

  /** The pieces in the order in which they are printed. */
  lemma Pieces(o: string, f: Field)
    ensures var pad := f.width - RealSize(f);
      var zeros := Repeated('0', f.dprec - |f.body|);
      && (f.ladjust ==> o + f.prefix + zeros + f.body + Repeated(' ', pad) == o + Rendered(f))
      && (!f.ladjust && f.zeropad ==> o + f.prefix + Repeated('0', pad) + zeros + f.body == o + Rendered(f))
      && (!f.ladjust && !f.zeropad ==> o + Repeated(' ', pad) + f.prefix + zeros + f.body == o + Rendered(f))
  {
  }

  /** The number part of kprintf's switch. */
  method ConvertNumber(u: int, base: int, upper: bool, prefix: string, flags: Flags) returns (f: Field)
    requires 0 <= u < 0x1_0000_0000_0000_0000 && IsBase(base)
    ensures f == NumberField(u, base, upper, prefix, flags) && |f.body| <= BUFSIZE
  {
    var zeropad := flags.zeropad;
    if flags.prec >= 0 { zeropad := false; }
    var body := "";
    if u != 0 || flags.prec != 0 {
      body := Digits(u, base, upper);
      NumeralDenotes(u, base, upper);
      if u == 0 { DigitRoundTrip(0, upper); }
      if base == 8 && flags.alt && body[0] != '0' { body := "0" + body; }
    }
    f := Field(body, prefix, flags.prec, flags.width, flags.ladjust, zeropad);
  }

  /** kprintf's switch: the field for each conversion. */
  method Convert(d: Directive) returns (f: Field)
    requires DirectiveOk(d) && !d.Text? && !d.Count?
    ensures f == FieldOf(d)
  {
    match d {
      case Signed(value, flags) =>
        f := ConvertNumber(if value < 0 then -value
          else value, 10, false, if value < 0 then "-" else flags.sign, flags);
      case Unsigned(u, base, upper, flags) =>
        f := ConvertNumber(u, base, upper, if base == 16 && flags.alt && u != 0 then (if upper then "0X" else "0x")
          else "", flags);
      case Pointer(u, flags) =>
        f := ConvertNumber(u, 16, false, "0x", flags);
      case Chr(c, flags) =>
        f := Field([c], "", 0, flags.width, flags.ladjust, flags.zeropad);
      case Str(t, flags) =>
        f := Field(if 0 <= flags.prec < |t| then t[..flags.prec]
          else t, "", 0, flags.width, flags.ladjust, flags.zeropad);
    }
  }

  /** One turn of kprintf's outer loop. */
  method PutDirective(sink: Sink, d: Directive) returns (added: int)
    requires sink.Valid() && DirectiveOk(d)
    modifies sink, sink.buf
    ensures sink.Valid() && sink.out == old(sink.out) + Text1(d) && added == |Text1(d)|
    ensures sink.Beyond(old(sink.buf[..]))
  {
    if d.Text? {
      sink.Put(d.c);
      added := 1;
    } else if d.Count? {
      added := 0;
    } else {
      var f := Convert(d);
      added := sink.PutField(f);
    }
  }
}
