/**
 What printed numbers say (snprintk.c): the layout of a field, and a reader of numbers, written without
 the printer, that gets the number back from the text of any integer directive.
 */
module PrintfText {
  import opened Arith
  import opened Printf

  // ---------------------------------------------------------------- layout

  /** A field is blanks, the prefix, zeros, the body and blanks.  The zeros fill the precision and, with zero padding on
      the right, the width; otherwise blanks fill the width, on the right exactly when it is left-adjusted. */
  lemma FieldLayout(f: Field)
    ensures
      var size := |f.prefix| + Max(f.dprec, |f.body|);
      var pad := Max(f.width - size, 0);
      var zeros := Max(f.dprec - |f.body|, 0) + if f.zeropad && !f.ladjust then pad else 0;
      var before, after := (if f.ladjust || f.zeropad then 0 else pad), (if f.ladjust then pad else 0);
      && Rendered(f) == Repeated(' ', before) + (f.prefix + ((Repeated('0', zeros) + f.body) + Repeated(' ', after)))
      && before + |f.prefix| + zeros + |f.body| + after == Max(f.width, size)
  {
    var size := |f.prefix| + Max(f.dprec, |f.body|);
    var pad := Max(f.width - size, 0);
    var fill := Repeated('0', f.dprec - |f.body|);
    if f.zeropad && !f.ladjust {
      assert Repeated('0', pad) + fill == Repeated('0', pad + Max(f.dprec - |f.body|, 0));
    }
  }

  /** The prefix of a number: a minus for a negative one, else what the sign flag asks for; 0x or 0X, in the case of the
      digits, for an address and for a hexadecimal number other than zero in the alternate form.  In that form octal
      digits start with 0.  Zeros pad only where no precision is given. */
  lemma NumberLayout(d: Directive)
    requires DirectiveOk(d) && (d.Signed? || d.Unsigned? || d.Pointer?)
    ensures var f := FieldOf(d);
      && (d.Signed? ==> f.prefix == if d.value < 0 then "-" else d.flags.sign)
      && (d.Pointer? ==> f.prefix == "0x")
      && (d.Unsigned? && d.base == 16 && d.flags.alt && d.magnitude > 0 ==> f.prefix == if d.upper then "0X" else "0x")
      && (d.Unsigned? && !(d.base == 16 && d.flags.alt && d.magnitude > 0) ==> f.prefix == "")
      && (d.Unsigned? && d.base == 8 && d.flags.alt && d.magnitude > 0 ==> f.body[0] == '0' && |f.body| > 1)
      && (d.Unsigned? && f.body != "" && f.body[0] == '0' ==> d.magnitude == 0 || (d.base == 8 && d.flags.alt))
      && f.dprec == d.flags.prec && f.width == d.flags.width && f.ladjust == d.flags.ladjust
      && (f.zeropad <==> d.flags.zeropad && d.flags.prec < 0)
    ensures !(d.Unsigned? && d.upper) ==> forall c :: 'A' <= c <= 'F' ==> c !in FieldOf(d).body
    ensures d.Unsigned? && d.upper ==> forall c :: 'a' <= c <= 'f' ==> c !in FieldOf(d).body
  {
    var u, base := (if d.Signed? then Abs(d.value) else if d.Unsigned? then d.magnitude else d.address),
                   (if d.Signed? then 10 else if d.Unsigned? then d.base else 16);
    NumeralDenotes(u, base, d.Unsigned? && d.upper);
    DigitCase(u, base, d.Unsigned? && d.upper);
  }

  /** Digits in upper case are none of a to f, and the others none of A to F. */
  lemma {:induction false} DigitCase(u: int, base: int, upper: bool)
    requires u >= 0 && IsBase(base)
    ensures forall c :: c in Numeral(u, base, upper) ==> if upper then !('a' <= c <= 'f') else !('A' <= c <= 'F')
    ensures forall c :: c in Numeral(u, base, upper) ==> IsDigitChar(c)
    decreases u
  {
    OneDigitCase(Mod(u, base), upper);
    if u >= base { DigitCase(Div(u, base), base, upper); }
  }

  lemma OneDigitCase(d: int, upper: bool)
    requires 0 <= d < 16
    ensures var c := DigitChar(d, upper);
      IsDigitChar(c) && if upper then !('a' <= c <= 'f') else !('A' <= c <= 'F')
  {
  }

  /** A character field is the character; a string field is the string, cut to the precision if there is one. */
  lemma TextLayout(d: Directive)
    requires d.Chr? || d.Str?
    ensures var f := FieldOf(d);
      && (d.Chr? ==> f.body == [d.ch])
      && (d.Str? && (d.flags.prec < 0 || |d.s| <= d.flags.prec) ==> f.body == d.s)
      && (d.Str? && 0 <= d.flags.prec < |d.s| ==> |f.body| == d.flags.prec && f.body <= d.s)
      && f.prefix == "" && f.dprec == 0 && f.width == d.flags.width && f.ladjust == d.flags.ladjust
      && f.zeropad == d.flags.zeropad
  {
  }

  // ---------------------------------------------------------------- reading numbers

  predicate IsDigitChar(c: char) { '0' <= c <= '9' || 'a' <= c <= 'f' || 'A' <= c <= 'F' }

  /** The text without the blanks in front. */
  function Unpadded(s: string): string { if s != "" && s[0] == ' ' then Unpadded(s[1..]) else s }

  /** How many digits a text starts with. */
  function Leading(s: string): (n: nat)
    ensures n <= |s|
  {
    if s != "" && IsDigitChar(s[0]) then 1 + Leading(s[1..]) else 0
  }

  function ReadDigits(s: string, base: int): int { ValueOf(s[..Leading(s)], base) }

  /** The number that a text starts with: blanks, a sign, a hexadecimal prefix and digits. */
  function ReadNumber(s: string, base: int): int {
    var t := Unpadded(s);
    if t != "" && t[0] == '-' then -ReadDigits(t[1..], base)
    else if t != "" && t[0] == '+' then ReadDigits(t[1..], base)
    else if |t| > 1 && t[0] == '0' && (t[1] == 'x' || t[1] == 'X') then ReadDigits(t[2..], base)
    else ReadDigits(t, base)
  }

  lemma {:induction false} UnpaddedIs(n: nat, t: string)
    ensures Unpadded(Repeated(' ', n) + t) == Unpadded(t)
  {
    var s := Repeated(' ', n) + t;
    if n == 0 {
      assert s == t;
    } else {
      assert s[0] == ' ' && s[1..] == Repeated(' ', n - 1) + t;
      UnpaddedIs(n - 1, t);
    }
  }

  lemma {:induction false} LeadingIs(x: string, n: nat)
    requires forall i :: 0 <= i < |x| ==> IsDigitChar(x[i])
    ensures Leading(x + Repeated(' ', n)) == |x|
  {
    var s := x + Repeated(' ', n);
    if x != "" {
      assert s[0] == x[0] && s[1..] == x[1..] + Repeated(' ', n);
      LeadingIs(x[1..], n);
    }
  }

  /** Zeros in front do not count. */
  lemma {:induction false} ZerosAhead(n: nat, s: string, base: int)
    ensures ValueOf(Repeated('0', n) + s, base) == ValueOf(s, base)
  {
    if n == 0 {
      assert Repeated('0', n) + s == s;
    } else {
      ZerosAhead(n - 1, s, base);
      LeadingZero(Repeated('0', n - 1) + s, base);
      assert Repeated('0', n) + s == "0" + (Repeated('0', n - 1) + s);
    }
  }

  /** Zeros, digits and blanks behind them. */
  lemma DigitsRead(zeros: nat, body: string, after: nat, base: int)
    requires forall i :: 0 <= i < |body| ==> IsDigitChar(body[i])
    ensures ReadDigits((Repeated('0', zeros) + body) + Repeated(' ', after), base) == ValueOf(body, base)
  {
    var x := Repeated('0', zeros) + body;
    LeadingIs(x, after);
    assert (x + Repeated(' ', after))[..|x|] == x;
    ZerosAhead(zeros, body, base);
  }

  predicate IsPrefix(p: string) { p in {"", " ", "+", "-", "0x", "0X"} }

  /** A prefix, zeros and digits, and blanks behind them. */
  lemma PrefixedRead(p: string, zeros: nat, body: string, after: nat, base: int)
    requires IsPrefix(p) && forall i :: 0 <= i < |body| ==> IsDigitChar(body[i])
    ensures ReadNumber(p + ((Repeated('0', zeros) + body) + Repeated(' ', after)), base) ==
      if p == "-" then -ValueOf(body, base) else ValueOf(body, base)
  {
    var r := (Repeated('0', zeros) + body) + Repeated(' ', after);
    var t := p + r;
    DigitsRead(zeros, body, after, base);
    if p == "" || p == " " {
      BareRead(zeros, body, after, base);
      if p == "" { assert t == r; } else { assert t[0] == ' ' && t[1..] == r; }
    } else {
      assert t[0] == p[0] && t[|p|..] == r;
      if |p| == 2 { assert t[1] == p[1]; }
    }
  }

  lemma BareRead(zeros: nat, body: string, after: nat, base: int)
    requires forall i :: 0 <= i < |body| ==> IsDigitChar(body[i])
    ensures ReadNumber((Repeated('0', zeros) + body) + Repeated(' ', after), base) == ValueOf(body, base)
  {
    var x := Repeated('0', zeros) + body;
    var r := x + Repeated(' ', after);
    DigitsRead(zeros, body, after, base);
    if x == "" {
      assert r == Repeated(' ', after) + "" && x == body;
      UnpaddedIs(after, "");
    } else {
      assert r[0] == x[0] && IsDigitChar(x[0]);
      if |r| > 1 { assert r[1] == if |x| > 1 then x[1] else ' '; }
    }
  }

  lemma LayoutRead(before: nat, p: string, zeros: nat, body: string, after: nat, base: int)
    requires IsPrefix(p) && forall i :: 0 <= i < |body| ==> IsDigitChar(body[i])
    ensures ReadNumber(Repeated(' ', before) + (p + ((Repeated('0', zeros) + body) + Repeated(' ', after))), base) ==
      if p == "-" then -ValueOf(body, base) else ValueOf(body, base)
  {
    PrefixedRead(p, zeros, body, after, base);
    SameUnpadded(before, p + ((Repeated('0', zeros) + body) + Repeated(' ', after)), base);
  }

  lemma SameUnpadded(n: nat, t: string, base: int)
    ensures ReadNumber(Repeated(' ', n) + t, base) == ReadNumber(t, base)
  {
    UnpaddedIs(n, t);
  }

  lemma FieldRead(f: Field, base: int)
    requires IsPrefix(f.prefix) && forall i :: 0 <= i < |f.body| ==> IsDigitChar(f.body[i])
    ensures ReadNumber(Rendered(f), base) == if f.prefix == "-" then -ValueOf(f.body, base) else ValueOf(f.body, base)
  {
    FieldLayout(f);
    var size := |f.prefix| + Max(f.dprec, |f.body|);
    var pad := Max(f.width - size, 0);
    var zeros := Max(f.dprec - |f.body|, 0) + if f.zeropad && !f.ladjust then pad else 0;
    var before, after := (if f.ladjust || f.zeropad then 0 else pad), (if f.ladjust then pad else 0);
    LayoutRead(before, f.prefix, zeros, f.body, after, base);
  }

  /** The text of an integer directive, whatever its flags, width and precision, reads as the number printed. */
  lemma PrintedIsRead(d: Directive)
    requires DirectiveOk(d) && (d.Signed? || d.Unsigned? || d.Pointer?) && d.flags.sign in {"", " ", "+"}
    ensures d.Signed? ==> ReadNumber(Text1(d), 10) == d.value
    ensures d.Unsigned? ==> ReadNumber(Text1(d), d.base) == d.magnitude
    ensures d.Pointer? ==> ReadNumber(Text1(d), 16) == d.address
  {
    var u, base := (if d.Signed? then Abs(d.value) else if d.Unsigned? then d.magnitude else d.address),
                   (if d.Signed? then 10 else if d.Unsigned? then d.base else 16);
    IntegersDenote(d);
    DigitCase(u, base, d.Unsigned? && d.upper);
    FieldRead(FieldOf(d), base);
  }
}
