/**
 Formats that are written and read (snprintk.c): a directive in any of the forms in which a format and
 its arguments can express it is read as that directive.
 */
module PrintfWritten {
  import opened Arith
  import opened Options
  import opened Printf
  import opened PrintfFormat
  import PrintfText

  // ---------------------------------------------------------------- numbers as their types hold them

  /** How many numbers a type of so many bits has. */
  function Span(bits: int): (m: int)
    ensures m > 0
  {
    if bits == 8 then 0x100 else if bits == 16 then 0x1_0000 else if bits == 32 then 0x1_0000_0000
    else 0x1_0000_0000_0000_0000
  }

  /** v is n as a type of so many bits holds it: within the type's range, and off n by a multiple of its span. */
  predicate Holds(v: int, n: int, bits: int, signed: bool) {
    && (if signed then -Span(bits) <= 2 * v < Span(bits) else 0 <= v < Span(bits))
    && (v - n) % Span(bits) == 0
  }

  /** What is taken for an argument is the argument as its type holds it. */
  lemma NumberIsHeld(n: int, bits: int)
    requires bits in {16, 32, 64}
    ensures Holds(Signed64(n, bits), n, bits, true) && Holds(Unsigned64(n, bits), n, bits, false)
  {
    var m, q := Span(bits), n / Span(bits);
    assert Unsigned64(n, bits) == n % m && n == m * q + n % m;
    assert n % m - n == -q * m && n % m - m - n == (-q - 1) * m;
    DivUnique(n % m - n, m, -q, 0);
    DivUnique(n % m - m - n, m, -q - 1, 0);
  }

  /** There is no other such number. */
  lemma HeldOnce(v: int, w: int, n: int, bits: int, signed: bool)
    requires Holds(v, n, bits, signed) && Holds(w, n, bits, signed)
    ensures v == w
  {
    var m := Span(bits);
    var p, q := (v - n) / m, (w - n) / m;
    assert v - w == (p - q) * m;
    MulGrows(p - q, m);
  }

  // ---------------------------------------------------------------- directives as they are written

  /** The length modifiers. */
  datatype Length = Int | H | L | LL | Q | J | T | Z

  function LengthText(l: Length): string {
    match l
    case Int => ""
    case H => "h"
    case L => "l"
    case LL => "ll"
    case Q => "q"
    case J => "j"
    case T => "t"
    case Z => "z"
  }

  /** The bits of the type that a length modifier names: int, short, long, two names of int64_t, intmax_t, intptr_t and
      size_t, on a 32-bit machine. */
  function TypeBits(l: Length): int {
    match l
    case Int => 32
    case H => 16
    case L => 32
    case LL => 64
    case Q => 64
    case J => 64
    case T => 32
    case Z => 32
  }

  /** How a width or a precision is given: in digits, or as an argument; a width on the left also as a negative one. */
  datatype Sizing = InDigits | AsArgument | AsNegative

  /** A directive as it is written: with a text for its sign flag, a width and a precision, a length modifier, the
      character of the conversion, and an argument. */
  datatype Written = Written(d: Directive, sign: string, width: Sizing, prec: Sizing, len: Length, c: char, arg: Arg)

  /** The bits of the number that a conversion takes: D, O and U stand for ld, lo and lu. */
  function NumberBits(w: Written): int {
    if (w.c == 'D' || w.c == 'O' || w.c == 'U') && w.len == H then 32 else TypeBits(w.len)
  }

  predicate HoldsArg(v: int, arg: Arg, bits: int, signed: bool) { arg.Num? && Holds(v, arg.n, bits, signed) }

  /** The characters that stand for something behind a percent sign. */
  predicate Stands(c: char) {
    || IsDigit(c) || c in {' ', '#', '-', '+', '.', '*', 'h', 'j', 'l', 'q', 't', 'z'}
    || c in {'c', 'D', 'd', 'i', 'n', 'O', 'o', 'p', 's', 'U', 'u', 'X', 'x'}
  }

  /** The conversion and its argument make up the directive. */
  predicate Converts(w: Written) {
    match w.d
    case Text(c) => c != '%'
    case Count => w.c == 'n' && w.arg.Place?
    case Signed(v, _) => (w.c == 'd' || w.c == 'i' || w.c == 'D') && HoldsArg(v, w.arg, NumberBits(w), true)
    case Unsigned(u, base, upper, _) =>
      && HoldsArg(u, w.arg, NumberBits(w), false)
      && (if w.c == 'o' || w.c == 'O' then base == 8 && !upper
        else if w.c == 'u' || w.c == 'U' then base == 10 && !upper
          else base == 16 && w.c == (if upper then 'X' else 'x'))
    case Pointer(a, _) => w.c == 'p' && HoldsArg(a, w.arg, 32, false)
    case Chr(c, _) =>
      if w.c == 'c' then c as int < 256 && HoldsArg(c as int, w.arg, 8, false) else c == w.c && !Stands(c)
    case Str(s, flags) =>
      || (w.c == 's' && (w.arg == Chars(Some(s)) || (w.arg == Chars(None) && s == "(null)")))
      || (w.c == 'p' && w.arg == Uuid(s) && flags.prec == -1)
  }

  predicate HasFlags(d: Directive) { !d.Text? && !d.Count? }

  /** The sign flag, width and precision are those of the directive. */
  predicate Sized(w: Written) {
    HasFlags(w.d) ==>
      var f := w.d.flags;
      && f.prec >= -1 && w.prec != AsNegative && (w.width == AsNegative ==> f.ladjust && f.width > 0)
      && (if f.sign == "+" then w.sign in {"+", " +", "+ "} else f.sign in {"", " "} && w.sign == f.sign)
  }

  /** The UUID extension is needed. */
  predicate IsUuidText(w: Written) { w.d.Str? && w.c == 'p' }

  function Opt(on: bool, c: char): string { if on then [c] else "" }

  function WidthText(w: nat, how: Sizing): string {
    if how != InDigits then "*" else if w > 0 then Numeral(w, 10, false) else ""
  }

  function PrecText(p: int, how: Sizing): string {
    if how != InDigits then ".*" else if p >= 0 then "." + Numeral(p, 10, false) else ""
  }

  function WidthArgs(w: nat, how: Sizing): seq<Arg> {
    if how == InDigits then [] else [Num(if how == AsNegative then 0 - w else w)]
  }

  function PrecArgs(p: int, how: Sizing): seq<Arg> { if how == InDigits then [] else [Num(p)] }

  function FlagText(w: Written): string
    requires HasFlags(w.d)
  {
    var f := w.d.flags;
    Opt(f.alt, '#') + (Opt(f.ladjust && w.width != AsNegative, '-') + (w.sign + (Opt(f.zeropad, '0') +
      (WidthText(f.width, w.width) + PrecText(f.prec, w.prec)))))
  }

  function EndText(w: Written): string { LengthText(w.len) + (if IsUuidText(w) then "pUl" else [w.c]) }

  function FormatOf(w: Written): string {
    match w.d
    case Text(c) => [c]
    case Count => "%" + EndText(w)
    case _ => "%" + (FlagText(w) + EndText(w))
  }

  /** What is passed for the number or the string. */
  function ValueArgs(w: Written): seq<Arg> {
    if w.d.Text? || (w.d.Chr? && w.c != 'c') then [] else [w.arg]
  }

  function ArgsOf(w: Written): seq<Arg> {
    if HasFlags(w.d) then WidthArgs(w.d.flags.width, w.width) + (PrecArgs(w.d.flags.prec, w.prec) + ValueArgs(w))
    else ValueArgs(w)
  }

  function FormatAll(ws: seq<Written>): string {
    if ws == [] then "" else FormatOf(ws[0]) + FormatAll(ws[1..])
  }

  function ArgsAll(ws: seq<Written>): seq<Arg> {
    if ws == [] then [] else ArgsOf(ws[0]) + ArgsAll(ws[1..])
  }

  function DirectivesOf(ws: seq<Written>): seq<Directive> { seq(|ws|, i requires 0 <= i < |ws| => ws[i].d) }

  predicate StartsUl(s: string) { |s| > 1 && s[0] == 'U' && s[1] == 'l' }

  /** With the extension, an address is not followed by the text that would make it a UUID; without it, there is
      none. */
  predicate Unambiguous(w: Written, tail: string, ext: bool) {
    if ext then w.d.Pointer? ==> !StartsUl(tail) else !IsUuidText(w)
  }

  /** A directive is as it can be written in front of a tail. */
  predicate Writable(w: Written, tail: string, ext: bool) { Converts(w) && Sized(w) && Unambiguous(w, tail, ext) }

  lemma {:induction false} ScanMod(s: string, sp: Spec, args: seq<Arg>, ext: bool, m: Rest)
    requires s != [] && IsModifier(s[0]) && Modifier(s, sp, args) == Some(m)
    ensures Scan(s, sp, args, ext) == Scan(m.s, m.sp, m.args, ext)
  {
  }

  lemma ModFlag(c: char, r: string, sp: Spec, args: seq<Arg>)
    requires Flag(c, sp).Some?
    ensures ([c] + r)[0] == c && IsModifier(c) && Modifier([c] + r, sp, args) == Some(Rest(r, Flag(c, sp).value, args))
  {
    assert ([c] + r)[0] == c && ([c] + r)[1..] == r;
  }

  lemma {:induction false} ScanFlag(c: char, r: string, sp: Spec, args: seq<Arg>, ext: bool)
    requires Flag(c, sp).Some?
    ensures Scan([c] + r, sp, args, ext) == Scan(r, Flag(c, sp).value, args, ext)
  {
    ModFlag(c, r, sp, args);
    ScanMod([c] + r, sp, args, ext, Rest(r, Flag(c, sp).value, args));
  }

  lemma {:induction false} ScanOpt(on: bool, c: char, r: string, sp: Spec, sp': Spec, args: seq<Arg>, ext: bool)
    requires Flag(c, sp) == Some(sp')
    ensures Scan(Opt(on, c) + r, sp, args, ext) == Scan(r, if on then sp' else sp, args, ext)
  {
    if on { ScanFlag(c, r, sp, args, ext); } else { assert "" + r == r; }
  }

  lemma {:induction false} NumeralIsDigits(u: int)
    requires u >= 0
    ensures forall i :: 0 <= i < |Numeral(u, 10, false)| ==> IsDigit(Numeral(u, 10, false)[i])
    decreases u
  {
    if u >= 10 { NumeralIsDigits(Div(u, 10)); }
  }

  lemma {:induction false} DigitsThen(x: string, r: string)
    requires (forall i :: 0 <= i < |x| ==> IsDigit(x[i])) && (r == [] || !IsDigit(r[0]))
    ensures Digits0(x + r) == |x| && (x + r)[..|x|] == x && (x + r)[|x|..] == r
  {
    if x == [] {
      assert x + r == r;
    } else {
      assert (x + r)[1..] == x[1..] + r;
      DigitsThen(x[1..], r);
    }
  }

  lemma {:induction false} ModWidth(w: int, r: string, sp: Spec, args: seq<Arg>)
    requires w > 0 && (r == [] || !IsDigit(r[0]))
    ensures var s := Numeral(w, 10, false) + r;
      IsModifier(s[0]) && Modifier(s, sp, args) == Some(Rest(r, sp.(width := w), args))
  {
    var x := Numeral(w, 10, false);
    NumeralIsDigits(w);
    NumeralDenotes(w, 10, false);
    DigitsThen(x, r);
    assert (x + r)[0] == x[0] && IsDigit(x[0]) && x[0] != '0';
  }

  lemma {:induction false} ModPrec(p: int, r: string, sp: Spec, args: seq<Arg>)
    requires p >= 0 && (r == [] || !IsDigit(r[0]))
    ensures var s := ['.'] + (Numeral(p, 10, false) + r); Modifier(s, sp, args) == Some(Rest(r, sp.(prec := p), args))
  {
    var x := Numeral(p, 10, false);
    NumeralIsDigits(p);
    NumeralDenotes(p, 10, false);
    DigitsThen(x, r);
    var s := ['.'] + (x + r);
    assert s[0] == '.' && s[1..] == x + r && s[1] == x[0] && IsDigit(x[0]);
  }

  /** A width is read as given. */
  lemma {:induction false} ScanWidth(w: nat, how: Sizing, r: string, sp: Spec, sp': Spec, args: seq<Arg>, ext: bool)
    requires r != [] && !IsDigit(r[0]) && sp.width == 0 && (how == AsNegative ==> w > 0)
    requires sp' == sp.(width := w, ladjust := sp.ladjust || how == AsNegative)
    ensures Scan(WidthText(w, how) + r, sp, WidthArgs(w, how) + args, ext) == Scan(r, sp', args, ext)
  {
    var given := WidthArgs(w, how) + args;
    if how != InDigits {
      var s := ['*'] + r;
      assert s[0] == '*' && s[1..] == r && given[0] == Num(if how == AsNegative then 0 - w else w)
        && given[1..] == args;
      ScanMod(s, sp, given, ext, Rest(r, sp', args));
    } else {
      assert given == args;
      if w > 0 {
        ScanSomeWidth(w, Numeral(w, 10, false), r, sp, args, ext);
      } else {
        ScanNothing(WidthText(w, how), r, sp, sp', args, ext);
      }
    }
  }

  lemma {:induction false} ScanSomeWidth(w: nat, x: string, r: string, sp: Spec, args: seq<Arg>, ext: bool)
    requires w > 0 && r != [] && !IsDigit(r[0]) && x == Numeral(w, 10, false)
    ensures Scan(x + r, sp, args, ext) == Scan(r, sp.(width := w), args, ext)
  {
    ModWidth(w, r, sp, args);
    ScanMod(x + r, sp, args, ext, Rest(r, sp.(width := w), args));
  }

  /** And a precision. */
  lemma {:induction false} ScanPrec(p: int, how: Sizing, r: string, sp: Spec, args: seq<Arg>, ext: bool)
    requires r != [] && !IsDigit(r[0]) && p >= -1 && sp.prec == -1
    ensures Scan(PrecText(p, how) + r, sp, PrecArgs(p, how) + args, ext) == Scan(r, sp.(prec := p), args, ext)
  {
    var given := PrecArgs(p, how) + args;
    if how != InDigits {
      var s := ['.', '*'] + r;
      assert s[0] == '.' && s[1] == '*' && s[2..] == r && given[0] == Num(p) && given[1..] == args;
      ScanMod(s, sp, given, ext, Rest(r, sp.(prec := p), args));
    } else {
      assert given == args;
      if p >= 0 {
        ScanSomePrec(p, Numeral(p, 10, false), r, sp, args, ext);
      } else {
        ScanNothing(PrecText(p, how), r, sp, sp.(prec := p), args, ext);
      }
    }
  }

  lemma {:induction false} ScanSomePrec(p: nat, x: string, r: string, sp: Spec, args: seq<Arg>, ext: bool)
    requires r != [] && !IsDigit(r[0]) && x == Numeral(p, 10, false)
    ensures Scan((['.'] + x) + r, sp, args, ext) == Scan(r, sp.(prec := p), args, ext)
  {
    Append(['.'], x, r);
    ModPrec(p, r, sp, args);
    ScanMod(['.'] + (x + r), sp, args, ext, Rest(r, sp.(prec := p), args));
  }

  lemma {:induction false} ScanNothing(x: string, r: string, sp: Spec, sp': Spec, args: seq<Arg>, ext: bool)
    requires x == "" && sp == sp'
    ensures Scan(x + r, sp, args, ext) == Scan(r, sp', args, ext)
  {
    assert x + r == r;
  }

  /** A sign flag; a blank beside a plus is ignored. */
  lemma {:induction false} ScanSign(text: string, sign: string, r: string, sp: Spec, args: seq<Arg>, ext: bool)
    requires sp.sign == ""
    requires if sign == "+" then text in {"+", " +", "+ "} else sign in {"", " "} && text == sign
    ensures Scan(text + r, sp, args, ext) == Scan(r, sp.(sign := sign), args, ext)
  {
    if |text| == 0 {
      ScanNothing(text, r, sp, sp.(sign := sign), args, ext);
    } else if |text| == 1 {
      assert [text[0]] == text;
      ScanFlag(text[0], r, sp, args, ext);
    } else {
      assert [text[0]] + ([text[1]] + r) == text + r;
      ScanFlag(text[0], [text[1]] + r, sp, args, ext);
      ScanFlag(text[1], r, sp.(sign := [text[0]]), args, ext);
    }
  }

  /** What has been read behind the flags, the width and the precision. */
  function SpecOf(f: Flags): Spec
    requires |f.sign| <= 1
  {
    Spec(f.alt, f.ladjust, f.zeropad, f.sign, f.width, f.prec, false, false, false, false, false, false)
  }

  lemma {:induction false} ScanFlags(w: Written, r: string, args: seq<Arg>, ext: bool)
    requires HasFlags(w.d) && Sized(w) && r != [] && !IsDigit(r[0])
    ensures |w.d.flags.sign| <= 1
    ensures Scan(FlagText(w) + r, START, WidthArgs(w.d.flags.width, w.width) + (PrecArgs(w.d.flags.prec,
      w.prec) + args), ext) == Scan(r, SpecOf(w.d.flags), args, ext)
  {
    var f := w.d.flags;
    var given := WidthArgs(f.width, w.width) + (PrecArgs(f.prec, w.prec) + args);
    var left := f.ladjust && w.width != AsNegative;
    var e := WidthText(f.width, w.width) + (PrecText(f.prec, w.prec) + r);
    var s1 := START.(alt := f.alt);
    var s2 := s1.(ladjust := left);
    FlagTextParts(w, r);
    ScanOpt(f.alt, '#', Opt(left, '-') + (w.sign + (Opt(f.zeropad, '0') + e)), START, START.(alt := true), given, ext);
    ScanOpt(left, '-', w.sign + (Opt(f.zeropad, '0') + e), s1, s1.(ladjust := true), given, ext);
    ScanSign(w.sign, f.sign, Opt(f.zeropad, '0') + e, s2, given, ext);
    ScanSizes(w, r, s2.(sign := f.sign), args, ext);
  }

  lemma {:induction false} ScanSizes(w: Written, r: string, sp: Spec, args: seq<Arg>, ext: bool)
    requires HasFlags(w.d) && Sized(w) && r != [] && !IsDigit(r[0])
    requires !sp.zeropad && sp.width == 0 && sp.prec == -1
    ensures var f := w.d.flags;
      Scan(Opt(f.zeropad, '0') + (WidthText(f.width, w.width) + (PrecText(f.prec, w.prec) + r)), sp,
        WidthArgs(f.width, w.width) + (PrecArgs(f.prec, w.prec) + args), ext) ==
      Scan(r, sp.(zeropad := f.zeropad, width := f.width, ladjust := sp.ladjust || w.width == AsNegative,
        prec := f.prec), args, ext)
  {
    var f := w.d.flags;
    ScanZero(f.zeropad, WidthText(f.width, w.width) + (PrecText(f.prec, w.prec) + r), sp,
      WidthArgs(f.width, w.width) + (PrecArgs(f.prec, w.prec) + args), ext);
    ScanWidthPrec(w, r, sp.(zeropad := f.zeropad), args, ext);
  }

  lemma {:induction false} ScanWidthPrec(w: Written, r: string, sp: Spec, args: seq<Arg>, ext: bool)
    requires HasFlags(w.d) && Sized(w) && r != [] && !IsDigit(r[0]) && sp.width == 0 && sp.prec == -1
    ensures var f := w.d.flags;
      Scan(WidthText(f.width, w.width) + (PrecText(f.prec, w.prec) + r), sp,
        WidthArgs(f.width, w.width) + (PrecArgs(f.prec, w.prec) + args), ext) ==
      Scan(r, sp.(width := f.width, ladjust := sp.ladjust || w.width == AsNegative, prec := f.prec), args, ext)
  {
    var f := w.d.flags;
    var s5 := sp.(width := f.width, ladjust := sp.ladjust || w.width == AsNegative);
    PrecStarts(f.prec, w.prec, r);
    ScanWidth(f.width, w.width, PrecText(f.prec, w.prec) + r, sp, s5, PrecArgs(f.prec, w.prec) + args, ext);
    ScanPrec(f.prec, w.prec, r, s5, args, ext);
  }

  lemma {:induction false} ScanZero(on: bool, r: string, sp: Spec, args: seq<Arg>, ext: bool)
    requires !sp.zeropad
    ensures Scan(Opt(on, '0') + r, sp, args, ext) == Scan(r, sp.(zeropad := on), args, ext)
  {
    ScanOpt(on, '0', r, sp, sp.(zeropad := true), args, ext);
  }

  lemma PrecStarts(p: int, how: Sizing, r: string)
    requires r != [] && !IsDigit(r[0])
    ensures PrecText(p, how) + r != [] && !IsDigit((PrecText(p, how) + r)[0])
  {
    if p >= 0 || how != InDigits { assert (PrecText(p, how) + r)[0] == '.'; } else { assert PrecText(p, how) + r == r; }
  }

  lemma FlagTextParts(w: Written, r: string)
    requires HasFlags(w.d)
    ensures var f := w.d.flags;
      FlagText(w) + r ==
      Opt(f.alt, '#') + (Opt(f.ladjust && w.width != AsNegative, '-') + (w.sign + (Opt(f.zeropad, '0') +
        (WidthText(f.width, w.width) + (PrecText(f.prec, w.prec) + r)))))
  {
    var f := w.d.flags;
    var a, b := WidthText(f.width, w.width), PrecText(f.prec, w.prec);
    var z, l := Opt(f.zeropad, '0'), Opt(f.ladjust && w.width != AsNegative, '-');
    Append(a, b, r);
    Append(z, a + b, r);
    Append(w.sign, z + (a + b), r);
    Append(l, w.sign + (z + (a + b)), r);
    Append(Opt(f.alt, '#'), l + (w.sign + (z + (a + b))), r);
  }

  /** What a length modifier adds to what has been read. */
  function WithLength(l: Length, sp: Spec): Spec {
    match l
    case Int => sp
    case H => sp.(short := true)
    case L => sp.(long := true)
    case LL => sp.(quad := true)
    case Q => sp.(quad := true)
    case J => sp.(max := true)
    case T => sp.(ptr := true)
    case Z => sp.(siz := true)
  }

  lemma {:induction false} ScanLength(l: Length, r: string, sp: Spec, args: seq<Arg>, ext: bool)
    requires r != [] && r[0] != 'l'
    ensures Scan(LengthText(l) + r, sp, args, ext) == Scan(r, WithLength(l, sp), args, ext)
  {
    if l == Int {
      ScanNothing("", r, sp, sp, args, ext);
    } else if l == L || l == LL {
      ScanLong(l, LengthText(l), r, sp, args, ext);
    } else {
      ScanShort(l, if l == H then 'h'
        else if l == Q then 'q' else if l == J then 'j' else if l == T then 't' else 'z', r,
        sp, args, ext);
    }
  }

  lemma {:induction false} ScanShort(l: Length, c: char, r: string, sp: Spec, args: seq<Arg>, ext: bool)
    requires LengthText(l) == [c] && l != L
    ensures Scan([c] + r, sp, args, ext) == Scan(r, WithLength(l, sp), args, ext)
  {
    LengthFlag(l, c, sp);
    ScanFlag(c, r, sp, args, ext);
  }

  lemma LengthFlag(l: Length, c: char, sp: Spec)
    requires LengthText(l) == [c] && l != L
    ensures Flag(c, sp) == Some(WithLength(l, sp))
  {
    assert c == [c][0] == LengthText(l)[0];
  }

  lemma {:induction false} ScanLong(l: Length, x: string, r: string, sp: Spec, args: seq<Arg>, ext: bool)
    requires r != [] && r[0] != 'l' && (l == L || l == LL) && x == if l == L then "l" else "ll"
    ensures Scan(x + r, sp, args, ext) == Scan(r, WithLength(l, sp), args, ext)
  {
    var s := x + r;
    assert s[0] == 'l' && s[1] == (if l == LL then 'l' else r[0]) && s[|x|..] == r;
    ScanMod(s, sp, args, ext, Rest(r, WithLength(l, sp), args));
  }

  lemma {:induction false} ScanLast(c: char, tail: string, sp: Spec, args: seq<Arg>, ext: bool)
    requires !IsModifier(c) && !(ext && c == 'p' && StartsUl(tail))
    ensures Scan([c] + tail, sp, args, ext) == Conversion(c, sp, args, tail)
  {
    var s := [c] + tail;
    assert s[0] == c && s[1..] == tail;
    if |s| > 2 { assert s[1] == tail[0] && s[2] == tail[1]; }
  }

  /** The number that is taken is the one that the type holds. */
  lemma NumberTaken(v: int, n: int, bits: int, signed: bool)
    requires Holds(v, n, bits, signed)
    ensures bits in {16, 32, 64} ==> v == if signed then Signed64(n, bits) else Unsigned64(n, bits)
    ensures !signed && bits == 8 ==> v == n % 256
    ensures !signed && bits == 32 ==> v == n % 0x1_0000_0000
  {
    if bits in {16, 32, 64} {
      NumberIsHeld(n, bits);
      HeldOnce(v, if signed then Signed64(n, bits) else Unsigned64(n, bits), n, bits, signed);
    } else if bits == 8 {
      DivUnique(n % 256 - n, 256, -(n / 256), 0);
      if !signed { HeldOnce(v, n % 256, n, 8, false); }
    }
  }

  lemma BitsAre(w: Written, f: Flags)
    requires |f.sign| <= 1
    ensures var sp := WithLength(w.len, SpecOf(f));
      NumberBits(w) == Bits(if w.c == 'D' || w.c == 'O' || w.c == 'U' then sp.(long := true) else sp)
    ensures NumberBits(w) in {16, 32, 64}
  {
  }

  /** Numbers are taken back. */
  lemma TakesNumberBack(w: Written, f: Flags)
    requires Converts(w) && HasFlags(w.d) && w.d.flags == f && |f.sign| <= 1
    requires w.d.Signed? || w.d.Unsigned? || w.d.Pointer? || (w.d.Chr? && w.c == 'c')
    ensures w.arg.Num? && TakesNumber(w.c) && NumberOf(w.c, WithLength(w.len, SpecOf(f)), w.arg.n) == Some(w.d)
  {
    LengthKeepsFlags(w.len, f);
    if w.d.Signed? || w.d.Unsigned? {
      BitsAre(w, f);
      NumberTaken(if w.d.Signed? then w.d.value else w.d.magnitude, w.arg.n, NumberBits(w), w.d.Signed?);
    } else {
      NumberTaken(if w.d.Pointer? then w.d.address else w.d.ch as int, w.arg.n, if w.d.Pointer? then 32 else 8, false);
    }
  }

  /** A conversion takes its argument, if it has one, and gives the directive. */
  predicate GivesBack(w: Written, f: Flags, args: seq<Arg>, tail: string, rest: seq<Arg>)
    requires |f.sign| <= 1
  {
    !IsModifier(w.c) && Conversion(w.c, WithLength(w.len, SpecOf(f)), args, tail) == Some(Item(w.d, tail, rest))
  }

  lemma GivesNumber(w: Written, f: Flags, args: seq<Arg>, tail: string, rest: seq<Arg>)
    requires |f.sign| <= 1 && args != [] && args[0] == w.arg && args[1..] == rest && w.arg.Num? && TakesNumber(w.c)
    requires NumberOf(w.c, WithLength(w.len, SpecOf(f)), w.arg.n) == Some(w.d)
    ensures GivesBack(w, f, args, tail, rest)
  {
  }

  lemma GivesString(w: Written, f: Flags, args: seq<Arg>, tail: string, rest: seq<Arg>)
    requires |f.sign| <= 1 && args != [] && args[0] == w.arg && args[1..] == rest
    requires Converts(w) && w.d.Str? && w.c == 's' && w.d.flags == f
    ensures GivesBack(w, f, args, tail, rest)
  {
    LengthKeepsFlags(w.len, f);
  }

  lemma GivesItself(w: Written, f: Flags, tail: string, rest: seq<Arg>)
    requires |f.sign| <= 1 && w.d == Chr(w.c, f) && !Stands(w.c)
    ensures GivesBack(w, f, rest, tail, rest)
  {
    LengthKeepsFlags(w.len, f);
  }

  lemma LengthKeepsFlags(l: Length, f: Flags)
    requires |f.sign| <= 1
    ensures FlagsOf(WithLength(l, SpecOf(f))) == f
  {
  }

  /** The conversion takes the argument back. */
  lemma ConvertsBack(w: Written, f: Flags, tail: string, rest: seq<Arg>)
    requires Converts(w) && HasFlags(w.d) && w.d.flags == f && |f.sign| <= 1 && !IsUuidText(w)
    ensures GivesBack(w, f, ValueArgs(w) + rest, tail, rest)
  {
    var args := ValueArgs(w) + rest;
    if w.d.Chr? && w.c != 'c' {
      assert args == rest;
      GivesItself(w, f, tail, rest);
    } else {
      assert args[0] == w.arg && args[1..] == rest;
      if w.d.Str? {
        GivesString(w, f, args, tail, rest);
      } else {
        TakesNumberBack(w, f);
        GivesNumber(w, f, args, tail, rest);
      }
    }
  }

  /** So does the UUID extension. */
  lemma {:induction false} ScanUuid(w: Written, f: Flags, tail: string, rest: seq<Arg>)
    requires Converts(w) && IsUuidText(w) && w.d.flags == f && |f.sign| <= 1
    ensures Scan("pUl" + tail, WithLength(w.len, SpecOf(f)), ValueArgs(w) + rest, true) == Some(Item(w.d, tail, rest))
  {
    var s, args := "pUl" + tail, ValueArgs(w) + rest;
    assert s[0] == 'p' && s[1] == 'U' && s[2] == 'l' && s[3..] == tail;
    assert args[0] == w.arg && args[1..] == rest;
  }

  lemma {:induction false} ScanEnd(w: Written, f: Flags, tail: string, rest: seq<Arg>, ext: bool)
    requires Writable(w, tail, ext) && HasFlags(w.d) && w.d.flags == f && |f.sign| <= 1
    ensures Scan(EndText(w) + tail, SpecOf(f), ValueArgs(w) + rest, ext) == Some(Item(w.d, tail, rest))
  {
    var last := if IsUuidText(w) then "pUl" else [w.c];
    var args := ValueArgs(w) + rest;
    Append(LengthText(w.len), last, tail);
    assert (last + tail)[0] == last[0];
    if IsUuidText(w) {
      ScanLength(w.len, last + tail, SpecOf(f), args, ext);
      ScanUuid(w, f, tail, rest);
    } else {
      ConvertsBack(w, f, tail, rest);
      ScanLength(w.len, last + tail, SpecOf(f), args, ext);
      ScanLast(w.c, tail, WithLength(w.len, SpecOf(f)), args, ext);
    }
  }

  lemma {:induction false} ParseItem(s: string, args: seq<Arg>, item: Item, ext: bool)
    requires Scan(s, START, args, ext) == Some(item) && item.Item?
    ensures Parse(['%'] + s, args, ext) ==
      var r := Parse(item.tail, item.rest, ext); if r.Some? then Some([item.d] + r.value) else None
  {
    assert (['%'] + s)[0] == '%' && (['%'] + s)[1..] == s;
  }

  lemma {:induction false} ParseOne(w: Written, tail: string, rest: seq<Arg>, ext: bool)
    requires Writable(w, tail, ext)
    ensures Parse(FormatOf(w) + tail, ArgsOf(w) + rest, ext) ==
      var r := Parse(tail, rest, ext); if r.Some? then Some([w.d] + r.value) else None
  {
    if w.d.Text? {
      ParseText(w.d.c, tail, rest, ext);
      assert ArgsOf(w) + rest == rest;
    } else if w.d.Count? {
      ParseCount(w, tail, rest, ArgsOf(w) + rest, ext);
    } else {
      ParseField(w, tail, rest, FlagText(w), EndText(w), ext);
    }
  }

  lemma {:induction false} ScanCount(l: Length, r: string, tail: string, args: seq<Arg>, ext: bool)
    requires r == ['n'] + tail && args != [] && args[0].Place?
    ensures Scan(LengthText(l) + r, START, args, ext) == Some(Item(Count, tail, args[1..]))
  {
    assert r[0] == 'n';
    ScanLength(l, r, START, args, ext);
    ScanLast('n', tail, WithLength(l, START), args, ext);
  }

  lemma {:induction false} ParseCount(w: Written, tail: string, rest: seq<Arg>, args: seq<Arg>, ext: bool)
    requires Writable(w, tail, ext) && w.d.Count? && args == ArgsOf(w) + rest
    ensures Parse(FormatOf(w) + tail, args, ext) ==
      var r := Parse(tail, rest, ext); if r.Some? then Some([w.d] + r.value) else None
  {
    var r := ['n'] + tail;
    assert FormatOf(w) + tail == ['%'] + (LengthText(w.len) + r);
    assert args[0] == Place && args[1..] == rest;
    ScanCount(w.len, r, tail, args, ext);
    ParseItem(LengthText(w.len) + r, args, Item(w.d, tail, rest), ext);
  }

  lemma {:induction false} ParseField(w: Written, tail: string, rest: seq<Arg>, f: string, e: string, ext: bool)
    requires Writable(w, tail, ext) && HasFlags(w.d) && f == FlagText(w) && e == EndText(w)
    ensures Parse(FormatOf(w) + tail, ArgsOf(w) + rest, ext) ==
      var r := Parse(tail, rest, ext); if r.Some? then Some([w.d] + r.value) else None
  {
    var a, p, v := WidthArgs(w.d.flags.width, w.width), PrecArgs(w.d.flags.prec, w.prec), ValueArgs(w);
    assert FormatOf(w) + tail == ['%'] + (f + (e + tail));
    assert ArgsOf(w) + rest == a + (p + (v + rest));
    EndStarts(w);
    assert (e + tail)[0] == e[0];
    ScanFlags(w, e + tail, v + rest, ext);
    ScanEnd(w, w.d.flags, tail, rest, ext);
    ParseItem(f + (e + tail), a + (p + (v + rest)), Item(w.d, tail, rest), ext);
  }

  lemma EndStarts(w: Written)
    requires Converts(w) && HasFlags(w.d)
    ensures EndText(w) != [] && !IsDigit(EndText(w)[0])
  {
    if w.len == Int { assert EndText(w)[0] == w.c; } else { assert EndText(w)[0] == LengthText(w.len)[0]; }
  }

  lemma {:induction false} ParseText(c: char, tail: string, args: seq<Arg>, ext: bool)
    requires c != '%'
    ensures Parse([c] + tail, args, ext) ==
      var r := Parse(tail, args, ext); if r.Some? then Some([Text(c)] + r.value) else None
  {
    assert ([c] + tail)[0] == c && ([c] + tail)[1..] == tail;
  }

  /** Each directive is as it can be written in front of the others. */
  predicate AllWritable(ws: seq<Written>, ext: bool) {
    ws == [] || (Writable(ws[0], FormatAll(ws[1..]), ext) && AllWritable(ws[1..], ext))
  }

  /** Directives that are written as a format, with their arguments, are read back as they were. */
  lemma {:induction false} FormatIsRead(ws: seq<Written>, ext: bool)
    requires AllWritable(ws, ext)
    ensures Parse(FormatAll(ws), ArgsAll(ws), ext) == Some(DirectivesOf(ws))
  {
    if ws == [] {
      assert DirectivesOf(ws) == [];
    } else {
      var rest := ws[1..];
      FormatIsRead(rest, ext);
      ParseOne(ws[0], FormatAll(rest), ArgsAll(rest), ext);
      assert [ws[0].d] + DirectivesOf(rest) == DirectivesOf(ws);
    }
  }

  /** End to end: what a format prints for a number of any type reads as that number. */
  lemma NumberComesBack(w: Written, ext: bool)
    requires Writable(w, "", ext) && (w.d.Signed? || w.d.Unsigned? || w.d.Pointer?)
    ensures Parse(FormatOf(w), ArgsOf(w), ext) == Some([w.d]) && DirectiveOk(w.d)
    ensures var text := FullText([w.d]);
      && (w.d.Signed? ==> PrintfText.ReadNumber(text, 10) == w.d.value)
      && (w.d.Unsigned? ==> PrintfText.ReadNumber(text, w.d.base) == w.d.magnitude)
      && (w.d.Pointer? ==> PrintfText.ReadNumber(text, 16) == w.d.address)
  {
    ParseOne(w, "", [], ext);
    assert FormatOf(w) + "" == FormatOf(w) && ArgsOf(w) + [] == ArgsOf(w) && [w.d] + [] == [w.d];
    assert AllOk([w.d]) && [w.d][0] == w.d && [w.d][1..] == [];
    assert Text1(w.d) + "" == Text1(w.d);
    PrintfText.PrintedIsRead(w.d);
  }
}
