/**
 Format strings (snprintk.c): the flags, width, precision and length modifiers behind a percent sign
 are read character by character, arguments are taken as the conversions ask for them, and each
 directive is printed as soon as it has been read.
 */
module PrintfFormat {
  import opened Options
  import opened Printf

  /** Arguments: a number as it was passed, a string or a null pointer, a UUID by its text, or the place for a count. */
  datatype Arg = Num(n: int) | Chars(s: Option<string>) | Uuid(text: string) | Place

  /** A sign flag: none, a blank or a plus. */
  type Sign = s: string | |s| <= 1

  /** What has been read of a directive. */
  datatype Spec = Spec(alt: bool, ladjust: bool, zeropad: bool, sign: Sign, width: nat, prec: int,
                       short: bool, long: bool, quad: bool, max: bool, ptr: bool, siz: bool)

  const START := Spec(false, false, false, "", 0, -1, false, false, false, false, false, false)

  /** What reading a directive comes to: the end of the format, or a directive, the rest of the format and the other
      arguments. */
  datatype Item = Done | Item(d: Directive, tail: string, rest: seq<Arg>)

  predicate IsDigit(c: char) { '0' <= c <= '9' }

  /** How many digits a string starts with. */
  function Digits0(s: string): (n: nat)
    ensures n <= |s| && (forall i :: 0 <= i < n ==> IsDigit(s[i])) && (n < |s| ==> !IsDigit(s[n]))
  {
    if s == [] || !IsDigit(s[0]) then 0 else 1 + Digits0(s[1..])
  }

  // ---------------------------------------------------------------- arguments

  /** The width of the type that the length modifiers name. */
  function Bits(sp: Spec): int {
    if sp.max then 64 else if sp.ptr then 32 else if sp.siz then 32 else if sp.quad then 64 else if sp.long then 32
    else if sp.short then 16 else 32
  }

  function Unsigned64(n: int, bits: int): (u: int)
    ensures 0 <= u < 0x1_0000_0000_0000_0000
  {
    if bits == 64 then n % 0x1_0000_0000_0000_0000 else if bits == 16 then n % 0x1_0000 else n % 0x1_0000_0000
  }

  /** The number that n is in a type of so many bits. */
  function Signed64(n: int, bits: int): (v: int)
    ensures -0x8000_0000_0000_0000 <= v < 0x8000_0000_0000_0000
  {
    var u := Unsigned64(n, bits);
    if bits == 64 then if u >= 0x8000_0000_0000_0000 then u - 0x1_0000_0000_0000_0000 else u
    else if bits == 16 then if u >= 0x8000 then u - 0x1_0000 else u
    else if u >= 0x8000_0000 then u - 0x1_0000_0000 else u
  }

  function FlagsOf(sp: Spec): Flags { Flags(sp.alt, sp.ladjust, sp.zeropad, sp.sign, sp.width, sp.prec) }

  // ---------------------------------------------------------------- reading a directive

  /** The characters that set one flag or one length modifier. */
  function Flag(c: char, sp: Spec): Option<Spec> {
    if c == ' ' then Some(if sp.sign == "" then sp.(sign := " ") else sp)
    else if c == '#' then Some(sp.(alt := true))
    else if c == '-' then Some(sp.(ladjust := true))
    else if c == '+' then Some(sp.(sign := "+"))
    else if c == '0' then Some(sp.(zeropad := true))
    else if c == 'h' then Some(sp.(short := true))
    else if c == 'j' then Some(sp.(max := true))
    else if c == 'q' then Some(sp.(quad := true))
    else if c == 't' then Some(sp.(ptr := true))
    else if c == 'z' then Some(sp.(siz := true))
    else None
  }

  /** A width read from the arguments; a negative one also adjusts to the left. */
  function Widen(sp: Spec, n: int): Spec {
    if n >= 0 then sp.(width := n) else sp.(width := -n, ladjust := true)
  }

  function NumberOf(c: char, sp: Spec, n: int): (r: Option<Directive>)
    ensures r.Some? ==> DirectiveOk(r.value)
  {
    var wide := if c == 'D' || c == 'O' || c == 'U' then sp.(long := true) else sp;
    if c == 'c' then Some(Chr((n % 256) as char, FlagsOf(sp)))
    else if c == 'D' || c == 'd' || c == 'i' then Some(Signed(Signed64(n, Bits(wide)), FlagsOf(sp)))
    else if c == 'O' || c == 'o' then Some(Unsigned(Unsigned64(n, Bits(wide)), 8, false, FlagsOf(sp)))
    else if c == 'U' || c == 'u' then Some(Unsigned(Unsigned64(n, Bits(wide)), 10, false, FlagsOf(sp)))
    else if c == 'x' || c == 'X' then Some(Unsigned(Unsigned64(n, Bits(sp)), 16, c == 'X', FlagsOf(sp)))
    else if c == 'p' then Some(Pointer(n % 0x1_0000_0000, FlagsOf(sp)))
    else None
  }

  predicate TakesNumber(c: char) {
    c == 'c' || c == 'D' || c == 'd' || c == 'i' || c == 'O' || c == 'o' || c == 'U' || c == 'u' || c == 'x' || c == 'X'
      || c == 'p'
  }

  /** A conversion with the argument it asks for; no argument, or one of the wrong kind, is none. */
  function Conversion(c: char, sp: Spec, args: seq<Arg>, tail: string): (r: Option<Item>)
    ensures r.Some? ==> r.value.Item? && DirectiveOk(r.value.d) && r.value.tail == tail
  {
    if TakesNumber(c) || c == 's' || c == 'n' then
      if args == [] then None
      else
        match args[0]
        case Num(n) =>
          if TakesNumber(c) && NumberOf(c, sp, n).Some? then Some(Item(NumberOf(c, sp, n).value, tail, args[1..]))
            else None
        case Chars(t) => if c == 's'
          then Some(Item(Str(if t.Some? then t.value else "(null)", FlagsOf(sp)), tail, args[1..])) else None
        case Place => if c == 'n' then Some(Item(Count, tail, args[1..])) else None
        case Uuid(_) => None
    else Some(Item(Chr(c, FlagsOf(sp)), tail, args))
  }

  /** The characters between the percent sign and the conversion. */
  predicate IsModifier(c: char) { Flag(c, START).Some? || c == 'l' || c == '*' || c == '.' || IsDigit(c) }

  /** What is left to read, what has been read, and the arguments left. */
  datatype Rest = Rest(s: string, sp: Spec, args: seq<Arg>)

  /** One flag, length modifier, width or precision. */
  function Modifier(s: string, sp: Spec, args: seq<Arg>): (r: Option<Rest>)
    requires s != [] && IsModifier(s[0])
    ensures r.Some? ==> |r.value.s| < |s|
  {
    if Flag(s[0], sp).Some? then Some(Rest(s[1..], Flag(s[0], sp).value, args))
    else if s[0] == 'l' then
      if |s| > 1 && s[1] == 'l' then Some(Rest(s[2..], sp.(quad := true), args))
        else Some(Rest(s[1..], sp.(long := true), args))
    else if s[0] == '*' then
      if args != [] && args[0].Num? then Some(Rest(s[1..], Widen(sp, args[0].n), args[1..])) else None
    else if s[0] == '.' then
      if |s| > 1 && s[1] == '*' then
        if args != [] && args[0].Num?
          then Some(Rest(s[2..], sp.(prec := if args[0].n < 0 then -1 else args[0].n), args[1..])) else None
      else
        var n := Digits0(s[1..]);
        Some(Rest(s[1..][n..], sp.(prec := ValueOf(s[1..][..n], 10)), args))
    else
      var n := Digits0(s);
      Some(Rest(s[n..], sp.(width := Width(s[..n])), args))
  }

  /** The width that digits stand for. */
  function Width(s: string): nat
    requires forall i :: 0 <= i < |s| ==> IsDigit(s[i])
  {
    DigitsDenote(s);
    ValueOf(s, 10)
  }

  predicate IsUuid(s: string, ext: bool) { ext && |s| > 2 && s[0] == 'p' && s[1] == 'U' && s[2] == 'l' }

  /** The conversion that ends a directive. */
  function Ending(s: string, sp: Spec, args: seq<Arg>, ext: bool): (r: Option<Item>)
    requires s != []
    ensures r.Some? ==> r.value.Item? && DirectiveOk(r.value.d) && |r.value.tail| < |s|
  {
    if !IsUuid(s, ext) then Conversion(s[0], sp, args, s[1..])
    else if args != [] && args[0].Uuid? then Some(Item(Str(args[0].text, FlagsOf(sp.(prec := -1))), s[3..], args[1..]))
    else None
  }

  /** Reading on in a directive; s is what comes next in the format. */
  function Scan(s: string, sp: Spec, args: seq<Arg>, ext: bool): (r: Option<Item>)
    ensures r.Some? && r.value.Item? ==> DirectiveOk(r.value.d) && |r.value.tail| < |s|
    decreases |s|
  {
    if s == [] then Some(Done)
    else if IsModifier(s[0]) then
      var m := Modifier(s, sp, args);
      if m.None? then None else Scan(m.value.s, m.value.sp, m.value.args, ext)
    else Ending(s, sp, args, ext)
  }

  lemma {:induction false} DigitsDenote(s: string)
    requires forall i :: 0 <= i < |s| ==> IsDigit(s[i])
    ensures ValueOf(s, 10) >= 0
  {
    if s != [] { DigitsDenote(s[..|s| - 1]); }
  }

  /** The directives of a format with its arguments; none when the arguments do not suit. */
  function Parse(s: string, args: seq<Arg>, ext: bool): (r: Option<seq<Directive>>)
    ensures r.Some? ==> AllOk(r.value)
    decreases |s|
  {
    if s == [] then Some([])
    else if s[0] != '%' then
      var rest := Parse(s[1..], args, ext);
      if rest.Some? then Some([Text(s[0])] + rest.value) else None
    else
      var item := Scan(s[1..], START, args, ext);
      if item.None? then None
      else if item.value.Done? then Some([])
      else
        var rest := Parse(item.value.tail, item.value.rest, ext);
        if rest.Some? then Some([item.value.d] + rest.value) else None
  }

  // ---------------------------------------------------------------- kprintf

  /** The loops that read a width or a precision. */
  method ReadNumber(fmt: string, i: nat) returns (n: int, j: nat)
    requires i <= |fmt|
    ensures j == i + Digits0(fmt[i..]) && n == ValueOf(fmt[i..][..Digits0(fmt[i..])], 10)
  {
    n, j := 0, i;
    while j < |fmt| && IsDigit(fmt[j])
      invariant i <= j <= |fmt| && n == ValueOf(fmt[i..j], 10) && Digits0(fmt[i..]) == j - i + Digits0(fmt[j..])
    {
      ValueLast(fmt[i..j], fmt[j], 10);
      assert fmt[i..j + 1] == fmt[i..j] + [fmt[j]];
      assert fmt[j..][1..] == fmt[j + 1..];
      n := 10 * n + DigitValue(fmt[j]);
      j := j + 1;
    }
    assert fmt[i..][..j - i] == fmt[i..j];
  }

  /** Where the reading of a directive stands: what is left to read from index i on gives what the whole gives. */
  ghost predicate Reading(fmt: string, i: nat, sp: Spec, args: seq<Arg>, ext: bool, r: Option<Item>) {
    i <= |fmt| && Scan(fmt[i..], sp, args, ext) == r
  }

  /** One flag, length modifier, width or precision of kprintf's switch. */
  method ReadModifier(fmt: string, i: nat, sp: Spec, args: seq<Arg>) returns (i': nat, sp': Spec, args': seq<Arg>)
    requires i < |fmt| && IsModifier(fmt[i]) && Modifier(fmt[i..], sp, args).Some?
    ensures i < i' <= |fmt| && Modifier(fmt[i..], sp, args) == Some(Rest(fmt[i'..], sp', args'))
  {
    i', sp', args' := i + 1, sp, args;
    var c := fmt[i];
    ghost var s := fmt[i..];
    assert s[0] == c && s[1..] == fmt[i + 1..];
    if Flag(c, sp).Some? {
      sp' := Flag(c, sp).value;
    } else if c == 'l' {
      if i + 1 < |fmt| && fmt[i + 1] == 'l' {
        assert s[2..] == fmt[i + 2..];
        i', sp' := i + 2, sp.(quad := true);
      } else {
        sp' := sp.(long := true);
      }
    } else if c == '*' {
      sp', args' := Widen(sp, args[0].n), args[1..];
    } else {
      i', sp', args' := ReadSize(fmt, i, sp, args);
    }
  }

  /** A width or a precision. */
  method ReadSize(fmt: string, i: nat, sp: Spec, args: seq<Arg>) returns (i': nat, sp': Spec, args': seq<Arg>)
    requires i < |fmt| && (fmt[i] == '.' || ('1' <= fmt[i] <= '9')) && Modifier(fmt[i..], sp, args).Some?
    ensures i < i' <= |fmt| && Modifier(fmt[i..], sp, args) == Some(Rest(fmt[i'..], sp', args'))
  {
    i', sp', args' := i + 1, sp, args;
    if fmt[i] == '.' { PrecIs(fmt, i, sp, args); } else { WidthIs(fmt, i, sp, args); }
    if fmt[i] == '.' && i + 1 < |fmt| && fmt[i + 1] == '*' {
      i', sp', args' := i + 2, sp.(prec := if args[0].n < 0 then -1 else args[0].n), args[1..];
    } else if fmt[i] == '.' {
      var n;
      n, i' := ReadNumber(fmt, i + 1);
      sp' := sp.(prec := n);
    } else {
      var n;
      n, i' := ReadNumber(fmt, i);
      sp' := sp.(width := n);
    }
  }

  /** What a precision comes to, by the place in the format. */
  lemma {:induction false} PrecIs(fmt: string, i: nat, sp: Spec, args: seq<Arg>)
    requires i < |fmt| && fmt[i] == '.' && fmt[i..][0] == '.'
    ensures Modifier(fmt[i..], sp, args) ==
      if i + 1 < |fmt| && fmt[i + 1] == '*' then
        if args != [] && args[0].Num?
          then Some(Rest(fmt[i + 2..], sp.(prec := if args[0].n < 0 then -1 else args[0].n), args[1..])) else None
      else
        var n := Digits0(fmt[i + 1..]);
        Some(Rest(fmt[i + 1 + n..], sp.(prec := ValueOf(fmt[i + 1..][..n], 10)), args))
  {
    var s := fmt[i..];
    assert s[1..] == fmt[i + 1..];
    if i + 1 < |fmt| { assert s[1] == fmt[i + 1] && s[2..] == fmt[i + 2..]; }
    var n := Digits0(s[1..]);
    assert s[1..][n..] == fmt[i + 1 + n..];
  }

  /** And a width. */
  lemma {:induction false} WidthIs(fmt: string, i: nat, sp: Spec, args: seq<Arg>)
    requires i < |fmt| && '1' <= fmt[i] <= '9' && fmt[i..][0] == fmt[i]
    ensures var n := Digits0(fmt[i..]);
      && n > 0 && Modifier(fmt[i..], sp, args) == Some(Rest(fmt[i + n..], sp.(width := Width(fmt[i..][..n])), args))
      && Width(fmt[i..][..n]) == ValueOf(fmt[i..][..n], 10)
  {
    var n := Digits0(fmt[i..]);
    assert fmt[i..][n..] == fmt[i + n..];
  }

  /** The directive behind a percent sign: none at the end of the format. */
  method ReadDirective(fmt: string, i0: nat, args0: seq<Arg>, ext: bool)
    returns (done: bool, d: Directive, i: nat, args: seq<Arg>)
    requires i0 <= |fmt| && Scan(fmt[i0..], START, args0, ext).Some?
    ensures i <= |fmt|
    ensures Scan(fmt[i0..], START, args0, ext) == Some(if done then Item.Done else Item(d, fmt[i..], args))
    ensures !done ==> i0 < i && DirectiveOk(d)
  {
    ghost var r := Scan(fmt[i0..], START, args0, ext);
    var sp := START;
    done, d, i, args := false, Count, i0, args0;
    while i < |fmt| && IsModifier(fmt[i])
      invariant i0 <= i && Reading(fmt, i, sp, args, ext, r)
      decreases |fmt| - i
    {
      assert fmt[i..][0] == fmt[i];
      i, sp, args := ReadModifier(fmt, i, sp, args);
    }
    if i == |fmt| { return true, d, i, args; }
    assert fmt[i..][0] == fmt[i];
    d, i, args := ReadEnding(fmt, i, sp, args, ext);
  }

  /** The conversion of kprintf's switch, with its argument. */
  method ReadEnding(fmt: string, i: nat, sp: Spec, args: seq<Arg>, ext: bool)
    returns (d: Directive, i': nat, args': seq<Arg>)
    requires i < |fmt| && Ending(fmt[i..], sp, args, ext).Some?
    ensures i < i' <= |fmt| && Ending(fmt[i..], sp, args, ext) == Some(Item(d, fmt[i'..], args')) && DirectiveOk(d)
  {
    ghost var s := fmt[i..];
    assert s[0] == fmt[i] && s[1..] == fmt[i + 1..];
    if IsUuid(fmt[i..], ext) {
      assert s[3..] == fmt[i + 3..];
      d, i', args' := Str(args[0].text, FlagsOf(sp.(prec := -1))), i + 3, args[1..];
    } else {
      var item := Conversion(fmt[i], sp, args, fmt[i + 1..]).value;
      d, i', args' := item.d, i + 1, item.rest;
    }
  }

  /** kprintf: what is printed is the text of the directives that the format and the arguments make up, and the count is
      its length, whatever fits. */
  method Kprintf(sink: Sink, fmt: string, args0: seq<Arg>, ext: bool) returns (ret: int)
    requires sink.Valid() && sink.out == "" && Parse(fmt, args0, ext).Some?
    modifies sink, sink.buf
    ensures sink.Valid() && sink.out == FullText(Parse(fmt, args0, ext).value) && ret == |sink.out|
    ensures sink.Beyond(old(sink.buf[..]))
  {
    ret := 0;
    var i, args := 0, args0;
    ghost var all, left := Parse(fmt, args0, ext).value, Parse(fmt, args0, ext).value;
    StartsToRead(fmt, args0, ext, all);
    NonePrinted(all);
    if |fmt| == 0 { NothingLeft(fmt, 0, args, ext, left); }
    while i < |fmt|
      invariant IsLeft(fmt, i, args, ext, left) && IsRest(sink.out, left, all) && (i >= |fmt| ==> left == [])
      invariant sink.Valid() && ret == |sink.out| && sink.Beyond(old(sink.buf[..]))
      decreases |fmt| - i
    {
      var done, d;
      done, d, i, args := ReadNext(fmt, i, args, ext, left);
      if done { break; }
      OnePrinted(sink.out, left, d, all);
      var added := PutDirective(sink, d);
      ret := ret + added;
      left := left[1..];
      if i >= |fmt| { NothingLeft(fmt, i, args, ext, left); }
    }
    AllPrinted(sink.out, left, all);
  }

  /** The format from index i on, with the arguments that are left, makes up the directives that are left. */
  ghost predicate IsLeft(fmt: string, i: nat, args: seq<Arg>, ext: bool,
    left: seq<Directive>) { ReadsAs(fmt, i, args, ext, left) == true }

  ghost predicate ReadsAs(fmt: string, i: nat, args: seq<Arg>, ext: bool, left: seq<Directive>) {
    i <= |fmt| && Parse(fmt[i..], args, ext) == Some(left)
  }

  lemma StartsToRead(fmt: string, args: seq<Arg>, ext: bool, all: seq<Directive>)
    requires Parse(fmt, args, ext) == Some(all)
    ensures IsLeft(fmt, 0, args, ext, all)
  {
    assert fmt[0..] == fmt;
  }

  lemma NothingLeft(fmt: string, i: nat, args: seq<Arg>, ext: bool, left: seq<Directive>)
    requires IsLeft(fmt, i, args, ext, left) && i >= |fmt|
    ensures left == []
  {
  }

  /** One character of text, or one directive; done when nothing more is to be printed. */
  method ReadNext(fmt: string, i0: nat, args0: seq<Arg>, ext: bool, ghost left: seq<Directive>)
    returns (done: bool, d: Directive, i: nat, args: seq<Arg>)
    requires i0 < |fmt| && IsLeft(fmt, i0, args0, ext, left)
    ensures done ==> left == []
    ensures !done ==> i0 < i <= |fmt| && left != [] && left[0] == d && IsLeft(fmt, i, args, ext, left[1..])
  {
    ghost var s := fmt[i0..];
    assert s[0] == fmt[i0] && s[1..] == fmt[i0 + 1..];
    done, d, i, args := false, Text(fmt[i0]), i0 + 1, args0;
    if fmt[i0] == '%' {
      done, d, i, args := ReadDirective(fmt, i0 + 1, args0, ext);
    }
  }

  /** What is printed, and the text of the directives left, make up the text of all. */
  ghost predicate IsRest(out: string, left: seq<Directive>, all: seq<Directive>) { RestOf(out, left, all) == true }

  ghost predicate RestOf(out: string, left: seq<Directive>, all: seq<Directive>) {
    AllOk(left) && AllOk(all) && out + FullText(left) == FullText(all)
  }

  lemma NonePrinted(all: seq<Directive>)
    requires AllOk(all)
    ensures IsRest("", all, all)
  {
    Append("", "", FullText(all));
  }

  lemma AllPrinted(out: string, left: seq<Directive>, all: seq<Directive>)
    requires IsRest(out, left, all) && left == []
    ensures AllOk(all) && out == FullText(all)
  {
  }

  lemma OnePrinted(out: string, left: seq<Directive>, d: Directive, all: seq<Directive>)
    requires IsRest(out, left, all) && left != [] && left[0] == d
    ensures DirectiveOk(d) && IsRest(out + Text1(d), left[1..], all)
  {
    Append(out, Text1(d), FullText(left[1..]));
  }

  /** __vsnprintf: the result is the length of the complete output; the buffer holds its longest prefix that fits, and a
      NUL. */
  method Vsnprintf(buf: array<char>, present: bool, size: nat, fmt: string, args: seq<Arg>, ext: bool)
    returns (ret: int)
    requires size <= buf.Length && Parse(fmt, args, ext).Some?
    modifies buf
    ensures ret == |FullText(Parse(fmt, args, ext).value)|
    ensures present && size > 0 ==>
      var n := if ret < size then ret else size - 1;
      buf[..n] == FullText(Parse(fmt, args, ext).value)[..n] && buf[n] == '\0'
    ensures forall i :: (if present then size else 0) <= i < buf.Length ==> buf[i] == old(buf[i])
  {
    var sink := new Sink(buf, present, size);
    ghost var text := FullText(Parse(fmt, args, ext).value);
    ret := Kprintf(sink, fmt, args, ext);
    if present && size > 0 {
      ghost var n := if ret < size then ret else size - 1;
      assert sink.buf[..sink.pos][..n] == buf[..n] && sink.out[..sink.pos][..n] == text[..n];
      if size <= ret {
        buf[size - 1] := '\0';
      } else {
        buf[ret] := '\0';
      }
    }
  }

  lemma Append(a: string, b: string, r: string)
    ensures (a + b) + r == a + (b + r)
  {
  }
}
