/** Integer conversions of printf: what is written, that the buffer is large enough, and that
    the output denotes the value. */
module Stdio {
  import opened Common
  import opened Arithmetic

  const BUF_SIZE := 64

  datatype Base = Base(base: nat, digits: string, x: Option<char>, group: nat)

  const BASE_D := Base(10, "0123456789", None, 3)
  const BASE_O := Base(8, "01234567", None, 3)
  const BASE_LOWER_X := Base(16, "0123456789abcdef", Some('x'), 4)
  const BASE_UPPER_X := Base(16, "0123456789ABCDEF", Some('X'), 4)

  predicate IsBase(b: Base) {
    b == BASE_D || b == BASE_O || b == BASE_LOWER_X || b == BASE_UPPER_X
  }

  /** Flags, minimum field width and precision, which is negative when absent. */
  datatype Conversion = Conversion(
    minus: bool, plus: bool, space: bool, pound: bool, zero: bool, grouped: bool,
    width: nat, precision: int)

  // ---------- what is written ----------

  function Repeat(ch: char, n: int): (s: string)
    ensures |s| == if n > 0 then n else 0
    ensures forall i :: 0 <= i < |s| ==> s[i] == ch
  {
    if n <= 0 then "" else seq(n, _ => ch)
  }

  /** The sign character, if any. */
  function Sign(isSigned: bool, negative: bool, c: Conversion): string {
    if !isSigned then ""
    else if c.plus then (if negative then "-" else "+")
    else if c.space then (if negative then "-" else " ")
    else if negative then "-" else ""
  }

  /** The prefix 0x or 0X, if any. */
  function Prefix(value: nat, b: Base, c: Conversion): string {
    if c.pound && value > 0 && b.x.Some? then ['0', b.x.value] else ""
  }

  /** The digits of value, lowest first, with commas between groups; cnt digits came before. */
  function Digits(value: nat, cnt: nat, b: Base, c: Conversion): string
    requires IsBase(b)
  {
    if value == 0 then ""
    else Comma(cnt, b, c) + [b.digits[value % b.base]] + Digits(value / b.base, cnt + 1, b, c)
  }

  function Comma(cnt: nat, b: Base, c: Conversion): string
    requires IsBase(b)
  {
    if c.grouped && cnt > 0 && cnt % b.group == 0 then "," else ""
  }

  /** Zeros up to the precision, as far as the buffer allows. */
  function Extend(digits: string, c: Conversion): string {
    var precision := if c.precision < 0 then 1 else c.precision;
    var limit := if precision < BUF_SIZE - 1 then precision else BUF_SIZE - 1;
    digits + Repeat('0', limit - |digits|)
  }

  /** With the # flag an octal number begins with a zero. */
  function LeadZero(digits: string, b: Base, c: Conversion): string {
    if c.pound && b.base == 8 && (digits == "" || digits[|digits| - 1] != '0') then digits + "0" else digits
  }

  function Reverse(s: string): (r: string)
    ensures |r| == |s|
  {
    if s == "" then "" else Reverse(s[1..]) + [s[0]]
  }

  function Body(value: nat, b: Base, c: Conversion): string
    requires IsBase(b)
  {
    LeadZero(Extend(Digits(value, 0, b, c), c), b, c)
  }

  /** Padding on one side or zeros after the sign, up to the field width. */
  function Layout(sign: string, x: string, body: string, c: Conversion): (s: string)
    ensures |s| >= c.width
  {
    var pad := c.width - |body| - |x| - |sign|;
    (if !c.minus && !c.zero then Repeat(' ', pad) else "") + sign + x +
    (if c.zero then Repeat('0', pad) else "") + Reverse(body) +
    (if c.minus then Repeat(' ', pad) else "")
  }

  function Rendered(value: nat, isSigned: bool, negative: bool, b: Base, c: Conversion): string
    requires IsBase(b)
  {
    Layout(Sign(isSigned, negative, c), Prefix(value, b, c), Body(value, b, c), c)
  }

  // ---------- what it denotes ----------

  function DigitOf(ch: char): Option<nat> {
    if '0' <= ch <= '9' then Some(ch as int - '0' as int)
    else if 'a' <= ch <= 'f' then Some(ch as int - 'a' as int + 10)
    else if 'A' <= ch <= 'F' then Some(ch as int - 'A' as int + 10)
    else None
  }

  /** The number that the digits in s denote, most significant first, all else skipped. */
  function Value(s: string, base: nat): nat {
    if s == "" then 0
    else
      var front, last := s[..|s| - 1], DigitOf(s[|s| - 1]);
      if last.None? then Value(front, base) else Value(front, base) * base + last.value
  }

  /** The signed number that s denotes. */
  function Denoted(s: string, base: nat): int {
    if '-' in s then -(Value(s, base) as int) else Value(s, base)
  }

  /** Nothing but zeros and other characters that count for nothing in front. */
  predicate Worthless(s: string) {
    forall i :: 0 <= i < |s| ==> DigitOf(s[i]) == None || DigitOf(s[i]) == Some(0)
  }

  lemma {:induction false} WorthlessFront(a: string, s: string, base: nat)
    requires Worthless(a)
    ensures Value(a + s, base) == Value(s, base)
  {
    if s == "" {
      assert a + s == a;
      if a != "" {
        assert a[..|a| - 1] + "" == a[..|a| - 1];
        WorthlessFront(a[..|a| - 1], "", base);
      }
    } else {
      assert (a + s)[..|a + s| - 1] == a + s[..|s| - 1];
      WorthlessFront(a, s[..|s| - 1], base);
    }
  }

  lemma {:induction false} DigitlessBack(s: string, z: string, base: nat)
    requires forall i :: 0 <= i < |z| ==> DigitOf(z[i]) == None
    ensures Value(s + z, base) == Value(s, base)
  {
    if z == "" {
      assert s + z == s;
    } else {
      assert (s + z)[..|s + z| - 1] == s + z[..|z| - 1];
      DigitlessBack(s, z[..|z| - 1], base);
    }
  }

  /** One more character, below or beside the others. */
  lemma ValueSnoc(s: string, ch: char, base: nat)
    ensures Value(s + [ch], base) ==
      if DigitOf(ch).None? then Value(s, base) else Value(s, base) * base + DigitOf(ch).value
  {
  }

  lemma BaseDigit(b: Base, d: nat)
    requires IsBase(b) && d < b.base
    ensures |b.digits| == b.base && DigitOf(b.digits[d]) == Some(d)
  {
  }

  lemma ReverseCons(ch: char, s: string)
    ensures Reverse([ch] + s) == Reverse(s) + [ch]
  {
  }

  lemma {:induction false} ReverseAppend(s: string, t: string)
    ensures Reverse(s + t) == Reverse(t) + Reverse(s)
  {
    if s == "" {
      assert s + t == t;
      assert Reverse(t) + "" == Reverse(t);
    } else {
      assert s + t == [s[0]] + (s[1..] + t);
      ReverseCons(s[0], s[1..] + t);
      ReverseAppend(s[1..], t);
    }
  }

  lemma DigitStep(comma: string, ch: char, rest: string, base: nat, d: nat)
    requires comma == "" || comma == ","
    requires DigitOf(ch) == Some(d)
    ensures Value(Reverse(comma + [ch] + rest), base) == Value(Reverse(rest), base) * base + d
  {
  }

  /** The digits denote the value. */
  lemma {:induction false} DigitsDenote(value: nat, cnt: nat, b: Base, c: Conversion)
    requires IsBase(b)
    ensures Value(Reverse(Digits(value, cnt, b, c)), b.base) == value
    decreases value
  {
    if value > 0 {
      var d, rest := value % b.base, Digits(value / b.base, cnt + 1, b, c);
      DigitsDenote(value / b.base, cnt + 1, b, c);
      BaseDigit(b, d);
      DigitStep(Comma(cnt, b, c), b.digits[d], rest, b.base, d);
      assert value / b.base * b.base + d == value;
      hide Value, Reverse, Comma, DigitOf;
    }
  }

  lemma ReverseRepeat(n: int)
    ensures Reverse(Repeat('0', n)) == Repeat('0', n)
    decreases n
  {
    if n > 0 {
      assert Repeat('0', n) == ['0'] + Repeat('0', n - 1);
      ReverseCons('0', Repeat('0', n - 1));
      ReverseRepeat(n - 1);
      assert Repeat('0', n - 1) + ['0'] == Repeat('0', n);
    }
  }

  lemma BodyDenotes(value: nat, b: Base, c: Conversion)
    requires IsBase(b)
    ensures Value(Reverse(Body(value, b, c)), b.base) == value
  {
    var digits := Digits(value, 0, b, c);
    var extended := Extend(digits, c);
    DigitsDenote(value, 0, b, c);
    var zeros := extended[|digits|..];
    assert extended == digits + zeros;
    ReverseAppend(digits, zeros);
    assert zeros == Repeat('0', |zeros|);
    ReverseRepeat(|zeros|);
    WorthlessFront(Reverse(zeros), Reverse(digits), b.base);
    if Body(value, b, c) != extended {
      ReverseAppend(extended, "0");
      assert Reverse("0") == "0" by {
        assert "0"[1..] == "";
      }
      WorthlessFront("0", Reverse(extended), b.base);
    }
  }

  /** No digit, comma or padding is a minus sign. */
  predicate NoMinus(s: string) {
    forall i :: 0 <= i < |s| ==> s[i] != '-'
  }

  lemma {:induction false} ReverseNoMinus(s: string)
    ensures NoMinus(s) ==> NoMinus(Reverse(s))
  {
    if s != "" {
      ReverseNoMinus(s[1..]);
    }
  }

  lemma {:induction false} DigitsNoMinus(value: nat, cnt: nat, b: Base, c: Conversion)
    requires IsBase(b)
    ensures NoMinus(Digits(value, cnt, b, c))
    decreases value
  {
    if value > 0 {
      DigitsNoMinus(value / b.base, cnt + 1, b, c);
      BaseDigit(b, value % b.base);
    }
  }

  /** For every value, base, width, precision and combination of flags: the output denotes
      the value with its sign, and is at least as wide as asked. */
  lemma FormatDenotes(value: nat, isSigned: bool, negative: bool, b: Base, c: Conversion)
    requires IsBase(b)
    ensures Denoted(Rendered(value, isSigned, negative, b, c), b.base) == if isSigned && negative then -(value as int) else value
    ensures |Rendered(value, isSigned, negative, b, c)| >= c.width
  {
    var sign, x := Sign(isSigned, negative, c), Prefix(value, b, c);
    assert Worthless(sign) && Worthless(x) && NoMinus(x) && ('-' in sign <==> isSigned && negative);
    BodyDenotes(value, b, c);
    BodyNoMinus(value, b, c);
    hide Value, Reverse, Digits, Body, Layout, Worthless, NoMinus, Sign, Prefix;
    LayoutDenotes(sign, x, Body(value, b, c), c, b.base);
  }

  lemma LayoutDenotes(sign: string, x: string, body: string, c: Conversion, base: nat)
    requires Worthless(sign) && Worthless(x) && NoMinus(x) && NoMinus(Reverse(body))
    ensures Denoted(Layout(sign, x, body, c), base) ==
      if '-' in sign then -(Value(Reverse(body), base) as int) else Value(Reverse(body), base)
  {
    var pad := c.width - |body| - |x| - |sign|;
    var left := if !c.minus && !c.zero then Repeat(' ', pad) else "";
    var zeros := if c.zero then Repeat('0', pad) else "";
    var right := if c.minus then Repeat(' ', pad) else "";
    hide Value, Reverse, Denoted;
    PartsDenote(left, sign, x, zeros, Reverse(body), right, base);
  }

  lemma PartsDenote(left: string, sign: string, x: string, zeros: string, body: string, right: string, base: nat)
    requires Worthless(left) && Worthless(sign) && Worthless(x) && Worthless(zeros)
    requires forall i :: 0 <= i < |right| ==> DigitOf(right[i]) == None
    requires NoMinus(left) && NoMinus(x) && NoMinus(zeros) && NoMinus(body) && NoMinus(right)
    ensures Denoted(left + sign + x + zeros + body + right, base) ==
      if '-' in sign then -(Value(body, base) as int) else Value(body, base)
  {
    var front := left + sign + x + zeros;
    DigitlessBack(front + body, right, base);
    WorthlessFront(front, body, base);
    MinusIn(left, sign, x, zeros, body, right);
  }

  lemma BodyNoMinus(value: nat, b: Base, c: Conversion)
    requires IsBase(b)
    ensures NoMinus(Reverse(Body(value, b, c)))
  {
    DigitsNoMinus(value, 0, b, c);
    ReverseNoMinus(Body(value, b, c));
  }

  lemma MinusIn(left: string, sign: string, x: string, zeros: string, body: string, right: string)
    requires NoMinus(left) && NoMinus(x) && NoMinus(zeros) && NoMinus(body) && NoMinus(right)
    ensures '-' in left + sign + x + zeros + body + right <==> '-' in sign
  {
  }

  // ---------- the buffer ----------

  /** A value of n base-8 digits at most, each with a comma. */
  lemma {:induction false} DigitsFit(value: nat, cnt: nat, n: nat, b: Base, c: Conversion)
    requires IsBase(b) && value < Pow8(n)
    ensures |Digits(value, cnt, b, c)| <= 2 * n
    ensures !c.grouped ==> |Digits(value, cnt, b, c)| <= n
    decreases n
  {
    if value > 0 {
      assert value / b.base <= value / 8 < Pow8(n - 1);
      DigitsFit(value / b.base, cnt + 1, n - 1, b, c);
    }
  }

  function Pow8(n: nat): nat {
    if n == 0 then 1 else 8 * Pow8(n - 1)
  }

  lemma WordFits()
    ensures Pow8(22) >= W64
  {
    assert Pow8(7) == 0x20_0000;
    assert Pow8(14) == 0x400_0000_0000;
    assert Pow8(21) == 0x8000_0000_0000_0000;
  }

  lemma DigitsFitBuffer(value: U64, b: Base, c: Conversion)
    requires IsBase(b)
    ensures |Digits(value, 0, b, c)| <= 44
  {
    WordFits();
    DigitsFit(value, 0, 22, b, c);
  }

  /** output_dup. */
  method OutputDup(ch: char, cnt: int, out: string) returns (r: string)
    ensures r == out + Repeat(ch, cnt)
  {
    r := out;
    var i := 0;
    while i < cnt
      invariant 0 <= i && (cnt >= 0 ==> i <= cnt) && (cnt < 0 ==> i == 0)
      invariant r == out + Repeat(ch, i)
    {
      assert Repeat(ch, i + 1) == Repeat(ch, i) + [ch];
      r := r + [ch];
      i := i + 1;
    }
  }

  function LowDigit(v: nat, b: Base): char
    requires IsBase(b)
  {
    b.digits[v % b.base]
  }

  function Higher(v: nat, b: Base): nat
    requires IsBase(b)
  {
    v / b.base
  }

  lemma DigitsUnfold(v: nat, cnt: nat, b: Base, c: Conversion)
    requires IsBase(b) && v > 0
    ensures Higher(v, b) < v
    ensures Digits(v, cnt, b, c) == Comma(cnt, b, c) + [LowDigit(v, b)] + Digits(Higher(v, b), cnt + 1, b, c)
  {
  }

  lemma NoDigits(cnt: nat, b: Base, c: Conversion)
    requires IsBase(b)
    ensures Digits(0, cnt, b, c) == ""
  {
  }

  method PutDigit(digit: char, cnt: nat, b: Base, c: Conversion, buf: array<char>, cp0: nat) returns (cp: nat)
    requires IsBase(b) && buf.Length == BUF_SIZE && cp0 + 2 <= BUF_SIZE
    modifies buf
    ensures cp == cp0 + |Comma(cnt, b, c)| + 1 && buf[..cp] == old(buf[..cp0]) + (Comma(cnt, b, c) + [digit])
  {
    cp := cp0;
    if c.grouped && cnt > 0 && cnt % b.group == 0 {
      buf[cp] := ',';
      cp := cp + 1;
    }
    buf[cp] := digit;
    cp := cp + 1;
  }

  /** The digits go into the buffer lowest first. */
  method PutDigits(value: U64, b: Base, c: Conversion, buf: array<char>) returns (cp: nat)
    requires IsBase(b) && buf.Length == BUF_SIZE
    modifies buf
    ensures cp <= 44 && buf[..cp] == Digits(value, 0, b, c)
  {
    hide Digits, Comma, LowDigit, Higher, IsBase;
    DigitsFitBuffer(value, b, c);
    var v: nat := value;
    var digitCnt := 0;
    cp := 0;
    assert buf[..0] + Digits(value, 0, b, c) == Digits(value, 0, b, c);
    while v > 0
      invariant 0 <= cp && cp + |Digits(v, digitCnt, b, c)| <= 44
      invariant buf[..cp] + Digits(v, digitCnt, b, c) == Digits(value, 0, b, c)
      decreases v
    {
      DigitsUnfold(v, digitCnt, b, c);
      ghost var done, rest := buf[..cp], Digits(Higher(v, b), digitCnt + 1, b, c);
      ghost var put := Comma(digitCnt, b, c) + [LowDigit(v, b)];
      cp := PutDigit(LowDigit(v, b), digitCnt, b, c, buf, cp);
      assert done + put + rest == done + (put + rest);
      v := Higher(v, b);
      digitCnt := digitCnt + 1;
    }
    NoDigits(digitCnt, b, c);
    assert buf[..cp] + "" == buf[..cp];
  }

  /** Zeros up to the precision and, for the # flag, one more: never past the buffer. */
  method PutZeros(b: Base, c: Conversion, buf: array<char>, cp0: nat) returns (cp: nat)
    requires buf.Length == BUF_SIZE && cp0 <= 44
    modifies buf
    ensures cp <= BUF_SIZE && buf[..cp] == LeadZero(Extend(old(buf[..cp0]), c), b, c)
  {
    var precision := if c.precision < 0 then 1 else c.precision;
    ghost var digits := buf[..cp0];
    cp := cp0;
    while cp < precision && cp < BUF_SIZE - 1
      invariant cp0 <= cp <= BUF_SIZE - 1 && (cp > cp0 ==> cp <= precision)
      invariant buf[..cp] == digits + Repeat('0', cp - cp0)
      decreases BUF_SIZE - cp
    {
      assert Repeat('0', cp + 1 - cp0) == Repeat('0', cp - cp0) + "0";
      buf[cp] := '0';
      cp := cp + 1;
      assert buf[..cp] == buf[..cp - 1] + "0";
    }
    assert buf[..cp] == Extend(digits, c);
    if c.pound && b.base == 8 && (cp == 0 || buf[cp - 1] != '0') {
      buf[cp] := '0';
      cp := cp + 1;
      assert buf[..cp] == buf[..cp - 1] + "0";
    }
  }

  /** The buffer goes out from its end. */
  method OutputReversed(buf: array<char>, n: nat, out: string) returns (r: string)
    requires n <= buf.Length
    ensures r == out + Reverse(buf[..n])
  {
    r := out;
    var cp := n;
    assert buf[..n] == buf[..n] + buf[n..n];
    while cp > 0
      invariant 0 <= cp <= n
      invariant r == out + Reverse(buf[cp..n])
    {
      cp := cp - 1;
      assert buf[cp..n] == [buf[cp]] + buf[cp + 1..n];
      ReverseCons(buf[cp], buf[cp + 1..n]);
      AppendLast(out, Reverse(buf[cp + 1..n]), buf[cp]);
      r := r + [buf[cp]];
    }
    assert buf[0..n] == buf[..n];
  }

  lemma AppendLast(a: string, b: string, ch: char)
    ensures a + b + [ch] == a + (b + [ch])
  {
  }

  /** The output of format_integer, once the buffer holds the digits. */
  method OutputAll(sign: string, x: string, buf: array<char>, cp: nat, c: Conversion) returns (out: string)
    requires cp <= buf.Length
    ensures out == Layout(sign, x, buf[..cp], c)
  {
    hide Reverse;
    var padCnt := c.width - cp - |x| - |sign|;
    out := "";
    if !c.minus && !c.zero {
      out := OutputDup(' ', padCnt, out);
    }
    assert out == if !c.minus && !c.zero then Repeat(' ', padCnt) else "";
    out := out + sign;
    out := out + x;
    ghost var front := out;
    if c.zero {
      out := OutputDup('0', padCnt, out);
    }
    assert out == front + if c.zero then Repeat('0', padCnt) else "";
    out := OutputReversed(buf, cp, out);
    front := out;
    if c.minus {
      out := OutputDup(' ', padCnt, out);
    }
    assert out == front + if c.minus then Repeat(' ', padCnt) else "";
  }

  /** format_integer. */
  method FormatInteger(value: U64, isSigned: bool, negative: bool, b: Base, c: Conversion) returns (out: string)
    requires IsBase(b)
    ensures out == Rendered(value, isSigned, negative, b, c)
    ensures Denoted(out, b.base) == if isSigned && negative then -(value as int) else value
    ensures |out| >= c.width
  {
    FormatDenotes(value, isSigned, negative, b, c);
    var buf := new char[BUF_SIZE];
    var cp := PutDigits(value, b, c, buf);
    cp := PutZeros(b, c, buf, cp);
    assert buf[..cp] == Body(value, b, c);
    hide Denoted, Body, Layout;
    out := OutputAll(Sign(isSigned, negative, c), Prefix(value, b, c), buf, cp, c);
  }

  // ---------- output into a buffer of limited size ----------

  /** The auxiliary data of vsnprintf_helper: a buffer, what is in it, and the length of all
      output so far. */
  class Sink {
    const buffer: array<char>
    var p: nat
    var length: nat
    const maxLength: nat

    ghost predicate Valid(output: string)
      reads this, buffer
    {
      && maxLength == (if buffer.Length > 0 then buffer.Length - 1 else 0)
      && length == |output| && p == (if length < maxLength then length else maxLength)
      && p <= buffer.Length && buffer[..p] == output[..p]
    }

    constructor (buffer: array<char>)
      ensures Valid("") && this.buffer == buffer
    {
      this.buffer := buffer;
      this.p := 0;
      this.length := 0;
      this.maxLength := if buffer.Length > 0 then buffer.Length - 1 else 0;
    }

    /** vsnprintf_helper. */
    method Put(ch: char, ghost output: string)
      requires Valid(output)
      modifies this`p, this`length, buffer
      ensures Valid(output + [ch])
    {
      length := length + 1;
      if length - 1 < maxLength {
        buffer[p] := ch;
        p := p + 1;
        assert buffer[..p] == output[..p - 1] + [ch];
      }
    }

    /** vsnprintf of this output: as much of it as fits before the null character, and the
        length of all of it. */
    method PutAll(output: string) returns (r: nat)
      requires Valid("")
      modifies this`p, this`length, buffer
      ensures r == |output|
      ensures buffer.Length > 0 ==>
        var n := if |output| < buffer.Length then |output| else buffer.Length - 1;
        buffer[..n] == output[..n] && buffer[n] == '\0'
    {
      var i := 0;
      while i < |output|
        invariant 0 <= i <= |output| && Valid(output[..i])
      {
        assert output[..i + 1] == output[..i] + [output[i]];
        Put(output[i], output[..i]);
        i := i + 1;
      }
      assert output[..i] == output;
      if buffer.Length > 0 {
        ghost var n := p;
        assert buffer[..n] == output[..n];
        buffer[p] := '\0';
        assert buffer[..n] == output[..n];
      }
      return length;
    }
  }

  // ---------- zero-padded octal numbers ----------

  /** What %0No prints. */
  function Octal(value: nat, width: nat): string {
    Rendered(value, false, false, BASE_O, Conversion(false, false, false, false, true, false, width, -1))
  }

  predicate IsOctal(ch: char) { '0' <= ch <= '7' }

  predicate AllOctal(s: string) {
    forall i :: 0 <= i < |s| ==> IsOctal(s[i])
  }

  lemma {:induction false} OctalDigits(value: nat, cnt: nat, c: Conversion)
    requires !c.grouped
    ensures AllOctal(Digits(value, cnt, BASE_O, c))
    decreases value
  {
    if value > 0 {
      OctalDigits(value / 8, cnt + 1, c);
    }
  }

  lemma {:induction false} ReverseOctal(s: string)
    requires AllOctal(s)
    ensures AllOctal(Reverse(s))
  {
    if s != "" {
      ReverseOctal(s[1..]);
    }
  }

  lemma OctalBody(value: nat, width: nat, c: Conversion)
    requires width >= 1 && value < Pow8(width) && !c.grouped && !c.pound && c.precision == -1
    ensures |Body(value, BASE_O, c)| <= width && AllOctal(Body(value, BASE_O, c))
  {
    DigitsFit(value, 0, width, BASE_O, c);
    OctalDigits(value, 0, c);
  }

  lemma OctalLayout(body: string, width: nat, c: Conversion)
    requires |body| <= width == c.width && AllOctal(Reverse(body)) && !c.minus && c.zero
    ensures |Layout("", "", body, c)| == width && AllOctal(Layout("", "", body, c))
  {
  }

  /** A number that fits fills the width with octal digits that denote it. */
  lemma OctalFills(value: nat, width: nat)
    requires width >= 1 && value < Pow8(width)
    ensures |Octal(value, width)| == width && AllOctal(Octal(value, width)) && Value(Octal(value, width), 8) == value
  {
    var c := Conversion(false, false, false, false, true, false, width, -1);
    FormatDenotes(value, false, false, BASE_O, c);
    OctalBody(value, width, c);
    hide Body, Value, Denoted, Layout;
    ReverseOctal(Body(value, BASE_O, c));
    OctalLayout(Body(value, BASE_O, c), width, c);
    OctalUnsigned(Octal(value, width));
  }

  lemma OctalUnsigned(s: string)
    requires AllOctal(s)
    ensures Denoted(s, 8) == Value(s, 8)
  {
  }
}
