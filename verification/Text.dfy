/** Bytes and text: UTF-8, hexadecimal and the decimal numerals used in names and JSON. */
module Text {

  datatype Option<+T> = None | Some(value: T)

  type byte = b: int | 0 <= b < 256
  type Bytes = seq<byte>

  // ---------- UTF-8 ----------

  function Utf8Char(c: char): Bytes {
    var n := c as int;
    if n < 0x80 then [n]
    else if n < 0x800 then [0xC0 + n / 64, 0x80 + n % 64]
    else if n < 0x10000 then [0xE0 + n / 4096, 0x80 + n / 64 % 64, 0x80 + n % 64]
    else [0xF0 + n / 262144, 0x80 + n / 4096 % 64, 0x80 + n / 64 % 64, 0x80 + n % 64]
  }

  function Utf8(s: string): Bytes {
    if s == [] then [] else Utf8Char(s[0]) + Utf8(s[1..])
  }

  /** The number of bytes a lead byte announces. */
  function Utf8Width(lead: byte): nat {
    if lead < 0xC0 then 1 else if lead < 0xE0 then 2 else if lead < 0xF0 then 3 else 4
  }

  lemma {:induction false} Base64Digits(n: nat)
    ensures n == 64 * (n / 64) + n % 64
    ensures n == 4096 * (n / 4096) + 64 * (n / 64 % 64) + n % 64
    ensures n == 262144 * (n / 262144) + 4096 * (n / 4096 % 64) + 64 * (n / 64 % 64) + n % 64
  {
    assert n / 4096 == n / 64 / 64;
    assert n / 262144 == n / 4096 / 64;
  }

  lemma {:induction false} Utf8CharWidth(c: char)
    ensures Utf8Char(c) != [] && |Utf8Char(c)| == Utf8Width(Utf8Char(c)[0])
  {
    var n := c as int;
    if n < 0x80 {
    } else if n < 0x800 {
      assert n / 64 < 32;
    } else if n < 0x10000 {
      assert n / 4096 < 16;
    } else {
    }
  }

  lemma {:induction false} Utf8CharInjective(a: char, b: char)
    requires Utf8Char(a) == Utf8Char(b)
    ensures a == b
  {
    var p, q := Utf8Char(a), Utf8Char(b);
    var m, n := a as int, b as int;
    Base64Digits(m);
    Base64Digits(n);
    if |p| == 1 {
      assert p[0] == q[0];
    } else if |p| == 2 {
      assert p[0] == q[0] && p[1] == q[1];
    } else if |p| == 3 {
      assert p[0] == q[0] && p[1] == q[1] && p[2] == q[2];
    } else {
      assert p[0] == q[0] && p[1] == q[1] && p[2] == q[2] && p[3] == q[3];
    }
  }

  lemma {:induction false} Utf8CharPrefixFree(a: char, b: char, x: Bytes, y: Bytes)
    requires Utf8Char(a) + x == Utf8Char(b) + y
    ensures a == b && x == y
  {
    var p, q := Utf8Char(a), Utf8Char(b);
    Utf8CharWidth(a);
    Utf8CharWidth(b);
    assert p[0] == (p + x)[0] == (q + y)[0] == q[0];
    assert p == (p + x)[..|p|] == (q + y)[..|q|] == q;
    assert x == (p + x)[|p|..] == (q + y)[|q|..] == y;
    Utf8CharInjective(a, b);
  }

  /** Distinct texts have distinct encodings. */
  lemma {:induction false} Utf8Injective(s: string, t: string)
    requires Utf8(s) == Utf8(t)
    ensures s == t
  {
    if s != [] && t != [] {
      Utf8CharPrefixFree(s[0], t[0], Utf8(s[1..]), Utf8(t[1..]));
      Utf8Injective(s[1..], t[1..]);
      assert s == [s[0]] + s[1..] && t == [t[0]] + t[1..];
    }
  }

  // ---------- Hexadecimal ----------

  function HexDigit(n: int): char
    requires 0 <= n < 16
  {
    (if n < 10 then '0' as int + n else 'a' as int + n - 10) as char
  }

  function HexValue(c: char): Option<int> {
    if '0' <= c <= '9' then Some(c as int - '0' as int)
    else if 'a' <= c <= 'f' then Some(c as int - 'a' as int + 10)
    else if 'A' <= c <= 'F' then Some(c as int - 'A' as int + 10)
    else None
  }

  predicate IsLowerHex(c: char) {
    '0' <= c <= '9' || 'a' <= c <= 'f'
  }

  /** 64 lower-case hexadecimal digits, the shape of every SHA-256 digest written as text. */
  predicate IsHash(s: string) {
    |s| == 64 && forall i | 0 <= i < 64 :: IsLowerHex(s[i])
  }

  function Hex(b: Bytes): (s: string)
    ensures |s| == 2 * |b|
    ensures forall i | 0 <= i < |s| :: IsLowerHex(s[i])
  {
    if b == [] then "" else [HexDigit(b[0] / 16), HexDigit(b[0] % 16)] + Hex(b[1..])
  }

  predicate IsAsciiSpace(c: char) {
    c == ' ' || '\t' <= c <= '\r'
  }

  /** bytes.fromhex: pairs of digits of either case, with ASCII white space allowed between pairs. */
  function FromHex(s: string): Option<Bytes> {
    if s == [] then Some([])
    else if IsAsciiSpace(s[0]) then FromHex(s[1..])
    else if |s| < 2 || HexValue(s[0]).None? || HexValue(s[1]).None? then None
    else match FromHex(s[2..])
      case None => None
      case Some(rest) => Some([16 * HexValue(s[0]).value + HexValue(s[1]).value] + rest)
  }

  lemma {:induction false} HexDigitValue(n: int)
    requires 0 <= n < 16
    ensures HexValue(HexDigit(n)) == Some(n) && !IsAsciiSpace(HexDigit(n))
  {
  }

  lemma {:induction false} FromHexStep(x: byte, tail: string, rest: Bytes)
    requires FromHex(tail) == Some(rest)
    ensures FromHex([HexDigit(x / 16), HexDigit(x % 16)] + tail) == Some([x] + rest)
  {
    HexDigitValue(x / 16);
    HexDigitValue(x % 16);
    var s := [HexDigit(x / 16), HexDigit(x % 16)] + tail;
    assert s[0] == HexDigit(x / 16) && s[1] == HexDigit(x % 16) && s[2..] == tail;
  }

  lemma {:induction false} FromHexHex(b: Bytes)
    ensures FromHex(Hex(b)) == Some(b)
  {
    if b != [] {
      FromHexHex(b[1..]);
      FromHexStep(b[0], Hex(b[1..]), b[1..]);
      assert b == [b[0]] + b[1..];
    }
  }

  lemma {:induction false} HexInjective(a: Bytes, b: Bytes)
    requires Hex(a) == Hex(b)
    ensures a == b
  {
    FromHexHex(a);
    FromHexHex(b);
  }

  // ---------- Decimal ----------

  predicate IsDigit(c: char) {
    '0' <= c <= '9'
  }

  function Digit(n: int): char
    requires 0 <= n < 10
  {
    ('0' as int + n) as char
  }

  predicate AllDigits(s: string) {
    forall i | 0 <= i < |s| :: IsDigit(s[i])
  }

  /** The decimal numeral of n, without leading zeros. */
  function Decimal(n: nat): (s: string)
    ensures |s| > 0 && AllDigits(s)
    ensures |s| > 1 ==> s[0] != '0'
    ensures n > 0 ==> s[0] != '0'
  {
    if n < 10 then [Digit(n)] else Decimal(n / 10) + [Digit(n % 10)]
  }

  function DecimalValue(s: string): nat
    requires AllDigits(s)
  {
    if s == [] then 0 else 10 * DecimalValue(s[..|s| - 1]) + (s[|s| - 1] as int - '0' as int)
  }

  lemma {:induction false} DecimalRoundTrip(n: nat)
    ensures DecimalValue(Decimal(n)) == n
  {
    if n < 10 {
      assert Decimal(n)[..0] == [];
    } else {
      DecimalRoundTrip(n / 10);
      var s := Decimal(n);
      assert s[..|s| - 1] == Decimal(n / 10);
    }
  }

  // ---------- Joining ----------

  /** "\n".join(lines) */
  function JoinLines(lines: seq<string>): string {
    if lines == [] then ""
    else if |lines| == 1 then lines[0]
    else lines[0] + "\n" + JoinLines(lines[1..])
  }

  /** The position of the first newline, or the length of the text. */
  function LineEnd(s: string): (k: nat)
    ensures k <= |s|
    ensures '\n' !in s[..k]
    ensures k < |s| ==> s[k] == '\n'
  {
    if s == [] || s[0] == '\n' then 0
    else
      var k := LineEnd(s[1..]);
      assert s[..k + 1] == [s[0]] + s[1..][..k];
      k + 1
  }

  lemma {:induction false} LineEndOf(line: string, rest: string)
    requires '\n' !in line && (rest != [] ==> rest[0] == '\n')
    ensures LineEnd(line + rest) == |line|
  {
    if line == [] {
      assert line + rest == rest;
    } else {
      assert line[0] in line;
      assert (line + rest)[1..] == line[1..] + rest;
      LineEndOf(line[1..], rest);
    }
  }

  /** Joining is injective on non-empty lists of lines that hold no newline. */
  lemma {:induction false} JoinLinesInjective(a: seq<string>, b: seq<string>)
    requires a != [] && b != []
    requires forall l | l in a || l in b :: '\n' !in l
    requires JoinLines(a) == JoinLines(b)
    ensures a == b
  {
    var s := JoinLines(a);
    assert s == a[0] + s[|a[0]|..] && s == b[0] + s[|b[0]|..];
    LineEndOf(a[0], s[|a[0]|..]);
    LineEndOf(b[0], s[|b[0]|..]);
    assert a[0] == b[0];
    if |a| > 1 {
      assert s[|a[0]| + 1..] == JoinLines(a[1..]);
      assert s[|b[0]| + 1..] == JoinLines(b[1..]);
      JoinLinesInjective(a[1..], b[1..]);
      assert a == [a[0]] + a[1..] && b == [b[0]] + b[1..];
    } else {
      assert a == [a[0]] && b == [b[0]];
    }
  }
}
