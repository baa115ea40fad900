/** JSON texts in plain terms: how words, characters and numbers are written, and which texts are read (RFC 8259). */
module JsonText {
  import opened Text
  import opened Json
  import opened JsonProofs
  import opened JsonForm

  // ---------- What is written ----------

  lemma {:induction false} PrintedWords(st: Style)
    ensures Print(st, Null) == "null" && Print(st, Bool(true)) == "true" && Print(st, Bool(false)) == "false"
    ensures Print(st, Arr([])) == "[]" && Print(st, Obj([])) == "{}"
  {
  }

  function Texts(st: Style, items: seq<Value>): (parts: seq<string>)
    ensures |parts| == |items| && forall i | 0 <= i < |parts| :: parts[i] == Print(st, items[i])
  {
    seq(|items|, i requires 0 <= i < |items| => Print(st, items[i]))
  }

  lemma {:induction false} JoinedItems(st: Style, items: seq<Value>)
    ensures PrintItems(st, items) == Joined(st.comma, Texts(st, items))
  {
    var parts := Texts(st, items);
    if |items| > 1 {
      JoinedItems(st, items[1..]);
      assert parts[1..] == Texts(st, items[1..]);
    }
  }

  /** Items between brackets and entries between braces, in their order, with one comma between neighbours. */
  lemma {:induction false} PrintedContainers(st: Style, items: seq<Value>, fields: seq<Field>)
    ensures Print(st, Arr(items)) == "[" + Joined(st.comma, Texts(st, items)) + "]"
    ensures Print(st, Obj(fields)) == "{" + Joined(st.comma, Members(st, fields)) + "}"
  {
    JoinedItems(st, items);
    PrintedObject(st, fields);
  }

  const ESCAPED := "\"\\/\U{08}\U{0C}\n\r\t"

  const LETTERS := "\"\\/bfnrt"

  function Digits4(n: Unit16): string {
    ["0123456789abcdef"[n / 4096], "0123456789abcdef"[n / 256 % 16], "0123456789abcdef"[n / 16 % 16], "0123456789abcdef"[n % 16]]
  }

  lemma {:induction false} HexDigitIs(n: int)
    requires 0 <= n < 16
    ensures HexDigit(n) == "0123456789abcdef"[n]
  {
  }

  lemma {:induction false} UnicodeEscapeIs(n: Unit16)
    ensures UnicodeEscape(n) == "\\u" + Digits4(n)
  {
    assert HEX4(n) == FourDigits(n);
    HexDigitIs(n / 4096);
    HexDigitIs(n / 256 % 16);
    HexDigitIs(n / 16 % 16);
    HexDigitIs(n % 16);
  }

  lemma {:induction false} OneChar(ascii: bool, c: char)
    ensures EscapeAll(ascii, [c]) == EscapeChar(ascii, c)
  {
    assert EscapeAll(ascii, [c]) == EscapeChar(ascii, c) + EscapeAll(ascii, []);
  }

  /** A character that has a letter of its own, all but the slash, is written as that after a backslash. */
  lemma {:induction false} LetterWritten(ascii: bool, k: nat)
    requires k < 8 && k != 2
    ensures EscapeAll(ascii, [ESCAPED[k]]) == ['\\', LETTERS[k]]
  {
    OneChar(ascii, ESCAPED[k]);
  }

  /** Of the others, control characters are written with four digits, and so is, with ensure_ascii, all that is not
      printable ASCII. */
  lemma {:induction false} CharacterWritten(ascii: bool, c: char)
    requires c == '/' || c !in ESCAPED
    ensures
      var n, t := c as int, EscapeAll(ascii, [c]);
      && (n < 0x20 || (ascii && 0x7E < n < 0x10000) ==> t == "\\u" + Digits4(n))
      && (0x20 <= n <= 0x7E || (!ascii && n > 0x7E) ==> t == [c])
  {
    OneChar(ascii, c);
    if (c as int) < 0x10000 {
      UnicodeEscapeIs(c as int);
    }
  }

  /** Beyond the first plane as a surrogate pair, the high half first. */
  lemma {:induction false} PairWritten(c: char, high: Unit16, low: Unit16)
    requires 0xD800 <= high < 0xDC00 <= low < 0xE000
    requires c as int == 0x10000 + 0x400 * (high - 0xD800) + (low - 0xDC00)
    ensures EscapeAll(true, [c]) == "\\u" + Digits4(high) + "\\u" + Digits4(low)
  {
    var h, l := PairOf(c);
    OneChar(true, c);
    UnicodeEscapeIs(high);
    UnicodeEscapeIs(low);
    assert UnicodeEscape(high) + UnicodeEscape(low) == "\\u" + Digits4(high) + "\\u" + Digits4(low);
  }

  lemma {:induction false} EscapeAllConcat(ascii: bool, s: string, t: string)
    ensures EscapeAll(ascii, s + t) == EscapeAll(ascii, s) + EscapeAll(ascii, t)
  {
    if s == [] {
      assert s + t == t;
    } else {
      assert (s + t)[1..] == s[1..] + t;
      EscapeAllConcat(ascii, s[1..], t);
    }
  }

  // ---------- What is read ----------

  predicate IsBlankText(s: string) {
    forall i | 0 <= i < |s| :: s[i] in " \t\n\r"
  }

  lemma {:induction false} SkipBlank(ws: string, s: string)
    requires IsBlankText(ws)
    ensures SkipSpace(ws + s) == SkipSpace(s)
  {
    if ws == [] {
      assert ws + s == s;
    } else {
      assert (ws + s)[0] == ws[0] && (ws + s)[1..] == ws[1..] + s;
      SkipBlank(ws[1..], s);
    }
  }

  /** Spaces, tabs, newlines and carriage returns may stand before a text and after a written one. */
  lemma {:induction false} BlanksAround(st: Style, v: Value, before: string, text: string, after: string, strict: bool)
    requires StyleOk(st) && WellFormed(v) && IsBlankText(before) && IsBlankText(after)
    ensures Loads(strict, before + text) == Loads(strict, text)
    ensures Loads(strict, Print(st, v) + after) == Some(v)
  {
    SkipBlank(before, text);
    ReadPrint(st, v, after, strict);
    PrintStart(st, v);
    assert (Print(st, v) + after)[0] == Print(st, v)[0];
    SkipNothing(Print(st, v) + after);
    SkipBlank(after, "");
    assert after + "" == after;
  }

  /** No text starts with anything else than white space, a quote, a bracket, a digit, a minus sign or the first letter
      of one of the five words. */
  lemma {:induction false} StartRefused(strict: bool, text: string)
    requires text != [] && text[0] !in " \t\n\r\"[{-0123456789ntfNI"
    ensures Loads(strict, text) == None
  {
    SkipNothing(text);
    NoNumber(text);
    NotAWord(text, "null");
    NotAWord(text, "true");
    NotAWord(text, "false");
    NotAWord(text, "NaN");
    NotAWord(text, "Infinity");
    NotAWord(text, "-Infinity");
  }

  /** The eight letters that may follow a backslash, and what they stand for. */
  lemma {:induction false} LetterRead(strict: bool, k: nat)
    requires k < 8
    ensures Loads(strict, ['"', '\\', LETTERS[k], '"']) == Some(Str([ESCAPED[k]]))
  {
    var s := ['"', '\\', LETTERS[k], '"'];
    assert s[1..] == ['\\', LETTERS[k], '"'] && s[1..][1..] == [LETTERS[k], '"'] && s[1..][1..][1..] == "\"";
    assert ReadString("\"") == Got("", "");
    assert ReadEscape([LETTERS[k], '"']) == Got(ESCAPED[k], "\"");
    assert [ESCAPED[k]] + "" == [ESCAPED[k]];
    assert ReadString(s[1..]) == Got([ESCAPED[k]], "");
    SkipNothing(s);
    assert SkipSpace("") == "";
  }

  /** A control character may not stand in a string as it is. */
  lemma {:induction false} ControlRefused(strict: bool, ascii: bool, s: string, c: char, rest: string)
    requires (c as int) < 0x20
    ensures Loads(strict, "\"" + (EscapeAll(ascii, s) + ([c] + rest))) == None
  {
    var text := "\"" + (EscapeAll(ascii, s) + ([c] + rest));
    assert text[1..] == EscapeAll(ascii, s) + ([c] + rest);
    ControlFails(ascii, s, c, rest);
    SkipNothing(text);
  }

  lemma {:induction false} ControlFails(ascii: bool, s: string, c: char, rest: string)
    requires (c as int) < 0x20
    ensures ReadString(EscapeAll(ascii, s) + ([c] + rest)) == Fail
  {
    if s == [] {
      assert EscapeAll(ascii, s) + ([c] + rest) == [c] + rest;
    } else {
      var e, tail := EscapeChar(ascii, s[0]), EscapeAll(ascii, s[1..]) + ([c] + rest);
      ControlFails(ascii, s[1..], c, rest);
      EscapeCharReads(ascii, s[0], tail);
      assert EscapeAll(ascii, s) + ([c] + rest) == e + tail;
      FailsBehind(e, s[0], tail);
    }
  }

  lemma {:induction false} FailsBehind(e: string, c: char, tail: string)
    requires Writes(e, c, tail) && ReadString(tail) == Fail
    ensures ReadString(e + tail) == Fail
  {
    var s := e + tail;
    assert s[0] == e[0] && s[1..] == e[1..] + tail;
    if e[0] != '\\' {
      assert s[1..] == tail;
    }
  }

  lemma {:induction false} DecimalOfValue(t: string)
    requires t != [] && AllDigits(t) && (t[0] == '0' ==> |t| == 1)
    ensures Decimal(DecimalValue(t)) == t && (t[0] != '0' ==> DecimalValue(t) > 0)
  {
    var front, last := t[..|t| - 1], t[|t| - 1];
    assert IsDigit(last);
    if |t| == 1 {
      assert front == [] && DecimalValue(t) == last as int - '0' as int;
    } else {
      assert front[0] == t[0];
      DecimalOfValue(front);
      assert DecimalValue(t) / 10 == DecimalValue(front) && DecimalValue(t) % 10 == last as int - '0' as int;
      assert t == front + [last];
    }
  }

  /** An integer is read from its own numeral and from nothing else, except that zero may carry a minus sign: so there
      are no leading zeros and no plus sign. */
  lemma {:induction false} IntegersRead(strict: bool, s: string, i: int, rest: string)
    requires ReadValue(strict, s) == Got(Int(i), rest)
    ensures s == PrintInt(i) + rest || (i == 0 && s == "-0" + rest)
  {
    IntegerIsAtom(strict, s, i, rest);
    AtomIsNumber(s, i, rest);
    var n := IntegerAt(s, i, rest);
    NumeralOf(s[..n]);
    ZeroWithSign();
  }

  lemma {:induction false} ZeroWithSign()
    ensures IntValue("-0") == 0
  {
    assert "-0"[1..] == "0" && "0"[..0] == "" && DecimalValue("0") == 0;
  }

  lemma {:induction false} IntegerIsAtom(strict: bool, s: string, i: int, rest: string)
    requires ReadValue(strict, s) == Got(Int(i), rest)
    ensures ReadAtom(s) == Got(Int(i), rest)
  {
  }

  lemma {:induction false} AtomIsNumber(s: string, i: int, rest: string)
    requires ReadAtom(s) == Got(Int(i), rest)
    ensures ReadNumber(s) == Got(Int(i), rest)
  {
  }

  lemma {:induction false} IntegerAt(s: string, i: int, rest: string) returns (n: nat)
    requires ReadNumber(s) == Got(Int(i), rest)
    ensures n <= |s| && s == s[..n] + rest && IntLength(s[..n]) == n > 0 && i == IntValue(s[..n])
  {
    n := IntLength(s);
    IntLengthTake(s, n);
  }

  lemma {:induction false} NumeralOf(t: string)
    requires IntLength(t) == |t| > 0
    ensures t == PrintInt(IntValue(t)) || t == "-0"
  {
    var p := if t[0] == '-' then 1 else 0;
    var d := t[p..];
    if t[p] != '0' {
      assert DigitRun(d) == |d| && d[..|d|] == d;
    } else {
      assert d == "0";
    }
    assert AllDigits(d) && d != [] && (d[0] == '0' ==> |d| == 1);
    DecimalOfValue(d);
    if p == 1 {
      assert t == "-" + d;
    } else {
      assert t == d;
    }
  }

  /** Section 6 of RFC 8259: an integer, a fraction and an exponent. */
  ghost predicate IsNumeral(t: string) {
    t == "-0" || exists n :: t == PrintInt(n)
  }

  predicate IsFraction(t: string) {
    t == "" || (|t| > 1 && t[0] == '.' && AllDigits(t[1..]))
  }

  predicate IsExponent(t: string) {
    || t == ""
    || (|t| > 1 && t[0] in "eE" && AllDigits(t[1..]))
    || (|t| > 2 && t[0] in "eE" && t[1] in "+-" && AllDigits(t[2..]))
  }

  ghost predicate Parts(t: string, i: string, f: string, e: string) {
    t == i + f + e && IsNumeral(i) && IsFraction(f) && IsExponent(e)
  }

  lemma {:induction false} DigitsThen(d: string, rest: string)
    requires AllDigits(d) && (rest != [] ==> !IsDigit(rest[0]))
    ensures DigitRun(d + rest) == |d|
  {
    if d == [] {
      assert d + rest == rest;
    } else {
      assert (d + rest)[0] == d[0] && (d + rest)[1..] == d[1..] + rest;
      DigitsThen(d[1..], rest);
    }
  }

  lemma {:induction false} IntegerThen(i: string, rest: string)
    requires IsNumeral(i) && (rest != [] ==> !IsDigit(rest[0]))
    ensures IntLength(i + rest) == |i| > 0
  {
    if i == "-0" {
      assert (i + rest)[0] == '-' && (i + rest)[1] == '0';
    } else {
      var n :| i == PrintInt(n);
      var p := if n < 0 then 1 else 0;
      var d := Decimal(if n < 0 then -n else n);
      assert i[p..] == d && (i + rest)[p..] == d + rest && (i + rest)[p] == d[0] && (i + rest)[0] == i[0];
      DigitsThen(d, rest);
    }
  }

  lemma {:induction false} FractionThen(f: string, e: string)
    requires IsFraction(f) && IsExponent(e)
    ensures FracLength(f + e) == |f| && ExpLength(e) == |e| && (f + e != [] ==> !IsDigit((f + e)[0]))
  {
    if f == "" {
      assert f + e == e;
    } else {
      assert (f + e)[0] == '.' && (f + e)[1..] == f[1..] + e;
      DigitsThen(f[1..], e);
    }
    if e != "" {
      ExponentRead(e);
    }
  }

  lemma {:induction false} ExponentRead(e: string)
    requires IsExponent(e) && e != ""
    ensures ExpLength(e) == |e| && !IsDigit(e[0])
  {
    var p := if e[1] == '+' || e[1] == '-' then 2 else 1;
    if p == 1 {
      DigitRunAll(e[1..]);
    } else {
      assert !IsDigit(e[1]) && e[1..][0] == e[1];
      DigitRunAll(e[2..]);
    }
  }

  lemma {:induction false} PartsRead(t: string, i: string, f: string, e: string)
    requires Parts(t, i, f, e)
    ensures NumberLength(t) == (|t|, f != "" || e != "")
  {
    assert t == i + (f + e) && t[|i|..] == f + e && t[|i| + |f|..] == e;
    FractionThen(f, e);
    IntegerThen(i, f + e);
    NumberFromParts(t, |i|, |f|, |e|);
  }

  lemma {:induction false} FractionOf(s: string)
    ensures IsFraction(s[..FracLength(s)])
  {
    var n := FracLength(s);
    if n > 0 {
      assert s[..n][1..] == s[1..][..n - 1];
    }
  }

  lemma {:induction false} ExponentOf(s: string)
    ensures IsExponent(s[..ExpLength(s)])
  {
    var n := ExpLength(s);
    if n > 0 {
      var p := if |s| > 1 && (s[1] == '+' || s[1] == '-') then 2 else 1;
      assert s[..n][p..] == s[p..][..n - p];
    }
  }

  lemma {:induction false} IntegerOf(s: string)
    requires IntLength(s) > 0
    ensures IsNumeral(s[..IntLength(s)])
  {
    IntLengthTake(s, IntLength(s));
    NumeralOf(s[..IntLength(s)]);
  }

  lemma {:induction false} FloatLengths(t: string) returns (a: nat, b: nat)
    requires IsFloatToken(t)
    ensures 0 < a == IntLength(t) && a + b <= |t| && b == FracLength(t[a..]) && ExpLength(t[a + b..]) == |t| - a - b
    ensures a < |t|
  {
    a := IntLength(t);
    b := FracLength(t[a..]);
  }

  lemma {:induction false} PartsOf(t: string) returns (i: string, f: string, e: string)
    requires IsFloatToken(t)
    ensures Parts(t, i, f, e) && (f != "" || e != "")
  {
    var a, b := FloatLengths(t);
    i, f, e := t[..a], t[a..][..b], t[a + b..];
    IntegerOf(t);
    FractionOf(t[a..]);
    ExponentOf(e);
    InParts(t, a, b);
  }

  lemma {:induction false} InParts(t: string, a: nat, b: nat)
    requires a + b <= |t|
    ensures t == t[..a] + t[a..][..b] + t[a + b..] && t[a + b..][..|t| - a - b] == t[a + b..]
  {
  }

  /** A number is kept as a float exactly if it is an integer with a fraction, an exponent or both after it. */
  lemma {:induction false} FloatsExactly(t: string)
    ensures IsFloatToken(t) <==> exists i, f, e :: Parts(t, i, f, e) && (f != "" || e != "")
  {
    if IsFloatToken(t) {
      var i, f, e := PartsOf(t);
    }
    if i, f, e :| Parts(t, i, f, e) && (f != "" || e != "") {
      PartsRead(t, i, f, e);
    }
  }

  // ---------- What is refused by allow_nan=False ----------

  /** w is v or stands somewhere inside it. */
  predicate Inside(w: Value, v: Value)
    decreases v
  {
    || w == v
    || match v
       case Arr(items) => exists i | 0 <= i < |items| :: Inside(w, items[i])
       case Obj(fields) => exists i | 0 <= i < |fields| :: Inside(w, fields[i].value)
       case _ => false
  }

  /** A value is finite exactly when no NaN and no infinity stands anywhere inside it. */
  lemma {:induction false} FiniteExactly(v: Value)
    ensures Finite(v) <==> forall t :: !Inside(NonFinite(t), v)
    decreases v
  {
    match v
    case NonFinite(t) => assert Inside(NonFinite(t), v);
    case Arr(items) =>
      forall i | 0 <= i < |items| ensures Finite(items[i]) <==> forall t :: !Inside(NonFinite(t), items[i]) {
        FiniteExactly(items[i]);
      }
      if t, i :| 0 <= i < |items| && Inside(NonFinite(t), items[i]) {
        assert Inside(NonFinite(t), v);
      }
    case Obj(fields) =>
      forall i | 0 <= i < |fields| ensures Finite(fields[i].value) <==> forall t :: !Inside(NonFinite(t), fields[i].value) {
        FiniteExactly(fields[i].value);
      }
      if t, i :| 0 <= i < |fields| && Inside(NonFinite(t), fields[i].value) {
        assert Inside(NonFinite(t), v);
      }
    case _ =>
  }
}
