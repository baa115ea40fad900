/** Reading undoes writing, and the canonical form identifies values. */
module JsonProofs {
  import opened Text
  import opened Json

  // ---------- String literals ----------

  lemma {:induction false} ReadHex4Hex4(n: int, rest: string)
    requires 0 <= n < 0x10000
    ensures ReadHex4(HEX4(n) + rest) == Some(n) && |HEX4(n)| == 4
  {
    assert HEX4(n) == FourDigits(n);
    HexDigitValue(n / 4096);
    HexDigitValue(n / 256 % 16);
    HexDigitValue(n / 16 % 16);
    HexDigitValue(n % 16);
    Base16Digits(n);
  }

  lemma {:induction false} Base16Digits(n: nat)
    ensures n == 4096 * (n / 4096) + 256 * (n / 256 % 16) + 16 * (n / 16 % 16) + n % 16
  {
    assert n / 256 == n / 16 / 16 && n / 4096 == n / 256 / 16;
  }

  lemma {:induction false} ReadUnicodeShort(n: int, rest: string)
    requires 0 <= n < 0xD800 || 0xE000 <= n < 0x10000
    ensures ReadUnicode(HEX4(n) + rest) == Got(n as char, rest)
  {
    ReadHex4Hex4(n, rest);
    assert (HEX4(n) + rest)[4..] == rest;
  }

  lemma {:induction false} ReadUnicodePair(high: int, low: int, rest: string)
    requires 0xD800 <= high < 0xDC00 <= low < 0xE000
    ensures ReadUnicode(HEX4(high) + (UnicodeEscape(low) + rest))
         == Got((0x10000 + 0x400 * (high - 0xD800) + (low - 0xDC00)) as char, rest)
  {
    ReadHex4Hex4(high, UnicodeEscape(low) + rest);
    ReadHex4Hex4(low, rest);
    EscapeParts(HEX4(high), HEX4(low), rest);
    ReadPairText(HEX4(high) + (UnicodeEscape(low) + rest), high, low);
  }

  lemma {:induction false} ReadPairText(s: string, high: int, low: int)
    requires |s| >= 10 && s[4] == '\\' && s[5] == 'u'
    requires ReadHex4(s) == Some(high) && ReadHex4(s[6..]) == Some(low)
    requires 0xD800 <= high < 0xDC00 <= low < 0xE000
    ensures ReadUnicode(s) == Got((0x10000 + 0x400 * (high - 0xD800) + (low - 0xDC00)) as char, s[10..])
  {
  }

  lemma {:induction false} EscapeParts(high: string, low: string, rest: string)
    requires |high| == |low| == 4
    ensures var s := high + ("\\u" + low + rest);
      s[4] == '\\' && s[5] == 'u' && s[6..] == low + rest && s[10..] == rest
  {
  }

  lemma {:induction false} ReadEscapeLetter(c: char, rest: string)
    requires EscapeLetter(c).Some?
    ensures ReadEscape([EscapeLetter(c).value] + rest) == Got(c, rest)
  {
    assert ([EscapeLetter(c).value] + rest)[1..] == rest;
  }

  lemma {:induction false} ReadEscapeUnicode(digits: string, rest: string)
    ensures ReadEscape("u" + digits + rest) == ReadUnicode(digits + rest)
  {
    assert ("u" + digits + rest)[1..] == digits + rest;
  }

  /** `e` writes c: either c itself, or a backslash and an escape that reads back. */
  predicate Writes(e: string, c: char, rest: string) {
    && e != []
    && if e[0] == '\\' then ReadEscape(e[1..] + rest) == Got(c, rest) else e == [c] && c != '"' && (c as int) >= 0x20
  }

  lemma {:induction false} EscapeCharReads(ascii: bool, c: char, rest: string)
    ensures Writes(EscapeChar(ascii, c), c, rest)
  {
    var n := c as int;
    if EscapeLetter(c).Some? {
      EscapeLetterReads(c, rest);
    } else if n >= 0x20 && (!ascii || n <= 0x7E) {
      PlainCharReads(ascii, c, rest);
    } else if n < 0x10000 {
      ShortEscapeReads(ascii, c, rest);
    } else {
      PairEscapeReads(ascii, c, rest);
    }
  }

  lemma {:induction false} PlainCharReads(ascii: bool, c: char, rest: string)
    requires EscapeLetter(c).None? && (c as int) >= 0x20 && (!ascii || (c as int) <= 0x7E)
    ensures Writes(EscapeChar(ascii, c), c, rest)
  {
  }

  lemma {:induction false} ShortEscapeReads(ascii: bool, c: char, rest: string)
    requires EscapeLetter(c).None? && (c as int) < 0x10000 && ((c as int) < 0x20 || (ascii && (c as int) > 0x7E))
    ensures Writes(EscapeChar(ascii, c), c, rest)
  {
    ReadEscapeShort(c as int, rest);
    assert EscapeChar(ascii, c) == UnicodeEscape(c as int);
  }

  lemma {:induction false} PairOf(c: char) returns (high: int, low: int)
    requires (c as int) >= 0x10000
    ensures 0xD800 <= high < 0xDC00 <= low < 0xE000
    ensures c as int == 0x10000 + 0x400 * (high - 0xD800) + (low - 0xDC00)
    ensures high == 0xD800 + (c as int - 0x10000) / 0x400 && low == 0xDC00 + (c as int - 0x10000) % 0x400
  {
    var n := c as int - 0x10000;
    high, low := 0xD800 + n / 0x400, 0xDC00 + n % 0x400;
  }

  lemma {:induction false} PairEscapeReads(ascii: bool, c: char, rest: string)
    requires EscapeLetter(c).None? && (c as int) >= 0x10000 && ascii
    ensures Writes(EscapeChar(ascii, c), c, rest)
  {
    var high, low := PairOf(c);
    ReadEscapePair(high, low, rest);
  }

  lemma {:induction false} EscapeLetterReads(c: char, rest: string)
    requires EscapeLetter(c).Some?
    ensures Writes(['\\', EscapeLetter(c).value], c, rest)
  {
    assert ['\\', EscapeLetter(c).value][1..] == [EscapeLetter(c).value];
    ReadEscapeLetter(c, rest);
  }

  lemma {:induction false} ReadEscapeShort(n: int, rest: string)
    requires 0 <= n < 0xD800 || 0xE000 <= n < 0x10000
    ensures Writes(UnicodeEscape(n), n as char, rest)
  {
    assert UnicodeEscape(n)[1..] == "u" + HEX4(n);
    ReadEscapeUnicode(HEX4(n), rest);
    ReadUnicodeShort(n, rest);
  }

  lemma {:induction false} ReadEscapePair(high: int, low: int, rest: string)
    requires 0xD800 <= high < 0xDC00 <= low < 0xE000
    ensures Writes(UnicodeEscape(high) + UnicodeEscape(low),
                   (0x10000 + 0x400 * (high - 0xD800) + (low - 0xDC00)) as char, rest)
  {
    TwoEscapes(HEX4(high), UnicodeEscape(low), rest);
    ReadEscapeUnicode(HEX4(high), UnicodeEscape(low) + rest);
    ReadUnicodePair(high, low, rest);
  }

  lemma {:induction false} TwoEscapes(digits: string, second: string, rest: string)
    ensures ("\\u" + digits + second)[0] == '\\'
    ensures ("\\u" + digits + second)[1..] + rest == "u" + digits + (second + rest)
  {
  }

  lemma {:induction false} ReadStringStep(ascii: bool, c: char, tail: string, text: string, rest: string)
    requires ReadString(tail) == Got(text, rest)
    ensures ReadString(EscapeChar(ascii, c) + tail) == Got([c] + text, rest)
  {
    var e := EscapeChar(ascii, c);
    var s := e + tail;
    EscapeCharReads(ascii, c, tail);
    assert s[0] == e[0] && s[1..] == e[1..] + tail;
    if e[0] != '\\' {
      assert s[1..] == tail;
    }
  }

  lemma {:induction false} ReadStringQuoted(ascii: bool, s: string, rest: string)
    ensures ReadString(EscapeAll(ascii, s) + "\"" + rest) == Got(s, rest)
  {
    var text := EscapeAll(ascii, s) + "\"" + rest;
    if s == [] {
      assert text == "\"" + rest && text[1..] == rest;
    } else {
      var tail := EscapeAll(ascii, s[1..]) + "\"" + rest;
      assert text == EscapeChar(ascii, s[0]) + tail;
      ReadStringQuoted(ascii, s[1..], rest);
      ReadStringStep(ascii, s[0], tail, s[1..], rest);
      assert s == [s[0]] + s[1..];
    }
  }

  // ---------- Numbers ----------

  /** What may follow a value in the texts that are written. */
  predicate Delimits(rest: string) {
    rest == [] || rest[0] == ',' || rest[0] == ']' || rest[0] == '}' || IsSpace(rest[0])
  }

  lemma {:induction false} DigitRunStops(s: string, k: nat)
    requires k <= |s| && (k < |s| ==> !IsDigit(s[k]))
    ensures DigitRun(s) <= k
  {
    if k > 0 && IsDigit(s[0]) {
      DigitRunStops(s[1..], k - 1);
    }
  }

  lemma {:induction false} DigitRunAppend(t: string, p: nat, rest: string)
    requires p <= |t| && Delimits(rest)
    ensures DigitRun((t + rest)[p..]) == DigitRun(t[p..])
  {
    var s := (t + rest)[p..];
    assert s == t[p..] + rest;
    DigitRunStops(s, |t| - p);
    DigitRunTake(s, |t| - p);
    assert s[..|t| - p] == t[p..];
  }

  /** What may follow a value does not start a number. */
  lemma {:induction false} DelimitsNoNumber(rest: string)
    requires Delimits(rest)
    ensures IntLength(rest) == FracLength(rest) == ExpLength(rest) == DigitRun(rest) == 0
  {
    if rest != [] {
      assert rest[0..] == rest && !IsDigit(rest[0]) && rest[0] != '-';
    }
  }

  lemma {:induction false} IntLengthAppend(t: string, rest: string)
    requires Delimits(rest)
    ensures IntLength(t + rest) == IntLength(t)
  {
    var s := t + rest;
    DelimitsNoNumber(rest);
    if t == [] {
      assert s == rest;
    } else {
      var p := if t[0] == '-' then 1 else 0;
      assert s[0] == t[0];
      DigitRunAppend(t, p, rest);
      if p == |t| {
        assert s[p..] == rest;
      }
    }
  }

  lemma {:induction false} FracLengthAppend(t: string, rest: string)
    requires Delimits(rest)
    ensures FracLength(t + rest) == FracLength(t)
  {
    DelimitsNoNumber(rest);
    if t == [] {
      assert t + rest == rest;
    } else {
      DigitRunAppend(t, 1, rest);
    }
  }

  lemma {:induction false} ExpLengthAppend(t: string, rest: string)
    requires Delimits(rest)
    ensures ExpLength(t + rest) == ExpLength(t)
  {
    DelimitsNoNumber(rest);
    if t == [] {
      assert t + rest == rest;
    } else {
      DigitRunAppend(t, 1, rest);
      if |t| > 1 {
        assert (t + rest)[1] == t[1];
        DigitRunAppend(t, 2, rest);
      }
    }
  }

  /** The three parts of a number literal, and its length from theirs. */
  lemma {:induction false} NumberFromParts(s: string, i: nat, f: nat, e: nat)
    requires i > 0 && IntLength(s) == i && FracLength(s[i..]) == f && ExpLength(s[i + f..]) == e
    ensures NumberLength(s) == (i + f + e, f + e > 0)
  {
  }

  lemma {:induction false} NumberLengthAppend(t: string, rest: string)
    requires Delimits(rest)
    ensures NumberLength(t + rest) == NumberLength(t)
  {
    IntLengthAppend(t, rest);
    var i := IntLength(t);
    if i > 0 {
      DropAppend(t, rest, i);
      FracLengthAppend(t[i..], rest);
      var f := FracLength(t[i..]);
      DropAppend(t, rest, i + f);
      ExpLengthAppend(t[i + f..], rest);
      var e := ExpLength(t[i + f..]);
      NumberFromParts(t, i, f, e);
      NumberFromParts(t + rest, i, f, e);
    }
  }

  lemma {:induction false} DropAppend(t: string, rest: string, i: nat)
    requires i <= |t|
    ensures (t + rest)[i..] == t[i..] + rest
  {
  }

  lemma {:induction false} DigitRunAll(s: string)
    requires AllDigits(s)
    ensures DigitRun(s) == |s|
  {
    if s != [] {
      DigitRunAll(s[1..]);
    }
  }

  lemma {:induction false} PrintIntScans(i: int)
    ensures var t := PrintInt(i);
      t != [] && NumberLength(t) == (|t|, false) && IntLength(t) == |t| && IntValue(t) == i
  {
    var t := PrintInt(i);
    var p := if i < 0 then 1 else 0;
    var d := Decimal(if i < 0 then -i else i);
    assert t[p..] == d;
    DigitRunAll(d);
    DecimalRoundTrip(if i < 0 then -i else i);
    assert t[p] == d[0];
    if d[0] == '0' {
      assert |d| == 1;
    }
    assert IntLength(t) == |t|;
    assert t[|t|..] == "";
  }

  lemma {:induction false} ReadNumberToken(t: string, rest: string)
    requires t != [] && NumberLength(t).0 == |t| && Delimits(rest)
    ensures NumberLength(t + rest) == NumberLength(t)
    ensures NumberLength(t).1 ==> ReadNumber(t + rest) == Got(Float(t), rest)
    ensures !NumberLength(t).1 ==> ReadNumber(t + rest) == Got(Int(IntValue(t)), rest)
  {
    NumberLengthAppend(t, rest);
    assert (t + rest)[..|t|] == t && (t + rest)[|t|..] == rest;
  }

  /** A number starts with a digit or a minus sign, and so with nothing else a value can start with. */
  lemma {:induction false} NumberStart(t: string)
    requires NumberLength(t).0 > 0
    ensures t[0] == '-' || IsDigit(t[0])
  {
  }

  // ---------- White space and dicts ----------

  lemma {:induction false} SkipNothing(s: string)
    requires s != [] ==> !IsSpace(s[0])
    ensures SkipSpace(s) == s
  {
  }

  lemma {:induction false} SkipSeparator(sep: string, c: char, s: string)
    requires sep == [c] || sep == [c, ' ']
    requires s != [] && !IsSpace(s[0])
    ensures (sep + s)[0] == c
    ensures SkipSpace((sep + s)[1..]) == s
  {
    if sep == [c] {
      assert (sep + s)[1..] == s;
    } else {
      assert (sep + s)[1..] == " " + s;
      assert (" " + s)[1..] == s;
    }
  }

  lemma {:induction false} PutNewField(fields: seq<Field>, f: Field)
    requires forall i | 0 <= i < |fields| :: fields[i].key != f.key
    ensures PutField(fields, f) == fields + [f]
  {
    if fields != [] {
      PutNewField(fields[1..], f);
      assert fields == [fields[0]] + fields[1..];
    }
  }

  lemma {:induction false} BuildDictDistinct(pairs: seq<Field>)
    requires DistinctKeys(pairs)
    ensures BuildDict(pairs) == pairs
  {
    if pairs != [] {
      var front := pairs[..|pairs| - 1];
      BuildDictDistinct(front);
      PutNewField(front, pairs[|pairs| - 1]);
    }
  }

  // ---------- Reading undoes writing ----------

  /** The first character of a value is none of the characters that end or separate values. */
  predicate StartsValue(t: string) {
    t != [] && !IsSpace(t[0]) && t[0] != ']' && t[0] != '}' && t[0] != ','
  }

  lemma {:induction false} WordStart(w: string)
    requires w in {"null", "true", "false", "NaN", "Infinity", "-Infinity"}
    ensures StartsValue(w)
  {
  }

  lemma {:induction false} IntStart(i: int)
    ensures StartsValue(PrintInt(i))
  {
    assert PrintInt(i)[0] == '-' || IsDigit(PrintInt(i)[0]);
  }

  lemma {:induction false} PrintStart(st: Style, v: Value)
    requires WellFormed(v)
    ensures StartsValue(Print(st, v))
  {
    match v
    case Null => WordStart("null");
    case Bool(b) => WordStart(if b then "true" else "false");
    case Int(i) => IntStart(i);
    case Float(t) => NumberStart(t);
    case NonFinite(t) => WordStart(t);
    case Str(s) => StartsWithMark('"', EscapeAll(st.ascii, s), '"');
    case Arr(items) => StartsWithMark('[', PrintItems(st, items), ']');
    case Obj(fields) => StartsWithMark('{', PrintFields(st, fields), '}');
  }

  lemma {:induction false} StartsWithMark(open: char, body: string, close: char)
    requires open in {'"', '[', '{'}
    ensures StartsValue([open] + body + [close]) && ([open] + body + [close])[0] == open
  {
  }

  lemma {:induction false} ReadPrint(st: Style, v: Value, rest: string, strict: bool)
    requires StyleOk(st) && WellFormed(v) && Delimits(rest)
    ensures ReadValue(strict, Print(st, v) + rest) == Got(v, rest)
    decreases v, 0
  {
    match v
    case Int(i) => PrintIntScans(i); ReadPrintNumber(strict, PrintInt(i), rest);
    case Float(t) => ReadPrintNumber(strict, t, rest);
    case Str(text) => ReadPrintString(st, text, rest, strict);
    case Arr(items) =>
      if items != [] {
        ReadPrintItems(st, items, rest, strict);
        PrintItemsStart(st, items);
      }
      ReadPrintArr(st, items, rest, strict);
    case Obj(fields) =>
      if fields != [] {
        ReadPrintFields(st, fields, rest, strict);
        PrintFieldsStart(st, fields);
      }
      ReadPrintObj(st, fields, rest, strict);
    case _ => ReadPrintWord(strict, st, v, rest);
  }

  lemma {:induction false} ReadPrintWord(strict: bool, st: Style, v: Value, rest: string)
    requires v.Null? || v.Bool? || (v.NonFinite? && v.token in {"NaN", "Infinity", "-Infinity"})
    ensures ReadValue(strict, Print(st, v) + rest) == Got(v, rest)
  {
    var w := Print(st, v);
    var s := w + rest;
    assert StartsWith(s, w) && s[|w|..] == rest;
    assert s[0] == w[0] && s[1] == w[1];
    match v
    case Null =>
    case Bool(_) =>
      NotAWord(s, "null");
      if w[0] == 'f' { NotAWord(s, "true"); }
    case NonFinite(_) =>
      ReadNonFiniteWord(w, rest);
  }

  lemma {:induction false} NoNumber(s: string)
    requires s != [] && !IsDigit(s[0]) && (s[0] == '-' && |s| > 1 ==> !IsDigit(s[1]))
    ensures NumberLength(s).0 == 0
  {
    var p := if s[0] == '-' then 1 else 0;
    if p < |s| {
      assert s[p..][0] == s[p];
      assert DigitRun(s[p..]) == 0;
    }
    assert IntLength(s) == 0;
  }

  lemma {:induction false} ReadNonFiniteWord(w: string, rest: string)
    requires w in {"NaN", "Infinity", "-Infinity"}
    ensures ReadAtom(w + rest) == Got(NonFinite(w), rest)
  {
    var s := w + rest;
    assert StartsWith(s, w) && s[|w|..] == rest;
    assert s[0] == w[0] && s[1] == w[1];
    NotAWord(s, "null");
    NotAWord(s, "true");
    NotAWord(s, "false");
    NoNumber(s);
    if w[0] != 'N' { NotAWord(s, "NaN"); }
    if w[0] != 'I' { NotAWord(s, "Infinity"); }
  }

  lemma {:induction false} ReadPrintNumber(strict: bool, t: string, rest: string)
    requires t != [] && NumberLength(t).0 == |t| && Delimits(rest)
    ensures NumberLength(t).1 ==> ReadValue(strict, t + rest) == Got(Float(t), rest)
    ensures !NumberLength(t).1 ==> ReadValue(strict, t + rest) == Got(Int(IntValue(t)), rest)
  {
    ReadNumberToken(t, rest);
    ReadValueNumber(strict, t + rest);
  }

  lemma {:induction false} ReadValueNumber(strict: bool, s: string)
    requires NumberLength(s).0 > 0
    ensures ReadValue(strict, s) == ReadNumber(s)
  {
    NumberStart(s);
    NotAWord(s, "null");
    NotAWord(s, "true");
    NotAWord(s, "false");
  }

  lemma {:induction false} NotAWord(s: string, w: string)
    requires s != [] && w != [] && s[0] != w[0]
    ensures !StartsWith(s, w)
  {
    assert |w| <= |s| ==> s[..|w|][0] == s[0];
  }

  lemma {:induction false} ReadPrintString(st: Style, text: string, rest: string, strict: bool)
    ensures ReadValue(strict, Print(st, Str(text)) + rest) == Got(Str(text), rest)
  {
    var body := EscapeAll(st.ascii, text) + "\"" + rest;
    OpenBracket('"', EscapeAll(st.ascii, text), '"', rest);
    ReadStringQuoted(st.ascii, text, rest);
    assert ReadStringValue(body) == Got(Str(text), rest);
  }

  lemma {:induction false} OpenBracket(open: char, body: string, close: char, rest: string)
    ensures
      var s := [open] + body + [close] + rest;
      s[0] == open && s[1..] == body + [close] + rest
  {
  }

  lemma {:induction false} ReadPrintArr(st: Style, items: seq<Value>, rest: string, strict: bool)
    requires items != [] ==> StartsValue(PrintItems(st, items))
    requires items != [] ==> ReadItems(strict, PrintItems(st, items) + "]" + rest) == Got(items, rest)
    ensures ReadValue(strict, Print(st, Arr(items)) + rest) == Got(Arr(items), rest)
  {
    var body := PrintItems(st, items);
    var t := body + "]" + rest;
    OpenBracket('[', body, ']', rest);
    assert t[0] == if items == [] then ']' else body[0];
    assert items == [] ==> t[1..] == rest;
    SkipNothing(t);
    assert ReadArray(strict, t) == Got(Arr(items), rest);
  }

  lemma {:induction false} ReadPrintObj(st: Style, fields: seq<Field>, rest: string, strict: bool)
    requires DistinctKeys(fields)
    requires fields != [] ==> StartsValue(PrintFields(st, fields))
    requires fields != [] ==> ReadMembers(strict, PrintFields(st, fields) + "}" + rest) == Got(fields, rest)
    ensures ReadValue(strict, Print(st, Obj(fields)) + rest) == Got(Obj(fields), rest)
  {
    var body := PrintFields(st, fields);
    OpenBracket('{', body, '}', rest);
    if fields == [] {
      CloseBracket("}", rest);
    } else {
      BodyStart(body, "}" + rest);
      ConcatTwo(body, "}", rest);
      BuildDictDistinct(fields);
    }
    ReadBraced(strict, "{" + body + "}" + rest, body + "}" + rest, fields, rest);
  }

  lemma {:induction false} CloseBracket(close: string, rest: string)
    requires |close| == 1
    ensures ("" + close + rest)[0] == close[0] && ("" + close + rest)[1..] == rest
  {
  }

  lemma {:induction false} BodyStart(body: string, tail: string)
    requires StartsValue(body)
    ensures StartsValue(body + tail)
  {
  }

  lemma {:induction false} ReadBraced(strict: bool, s: string, t: string, fields: seq<Field>, rest: string)
    requires s != [] && s[0] == '{' && s[1..] == t && t != [] && !IsSpace(t[0])
    requires fields == [] ==> t[0] == '}' && t[1..] == rest
    requires fields != [] ==>
      t[0] != '}' && ReadMembers(strict, t) == Got(fields, rest) && DistinctKeys(fields) && BuildDict(fields) == fields
    ensures ReadValue(strict, s) == Got(Obj(fields), rest)
  {
    SkipNothing(t);
  }

  /** What follows the first item of `items` in an array's text. */
  function AfterFirstItem(st: Style, items: seq<Value>, rest: string): string
    requires items != []
  {
    if |items| == 1 then "]" + rest else st.comma + (PrintItems(st, items[1..]) + "]" + rest)
  }

  lemma {:induction false} PrintItemsSplit(st: Style, items: seq<Value>, rest: string)
    requires items != []
    ensures PrintItems(st, items) + "]" + rest == Print(st, items[0]) + AfterFirstItem(st, items, rest)
  {
    if |items| == 1 {
      ConcatTwo(Print(st, items[0]), "]", rest);
    } else {
      ConcatFive(Print(st, items[0]), st.comma, PrintItems(st, items[1..]), "]", rest);
    }
  }

  lemma {:induction false} PrintItemsStart(st: Style, items: seq<Value>)
    requires items != [] && WellFormed(items[0])
    ensures StartsValue(PrintItems(st, items))
  {
    PrintStart(st, items[0]);
    assert PrintItems(st, items)[0] == Print(st, items[0])[0];
  }

  lemma {:induction false} ReadPrintItems(st: Style, items: seq<Value>, rest: string, strict: bool)
    requires StyleOk(st) && items != [] && forall i | 0 <= i < |items| :: WellFormed(items[i])
    ensures ReadItems(strict, PrintItems(st, items) + "]" + rest) == Got(items, rest)
    decreases items, 1
  {
    ReadPrint(st, items[0], AfterFirstItem(st, items, rest), strict);
    if |items| > 1 {
      ReadPrintItems(st, items[1..], rest, strict);
    }
    ReadPrintItemsStep(st, items, rest, strict);
  }

  lemma {:induction false} ReadPrintItemsStep(st: Style, items: seq<Value>, rest: string, strict: bool)
    requires StyleOk(st) && items != [] && forall i | 0 <= i < |items| :: WellFormed(items[i])
    requires ReadValue(strict, Print(st, items[0]) + AfterFirstItem(st, items, rest))
          == Got(items[0], AfterFirstItem(st, items, rest))
    requires |items| > 1 ==> ReadItems(strict, PrintItems(st, items[1..]) + "]" + rest) == Got(items[1..], rest)
    ensures ReadItems(strict, PrintItems(st, items) + "]" + rest) == Got(items, rest)
  {
    var tail := AfterFirstItem(st, items, rest);
    PrintItemsSplit(st, items, rest);
    if |items| == 1 {
      assert tail[1..] == rest && items == [items[0]];
    } else {
      PrintItemsStart(st, items[1..]);
      SkipSeparator(st.comma, ',', PrintItems(st, items[1..]) + "]" + rest);
      assert items == [items[0]] + items[1..];
    }
    ReadItemsStep(strict, Print(st, items[0]) + tail, items[0], tail);
  }

  /** One step of the item loop. */
  lemma {:induction false} ReadItemsStep(strict: bool, s: string, v: Value, tail: string)
    requires ReadValue(strict, s) == Got(v, tail) && tail != [] && !IsSpace(tail[0])
    ensures tail[0] == ']' ==> ReadItems(strict, s) == Got([v], tail[1..])
    ensures
      tail[0] == ',' ==>
        ReadItems(strict, s) ==
          match ReadItems(strict, SkipSpace(tail[1..]))
          case Fail => Fail
          case Got(items, rest) => Got([v] + items, rest)
  {
    SkipNothing(tail);
  }

  lemma {:induction false} PrintFieldsStart(st: Style, fields: seq<Field>)
    requires fields != []
    ensures StartsValue(PrintFields(st, fields)) && PrintFields(st, fields)[0] == '"'
  {
    assert PrintField(st, fields[0])[0] == '"';
  }

  /** One step of the member loop, on any text that has the parts of a member. */
  lemma {:induction false} ReadMembersStep(strict: bool, s: string, f: Field, afterKey: string, value: string, tail: string)
    requires s != [] && s[0] == '"' && ReadString(s[1..]) == Got(f.key, afterKey)
    requires afterKey != [] && afterKey[0] == ':' && SkipSpace(afterKey[1..]) == value
    requires ReadValue(strict, value) == Got(f.value, tail)
    requires tail != [] && !IsSpace(tail[0])
    ensures tail[0] == '}' ==> ReadMembers(strict, s) == Got([f], tail[1..])
    ensures
      tail[0] == ',' ==>
        ReadMembers(strict, s) ==
          match ReadMembers(strict, SkipSpace(tail[1..]))
          case Fail => Fail
          case Got(fields, rest) => Got([f] + fields, rest)
  {
    SkipNothing(afterKey);
    SkipNothing(tail);
  }

  lemma {:induction false} PrintFieldParts(st: Style, f: Field, tail: string)
    requires StyleOk(st) && WellFormed(f.value)
    ensures
      var s := PrintField(st, f) + tail;
      var value := Print(st, f.value) + tail;
      var c := st.colon + value;
      && s[0] == '"' && ReadString(s[1..]) == Got(f.key, c)
      && c[0] == ':' && SkipSpace(c[1..]) == value
  {
    var s := PrintField(st, f) + tail;
    var value := Print(st, f.value) + tail;
    var c := st.colon + value;
    MemberText(EscapeAll(st.ascii, f.key), st.colon, Print(st, f.value), tail);
    ReadStringQuoted(st.ascii, f.key, c);
    PrintStart(st, f.value);
    SkipSeparator(st.colon, ':', value);
  }

  lemma {:induction false} MemberText(key: string, colon: string, value: string, tail: string)
    ensures var s := "\"" + key + "\"" + colon + value + tail;
      s[0] == '"' && s[1..] == key + "\"" + (colon + (value + tail))
  {
  }

  /** What follows the first member of `fields` in an object's text. */
  function AfterFirst(st: Style, fields: seq<Field>, rest: string): string
    requires fields != []
  {
    if |fields| == 1 then "}" + rest else st.comma + (PrintFields(st, fields[1..]) + "}" + rest)
  }

  lemma {:induction false} PrintFieldsSplit(st: Style, fields: seq<Field>, rest: string)
    requires fields != []
    ensures PrintFields(st, fields) + "}" + rest == PrintField(st, fields[0]) + AfterFirst(st, fields, rest)
  {
    if |fields| == 1 {
      ConcatTwo(PrintField(st, fields[0]), "}", rest);
    } else {
      ConcatFive(PrintField(st, fields[0]), st.comma, PrintFields(st, fields[1..]), "}", rest);
    }
  }

  lemma {:induction false} ConcatTwo(a: string, b: string, c: string)
    ensures a + b + c == a + (b + c)
  {
  }

  lemma {:induction false} ConcatFive(a: string, b: string, c: string, d: string, e: string)
    ensures a + b + c + d + e == a + (b + (c + d + e))
  {
  }

  lemma {:induction false} ReadPrintFields(st: Style, fields: seq<Field>, rest: string, strict: bool)
    requires StyleOk(st) && fields != [] && forall i | 0 <= i < |fields| :: WellFormed(fields[i].value)
    ensures ReadMembers(strict, PrintFields(st, fields) + "}" + rest) == Got(fields, rest)
    decreases fields, 1
  {
    var f := fields[0];
    var tail := AfterFirst(st, fields, rest);
    ReadPrint(st, f.value, tail, strict);
    if |fields| > 1 {
      ReadPrintFields(st, fields[1..], rest, strict);
    }
    ReadPrintFieldsStep(st, fields, rest, strict);
  }

  lemma {:induction false} ReadPrintFieldsStep(st: Style, fields: seq<Field>, rest: string, strict: bool)
    requires StyleOk(st) && fields != [] && WellFormed(fields[0].value)
    requires ReadValue(strict, Print(st, fields[0].value) + AfterFirst(st, fields, rest))
          == Got(fields[0].value, AfterFirst(st, fields, rest))
    requires |fields| > 1 ==>
      ReadMembers(strict, PrintFields(st, fields[1..]) + "}" + rest) == Got(fields[1..], rest)
    ensures ReadMembers(strict, PrintFields(st, fields) + "}" + rest) == Got(fields, rest)
  {
    var f, tail := fields[0], AfterFirst(st, fields, rest);
    PrintFieldsSplit(st, fields, rest);
    PrintFieldParts(st, f, tail);
    AfterFirstStart(st, fields, rest);
    ReadMembersStep(strict, PrintField(st, f) + tail, f, st.colon + (Print(st, f.value) + tail), Print(st, f.value) + tail, tail);
    FirstAndRest(fields);
  }

  lemma {:induction false} FirstAndRest(fields: seq<Field>)
    requires fields != []
    ensures fields == [fields[0]] + fields[1..] && (|fields| == 1 ==> fields == [fields[0]])
  {
  }

  lemma {:induction false} AfterFirstStart(st: Style, fields: seq<Field>, rest: string)
    requires StyleOk(st) && fields != []
    ensures var tail := AfterFirst(st, fields, rest);
      && tail != [] && !IsSpace(tail[0]) && tail[0] == (if |fields| == 1 then '}' else ',')
      && (if |fields| == 1 then tail[1..] == rest else SkipSpace(tail[1..]) == PrintFields(st, fields[1..]) + "}" + rest)
  {
    if |fields| > 1 {
      PrintFieldsStart(st, fields[1..]);
      BodyStart(PrintFields(st, fields[1..]), "}" + rest);
      ConcatTwo(PrintFields(st, fields[1..]), "}", rest);
      SkipSeparator(st.comma, ',', PrintFields(st, fields[1..]) + "}" + rest);
    }
  }

  /** json.loads(json.dumps(v)) == v, entry order included, in every layout, strict or not. */
  lemma {:induction false} LoadsPrint(st: Style, v: Value, strict: bool)
    requires StyleOk(st) && WellFormed(v)
    ensures Loads(strict, Print(st, v)) == Some(v)
  {
    ReadPrint(st, v, "", strict);
    assert Print(st, v) + "" == Print(st, v);
    PrintStart(st, v);
    SkipNothing(Print(st, v));
  }

  /** The same with a newline after the text, as in a log of lines. */
  lemma {:induction false} LoadsPrintLine(st: Style, v: Value, strict: bool)
    requires StyleOk(st) && WellFormed(v)
    ensures Loads(strict, Print(st, v) + "\n") == Some(v)
  {
    ReadPrint(st, v, "\n", strict);
    PrintStart(st, v);
    assert (Print(st, v) + "\n")[0] == Print(st, v)[0];
    SkipNothing(Print(st, v) + "\n");
    assert "\n"[1..] == "";
  }

  lemma {:induction false} PrintInjective(st: Style, v: Value, w: Value)
    requires StyleOk(st) && WellFormed(v) && WellFormed(w)
    requires Print(st, v) == Print(st, w)
    ensures v == w
  {
    LoadsPrint(st, v, true);
    LoadsPrint(st, w, true);
  }

  // ---------- What is read is well formed ----------

  lemma {:induction false} ExpLengthTake(s: string)
    ensures ExpLength(s[..ExpLength(s)]) == ExpLength(s)
  {
    var m := ExpLength(s);
    if m > 0 {
      var p := if |s| > 1 && (s[1] == '+' || s[1] == '-') then 2 else 1;
      DigitRunDropTake(s, p, m);
      assert m > 1 && s[..m][1] == s[1];
    }
  }

  lemma {:induction false} TakeDrop(s: string, k: nat, n: nat)
    requires k <= n <= |s|
    ensures s[..n][k..] == s[k..][..n - k]
  {
  }

  lemma {:induction false} PartsOfTake(s: string, i: nat, f: nat, e: nat)
    requires i > 0 && IntLength(s) == i && FracLength(s[i..]) == f && ExpLength(s[i + f..]) == e
    ensures var t := s[..i + f + e]; IntLength(t) == i && FracLength(t[i..]) == f && ExpLength(t[i + f..]) == e
  {
    var n := i + f + e;
    IntLengthTake(s, n);
    TakeDrop(s, i, n);
    FracLengthTake(s[i..], n - i);
    TakeDrop(s, i + f, n);
    ExpLengthTake(s[i + f..]);
  }

  lemma {:induction false} NumberParts(s: string) returns (i: nat, f: nat, e: nat)
    requires NumberLength(s).0 > 0
    ensures i > 0 && IntLength(s) == i && FracLength(s[i..]) == f && ExpLength(s[i + f..]) == e
    ensures NumberLength(s) == (i + f + e, f + e > 0)
  {
    i := IntLength(s);
    f := FracLength(s[i..]);
    e := ExpLength(s[i + f..]);
  }

  lemma {:induction false} TakeOfParts(s: string, i: nat, f: nat, e: nat)
    requires i > 0 && IntLength(s) == i && FracLength(s[i..]) == f && ExpLength(s[i + f..]) == e
    ensures NumberLength(s[..i + f + e]) == (i + f + e, f + e > 0)
  {
    PartsOfTake(s, i, f, e);
    NumberFromParts(s[..i + f + e], i, f, e);
  }

  lemma {:induction false} NumberLengthTake(s: string)
    requires NumberLength(s).0 > 0
    ensures NumberLength(s[..NumberLength(s).0]) == NumberLength(s)
  {
    var i, f, e := NumberParts(s);
    TakeOfParts(s, i, f, e);
  }

  lemma {:induction false} PutFieldKeys(fields: seq<Field>, f: Field)
    requires DistinctKeys(fields)
    ensures DistinctKeys(PutField(fields, f))
    ensures forall g | g in PutField(fields, f) :: g == f || g in fields
  {
    if fields != [] && fields[0].key != f.key {
      var rest := PutField(fields[1..], f);
      PutFieldKeys(fields[1..], f);
      assert forall g | g in rest :: g.key != fields[0].key;
      assert forall i | 0 <= i < |rest| :: rest[i] in rest;
    }
  }

  lemma {:induction false} BuildDictKeys(pairs: seq<Field>)
    ensures DistinctKeys(BuildDict(pairs))
    ensures forall g | g in BuildDict(pairs) :: g in pairs
  {
    if pairs != [] {
      BuildDictKeys(pairs[..|pairs| - 1]);
      PutFieldKeys(BuildDict(pairs[..|pairs| - 1]), pairs[|pairs| - 1]);
    }
  }

  lemma {:induction false} ReadAtomWellFormed(s: string)
    requires ReadAtom(s).Got?
    ensures WellFormed(ReadAtom(s).value)
  {
    if NumberLength(s).0 > 0 {
      NumberLengthTake(s);
    }
  }

  /** Whatever text is parsed, the value has distinct keys and proper number literals. */
  lemma {:induction false} ReadWellFormed(strict: bool, s: string)
    requires ReadValue(strict, s).Got?
    ensures WellFormed(ReadValue(strict, s).value)
    decreases |s|, 0
  {
    if s[0] == '"' {
    } else if s[0] == '{' {
      var t := SkipSpace(s[1..]);
      if !(t != [] && t[0] == '}') {
        ReadMembersWellFormed(strict, t);
        var pairs := ReadMembers(strict, t).value;
        BuildDictKeys(pairs);
        assert forall i | 0 <= i < |BuildDict(pairs)| :: BuildDict(pairs)[i] in pairs;
      }
    } else if s[0] == '[' {
      var t := SkipSpace(s[1..]);
      if !(t != [] && t[0] == ']') {
        ReadItemsWellFormed(strict, t);
      }
    } else {
      ReadAtomWellFormed(s);
    }
  }

  lemma {:induction false} ReadItemsWellFormed(strict: bool, s: string)
    requires ReadItems(strict, s).Got?
    ensures forall v | v in ReadItems(strict, s).value :: WellFormed(v)
    decreases |s|, 1
  {
    ReadWellFormed(strict, s);
    var t := SkipSpace(ReadValue(strict, s).rest);
    if t[0] == ',' {
      ReadItemsWellFormed(strict, SkipSpace(t[1..]));
    }
  }

  lemma {:induction false} ReadMembersWellFormed(strict: bool, s: string)
    requires ReadMembers(strict, s).Got?
    ensures forall f | f in ReadMembers(strict, s).value :: WellFormed(f.value)
    decreases |s|, 1
  {
    var c := SkipSpace(ReadString(s[1..]).rest);
    var valueText := SkipSpace(c[1..]);
    ReadWellFormed(strict, valueText);
    var t := SkipSpace(ReadValue(strict, valueText).rest);
    if t[0] == ',' {
      ReadMembersWellFormed(strict, SkipSpace(t[1..]));
    }
  }

  lemma {:induction false} LoadsWellFormed(strict: bool, text: string)
    requires Loads(strict, text).Some?
    ensures WellFormed(Loads(strict, text).value)
  {
    ReadWellFormed(strict, SkipSpace(text));
  }

  // ---------- The strict reader ----------

  /** Rejecting repeated keys changes nothing else: what the strict reader reads, the plain one reads alike. */
  lemma {:induction false} StrictReadsAlike(s: string)
    requires ReadValue(true, s).Got?
    ensures ReadValue(false, s) == ReadValue(true, s)
    decreases |s|, 0
  {
    if s[0] == '{' {
      var t := SkipSpace(s[1..]);
      if !(t != [] && t[0] == '}') {
        StrictMembersAlike(t);
      }
    } else if s[0] == '[' {
      var t := SkipSpace(s[1..]);
      if !(t != [] && t[0] == ']') {
        StrictItemsAlike(t);
      }
    }
  }

  lemma {:induction false} StrictItemsAlike(s: string)
    requires ReadItems(true, s).Got?
    ensures ReadItems(false, s) == ReadItems(true, s)
    decreases |s|, 1
  {
    StrictReadsAlike(s);
    var t := SkipSpace(ReadValue(true, s).rest);
    if t[0] == ',' {
      StrictItemsAlike(SkipSpace(t[1..]));
    }
  }

  lemma {:induction false} StrictMembersAlike(s: string)
    requires ReadMembers(true, s).Got?
    ensures ReadMembers(false, s) == ReadMembers(true, s)
    decreases |s|, 1
  {
    var c := SkipSpace(ReadString(s[1..]).rest);
    var valueText := SkipSpace(c[1..]);
    StrictReadsAlike(valueText);
    var t := SkipSpace(ReadValue(true, valueText).rest);
    if t[0] == ',' {
      StrictMembersAlike(SkipSpace(t[1..]));
    }
  }

  lemma {:induction false} StrictLoadsAlike(text: string)
    requires Loads(true, text).Some?
    ensures Loads(false, text) == Loads(true, text)
  {
    StrictReadsAlike(SkipSpace(text));
  }

  // ---------- Sorting keys ----------

  lemma {:induction false} LexLessIrreflexive(a: string)
    ensures !LexLess(a, a)
  {
    if a != [] {
      LexLessIrreflexive(a[1..]);
    }
  }

  lemma {:induction false} LexLessTotal(a: string, b: string)
    ensures !(LexLess(a, b) && LexLess(b, a))
    ensures LexLess(a, b) || LexLess(b, a) || a == b
    ensures !LexLess(a, a)
  {
    LexLessIrreflexive(a);
    if a != [] && b != [] {
      LexLessTotal(a[1..], b[1..]);
      assert a == [a[0]] + a[1..] && b == [b[0]] + b[1..];
    }
  }

  lemma {:induction false} LexLessTransitive(a: string, b: string, c: string)
    requires LexLess(a, b) && LexLess(b, c)
    ensures LexLess(a, c)
  {
    if a != [] && a[0] == b[0] == c[0] {
      LexLessTransitive(a[1..], b[1..], c[1..]);
    }
  }

  lemma {:induction false} InsertSorted(f: Field, fields: seq<Field>)
    requires SortedFields(fields) && forall g | g in fields :: g.key != f.key
    ensures SortedFields(InsertField(f, fields))
    ensures multiset(InsertField(f, fields)) == multiset([f]) + multiset(fields)
  {
    var r := InsertField(f, fields);
    if fields == [] {
    } else if LexLess(f.key, fields[0].key) {
      forall j | 0 <= j < |fields| ensures LexLess(f.key, fields[j].key) {
        if j > 0 { LexLessTransitive(f.key, fields[0].key, fields[j].key); }
      }
    } else {
      assert fields[0] in fields;
      LexLessTotal(f.key, fields[0].key);
      InsertSorted(f, fields[1..]);
      var rest := InsertField(f, fields[1..]);
      assert fields == [fields[0]] + fields[1..];
      forall j | 0 <= j < |rest| ensures LexLess(fields[0].key, rest[j].key) {
        assert rest[j] in multiset(rest);
      }
    }
  }

  lemma {:induction false} SortSorted(fields: seq<Field>)
    requires DistinctKeys(fields)
    ensures SortedFields(SortFields(fields))
    ensures multiset(SortFields(fields)) == multiset(fields)
  {
    if fields != [] {
      SortSorted(fields[1..]);
      var rest := SortFields(fields[1..]);
      forall g | g in rest ensures g.key != fields[0].key {
        assert g in multiset(rest);
        assert g in fields[1..];
      }
      InsertSorted(fields[0], rest);
      assert fields == [fields[0]] + fields[1..];
    }
  }

  lemma {:induction false} SortMembers(fields: seq<Field>)
    requires DistinctKeys(fields)
    ensures forall g :: g in SortFields(fields) <==> g in fields
  {
    SortSorted(fields);
    forall g ensures g in SortFields(fields) <==> g in fields {
      assert g in SortFields(fields) <==> g in multiset(SortFields(fields));
      assert g in fields <==> g in multiset(fields);
    }
  }

  /** A sorted list of entries is determined by its entries. */
  lemma {:induction false} SortedUnique(x: seq<Field>, y: seq<Field>)
    requires SortedFields(x) && SortedFields(y)
    requires forall g :: g in x <==> g in y
    ensures x == y
  {
    assert y != [] ==> y[0] in x;
    if x != [] {
      assert x[0] in y && y != [];
      var i :| 0 <= i < |y| && y[i] == x[0];
      var j :| 0 <= j < |x| && x[j] == y[0];
      LexLessTotal(x[0].key, y[0].key);
      assert x[0] == y[0];
      SortedTailMembers(x);
      SortedTailMembers(y);
      SortedUnique(x[1..], y[1..]);
    }
  }

  lemma {:induction false} SortedTailMembers(x: seq<Field>)
    requires SortedFields(x) && x != []
    ensures forall g :: g in x[1..] <==> g in x && g != x[0]
  {
    forall k | 1 <= k < |x| ensures x[k] != x[0] {
      LexLessTotal(x[0].key, x[0].key);
    }
  }

  lemma {:induction false} SortedDistinct(x: seq<Field>)
    requires SortedFields(x)
    ensures DistinctKeys(x)
  {
    forall i, j | 0 <= i < j < |x| ensures x[i].key != x[j].key {
      LexLessTotal(x[i].key, x[i].key);
    }
  }

  /** Sorting leaves a sorted list as it is. */
  lemma {:induction false} SortOfSorted(x: seq<Field>)
    requires SortedFields(x)
    ensures SortFields(x) == x
  {
    SortedDistinct(x);
    SortSorted(x);
    SortMembers(x);
    SortedUnique(SortFields(x), x);
  }

  /** The normal form of a well-formed value is well formed and is its own normal form. */
  lemma {:induction false} NormWellFormed(v: Value)
    requires WellFormed(v)
    ensures WellFormed(Norm(v)) && Norm(Norm(v)) == Norm(v)
    ensures Finite(v) ==> Finite(Norm(v))
    decreases v
  {
    match v
    case Arr(items) =>
      forall i | 0 <= i < |items|
        ensures WellFormed(Norm(items[i])) && Norm(Norm(items[i])) == Norm(items[i])
        ensures Finite(items[i]) ==> Finite(Norm(items[i]))
      {
        NormWellFormed(items[i]);
      }
      assert NormItems(NormItems(items)) == NormItems(items);
    case Obj(fields) =>
      var inner := NormFields(fields);
      forall i | 0 <= i < |fields|
        ensures WellFormed(inner[i].value) && Norm(inner[i].value) == inner[i].value
        ensures Finite(fields[i].value) ==> Finite(inner[i].value)
      {
        NormWellFormed(fields[i].value);
      }
      var sorted := SortFields(inner);
      SortSorted(inner);
      SortMembers(inner);
      SortedDistinct(sorted);
      forall k | 0 <= k < |sorted| ensures WellFormed(sorted[k].value) && Norm(sorted[k].value) == sorted[k].value
        ensures Finite(v) ==> Finite(sorted[k].value)
      {
        assert sorted[k] in inner;
      }
      assert NormFields(sorted) == sorted;
      SortOfSorted(sorted);
    case _ =>
  }

  // ---------- The canonical form ----------

  /** loads_strict(canonicalize(v)) is v with its keys in order, and canonicalizing that changes nothing. */
  lemma {:induction false} CanonicalRoundTrip(st: Style, v: Value, strict: bool)
    requires StyleOk(st) && WellFormed(v)
    ensures Loads(strict, Canonical(st, v)) == Some(Norm(v))
    ensures Canonical(st, Norm(v)) == Canonical(st, v)
  {
    NormWellFormed(v);
    LoadsPrint(st, Norm(v), strict);
  }

  lemma {:induction false} LookupDistinct(fields: seq<Field>, i: nat)
    requires DistinctKeys(fields) && i < |fields|
    ensures Lookup(fields, fields[i].key) == Some(fields[i].value)
  {
    if i > 0 {
      LookupDistinct(fields[1..], i - 1);
    }
  }

  lemma {:induction false} DistinctSize(p: seq<Field>)
    requires DistinctKeys(p)
    ensures |set f | f in p| == |p|
  {
    if p != [] {
      DistinctSize(p[1..]);
      assert (set f | f in p) == {p[0]} + set f | f in p[1..];
    }
  }

  lemma {:induction false} SubsetSize<T>(a: set<T>, b: set<T>)
    requires a <= b
    ensures |a| <= |b| && (|a| == |b| ==> a == b)
  {
    assert b == a + (b - a);
    assert |b - a| == |b| - |a|;
  }

  /** Of two lists with distinct keys and one length, the members of one are in the other only both ways. */
  lemma {:induction false} DistinctPigeonhole(p: seq<Field>, q: seq<Field>)
    requires DistinctKeys(p) && DistinctKeys(q) && |p| == |q|
    requires forall f | f in p :: f in q
    ensures forall f | f in q :: f in p
  {
    DistinctSize(p);
    DistinctSize(q);
    var ps, qs := set f | f in p, set f | f in q;
    SubsetSize(ps, qs);
    forall f | f in q ensures f in p {
      assert f in qs && f in ps;
    }
  }

  lemma {:induction false} SortIffSameMembers(p: seq<Field>, q: seq<Field>)
    requires DistinctKeys(p) && DistinctKeys(q)
    ensures SortFields(p) == SortFields(q) <==> |p| == |q| && forall f | f in p :: f in q
  {
    SortSorted(p);
    SortSorted(q);
    SortMembers(p);
    SortMembers(q);
    if SortFields(p) == SortFields(q) {
      assert |p| == |multiset(p)| == |multiset(q)| == |q|;
    }
    if |p| == |q| && forall f | f in p :: f in q {
      DistinctPigeonhole(p, q);
      SortedUnique(SortFields(p), SortFields(q));
    }
  }

  /** An entry's normal form is among those of `y` exactly when its key is found there with a value that
      has the same normal form. */
  lemma {:induction false} NormFieldIn(f: Field, y: seq<Field>)
    requires DistinctKeys(y)
    ensures Field(f.key, Norm(f.value)) in NormFields(y)
       <==> Lookup(y, f.key).Some? && Norm(Lookup(y, f.key).value) == Norm(f.value)
  {
    var g, q := Field(f.key, Norm(f.value)), NormFields(y);
    if g in q {
      var j :| 0 <= j < |q| && q[j] == g;
      LookupDistinct(y, j);
    }
    var found := Lookup(y, f.key);
    if found.Some? && Norm(found.value) == Norm(f.value) {
      var j :| 0 <= j < |y| && y[j] == Field(f.key, found.value);
      assert q[j] == g;
    }
  }

  lemma {:induction false} SameItemsIffNorm(x: seq<Value>, y: seq<Value>)
    requires forall i | 0 <= i < |x| && i < |y| :: SameValue(x[i], y[i]) <==> Norm(x[i]) == Norm(y[i])
    ensures SameValue(Arr(x), Arr(y)) <==> NormItems(x) == NormItems(y)
  {
    if NormItems(x) == NormItems(y) {
      forall i | 0 <= i < |x| ensures SameValue(x[i], y[i]) {
        assert NormItems(x)[i] == NormItems(y)[i];
      }
    }
  }

  predicate MembersOf(p: seq<Field>, q: seq<Field>) {
    forall i | 0 <= i < |p| :: p[i] in q
  }

  predicate EntriesFound(x: seq<Field>, y: seq<Field>) {
    forall i | 0 <= i < |x| :: SameEntry(x[i], y)
  }

  lemma {:induction false} SameObjects(x: seq<Field>, y: seq<Field>)
    ensures SameValue(Obj(x), Obj(y)) <==> |x| == |y| && EntriesFound(x, y)
  {
  }

  lemma {:induction false} EntriesFoundIffNorm(x: seq<Field>, y: seq<Field>)
    requires forall i | 0 <= i < |x| :: SameEntry(x[i], y) <==> NormFields(x)[i] in NormFields(y)
    ensures EntriesFound(x, y) <==> MembersOf(NormFields(x), NormFields(y))
  {
  }

  lemma {:induction false} SameFieldsIffNorm(x: seq<Field>, y: seq<Field>)
    requires DistinctKeys(x) && DistinctKeys(y)
    requires forall i | 0 <= i < |x| :: SameEntry(x[i], y) <==> NormFields(x)[i] in NormFields(y)
    ensures SameValue(Obj(x), Obj(y)) <==> SortFields(NormFields(x)) == SortFields(NormFields(y))
  {
    var p, q := NormFields(x), NormFields(y);
    SameObjects(x, y);
    EntriesFoundIffNorm(x, y);
    MembersByIndex(p, q);
    SortIffSameMembers(p, q);
  }

  lemma {:induction false} MembersByIndex(p: seq<Field>, q: seq<Field>)
    ensures (forall f | f in p :: f in q) <==> MembersOf(p, q)
  {
  }

  lemma {:induction false} SameIffNorm(a: Value, b: Value)
    requires WellFormed(a) && WellFormed(b)
    ensures SameValue(a, b) <==> Norm(a) == Norm(b)
    decreases a
  {
    match (a, b)
    case (Arr(x), Arr(y)) =>
      forall i | 0 <= i < |x| && i < |y| ensures SameValue(x[i], y[i]) <==> Norm(x[i]) == Norm(y[i]) {
        SameIffNorm(x[i], y[i]);
      }
      SameItemsIffNorm(x, y);
    case (Obj(x), Obj(y)) =>
      forall i | 0 <= i < |x| ensures SameEntry(x[i], y) <==> NormFields(x)[i] in NormFields(y) {
        NormFieldIn(x[i], y);
        var found := Lookup(y, x[i].key);
        if found.Some? {
          var j :| 0 <= j < |y| && y[j] == Field(x[i].key, found.value);
          SameIffNorm(x[i].value, found.value);
        }
      }
      SameFieldsIffNorm(x, y);
    case _ =>
  }

  /** Two values have one canonical text exactly when they are equal up to the order of their keys. */
  lemma {:induction false} CanonicalIffSame(st: Style, a: Value, b: Value)
    requires StyleOk(st) && WellFormed(a) && WellFormed(b)
    ensures Canonical(st, a) == Canonical(st, b) <==> SameValue(a, b)
  {
    NormWellFormed(a);
    NormWellFormed(b);
    SameIffNorm(a, b);
    if Canonical(st, a) == Canonical(st, b) {
      PrintInjective(st, Norm(a), Norm(b));
    }
  }

  /** Equal dicts have equal texts and numbers under each key. */
  lemma {:induction false} SameLookup(x: seq<Field>, y: seq<Field>, key: string, v: Value)
    requires SameValue(Obj(y), Obj(x)) && Lookup(y, key) == Some(v) && (v.Str? || v.Int?)
    ensures Lookup(x, key) == Some(v)
  {
    var f := Field(key, v);
    var i :| 0 <= i < |y| && y[i] == f;
    assert SameEntry(y[i], x);
    assert SameValue(v, Lookup(x, key).value);
  }

  /** The entries of a dict as a sorted text writes them. */
  function SortedNorm(fields: seq<Field>): seq<Field> {
    SortFields(NormFields(fields))
  }

  lemma {:induction false} SortedNormMembers(fields: seq<Field>, f: Field)
    requires DistinctKeys(fields)
    ensures f in SortedNorm(fields) <==> f in NormFields(fields)
    ensures DistinctKeys(SortedNorm(fields))
  {
    SortMembers(NormFields(fields));
    SortSorted(NormFields(fields));
    SortedDistinct(SortedNorm(fields));
  }

  /** Sorting and normalizing keep what is found under each key, up to normal form. */
  lemma {:induction false} LookupSortedNorm(fields: seq<Field>, key: string)
    requires DistinctKeys(fields)
    ensures Lookup(SortedNorm(fields), key)
         == match Lookup(fields, key) case None => None case Some(v) => Some(Norm(v))
  {
    var sorted, found := SortedNorm(fields), Lookup(fields, key);
    if found.Some? {
      var g := Field(key, Norm(found.value));
      var i :| 0 <= i < |fields| && fields[i] == Field(key, found.value);
      assert NormFields(fields)[i] == g;
      SortedNormMembers(fields, g);
      var j :| 0 <= j < |sorted| && sorted[j] == g;
      LookupDistinct(sorted, j);
    } else if Lookup(sorted, key).Some? {
      var g := Field(key, Lookup(sorted, key).value);
      SortedNormMembers(fields, g);
      NormKeyFound(fields, g);
    }
  }

  lemma {:induction false} NormKeyFound(fields: seq<Field>, g: Field)
    requires g in NormFields(fields)
    ensures Lookup(fields, g.key).Some?
  {
    var i :| 0 <= i < |fields| && NormFields(fields)[i] == g;
    assert Keys(fields)[i] == g.key;
  }
}
