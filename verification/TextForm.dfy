/** What the bytes and numerals of the text layer are, character by character. */
module TextForm {
  import opened Text

  // ---------- UTF-8 (section 3 of RFC 3629) ----------

  predicate IsTail(b: byte) {
    0x80 <= b <= 0xBF
  }

  /** One byte below U+0080, and above that a lead byte for two, three or four bytes, each other byte with six bits. */
  lemma {:induction false} CharacterBytes(c: char)
    ensures
      var n, b := c as int, Utf8([c]);
      && (n <= 0x7F ==> b == [n])
      && (0x80 <= n <= 0x7FF ==>
            && |b| == 2 && 0xC0 <= b[0] <= 0xDF && IsTail(b[1])
            && n == (b[0] as int - 0xC0) * 64 + (b[1] as int - 0x80))
      && (0x800 <= n <= 0xFFFF ==>
            && |b| == 3 && 0xE0 <= b[0] <= 0xEF && IsTail(b[1]) && IsTail(b[2])
            && n == (b[0] as int - 0xE0) * 4096 + (b[1] as int - 0x80) * 64 + (b[2] as int - 0x80))
      && (0x10000 <= n ==>
            && |b| == 4 && 0xF0 <= b[0] <= 0xF4 && IsTail(b[1]) && IsTail(b[2]) && IsTail(b[3])
            && n == (b[0] as int - 0xF0) * 262144 + (b[1] as int - 0x80) * 4096 + (b[2] as int - 0x80) * 64 + (b[3] as int - 0x80))
  {
    assert [c][1..] == [];
    Base64Digits(c as int);
    assert Utf8([c]) == Utf8Char(c);
  }

  /** Texts are encoded character by character. */
  lemma {:induction false} Utf8Concat(s: string, t: string)
    ensures Utf8(s + t) == Utf8(s) + Utf8(t)
  {
    if s == [] {
      assert s + t == t;
    } else {
      assert (s + t)[1..] == s[1..] + t;
      Utf8Concat(s[1..], t);
    }
  }

  // ---------- Hexadecimal ----------

  /** Two lower-case digits a byte, the high one first. */
  lemma {:induction false} HexDigitsAre(b: Bytes, i: nat)
    requires i < |b|
    ensures |Hex(b)| == 2 * |b|
    ensures Hex(b)[2 * i] == "0123456789abcdef"[b[i] / 16] && Hex(b)[2 * i + 1] == "0123456789abcdef"[b[i] % 16]
  {
    var first := [HexDigit(b[0] / 16), HexDigit(b[0] % 16)];
    assert Hex(b) == first + Hex(b[1..]);
    if i > 0 {
      HexDigitsAre(b[1..], i - 1);
      assert Hex(b)[2 * i] == Hex(b[1..])[2 * (i - 1)] && Hex(b)[2 * i + 1] == Hex(b[1..])[2 * (i - 1) + 1];
    }
  }

  /** A character that stands for the digit n, in either case. */
  predicate StandsFor(c: char, n: int)
    requires 0 <= n < 16
  {
    c == "0123456789abcdef"[n] || c == "0123456789ABCDEF"[n]
  }

  lemma {:induction false} HexValueIs(c: char, n: int)
    requires 0 <= n < 16
    ensures HexValue(c) == Some(n) <==> StandsFor(c, n)
  {
  }

  lemma {:induction false} FromHexPair(c: char, d: char, tail: string)
    requires HexValue(c).Some? && HexValue(d).Some?
    ensures FromHex([c, d] + tail)
         == match FromHex(tail)
            case None => None
            case Some(rest) => Some([16 * HexValue(c).value + HexValue(d).value] + rest)
  {
    var s := [c, d] + tail;
    assert s[0] == c && s[1] == d && s[2..] == tail && !IsAsciiSpace(c);
  }

  /** Reading s and t together is reading s and then t. */
  predicate ReadsOn(s: string, t: string) {
    && FromHex(s).Some?
    && FromHex(s + t) == match FromHex(t) case None => None case Some(rest) => Some(FromHex(s).value + rest)
  }

  lemma {:induction false} SpaceFirst(c: char, tail: string)
    requires IsAsciiSpace(c)
    ensures FromHex([c] + tail) == FromHex(tail)
  {
    assert ([c] + tail)[1..] == tail;
  }

  lemma {:induction false} SpaceConcat(c: char, s: string, t: string)
    requires IsAsciiSpace(c) && ReadsOn(s, t)
    ensures ReadsOn([c] + s, t)
  {
    SpaceFirst(c, s);
    SpaceFirst(c, s + t);
    Regrouped([c], s, t);
  }

  lemma {:induction false} Regrouped(a: string, b: string, c: string)
    ensures a + b + c == a + (b + c)
  {
  }

  lemma {:induction false} PairReads(c: char, d: char, s: string, t: string)
    requires HexValue(c).Some? && HexValue(d).Some? && FromHex(s).Some?
    requires FromHex(s + t) == match FromHex(t) case None => None case Some(rest) => Some(FromHex(s).value + rest)
    ensures FromHex([c, d] + s).Some?
    ensures FromHex([c, d] + (s + t))
         == match FromHex(t) case None => None case Some(rest) => Some(FromHex([c, d] + s).value + rest)
  {
    FromHexPair(c, d, s);
    FromHexPair(c, d, s + t);
    if FromHex(t).Some? {
      var b := 16 * HexValue(c).value + HexValue(d).value;
      assert [b] + (FromHex(s).value + FromHex(t).value) == ([b] + FromHex(s).value) + FromHex(t).value;
    }
  }

  lemma {:induction false} PairConcat(c: char, d: char, s: string, t: string)
    requires HexValue(c).Some? && HexValue(d).Some? && ReadsOn(s, t)
    ensures ReadsOn([c, d] + s, t)
  {
    PairReads(c, d, s, t);
    Regrouped([c, d], s, t);
  }

  lemma {:induction false} NothingConcat(t: string)
    ensures ReadsOn("", t)
  {
    assert "" + t == t;
    assert FromHex(t).Some? ==> [] + FromHex(t).value == FromHex(t).value;
  }

  /** What is read so far does not depend on what follows. */
  lemma {:induction false} FromHexConcat(s: string, t: string)
    requires FromHex(s).Some?
    ensures ReadsOn(s, t)
  {
    if s == [] {
      NothingConcat(t);
    } else if IsAsciiSpace(s[0]) {
      FromHexConcat(s[1..], t);
      SpaceConcat(s[0], s[1..], t);
      assert s == [s[0]] + s[1..];
    } else {
      FromHexConcat(s[2..], t);
      PairConcat(s[0], s[1], s[2..], t);
      assert s == [s[0], s[1]] + s[2..];
    }
  }

  predicate IsBetween(c: char) {
    c in " \t\n\U{0B}\U{0C}\r"
  }

  predicate IsHexDigit(c: char) {
    c in "0123456789abcdefABCDEF"
  }

  lemma {:induction false} CharacterKinds(c: char)
    ensures IsAsciiSpace(c) <==> IsBetween(c)
    ensures HexValue(c).Some? <==> IsHexDigit(c)
  {
  }

  /** Wherever a byte may begin, white space is skipped. */
  lemma {:induction false} FromHexSkips(s: string, c: char, t: string)
    requires FromHex(s).Some? && IsBetween(c)
    ensures FromHex(s + [c] + t) == FromHex(s + t)
  {
    CharacterKinds(c);
    assert ([c] + t)[1..] == t && s + [c] + t == s + ([c] + t);
    FromHexConcat(s, t);
    FromHexConcat(s, [c] + t);
  }

  /** Otherwise two digits of either case are the next byte, the high one first. */
  lemma {:induction false} FromHexReads(s: string, c: char, d: char, m: int, n: int)
    requires FromHex(s).Some? && 0 <= m < 16 && 0 <= n < 16 && StandsFor(c, m) && StandsFor(d, n)
    ensures FromHex(s + [c, d]) == Some(FromHex(s).value + [16 * m + n])
  {
    HexValueIs(c, m);
    HexValueIs(d, n);
    FromHexConcat(s, [c, d]);
    FromHexPair(c, d, "");
    var b: byte := 16 * m + n;
    assert [c, d] + "" == [c, d] && [b] + [] == [b];
  }

  /** And anything else is refused: one character alone at the end, and a pair that are not both digits. */
  lemma {:induction false} FromHexRefuses(s: string, c: char, d: char, t: string)
    requires FromHex(s).Some? && !IsBetween(c)
    ensures FromHex(s + [c]) == None
    ensures !IsHexDigit(c) || !IsHexDigit(d) ==> FromHex(s + [c, d] + t) == None
  {
    CharacterKinds(c);
    CharacterKinds(d);
    FromHexConcat(s, [c]);
    assert s + [c, d] + t == s + ([c, d] + t);
    FromHexConcat(s, [c, d] + t);
  }

  // ---------- Decimal, and lines ----------

  /** One digit below ten, and otherwise the numeral of the tens with the last digit after it. */
  lemma {:induction false} DecimalSteps(m: nat, d: nat)
    requires d < 10
    ensures Decimal(if m == 0 then d else 10 * m + d) == (if m == 0 then "" else Decimal(m)) + ["0123456789"[d]]
  {
    assert m > 0 ==> (10 * m + d) / 10 == m && (10 * m + d) % 10 == d;
  }

  /** Lines are joined by one newline between neighbours. */
  lemma {:induction false} JoinLinesLast(lines: seq<string>, line: string)
    ensures JoinLines(lines + [line]) == if lines == [] then line else JoinLines(lines) + "\n" + line
  {
    if lines == [] {
      assert lines + [line] == [line];
    } else {
      JoinLinesLast(lines[1..], line);
      assert (lines + [line])[1..] == lines[1..] + [line];
      if |lines| > 1 {
        assert lines[0] + "\n" + (JoinLines(lines[1..]) + "\n" + line) == lines[0] + "\n" + JoinLines(lines[1..]) + "\n" + line;
      }
    }
  }
}
