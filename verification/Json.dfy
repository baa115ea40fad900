/**
 * JSON as the ledger writes and reads it: json.dumps in the layouts used by the v1 hash, the v2 canonical
 * form and the signed snapshots, and json.loads with and without the duplicate-key check.  The grammar is that
 * of sections 3 to 7 of RFC 8259, with the three words Python adds for NaN and the infinities.
 */
module Json {
  import opened Text

  /** A float is kept as the literal that stands for it. */
  datatype Value =
    | Null
    | Bool(b: bool)
    | Int(i: int)
    | Float(token: string)
    | NonFinite(token: string)
    | Str(s: string)
    | Arr(items: seq<Value>)
    | Obj(fields: seq<Field>)

  /** One entry of a dict, which keeps its entries in insertion order. */
  datatype Field = Field(key: string, value: Value)

  function Keys(fields: seq<Field>): (ks: seq<string>)
    ensures |ks| == |fields| && forall i | 0 <= i < |ks| :: ks[i] == fields[i].key
  {
    seq(|fields|, i requires 0 <= i < |fields| => fields[i].key)
  }

  predicate DistinctKeys(fields: seq<Field>) {
    forall i, j | 0 <= i < j < |fields| :: fields[i].key != fields[j].key
  }

  function Lookup(fields: seq<Field>, key: string): (r: Option<Value>)
    ensures r.Some? ==> Field(key, r.value) in fields
    ensures r.None? ==> key !in Keys(fields)
  {
    if fields == [] then None
    else if fields[0].key == key then Some(fields[0].value)
    else Lookup(fields[1..], key)
  }

  // ---------- Writing ----------

  /** The separators handed to json.dumps, and its ensure_ascii flag. */
  datatype Style = Style(comma: string, colon: string, ascii: bool)

  const SPACED := Style(", ", ": ", false)
  const COMPACT := Style(",", ":", false)
  const COMPACT_ASCII := Style(",", ":", true)

  predicate StyleOk(st: Style) {
    st.comma in {",", ", "} && st.colon in {":", ": "}
  }

  type Unit16 = n: int | 0 <= n < 0x10000

  function FourDigits(n: Unit16): string {
    [HexDigit(n / 4096), HexDigit(n / 256 % 16), HexDigit(n / 16 % 16), HexDigit(n % 16)]
  }

  /** The same as a value: the digits are computed only where the definition is named. */
  type HexWriter = f: Unit16 -> string | forall n {:trigger FourDigits(n)} :: f(n) == FourDigits(n)
    witness (n: Unit16) => FourDigits(n)

  const HEX4: HexWriter

  /** The letter that stands for c after a backslash. */
  function EscapeLetter(c: char): Option<char> {
    if c == '"' || c == '\\' then Some(c)
    else if c == '\n' then Some('n')
    else if c == '\r' then Some('r')
    else if c == '\t' then Some('t')
    else if c == '\U{000C}' then Some('f')
    else if c == '\U{0008}' then Some('b')
    else None
  }

  function UnicodeEscape(n: Unit16): string {
    "\\u" + HEX4(n)
  }

  function EscapeChar(ascii: bool, c: char): string {
    var n := c as int;
    if EscapeLetter(c).Some? then ['\\', EscapeLetter(c).value]
    else if n < 0x20 then UnicodeEscape(n)
    else if !ascii || n <= 0x7E then [c]
    else if n < 0x10000 then UnicodeEscape(n)
    else UnicodeEscape(0xD800 + (n - 0x10000) / 0x400) + UnicodeEscape(0xDC00 + (n - 0x10000) % 0x400)
  }

  function EscapeAll(ascii: bool, s: string): string {
    if s == [] then "" else EscapeChar(ascii, s[0]) + EscapeAll(ascii, s[1..])
  }

  function Quoted(ascii: bool, s: string): string {
    "\"" + EscapeAll(ascii, s) + "\""
  }

  function PrintInt(i: int): string {
    if i < 0 then "-" + Decimal(-i) else Decimal(i)
  }

  function Print(st: Style, v: Value): string
    decreases v, 0
  {
    match v
    case Null => "null"
    case Bool(b) => if b then "true" else "false"
    case Int(i) => PrintInt(i)
    case Float(token) => token
    case NonFinite(token) => token
    case Str(s) => Quoted(st.ascii, s)
    case Arr(items) => "[" + PrintItems(st, items) + "]"
    case Obj(fields) => "{" + PrintFields(st, fields) + "}"
  }

  function PrintItems(st: Style, items: seq<Value>): string
    decreases items, 1
  {
    if items == [] then ""
    else if |items| == 1 then Print(st, items[0])
    else Print(st, items[0]) + st.comma + PrintItems(st, items[1..])
  }

  function PrintField(st: Style, f: Field): string
    decreases f, 1
  {
    Quoted(st.ascii, f.key) + st.colon + Print(st, f.value)
  }

  function PrintFields(st: Style, fields: seq<Field>): string
    decreases fields, 1
  {
    if fields == [] then ""
    else if |fields| == 1 then PrintField(st, fields[0])
    else PrintField(st, fields[0]) + st.comma + PrintFields(st, fields[1..])
  }

  // ---------- Sorted keys ----------

  /** Code-point order on strings, the order sort_keys uses. */
  predicate LexLess(a: string, b: string) {
    if b == [] then false
    else if a == [] then true
    else if a[0] != b[0] then a[0] < b[0]
    else LexLess(a[1..], b[1..])
  }

  predicate SortedFields(fields: seq<Field>) {
    forall i, j | 0 <= i < j < |fields| :: LexLess(fields[i].key, fields[j].key)
  }

  function InsertField(f: Field, fields: seq<Field>): seq<Field> {
    if fields == [] || LexLess(f.key, fields[0].key) then [f] + fields
    else [fields[0]] + InsertField(f, fields[1..])
  }

  function SortFields(fields: seq<Field>): seq<Field> {
    if fields == [] then [] else InsertField(fields[0], SortFields(fields[1..]))
  }

  /** The value with every object's keys in order, as sort_keys=True writes it. */
  function Norm(v: Value): Value
    decreases v, 0
  {
    match v
    case Arr(items) => Arr(NormItems(items))
    case Obj(fields) => Obj(SortFields(NormFields(fields)))
    case _ => v
  }

  function NormItems(items: seq<Value>): (r: seq<Value>)
    decreases items, 1
    ensures |r| == |items| && forall i | 0 <= i < |r| :: r[i] == Norm(items[i])
  {
    if items == [] then [] else [Norm(items[0])] + NormItems(items[1..])
  }

  function NormFields(fields: seq<Field>): (r: seq<Field>)
    decreases fields, 1
    ensures |r| == |fields|
    ensures forall i | 0 <= i < |r| :: r[i] == Field(fields[i].key, Norm(fields[i].value))
  {
    if fields == [] then []
    else [Field(fields[0].key, Norm(fields[0].value))] + NormFields(fields[1..])
  }

  /** json.dumps(v, sort_keys=True, ...) */
  function Canonical(st: Style, v: Value): string {
    Print(st, Norm(v))
  }

  // ---------- Reading ----------

  datatype Parsed<+T> = Fail | Got(value: T, rest: string)

  predicate IsSpace(c: char) {
    c == ' ' || c == '\t' || c == '\n' || c == '\r'
  }

  function SkipSpace(s: string): (r: string)
    ensures |r| <= |s|
    ensures r == [] || !IsSpace(r[0])
  {
    if s != [] && IsSpace(s[0]) then SkipSpace(s[1..]) else s
  }

  function ReadHex4(s: string): Option<int> {
    if |s| < 4 then None
    else match (HexValue(s[0]), HexValue(s[1]), HexValue(s[2]), HexValue(s[3]))
      case (Some(a), Some(b), Some(c), Some(d)) => Some(4096 * a + 256 * b + 16 * c + d)
      case _ => None
  }

  /** What follows `\u`.  A lone surrogate is no char and is refused. */
  function ReadUnicode(s: string): (p: Parsed<char>)
    ensures p.Got? ==> |p.rest| < |s|
  {
    match ReadHex4(s)
    case None => Fail
    case Some(n) =>
      if 0 <= n < 0xD800 || 0xE000 <= n < 0x10000 then Got(n as char, s[4..])
      else if 0xD800 <= n < 0xDC00 && |s| >= 6 && s[4] == '\\' && s[5] == 'u' then
        match ReadHex4(s[6..])
        case Some(m) =>
          if 0xDC00 <= m < 0xE000
          then Got((0x10000 + 0x400 * (n - 0xD800) + (m - 0xDC00)) as char, s[10..])
          else Fail
        case None => Fail
      else Fail
  }

  /** What follows a backslash. */
  function ReadEscape(s: string): (p: Parsed<char>)
    ensures p.Got? ==> |p.rest| < |s|
  {
    if s == [] then Fail
    else match s[0]
      case '"' => Got('"', s[1..])
      case '\\' => Got('\\', s[1..])
      case '/' => Got('/', s[1..])
      case 'b' => Got('\U{0008}', s[1..])
      case 'f' => Got('\U{000C}', s[1..])
      case 'n' => Got('\n', s[1..])
      case 'r' => Got('\r', s[1..])
      case 't' => Got('\t', s[1..])
      case 'u' => ReadUnicode(s[1..])
      case _ => Fail
  }

  /** The text of a string literal, after its opening quote. */
  function ReadString(s: string): (p: Parsed<string>)
    ensures p.Got? ==> |p.rest| < |s|
    decreases |s|
  {
    if s == [] then Fail
    else if s[0] == '"' then Got("", s[1..])
    else if s[0] == '\\' then
      match ReadEscape(s[1..])
      case Fail => Fail
      case Got(c, rest) =>
        match ReadString(rest)
        case Fail => Fail
        case Got(text, rest') => Got([c] + text, rest')
    else if (s[0] as int) < 0x20 then Fail
    else
      match ReadString(s[1..])
      case Fail => Fail
      case Got(text, rest) => Got([s[0]] + text, rest)
  }

  function DigitRun(s: string): (n: nat)
    ensures n <= |s| && AllDigits(s[..n])
  {
    if s == [] || !IsDigit(s[0]) then 0
    else
      var n := DigitRun(s[1..]);
      assert s[..1 + n] == [s[0]] + s[1..][..n];
      1 + n
  }

  /** Length of `-?(0|[1-9][0-9]*)` at the start of s; 0 when it does not match. */
  function IntLength(s: string): (n: nat)
    ensures n <= |s|
  {
    var p := if s != [] && s[0] == '-' then 1 else 0;
    if |s| <= p then 0
    else if s[p] == '0' then p + 1
    else if DigitRun(s[p..]) > 0 then p + DigitRun(s[p..])
    else 0
  }

  function FracLength(s: string): (n: nat)
    ensures n <= |s|
  {
    if s != [] && s[0] == '.' && DigitRun(s[1..]) > 0 then 1 + DigitRun(s[1..]) else 0
  }

  function ExpLength(s: string): (n: nat)
    ensures n <= |s|
  {
    if s != [] && (s[0] == 'e' || s[0] == 'E') then
      var p := if |s| > 1 && (s[1] == '+' || s[1] == '-') then 2 else 1;
      if DigitRun(s[p..]) > 0 then p + DigitRun(s[p..]) else 0
    else 0
  }

  /** Length of the number literal at the start of s, and whether it has a fraction or an exponent. */
  function NumberLength(s: string): (r: (nat, bool))
    ensures r.0 <= |s|
    ensures r.0 > 0 ==> r.0 >= IntLength(s) > 0
    ensures !r.1 ==> r.0 == IntLength(s)
  {
    var i := IntLength(s);
    if i == 0 then (0, false)
    else
      var f := FracLength(s[i..]);
      var e := ExpLength(s[i + f..]);
      (i + f + e, f + e > 0)
  }

  predicate IsFloatToken(t: string) {
    t != [] && NumberLength(t) == (|t|, true)
  }

  function IntValue(t: string): int
    requires IntLength(t) == |t| > 0
  {
    if t[0] == '-' then -(DecimalValueOrZero(t[1..]) as int) else DecimalValueOrZero(t)
  }

  function DecimalValueOrZero(t: string): nat {
    if AllDigits(t) then DecimalValue(t) else 0
  }

  function ReadNumber(s: string): (p: Parsed<Value>)
    ensures p.Got? ==> |p.rest| < |s|
  {
    var (n, float) := NumberLength(s);
    if n == 0 then Fail
    else if float then Got(Float(s[..n]), s[n..])
    else
      IntLengthTake(s, n);
      Got(Int(IntValue(s[..n])), s[n..])
  }

  predicate StartsWith(s: string, w: string) {
    |w| <= |s| && s[..|w|] == w
  }

  /** A value that is neither a string nor a container. */
  function ReadAtom(s: string): (p: Parsed<Value>)
    ensures p.Got? ==> |p.rest| < |s|
  {
    if StartsWith(s, "null") then Got(Null, s[4..])
    else if StartsWith(s, "true") then Got(Bool(true), s[4..])
    else if StartsWith(s, "false") then Got(Bool(false), s[5..])
    else if NumberLength(s).0 > 0 then ReadNumber(s)
    else if StartsWith(s, "NaN") then Got(NonFinite("NaN"), s[3..])
    else if StartsWith(s, "Infinity") then Got(NonFinite("Infinity"), s[8..])
    else if StartsWith(s, "-Infinity") then Got(NonFinite("-Infinity"), s[9..])
    else Fail
  }

  /** dict(pairs): a repeated key keeps its first place and takes its last value. */
  function PutField(fields: seq<Field>, f: Field): seq<Field> {
    if fields == [] then [f]
    else if fields[0].key == f.key then [f] + fields[1..]
    else [fields[0]] + PutField(fields[1..], f)
  }

  function BuildDict(pairs: seq<Field>): seq<Field> {
    if pairs == [] then [] else PutField(BuildDict(pairs[..|pairs| - 1]), pairs[|pairs| - 1])
  }

  /** One value at the start of s.  `strict` refuses an object with a repeated key. */
  function ReadValue(strict: bool, s: string): (p: Parsed<Value>)
    ensures p.Got? ==> |p.rest| < |s|
    decreases |s|, 0
  {
    if s == [] then Fail
    else if s[0] == '"' then ReadStringValue(s[1..])
    else if s[0] == '{' then ReadObject(strict, SkipSpace(s[1..]))
    else if s[0] == '[' then ReadArray(strict, SkipSpace(s[1..]))
    else ReadAtom(s)
  }

  function ReadStringValue(s: string): (p: Parsed<Value>)
    ensures p.Got? ==> |p.rest| < |s|
  {
    match ReadString(s)
    case Fail => Fail
    case Got(text, rest) => Got(Str(text), rest)
  }

  /** The rest of an array, after its opening bracket and white space. */
  function ReadArray(strict: bool, t: string): (p: Parsed<Value>)
    ensures p.Got? ==> |p.rest| < |t|
    decreases |t|, 2
  {
    if t != [] && t[0] == ']' then Got(Arr([]), t[1..])
    else
      match ReadItems(strict, t)
      case Fail => Fail
      case Got(items, rest) => Got(Arr(items), rest)
  }

  /** The rest of an object, after its opening brace and white space. */
  function ReadObject(strict: bool, t: string): (p: Parsed<Value>)
    ensures p.Got? ==> |p.rest| < |t|
    decreases |t|, 2
  {
    if t != [] && t[0] == '}' then Got(Obj([]), t[1..])
    else
      match ReadMembers(strict, t)
      case Fail => Fail
      case Got(pairs, rest) =>
        if strict && !DistinctKeys(pairs) then Fail else Got(Obj(BuildDict(pairs)), rest)
  }

  /** The items of a non-empty array and its closing bracket. */
  function ReadItems(strict: bool, s: string): (p: Parsed<seq<Value>>)
    ensures p.Got? ==> |p.rest| < |s|
    decreases |s|, 1
  {
    match ReadValue(strict, s)
    case Fail => Fail
    case Got(v, rest) =>
      var t := SkipSpace(rest);
      if t == [] then Fail
      else if t[0] == ']' then Got([v], t[1..])
      else if t[0] == ',' then
        match ReadItems(strict, SkipSpace(t[1..]))
        case Fail => Fail
        case Got(items, rest') => Got([v] + items, rest')
      else Fail
  }

  /** The members of a non-empty object and its closing brace. */
  function ReadMembers(strict: bool, s: string): (p: Parsed<seq<Field>>)
    ensures p.Got? ==> |p.rest| < |s|
    decreases |s|, 1
  {
    if s == [] || s[0] != '"' then Fail
    else
      match ReadString(s[1..])
      case Fail => Fail
      case Got(key, afterKey) =>
        var c := SkipSpace(afterKey);
        if c == [] || c[0] != ':' then Fail
        else
          match ReadValue(strict, SkipSpace(c[1..]))
          case Fail => Fail
          case Got(v, rest) =>
            var t := SkipSpace(rest);
            if t == [] then Fail
            else if t[0] == '}' then Got([Field(key, v)], t[1..])
            else if t[0] == ',' then
              match ReadMembers(strict, SkipSpace(t[1..]))
              case Fail => Fail
              case Got(fields, rest') => Got([Field(key, v)] + fields, rest')
            else Fail
  }

  /** json.loads; with `strict`, through the hook that rejects duplicate keys. */
  function Loads(strict: bool, text: string): Option<Value> {
    match ReadValue(strict, SkipSpace(text))
    case Fail => None
    case Got(v, rest) => if SkipSpace(rest) == [] then Some(v) else None
  }

  // ---------- Values the format can carry ----------

  predicate WellFormed(v: Value)
    decreases v, 0
  {
    match v
    case Float(token) => IsFloatToken(token)
    case NonFinite(token) => token in {"NaN", "Infinity", "-Infinity"}
    case Arr(items) => forall i | 0 <= i < |items| :: WellFormed(items[i])
    case Obj(fields) => DistinctKeys(fields) && forall i | 0 <= i < |fields| :: WellFormed(fields[i].value)
    case _ => true
  }

  /** No NaN or infinity anywhere: what `_reject_non_finite` and `allow_nan=False` let through. */
  predicate Finite(v: Value)
    decreases v, 0
  {
    match v
    case NonFinite(_) => false
    case Arr(items) => forall i | 0 <= i < |items| :: Finite(items[i])
    case Obj(fields) => forall i | 0 <= i < |fields| :: Finite(fields[i].value)
    case _ => true
  }

  /** Equality of tagged values, where two dicts are equal when they have as many entries and each key of one
      is found in the other with an equal value.  1, 1.0 and true, which Python calls equal, are three values. */
  predicate SameValue(a: Value, b: Value)
    decreases a
  {
    match (a, b)
    case (Arr(x), Arr(y)) => |x| == |y| && forall i | 0 <= i < |x| :: SameValue(x[i], y[i])
    case (Obj(x), Obj(y)) => |x| == |y| && forall i | 0 <= i < |x| :: SameEntry(x[i], y)
    case _ => a == b
  }

  predicate SameEntry(f: Field, fields: seq<Field>)
    decreases f
  {
    var found := Lookup(fields, f.key);
    found.Some? && SameValue(f.value, found.value)
  }

  // ---------- Number literals keep their extent ----------

  lemma {:induction false} DigitRunTake(s: string, m: nat)
    requires m <= |s|
    ensures DigitRun(s[..m]) == if m <= DigitRun(s) then m else DigitRun(s)
  {
    if m > 0 && IsDigit(s[0]) {
      assert s[..m][1..] == s[1..][..m - 1];
      DigitRunTake(s[1..], m - 1);
    }
  }

  lemma {:induction false} DigitRunDropTake(s: string, p: nat, m: nat)
    requires p <= m <= |s| && m >= p + DigitRun(s[p..])
    ensures DigitRun(s[..m][p..]) == DigitRun(s[p..])
  {
    assert s[..m][p..] == s[p..][..m - p];
    DigitRunTake(s[p..], m - p);
  }

  lemma {:induction false} IntLengthTake(s: string, m: nat)
    requires IntLength(s) <= m <= |s| && IntLength(s) > 0
    ensures IntLength(s[..m]) == IntLength(s)
  {
    var p := if s[0] == '-' then 1 else 0;
    if s[p] != '0' {
      DigitRunDropTake(s, p, m);
    }
  }

  lemma {:induction false} FracLengthTake(s: string, m: nat)
    requires FracLength(s) <= m <= |s|
    ensures FracLength(s[..m]) == FracLength(s)
  {
    if m > 0 && s[0] == '.' {
      if m >= 1 + DigitRun(s[1..]) {
        DigitRunDropTake(s, 1, m);
      }
    }
  }
}
