/**
 * The canonical form in plain terms: which order the keys are in, what the layouts look like, and what the readers
 * refuse.
 */
module JsonForm {
  import opened Text
  import opened Json
  import opened JsonProofs

  // ---------- The order of the keys ----------

  /** By code point at the first difference, and a prefix before what it begins. */
  predicate KeyBefore(k: string, l: string) {
    k < l || exists i | 0 <= i < |k| && i < |l| :: k[..i] == l[..i] && k[i] < l[i]
  }

  lemma {:induction false} LexIsBefore(k: string, l: string)
    ensures LexLess(k, l) <==> KeyBefore(k, l)
  {
    if k != [] && l != [] {
      if k[0] == l[0] {
        LexIsBefore(k[1..], l[1..]);
        SameFirst(k[0], k[1..], l[1..]);
        assert k == [k[0]] + k[1..] && l == [k[0]] + l[1..];
      } else if k[0] < l[0] {
        assert k[..0] == l[..0];
      } else {
        assert !(k < l);
      }
    }
  }

  /** A first character in common does not matter. */
  lemma {:induction false} SameFirst(c: char, x: string, y: string)
    ensures KeyBefore([c] + x, [c] + y) <==> KeyBefore(x, y)
  {
    var k, l := [c] + x, [c] + y;
    if i :| 0 <= i < |x| && i < |y| && x[..i] == y[..i] && x[i] < y[i] {
      assert k[..i + 1] == [c] + x[..i] && l[..i + 1] == [c] + y[..i];
      assert k[i + 1] < l[i + 1];
    }
    if i :| 0 <= i < |k| && i < |l| && k[..i] == l[..i] && k[i] < l[i] {
      assert x[..i - 1] == k[..i][1..] && y[..i - 1] == l[..i][1..];
      assert x[i - 1] < y[i - 1];
    }
    assert k[1..] == x && l[1..] == y;
  }

  /** The value and all values inside it have their keys in order. */
  predicate KeysInOrder(v: Value)
    decreases v
  {
    match v
    case Arr(items) => forall i | 0 <= i < |items| :: KeysInOrder(items[i])
    case Obj(fields) =>
      && (forall i | 0 < i < |fields| :: KeyBefore(fields[i - 1].key, fields[i].key))
      && forall i | 0 <= i < |fields| :: KeysInOrder(fields[i].value)
    case _ => true
  }

  lemma {:induction false} NeighboursSorted(fields: seq<Field>)
    ensures SortedFields(fields) <==> forall i | 0 < i < |fields| :: KeyBefore(fields[i - 1].key, fields[i].key)
  {
    forall i | 0 < i < |fields| ensures LexLess(fields[i - 1].key, fields[i].key) <==> KeyBefore(fields[i - 1].key, fields[i].key) {
      LexIsBefore(fields[i - 1].key, fields[i].key);
    }
    if forall i | 0 < i < |fields| :: KeyBefore(fields[i - 1].key, fields[i].key) {
      forall i, j | 0 <= i < j < |fields| ensures LexLess(fields[i].key, fields[j].key) {
        Ascends(fields, i, j);
      }
    }
  }

  lemma {:induction false} Ascends(fields: seq<Field>, i: nat, j: nat)
    requires i < j < |fields| && forall k | 0 < k < |fields| :: LexLess(fields[k - 1].key, fields[k].key)
    ensures LexLess(fields[i].key, fields[j].key)
  {
    if i + 1 < j {
      Ascends(fields, i, j - 1);
      LexLessTransitive(fields[i].key, fields[j - 1].key, fields[j].key);
    }
  }

  /** What is written has, in every object inside it, each key before the next one. */
  lemma {:induction false} NormOrdersKeys(v: Value)
    requires WellFormed(v)
    ensures KeysInOrder(Norm(v))
    decreases v
  {
    match v
    case Arr(items) =>
      forall i | 0 <= i < |items| ensures KeysInOrder(Norm(items[i])) {
        NormOrdersKeys(items[i]);
      }
    case Obj(fields) =>
      var inner := NormFields(fields);
      var sorted := SortFields(inner);
      SortSorted(inner);
      NeighboursSorted(sorted);
      forall i | 0 <= i < |fields| ensures KeysInOrder(inner[i].value) {
        NormOrdersKeys(fields[i].value);
      }
      forall k | 0 <= k < |sorted| ensures KeysInOrder(sorted[k].value) {
        SortMembers(inner);
        assert sorted[k] in inner;
      }
    case _ =>
  }

  /** And the same entries: as many, and under each key what was there, in its canonical form. */
  lemma {:induction false} NormKeepsEntries(fields: seq<Field>, key: string)
    requires DistinctKeys(fields)
    ensures
      var written := Norm(Obj(fields)).fields;
      && |written| == |fields|
      && Lookup(written, key) == match Lookup(fields, key) case None => None case Some(v) => Some(Norm(v))
  {
    var inner := NormFields(fields);
    SortSorted(inner);
    assert |SortFields(inner)| == |multiset(SortFields(inner))| == |multiset(inner)| == |inner|;
    LookupSortedNorm(fields, key);
  }

  lemma {:induction false} OrderedIsNormal(v: Value)
    requires KeysInOrder(v)
    ensures Norm(v) == v
    decreases v
  {
    match v
    case Arr(items) =>
      forall i | 0 <= i < |items| ensures Norm(items[i]) == items[i] {
        OrderedIsNormal(items[i]);
      }
      assert NormItems(items) == items;
    case Obj(fields) =>
      forall i | 0 <= i < |fields| ensures Norm(fields[i].value) == fields[i].value {
        OrderedIsNormal(fields[i].value);
      }
      assert NormFields(fields) == fields;
      NeighboursSorted(fields);
      SortOfSorted(fields);
    case _ =>
  }

  /** The canonical text of a value is the plain text of the equal value whose keys are in order. */
  lemma {:induction false} CanonicalIs(st: Style, v: Value, ordered: Value)
    requires WellFormed(v) && WellFormed(ordered) && KeysInOrder(ordered) && SameValue(v, ordered)
    ensures Canonical(st, v) == Print(st, ordered)
  {
    SameIffNorm(v, ordered);
    OrderedIsNormal(ordered);
  }

  // ---------- The layouts ----------

  /** sep.join(parts) */
  function Joined(sep: string, parts: seq<string>): string {
    if parts == [] then ""
    else if |parts| == 1 then parts[0]
    else parts[0] + sep + Joined(sep, parts[1..])
  }

  /** "key": value */
  function Members(st: Style, fields: seq<Field>): (parts: seq<string>)
    ensures |parts| == |fields|
    ensures forall i | 0 <= i < |parts| :: parts[i] == Quoted(st.ascii, fields[i].key) + st.colon + Print(st, fields[i].value)
  {
    seq(|fields|, i requires 0 <= i < |fields| => Quoted(st.ascii, fields[i].key) + st.colon + Print(st, fields[i].value))
  }

  lemma {:induction false} PrintedObject(st: Style, fields: seq<Field>)
    ensures PrintFields(st, fields) == Joined(st.comma, Members(st, fields))
  {
    var parts := Members(st, fields);
    if |fields| > 1 {
      PrintedObject(st, fields[1..]);
      assert parts[1..] == Members(st, fields[1..]);
    }
  }

  predicate Plain(s: string) {
    forall i | 0 <= i < |s| :: 0x20 <= s[i] as int <= 0x7E && s[i] != '"' && s[i] != '\\'
  }

  /** A text without quotes, backslashes, control characters and what is not ASCII is written as it is. */
  lemma {:induction false} QuotedPlain(ascii: bool, s: string)
    requires Plain(s)
    ensures Quoted(ascii, s) == "\"" + s + "\""
  {
    EscapedPlain(ascii, s);
  }

  lemma {:induction false} EscapedPlain(ascii: bool, s: string)
    requires Plain(s)
    ensures EscapeAll(ascii, s) == s
  {
    if s != [] {
      EscapedPlain(ascii, s[1..]);
      assert EscapeChar(ascii, s[0]) == [s[0]];
      assert s == [s[0]] + s[1..];
    }
  }

  // ---------- What the readers refuse ----------

  /** A written value followed by anything but white space is no JSON text. */
  lemma {:induction false} MoreTextRefused(st: Style, v: Value, rest: string, strict: bool)
    requires StyleOk(st) && WellFormed(v) && Delimits(rest) && SkipSpace(rest) != []
    ensures Loads(strict, Print(st, v) + rest) == None
  {
    ReadPrint(st, v, rest, strict);
    PrintStart(st, v);
    assert (Print(st, v) + rest)[0] == Print(st, v)[0];
    SkipNothing(Print(st, v) + rest);
  }

  lemma {:induction false} ReadsMembers(st: Style, fields: seq<Field>, strict: bool)
    requires StyleOk(st) && fields != [] && forall i | 0 <= i < |fields| :: WellFormed(fields[i].value)
    ensures Loads(strict, Print(st, Obj(fields)))
         == if strict && !DistinctKeys(fields) then None else Some(Obj(BuildDict(fields)))
  {
    var t := PrintFields(st, fields) + "}";
    BodyReads(st, fields, strict);
    PrintBraced(st, fields, t);
    LoadsBraced(strict, t, fields);
  }

  lemma {:induction false} PrintBraced(st: Style, fields: seq<Field>, t: string)
    requires t == PrintFields(st, fields) + "}"
    ensures Print(st, Obj(fields)) == "{" + t
  {
  }

  lemma {:induction false} BodyReads(st: Style, fields: seq<Field>, strict: bool)
    requires StyleOk(st) && fields != [] && forall i | 0 <= i < |fields| :: WellFormed(fields[i].value)
    ensures var t := PrintFields(st, fields) + "}"; t[0] == '"' && ReadMembers(strict, t) == Got(fields, "")
  {
    ReadPrintFields(st, fields, "", strict);
    PrintFieldsStart(st, fields);
    assert PrintFields(st, fields) + "}" + "" == PrintFields(st, fields) + "}";
  }

  lemma {:induction false} LoadsBraced(strict: bool, t: string, fields: seq<Field>)
    requires t != [] && !IsSpace(t[0]) && t[0] != '}' && ReadMembers(strict, t) == Got(fields, "")
    ensures Loads(strict, "{" + t) == if strict && !DistinctKeys(fields) then None else Some(Obj(BuildDict(fields)))
  {
    var s := "{" + t;
    assert s[1..] == t && s[0] == '{';
    SkipNothing(s);
    SkipNothing(t);
    assert ReadValue(strict, s) == ReadObject(strict, t) && SkipSpace("") == "";
  }

  /** The value of the last entry with a key. */
  function LastUnder(pairs: seq<Field>, key: string): Option<Value> {
    if pairs == [] then None
    else if pairs[|pairs| - 1].key == key then Some(pairs[|pairs| - 1].value)
    else LastUnder(pairs[..|pairs| - 1], key)
  }

  lemma {:induction false} PutLookup(fields: seq<Field>, f: Field, key: string)
    ensures Lookup(PutField(fields, f), key) == if f.key == key then Some(f.value) else Lookup(fields, key)
  {
    if fields != [] && fields[0].key != f.key {
      PutLookup(fields[1..], f, key);
    }
  }

  lemma {:induction false} LastWins(pairs: seq<Field>, key: string)
    ensures Lookup(BuildDict(pairs), key) == LastUnder(pairs, key)
  {
    if pairs != [] {
      LastWins(pairs[..|pairs| - 1], key);
      PutLookup(BuildDict(pairs[..|pairs| - 1]), pairs[|pairs| - 1], key);
    }
  }

  /** An object text with a repeated key: the strict reader refuses it, the plain one takes the last value of each key. */
  lemma {:induction false} RepeatedKey(st: Style, fields: seq<Field>, key: string)
    requires StyleOk(st) && !DistinctKeys(fields) && forall i | 0 <= i < |fields| :: WellFormed(fields[i].value)
    ensures Loads(true, Print(st, Obj(fields))) == None
    ensures var read := Loads(false, Print(st, Obj(fields)));
      read.Some? && read.value.Obj? && Lookup(read.value.fields, key) == LastUnder(fields, key)
  {
    ReadsMembers(st, fields, true);
    ReadsMembers(st, fields, false);
    LastWins(fields, key);
  }
}
