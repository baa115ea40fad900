/** What append writes reads back and verifies, and what the head of a segment determines. */
module SegmentProofs {
  import opened Text
  import opened Sha
  import opened Json
  import opened JsonProofs
  import JsonForm
  import opened Chain
  import opened Store
  import opened Segment

  lemma {:induction false} ShapeSurvives(fields: seq<Field>)
    requires DistinctKeys(fields) && PREIMAGE_OK(fields)
    ensures PREIMAGE_OK(SortedNorm(fields))
  {
    var g := SortedNorm(fields);
    assert PREIMAGE_OK(fields) == ShapeOk(fields) && PREIMAGE_OK(g) == ShapeOk(g);
    LookupSortedNorm(fields, "schema_version");
    LookupSortedNorm(fields, "seq");
    LookupSortedNorm(fields, "prev_hash");
    LookupSortedNorm(fields, "record_hash");
    KeysSurvive(fields);
    forall i | 0 <= i < |TEXT_FIELDS| ensures TextOk(g, TEXT_FIELDS[i]) {
      LookupSortedNorm(fields, TEXT_FIELDS[i]);
      assert TextOk(fields, TEXT_FIELDS[i]);
    }
    forall i | 0 <= i < |DICT_FIELDS| ensures DictOk(g, DICT_FIELDS[i]) {
      LookupSortedNorm(fields, DICT_FIELDS[i]);
      assert DictOk(fields, DICT_FIELDS[i]);
    }
  }

  lemma {:induction false} KeysSurvive(fields: seq<Field>)
    requires DistinctKeys(fields) && KeysExact(fields)
    ensures KeysExact(SortedNorm(fields))
  {
    var g := SortedNorm(fields);
    forall i | 0 <= i < |REQUIRED| ensures Lookup(g, REQUIRED[i]).Some? {
      LookupSortedNorm(fields, REQUIRED[i]);
    }
    forall j | 0 <= j < |g| ensures g[j].key in REQUIRED {
      SortedNormMembers(fields, g[j]);
      assert g[j] in NormFields(fields);
      var i :| 0 <= i < |fields| && NormFields(fields)[i] == g[j];
      assert fields[i].key in REQUIRED;
    }
  }

  lemma {:induction false} HashAtSurvives(fields: seq<Field>, key: string)
    requires DistinctKeys(fields)
    ensures HashAt(SortedNorm(fields), key) == HashAt(fields, key)
  {
    LookupSortedNorm(fields, key);
  }

  lemma {:induction false} SeqOfSurvives(fields: seq<Field>)
    requires DistinctKeys(fields)
    ensures SeqOf(SortedNorm(fields)) == SeqOf(fields)
  {
    LookupSortedNorm(fields, "seq");
  }

  // ---------- Dropping a key ----------

  lemma {:induction false} WithoutMembers(fields: seq<Field>, key: string, f: Field)
    ensures f in Without(fields, key) <==> f in fields && f.key != key
  {
    if fields != [] {
      WithoutMembers(fields[1..], key, f);
      assert fields == [fields[0]] + fields[1..];
    }
  }

  lemma {:induction false} WithoutDistinct(fields: seq<Field>, key: string)
    requires DistinctKeys(fields)
    ensures DistinctKeys(Without(fields, key))
  {
    if fields != [] && fields[0].key != key {
      var rest := Without(fields[1..], key);
      WithoutDistinct(fields[1..], key);
      forall j | 0 <= j < |rest| ensures rest[j].key != fields[0].key {
        WithoutMembers(fields[1..], key, rest[j]);
        assert rest[j] in rest;
      }
    } else if fields != [] {
      WithoutDistinct(fields[1..], key);
    }
  }

  lemma {:induction false} WithoutNorm(fields: seq<Field>, key: string)
    ensures NormFields(Without(fields, key)) == Without(NormFields(fields), key)
  {
    if fields != [] {
      WithoutNorm(fields[1..], key);
      var n := NormFields(fields);
      assert n[1..] == NormFields(fields[1..]);
      if fields[0].key != key {
        var w := Without(fields, key);
        assert w[1..] == Without(fields[1..], key);
        assert NormFields(w) == [n[0]] + NormFields(w[1..]);
      }
    }
  }

  lemma {:induction false} SortedNormIsNormal(fields: seq<Field>)
    requires WellFormed(Obj(fields))
    ensures NormFields(SortedNorm(fields)) == SortedNorm(fields) && WellFormed(Obj(SortedNorm(fields)))
  {
    NormWellFormed(Obj(fields));
    var g := SortedNorm(fields);
    assert Norm(Obj(g)) == Obj(SortFields(NormFields(g)));
    forall i | 0 <= i < |g| ensures NormFields(g)[i] == g[i] {
      assert g[i] in g;
      SortedNormMembers(fields, g[i]);
      var j :| 0 <= j < |fields| && NormFields(fields)[j] == g[i];
      NormWellFormed(fields[j].value);
    }
  }

  /** The preimage of a record does not change when the record is written with its keys in order and read back. */
  lemma {:induction false} PreimageSurvives(fields: seq<Field>)
    requires WellFormed(Obj(fields))
    ensures Norm(Preimage(SortedNorm(fields))) == Norm(Preimage(fields))
  {
    var key, p, g := "record_hash", NormFields(fields), SortedNorm(fields);
    WithoutNorm(fields, key);
    WithoutNorm(g, key);
    SortedNormIsNormal(fields);
    WithoutDistinct(p, key);
    WithoutDistinct(g, key);
    SameMembersSortAlike(Without(g, key), Without(p, key)) by {
      forall f ensures f in Without(g, key) <==> f in Without(p, key) {
        WithoutMembers(g, key, f);
        WithoutMembers(p, key, f);
        SortedNormMembers(fields, f);
      }
    }
  }

  lemma {:induction false} SameMembersSortAlike(p: seq<Field>, q: seq<Field>)
    requires DistinctKeys(p) && DistinctKeys(q) && forall f :: f in p <==> f in q
    ensures SortFields(p) == SortFields(q)
  {
    SortSorted(p);
    SortSorted(q);
    SortMembers(p);
    SortMembers(q);
    SortedUnique(SortFields(p), SortFields(q));
  }

  lemma {:induction false} FinitePreimage(fields: seq<Field>)
    requires WellFormed(Obj(fields))
    ensures Finite(Preimage(fields)) ==> Finite(Preimage(SortedNorm(fields)))
  {
    var key, g := "record_hash", SortedNorm(fields);
    var w := Without(g, key);
    if Finite(Preimage(fields)) {
      forall j | 0 <= j < |w| ensures Finite(w[j].value) {
        assert w[j] in w;
        WithoutMembers(g, key, w[j]);
        SortedNormMembers(fields, w[j]);
        var i :| 0 <= i < |fields| && NormFields(fields)[i] == w[j];
        WithoutMembers(fields, key, fields[i]);
        assert fields[i] in fields && fields[i] in Without(fields, key);
        NormWellFormed(fields[i].value);
      }
    }
  }

  lemma {:induction false} RecordHashSurvives(fields: seq<Field>)
    requires WellFormed(Obj(fields)) && RecordHash(fields).Some?
    ensures RecordHash(SortedNorm(fields)) == RecordHash(fields)
  {
    var g := SortedNorm(fields);
    ShapeSurvives(fields);
    FinitePreimage(fields);
    PreimageSurvives(fields);
    assert CANONICALIZE(Preimage(g)) == Canonical(COMPACT, Preimage(g));
    assert CANONICALIZE(Preimage(fields)) == Canonical(COMPACT, Preimage(fields));
  }

  // ---------- The appended record ----------

  /** Some keys and all later ones are apart in length or in their last letter. */
  predicate ApartFrom(fields: seq<Field>, lo: nat, hi: nat) {
    forall i, j | lo <= i < hi && i < j < |fields| ::
      var k, l := fields[i].key, fields[j].key;
      k != "" && l != "" && (|k| != |l| || k[|k| - 1] != l[|l| - 1])
  }

  lemma {:induction false} FirstKeysApart(e: V2Entry, seqNo: int, now: string, prev: string, hash: string)
    ensures ApartFrom(RecordFields(e, seqNo, now, prev, hash), 0, 5)
  {
  }

  lemma {:induction false} LastKeysApart(e: V2Entry, seqNo: int, now: string, prev: string, hash: string)
    ensures ApartFrom(RecordFields(e, seqNo, now, prev, hash), 5, 14)
  {
  }

  lemma {:induction false} RecordKeysDistinct(e: V2Entry, seqNo: int, now: string, prev: string, hash: string)
    ensures DistinctKeys(RecordFields(e, seqNo, now, prev, hash)) && |RecordFields(e, seqNo, now, prev, hash)| == 14
  {
    FirstKeysApart(e, seqNo, now, prev, hash);
    LastKeysApart(e, seqNo, now, prev, hash);
    ApartInParts(RecordFields(e, seqNo, now, prev, hash), 5);
  }

  lemma {:induction false} ApartInParts(fields: seq<Field>, k: nat)
    requires ApartFrom(fields, 0, k) && ApartFrom(fields, k, |fields|)
    ensures DistinctKeys(fields)
  {
    forall i, j | 0 <= i < j < |fields| ensures fields[i].key != fields[j].key {
    }
  }

  lemma {:induction false} RecordWellFormed(e: V2Entry, seqNo: int, now: string, prev: string, hash: string)
    requires EntryOk(e)
    ensures WellFormed(Obj(RecordFields(e, seqNo, now, prev, hash)))
  {
    RecordKeysDistinct(e, seqNo, now, prev, hash);
  }

  lemma {:induction false} RecordLookups(e: V2Entry, seqNo: int, now: string, prev: string, hash: string)
    ensures
      var f := RecordFields(e, seqNo, now, prev, hash);
      && Lookup(f, "schema_version") == Some(Str(SCHEMA_VERSION)) && Lookup(f, "seq") == Some(Int(seqNo))
      && Lookup(f, "prev_hash") == Some(Str(prev)) && Lookup(f, "record_hash") == Some(Str(hash))
  {
    var f := RecordFields(e, seqNo, now, prev, hash);
    RecordKeysDistinct(e, seqNo, now, prev, hash);
    FieldFound(f, 0, "schema_version", Str(SCHEMA_VERSION));
    FieldFound(f, 2, "seq", Int(seqNo));
    FieldFound(f, 12, "prev_hash", Str(prev));
    FieldFound(f, 13, "record_hash", Str(hash));
  }

  lemma {:induction false} FieldFound(f: seq<Field>, i: nat, key: string, v: Value)
    requires DistinctKeys(f) && i < |f| && f[i] == Field(key, v)
    ensures Lookup(f, key) == Some(v)
  {
    LookupDistinct(f, i);
  }

  lemma {:induction false} WithoutLast(base: seq<Field>, v: Value, key: string)
    ensures Without(base + [Field(key, v)], key) == Without(base, key)
  {
    var all := base + [Field(key, v)];
    if base == [] {
      assert all[1..] == [];
    } else {
      assert all[1..] == base[1..] + [Field(key, v)];
      WithoutLast(base[1..], v, key);
    }
  }

  /** Any two hashes in the last place pass the same checks. */
  lemma {:induction false} ShapeIgnoresHash(e: V2Entry, seqNo: int, now: string, prev: string, h: string, h': string)
    requires IsHash(h) && IsHash(h') && PREIMAGE_OK(RecordFields(e, seqNo, now, prev, h))
    ensures PREIMAGE_OK(RecordFields(e, seqNo, now, prev, h'))
  {
    ShapeNeedsPlace(e, seqNo, now, prev, h);
    RecordShape(e, seqNo, now, prev, h);
    RecordShape(e, seqNo, now, prev, h');
    RecordTexts(e, seqNo, now, prev, h);
    RecordTexts(e, seqNo, now, prev, h');
    RecordDicts(e, seqNo, now, prev, h);
    RecordDicts(e, seqNo, now, prev, h');
  }

  lemma {:induction false} ShapeNeedsPlace(e: V2Entry, seqNo: int, now: string, prev: string, hash: string)
    requires PREIMAGE_OK(RecordFields(e, seqNo, now, prev, hash))
    ensures seqNo >= 1 && IsHash(prev)
  {
    var f := RecordFields(e, seqNo, now, prev, hash);
    assert PREIMAGE_OK(f) == ShapeOk(f);
    RecordLookups(e, seqNo, now, prev, hash);
  }

  /** The hash does not cover its own field: computed over a placeholder it is right for the finished record. */
  lemma {:induction false} HashOfFinished(e: V2Entry, seqNo: int, now: string, prev: string, h: string, h': string)
    requires IsHash(h) && IsHash(h') && RecordHash(RecordFields(e, seqNo, now, prev, h)).Some?
    ensures RecordHash(RecordFields(e, seqNo, now, prev, h')) == RecordHash(RecordFields(e, seqNo, now, prev, h))
  {
    ShapeIgnoresHash(e, seqNo, now, prev, h, h');
    WithoutLast(RecordBase(e, seqNo, now, prev), Str(h), "record_hash");
    WithoutLast(RecordBase(e, seqNo, now, prev), Str(h'), "record_hash");
  }

  lemma {:induction false} GenesisIsHash()
    ensures IsHash(GENESIS)
  {
  }

  /** The line of a record reads back as the record with its keys in order. */
  lemma {:induction false} RecordReadsBack(fields: seq<Field>)
    requires WellFormed(Obj(fields))
    ensures ReadRecord(Canonical(SPACED, Obj(fields))) == Some(SortedNorm(fields))
  {
    var line := Canonical(SPACED, Obj(fields));
    CanonicalRoundTrip(SPACED, Obj(fields), true);
    assert LOADS_STRICT(line) == Loads(true, line);
  }

  lemma {:induction false} AppendedRecordOk(e: V2Entry, seqNo: int, now: string, prev: string, hash: string)
    requires EntryOk(e) && IsHash(prev) && RecordHash(RecordFields(e, seqNo, now, prev, GENESIS)) == Some(hash)
    ensures
      var f := RecordFields(e, seqNo, now, prev, hash);
      WellFormed(Obj(f)) && RecordOk(SortedNorm(f), seqNo, prev)
  {
    GenesisIsHash();
    HashOfFinished(e, seqNo, now, prev, GENESIS, hash);
    RecordWellFormed(e, seqNo, now, prev, hash);
    RecordPlace(e, seqNo, now, prev, hash);
    RecordOkSurvives(RecordFields(e, seqNo, now, prev, hash), seqNo, prev, hash);
  }

  lemma {:induction false} RecordPlace(e: V2Entry, seqNo: int, now: string, prev: string, hash: string)
    requires IsHash(prev) && IsHash(hash)
    ensures var f := RecordFields(e, seqNo, now, prev, hash);
      SeqOf(f) == Some(seqNo) && HashAt(f, "prev_hash") == Some(prev) && HashAt(f, "record_hash") == Some(hash)
  {
    RecordLookups(e, seqNo, now, prev, hash);
  }

  lemma {:induction false} RecordOkSurvives(f: seq<Field>, seqNo: int, prev: string, hash: string)
    requires WellFormed(Obj(f)) && RecordHash(f) == Some(hash)
    requires SeqOf(f) == Some(seqNo) && HashAt(f, "prev_hash") == Some(prev) && HashAt(f, "record_hash") == Some(hash)
    ensures RecordOk(SortedNorm(f), seqNo, prev)
  {
    RecordHashSurvives(f);
    SeqOfSurvives(f);
    HashAtSurvives(f, "prev_hash");
    HashAtSurvives(f, "record_hash");
  }

  lemma {:induction false} PlaceInValid(lines: seq<string>, initial: string)
    requires SegmentOk(lines, initial)
    ensures IsHash(Head(lines, initial))
    ensures NextPlace(lines, initial) == Some((|lines| + 1, Head(lines, initial)))
  {
    forall i | 0 <= i < |lines| ensures ReadRecord(lines[i]).Some? {
      assert LineOk(lines, initial, i);
    }
    if lines != [] {
      assert LineOk(lines, initial, |lines| - 1);
    }
  }

  lemma {:induction false} ExtendSegment(lines: seq<string>, initial: string, line: string)
    requires SegmentOk(lines, initial) && ReadRecord(line).Some?
    requires RecordOk(ReadRecord(line).value, |lines| + 1, Head(lines, initial))
    ensures SegmentOk(lines + [line], initial)
  {
    var all := lines + [line];
    forall i | 0 <= i < |all| ensures LineOk(all, initial, i) {
      assert PrevHash(all, initial, i) == PrevHash(lines, initial, i);
      assert i < |lines| ==> LineOk(lines, initial, i);
    }
  }

  /** An append to a valid segment that does not raise makes it a valid segment with one record more. */
  lemma {:induction false} AppendExtends(lines: seq<string>, initial: string, e: V2Entry, now: string)
    requires SegmentOk(lines, initial) && EntryOk(e) && NEXT_LINE(lines, initial, e, now).Some?
    ensures SegmentOk(lines + [NEXT_LINE(lines, initial, e, now).value], initial)
  {
    assert NEXT_LINE(lines, initial, e, now) == LineFor(lines, initial, e, now);
    PlaceInValid(lines, initial);
    var n, prev := |lines| + 1, Head(lines, initial);
    var hash := RecordHash(RecordFields(e, n, now, prev, GENESIS)).value;
    AppendedRecordOk(e, n, now, prev, hash);
    RecordReadsBack(RecordFields(e, n, now, prev, hash));
    ExtendSegment(lines, initial, NEXT_LINE(lines, initial, e, now).value);
  }

  // ---------- When an append succeeds ----------

  /** The values of the text fields, in the order in which they are checked. */
  function Texts(e: V2Entry, now: string): seq<string> {
    [e.eventType, now, e.component, e.actor, e.action, e.environmentRef]
  }

  function Dicts(e: V2Entry): seq<Value> {
    [e.authority, e.execution, e.verification, e.payload]
  }

  predicate AllTexts(texts: seq<string>) {
    forall i | 0 <= i < |texts| :: !IsBlank(texts[i])
  }

  predicate AllDicts(values: seq<Value>) {
    forall i | 0 <= i < |values| :: values[i].Obj?
  }

  predicate AllFinite(values: seq<Value>) {
    forall i | 0 <= i < |values| :: Finite(values[i])
  }

  /** What a caller can check of a record before appending it. */
  predicate Acceptable(e: V2Entry, now: string) {
    AllTexts(Texts(e, now)) && AllDicts(Dicts(e)) && AllFinite(Dicts(e))
  }

  function TextIndex(i: nat): nat {
    if i == 0 then 1 else if i < 5 then i + 2 else 11
  }

  lemma {:induction false} RecordTextAt(e: V2Entry, seqNo: int, now: string, prev: string, hash: string, i: nat)
    requires i < 6
    ensures var f := RecordFields(e, seqNo, now, prev, hash);
      TextIndex(i) < |f| && f[TextIndex(i)].key == TEXT_FIELDS[i] && f[TextIndex(i)].value == Str(Texts(e, now)[i])
  {
  }

  lemma {:induction false} RecordText(e: V2Entry, seqNo: int, now: string, prev: string, hash: string, i: nat)
    requires i < 6
    ensures TextOk(RecordFields(e, seqNo, now, prev, hash), TEXT_FIELDS[i]) <==> !IsBlank(Texts(e, now)[i])
  {
    RecordKeysDistinct(e, seqNo, now, prev, hash);
    RecordTextAt(e, seqNo, now, prev, hash, i);
    TextAtIndex(RecordFields(e, seqNo, now, prev, hash), TextIndex(i), TEXT_FIELDS[i], Texts(e, now)[i]);
  }

  lemma {:induction false} TextAtIndex(f: seq<Field>, i: nat, key: string, text: string)
    requires DistinctKeys(f) && i < |f| && f[i].key == key && f[i].value == Str(text)
    ensures TextOk(f, key) <==> !IsBlank(text)
  {
    LookupDistinct(f, i);
  }

  lemma {:induction false} RecordDictAt(e: V2Entry, seqNo: int, now: string, prev: string, hash: string, i: nat)
    requires i < 4
    ensures var f := RecordFields(e, seqNo, now, prev, hash);
      |f| == 14 && f[i + 7].key == DICT_FIELDS[i] && f[i + 7].value == Dicts(e)[i]
  {
  }

  lemma {:induction false} RecordDict(e: V2Entry, seqNo: int, now: string, prev: string, hash: string, i: nat)
    requires i < 4
    ensures DictOk(RecordFields(e, seqNo, now, prev, hash), DICT_FIELDS[i]) <==> Dicts(e)[i].Obj?
  {
    RecordKeysDistinct(e, seqNo, now, prev, hash);
    RecordDictAt(e, seqNo, now, prev, hash, i);
    DictAtIndex(RecordFields(e, seqNo, now, prev, hash), i + 7, DICT_FIELDS[i], Dicts(e)[i]);
  }

  lemma {:induction false} DictAtIndex(f: seq<Field>, i: nat, key: string, v: Value)
    requires DistinctKeys(f) && i < |f| && f[i].key == key && f[i].value == v
    ensures DictOk(f, key) <==> v.Obj?
  {
    LookupDistinct(f, i);
  }

  lemma {:induction false} RecordTexts(e: V2Entry, seqNo: int, now: string, prev: string, hash: string)
    ensures TextFieldsOk(RecordFields(e, seqNo, now, prev, hash)) <==> AllTexts(Texts(e, now))
  {
    var f := RecordFields(e, seqNo, now, prev, hash);
    forall i | 0 <= i < 6 ensures TextOk(f, TEXT_FIELDS[i]) <==> !IsBlank(Texts(e, now)[i]) {
      RecordText(e, seqNo, now, prev, hash, i);
    }
  }

  lemma {:induction false} RecordDicts(e: V2Entry, seqNo: int, now: string, prev: string, hash: string)
    ensures DictFieldsOk(RecordFields(e, seqNo, now, prev, hash)) <==> AllDicts(Dicts(e))
  {
    var f := RecordFields(e, seqNo, now, prev, hash);
    forall i | 0 <= i < 4 ensures DictOk(f, DICT_FIELDS[i]) <==> Dicts(e)[i].Obj? {
      RecordDict(e, seqNo, now, prev, hash, i);
    }
  }

  lemma {:induction false} RecordKeysAre(e: V2Entry, seqNo: int, now: string, prev: string, hash: string)
    ensures var f := RecordFields(e, seqNo, now, prev, hash);
      |f| == |REQUIRED| && forall i | 0 <= i < |f| :: f[i].key == REQUIRED[i]
  {
  }

  lemma {:induction false} RecordKeysExact(e: V2Entry, seqNo: int, now: string, prev: string, hash: string)
    ensures KeysExact(RecordFields(e, seqNo, now, prev, hash))
  {
    var f := RecordFields(e, seqNo, now, prev, hash);
    RecordKeysDistinct(e, seqNo, now, prev, hash);
    RecordKeysAre(e, seqNo, now, prev, hash);
    forall i | 0 <= i < |REQUIRED| ensures Lookup(f, REQUIRED[i]).Some? {
      LookupDistinct(f, i);
    }
  }

  lemma {:induction false} RecordShape(e: V2Entry, seqNo: int, now: string, prev: string, hash: string)
    requires seqNo >= 1 && IsHash(prev) && IsHash(hash)
    ensures var f := RecordFields(e, seqNo, now, prev, hash);
      PREIMAGE_OK(f) <==> TextFieldsOk(f) && DictFieldsOk(f)
  {
    RecordKeysExact(e, seqNo, now, prev, hash);
    RecordLookups(e, seqNo, now, prev, hash);
    RecordPlace(e, seqNo, now, prev, hash);
    ShapeParts(RecordFields(e, seqNo, now, prev, hash));
  }

  lemma {:induction false} ShapeParts(f: seq<Field>)
    requires KeysExact(f) && Lookup(f, "schema_version") == Some(Str(SCHEMA_VERSION))
    requires SeqOf(f).Some? && SeqOf(f).value >= 1 && HashAt(f, "prev_hash").Some? && HashAt(f, "record_hash").Some?
    ensures PREIMAGE_OK(f) <==> TextFieldsOk(f) && DictFieldsOk(f)
  {
    assert PREIMAGE_OK(f) == ShapeOk(f);
  }

  lemma {:induction false} FiniteField(f: seq<Field>, i: nat)
    requires Finite(Preimage(f)) && i < |f| && f[i].key != "record_hash"
    ensures Finite(f[i].value)
  {
    var w := Without(f, "record_hash");
    WithoutMembers(f, "record_hash", f[i]);
    var j :| 0 <= j < |w| && w[j] == f[i];
    assert Finite(w[j].value);
  }

  lemma {:induction false} FiniteWithout(f: seq<Field>)
    requires forall i | 0 <= i < |f| :: Finite(f[i].value)
    ensures Finite(Preimage(f))
  {
    var w := Without(f, "record_hash");
    forall j | 0 <= j < |w| ensures Finite(w[j].value) {
      WithoutMembers(f, "record_hash", w[j]);
      assert w[j] in w;
    }
  }

  lemma {:induction false} RecordFinite(e: V2Entry, seqNo: int, now: string, prev: string, hash: string)
    ensures Finite(Preimage(RecordFields(e, seqNo, now, prev, hash))) <==> AllFinite(Dicts(e))
  {
    var f := RecordFields(e, seqNo, now, prev, hash);
    if Finite(Preimage(f)) {
      forall i | 0 <= i < 4 ensures Finite(Dicts(e)[i]) {
        DictIsNoHash(e, seqNo, now, prev, hash, i);
        FiniteField(f, i + 7);
      }
    }
    if AllFinite(Dicts(e)) {
      RecordMembersFinite(e, seqNo, now, prev, hash);
      FiniteWithout(f);
    }
  }

  lemma {:induction false} DictIsNoHash(e: V2Entry, seqNo: int, now: string, prev: string, hash: string, i: nat)
    requires i < 4
    ensures var f := RecordFields(e, seqNo, now, prev, hash);
      |f| == 14 && f[i + 7].value == Dicts(e)[i] && f[i + 7].key != "record_hash"
  {
    RecordDictAt(e, seqNo, now, prev, hash, i);
    assert |DICT_FIELDS[0]| == 9 && |DICT_FIELDS[1]| == 9 && |DICT_FIELDS[2]| == 12 && |DICT_FIELDS[3]| == 7;
    assert |"record_hash"| == 11;
  }

  lemma {:induction false} RecordMembersFinite(e: V2Entry, seqNo: int, now: string, prev: string, hash: string)
    requires AllFinite(Dicts(e))
    ensures var f := RecordFields(e, seqNo, now, prev, hash); forall i | 0 <= i < |f| :: Finite(f[i].value)
  {
    var f := RecordFields(e, seqNo, now, prev, hash);
    forall i | 0 <= i < |f| ensures Finite(f[i].value) {
      if 7 <= i < 11 {
        DictIsNoHash(e, seqNo, now, prev, hash, i - 7);
        assert Finite(Dicts(e)[i - 7]);
      } else {
        assert f[i].value.Str? || f[i].value.Int?;
      }
    }
  }

  lemma {:induction false} HashesWhenAcceptable(e: V2Entry, seqNo: int, now: string, prev: string)
    requires seqNo >= 1 && IsHash(prev)
    ensures RecordHash(RecordFields(e, seqNo, now, prev, GENESIS)).Some? <==> Acceptable(e, now)
  {
    GenesisIsHash();
    RecordShape(e, seqNo, now, prev, GENESIS);
    RecordTexts(e, seqNo, now, prev, GENESIS);
    RecordDicts(e, seqNo, now, prev, GENESIS);
    RecordFinite(e, seqNo, now, prev, GENESIS);
  }

  /** On a valid segment an append raises exactly when the record it is given is not acceptable. */
  lemma {:induction false} AppendSucceedsExactly(lines: seq<string>, initial: string, e: V2Entry, now: string)
    requires SegmentOk(lines, initial)
    ensures NEXT_LINE(lines, initial, e, now).Some? <==> Acceptable(e, now)
  {
    assert NEXT_LINE(lines, initial, e, now) == LineFor(lines, initial, e, now);
    PlaceInValid(lines, initial);
    HashesWhenAcceptable(e, |lines| + 1, now, Head(lines, initial));
  }

  /** The place of the next record: the first on top of `initial`, and after that, in a file of which every line reads, one
      seq and the hash after the last. */
  predicate Follows(lines: seq<string>, initial: string, seqNo: int, prev: string) {
    if lines == [] then seqNo == 1 && prev == initial
    else
      && (forall l | l in lines :: ReadRecord(l).Some?)
      && var last := ReadRecord(lines[|lines| - 1]).value;
         Lookup(last, "seq") == Some(Int(seqNo - 1)) && Lookup(last, "record_hash") == Some(Str(prev))
  }

  lemma {:induction false} FollowsExactly(lines: seq<string>, initial: string, seqNo: int, prev: string)
    requires IsHash(prev)
    ensures NextPlace(lines, initial) == Some((seqNo, prev)) <==> Follows(lines, initial, seqNo, prev)
  {
    if NextPlace(lines, initial).Some? {
      forall l | l in lines ensures ReadRecord(l).Some? {
        var i :| 0 <= i < |lines| && lines[i] == l;
      }
    }
  }

  /** On any file, too, an append succeeds exactly for an acceptable record that gets a place. */
  lemma {:induction false} AppendSucceedsWhen(lines: seq<string>, initial: string, e: V2Entry, now: string)
    ensures NEXT_LINE(lines, initial, e, now).Some? <==>
      Acceptable(e, now) && exists n, prev | n >= 1 && IsHash(prev) :: Follows(lines, initial, n, prev)
  {
    PlaceDecides(lines, initial, e, now);
    if NextPlace(lines, initial).Some? {
      var (n, prev) := NextPlace(lines, initial).value;
      if IsHash(prev) {
        FollowsExactly(lines, initial, n, prev);
      }
    }
    if n, prev :| n >= 1 && IsHash(prev) && Follows(lines, initial, n, prev) {
      FollowsExactly(lines, initial, n, prev);
    }
  }

  lemma {:induction false} PlaceDecides(lines: seq<string>, initial: string, e: V2Entry, now: string)
    ensures NEXT_LINE(lines, initial, e, now).Some? <==>
      && NextPlace(lines, initial).Some? && NextPlace(lines, initial).value.0 >= 1
      && IsHash(NextPlace(lines, initial).value.1) && Acceptable(e, now)
  {
    assert NEXT_LINE(lines, initial, e, now) == LineFor(lines, initial, e, now);
    if NextPlace(lines, initial).Some? {
      var (seqNo, prev) := NextPlace(lines, initial).value;
      if seqNo >= 1 && IsHash(prev) {
        HashesWhenAcceptable(e, seqNo, now, prev);
      } else {
        if RecordHash(RecordFields(e, seqNo, now, prev, GENESIS)).Some? {
          ShapeNeedsPlace(e, seqNo, now, prev, GENESIS);
        }
      }
    }
  }

  /** Only an empty file takes its first predecessor from the caller. */
  lemma {:induction false} InitialOnlyOnce(lines: seq<string>, i: string, j: string, e: V2Entry, now: string)
    requires lines != []
    ensures NEXT_LINE(lines, i, e, now) == NEXT_LINE(lines, j, e, now)
  {
    assert NEXT_LINE(lines, i, e, now) == LineFor(lines, i, e, now);
    assert NEXT_LINE(lines, j, e, now) == LineFor(lines, j, e, now);
  }

  // ---------- What the head determines ----------

  ghost predicate RecordKnown(known: iset<Bytes>, fields: seq<Field>) {
    Utf8(CANONICALIZE(Preimage(fields))) in known
  }

  ghost predicate LinesKnown(known: iset<Bytes>, lines: seq<string>) {
    forall i | 0 <= i < |lines| :: LineKnown(known, lines[i])
  }

  ghost predicate LineKnown(known: iset<Bytes>, line: string) {
    ReadRecord(line).Some? ==> RecordKnown(known, ReadRecord(line).value)
  }

  lemma {:induction false} LookupWithout(fields: seq<Field>, key: string, other: string)
    requires other != key
    ensures Lookup(Without(fields, key), other) == Lookup(fields, other)
  {
    if fields != [] {
      LookupWithout(fields[1..], key, other);
      if fields[0].key != key {
        var w := Without(fields, key);
        assert w[1..] == Without(fields[1..], key);
      }
    }
  }

  /** Two lines hold the same record: equal content, seq and predecessor. */
  predicate SameLine(a: string, b: string) {
    && ReadRecord(a).Some? && ReadRecord(b).Some?
    && SameValue(Preimage(ReadRecord(a).value), Preimage(ReadRecord(b).value))
  }

  lemma {:induction false} SamePreimageLookup(f: seq<Field>, g: seq<Field>, key: string, v: Value)
    requires SameValue(Preimage(g), Preimage(f)) && key != "record_hash" && Lookup(g, key) == Some(v) && (v.Str? || v.Int?)
    ensures Lookup(f, key) == Some(v)
  {
    LookupWithout(f, "record_hash", key);
    LookupWithout(g, "record_hash", key);
    SameLookup(Without(f, "record_hash"), Without(g, "record_hash"), key, v);
  }

  lemma {:induction false} SamePreimageSamePlace(f: seq<Field>, g: seq<Field>, n: int, prev: string)
    requires SameValue(Preimage(g), Preimage(f))
    requires SeqOf(g) == Some(n) && HashAt(g, "prev_hash") == Some(prev)
    ensures SeqOf(f) == Some(n) && HashAt(f, "prev_hash") == Some(prev)
  {
    assert |"seq"| == 3 && |"prev_hash"| == 9 && |"record_hash"| == 11;
    SamePreimageLookup(f, g, "seq", Int(n));
    SamePreimageLookup(f, g, "prev_hash", Str(prev));
  }

  lemma {:induction false} PreimageWellFormed(fields: seq<Field>)
    requires WellFormed(Obj(fields))
    ensures WellFormed(Preimage(fields))
  {
    var w := Without(fields, "record_hash");
    WithoutDistinct(fields, "record_hash");
    forall j | 0 <= j < |w| ensures WellFormed(w[j].value) {
      assert w[j] in w;
      WithoutMembers(fields, "record_hash", w[j]);
    }
  }

  lemma {:induction false} ReadWellFormedRecord(line: string)
    requires ReadRecord(line).Some?
    ensures WellFormed(Obj(ReadRecord(line).value))
  {
    assert LOADS_STRICT(line) == Loads(true, line);
    LoadsWellFormed(true, line);
  }

  /** One hash means one record: the seq, which the v1 hash leaves out, included. */
  lemma {:induction false} HashDeterminesRecord(known: iset<Bytes>, f: seq<Field>, g: seq<Field>, n: int, prev: string,
                                                n': int, prev': string)
    requires Ideal(known) && RecordKnown(known, f) && RecordKnown(known, g)
    requires WellFormed(Obj(f)) && WellFormed(Obj(g))
    requires RecordOk(f, n, prev) && RecordOk(g, n', prev') && HashAt(f, "record_hash") == HashAt(g, "record_hash")
    ensures n == n' && prev == prev' && SameValue(Preimage(f), Preimage(g))
  {
    HashTextInjective(known, CANONICALIZE(Preimage(f)), CANONICALIZE(Preimage(g)));
    PreimageWellFormed(f);
    PreimageWellFormed(g);
    assert CANONICALIZE(Preimage(f)) == Canonical(COMPACT, Preimage(f));
    assert CANONICALIZE(Preimage(g)) == Canonical(COMPACT, Preimage(g));
    CanonicalIffSame(COMPACT, Preimage(f), Preimage(g));
    CanonicalIffSame(COMPACT, Preimage(g), Preimage(f));
    SamePreimageSamePlace(f, g, n', prev');
  }

  /** The last line holds a record in its place, whose hash is the head. */
  ghost predicate EndsIn(known: iset<Bytes>, line: string, n: int, prev: string, head: string) {
    && ReadRecord(line).Some?
    && var f := ReadRecord(line).value;
       && WellFormed(Obj(f)) && RecordKnown(known, f) && RecordOk(f, n, prev) && HashAt(f, "record_hash") == Some(head)
  }

  lemma {:induction false} LastLine(known: iset<Bytes>, a: seq<string>, ia: string)
    requires LinesKnown(known, a) && SegmentOk(a, ia) && a != []
    ensures EndsIn(known, a[|a| - 1], |a|, PrevHash(a, ia, |a| - 1), Head(a, ia))
  {
    assert LineOk(a, ia, |a| - 1) && LineKnown(known, a[|a| - 1]);
    ReadWellFormedRecord(a[|a| - 1]);
  }

  lemma {:induction false} EndsAlike(known: iset<Bytes>, x: string, n: int, prev: string, y: string, n': int, prev': string,
                                     head: string)
    requires Ideal(known) && EndsIn(known, x, n, prev, head) && EndsIn(known, y, n', prev', head)
    ensures n == n' && prev == prev' && SameLine(x, y)
  {
    HashDeterminesRecord(known, ReadRecord(x).value, ReadRecord(y).value, n, prev, n', prev');
  }

  lemma {:induction false} LastLines(known: iset<Bytes>, a: seq<string>, ia: string, b: seq<string>, ib: string)
    requires Ideal(known) && LinesKnown(known, a) && LinesKnown(known, b)
    requires SegmentOk(a, ia) && SegmentOk(b, ib) && a != [] && b != [] && Head(a, ia) == Head(b, ib)
    ensures |a| == |b| && SameLine(a[|a| - 1], b[|b| - 1])
    ensures PrevHash(a, ia, |a| - 1) == PrevHash(b, ib, |b| - 1)
  {
    LastLine(known, a, ia);
    LastLine(known, b, ib);
    EndsAlike(known, a[|a| - 1], |a|, PrevHash(a, ia, |a| - 1), b[|b| - 1], |b|, PrevHash(b, ib, |b| - 1), Head(a, ia));
  }

  lemma {:induction false} SegmentPrefix(lines: seq<string>, initial: string, k: nat)
    requires SegmentOk(lines, initial) && k <= |lines|
    ensures SegmentOk(lines[..k], initial) && Head(lines[..k], initial) == PrevHash(lines, initial, k)
  {
    var p := lines[..k];
    forall i | 0 <= i < k ensures LineOk(p, initial, i) {
      assert LineOk(lines, initial, i) && PrevHash(p, initial, i) == PrevHash(lines, initial, i);
    }
  }

  predicate SameLines(a: seq<string>, b: seq<string>) {
    |a| == |b| && forall i | 0 <= i < |a| :: SameLine(a[i], b[i])
  }

  lemma {:induction false} ExtendSameLines(a: seq<string>, b: seq<string>)
    requires a != [] && |a| == |b| && SameLine(a[|a| - 1], b[|b| - 1])
    requires |a| > 1 ==> SameLines(a[..|a| - 1], b[..|b| - 1])
    ensures SameLines(a, b)
  {
    var x, y := a[..|a| - 1], b[..|b| - 1];
    forall i | 0 <= i < |a| ensures SameLine(a[i], b[i]) {
      if i < |a| - 1 {
        assert SameLine(x[i], y[i]);
      }
    }
  }

  lemma {:induction false} KnownLinesPrefix(known: iset<Bytes>, lines: seq<string>, k: nat)
    requires LinesKnown(known, lines) && k <= |lines|
    ensures LinesKnown(known, lines[..k])
  {
  }

  /** The head of a non-empty valid segment determines the segment: its length, every record, and what it links to. */
  lemma {:induction false} HeadDeterminesSegment(known: iset<Bytes>, a: seq<string>, ia: string, b: seq<string>, ib: string)
    requires Ideal(known) && LinesKnown(known, a) && LinesKnown(known, b)
    requires SegmentOk(a, ia) && SegmentOk(b, ib) && a != [] && b != [] && Head(a, ia) == Head(b, ib)
    ensures ia == ib && SameLines(a, b)
    decreases |a|
  {
    LastLines(known, a, ia, b, ib);
    var m := |a| - 1;
    if m > 0 {
      SegmentPrefix(a, ia, m);
      SegmentPrefix(b, ib, m);
      KnownLinesPrefix(known, a, m);
      KnownLinesPrefix(known, b, m);
      HeadDeterminesSegment(known, a[..m], ia, b[..m], ib);
    }
    ExtendSameLines(a, b);
  }

  /** A v1 chain and the v2 segment that links to its head are one history: the head of the segment alone
      determines every record of both. */
  lemma {:induction false} JoinedHeadDeterminesHistory(known: iset<Bytes>, rows: seq<Row>, lines: seq<string>,
                                                       rows': seq<Row>, lines': seq<string>)
    requires Ideal(known) && RowsKnown(known, rows) && RowsKnown(known, rows')
    requires LinesKnown(known, lines) && LinesKnown(known, lines')
    requires ChainOk(rows) && SegmentOk(lines, LastHash(rows)) && lines != []
    requires ChainOk(rows') && SegmentOk(lines', LastHash(rows')) && lines' != []
    requires Head(lines, LastHash(rows)) == Head(lines', LastHash(rows'))
    ensures SameHistory(rows, rows')
    ensures SameLines(lines, lines')
  {
    HeadDeterminesSegment(known, lines, LastHash(rows), lines', LastHash(rows'));
    TipDeterminesChain(known, rows, rows');
  }

  // ---------- What an appended record says ----------

  lemma {:induction false} TypeLookups(e: V2Entry, seqNo: int, now: string, prev: string, hash: string)
    ensures var f := RecordFields(e, seqNo, now, prev, hash);
      Lookup(f, "record_type") == Some(Str(e.eventType)) && Lookup(f, "recorded_at") == Some(Str(now))
  {
    var f := RecordFields(e, seqNo, now, prev, hash);
    RecordKeysDistinct(e, seqNo, now, prev, hash);
    FieldFound(f, 1, "record_type", Str(e.eventType));
    FieldFound(f, 3, "recorded_at", Str(now));
  }

  lemma {:induction false} ComponentLookup(e: V2Entry, seqNo: int, now: string, prev: string, hash: string)
    ensures Lookup(RecordFields(e, seqNo, now, prev, hash), "component") == Some(Str(e.component))
  {
    RecordKeysDistinct(e, seqNo, now, prev, hash);
    FieldFound(RecordFields(e, seqNo, now, prev, hash), 4, "component", Str(e.component));
  }

  lemma {:induction false} OtherTextLookups(e: V2Entry, seqNo: int, now: string, prev: string, hash: string)
    ensures
      var f := RecordFields(e, seqNo, now, prev, hash);
      && Lookup(f, "actor") == Some(Str(e.actor)) && Lookup(f, "action") == Some(Str(e.action))
      && Lookup(f, "environment_ref") == Some(Str(e.environmentRef))
  {
    var f := RecordFields(e, seqNo, now, prev, hash);
    RecordKeysDistinct(e, seqNo, now, prev, hash);
    FieldFound(f, 5, "actor", Str(e.actor));
    FieldFound(f, 6, "action", Str(e.action));
    FieldFound(f, 11, "environment_ref", Str(e.environmentRef));
  }

  lemma {:induction false} FirstDictLookups(e: V2Entry, seqNo: int, now: string, prev: string, hash: string)
    ensures var f := RecordFields(e, seqNo, now, prev, hash);
      Lookup(f, "authority") == Some(e.authority) && Lookup(f, "execution") == Some(e.execution)
  {
    var f := RecordFields(e, seqNo, now, prev, hash);
    RecordKeysDistinct(e, seqNo, now, prev, hash);
    FieldFound(f, 7, "authority", e.authority);
    FieldFound(f, 8, "execution", e.execution);
  }

  lemma {:induction false} LastDictLookups(e: V2Entry, seqNo: int, now: string, prev: string, hash: string)
    ensures var f := RecordFields(e, seqNo, now, prev, hash);
      Lookup(f, "verification") == Some(e.verification) && Lookup(f, "payload") == Some(e.payload)
  {
    var f := RecordFields(e, seqNo, now, prev, hash);
    RecordKeysDistinct(e, seqNo, now, prev, hash);
    FieldFound(f, 9, "verification", e.verification);
    FieldFound(f, 10, "payload", e.payload);
  }

  /** The texts of a record under their keys. */
  predicate HoldsTexts(f: seq<Field>, e: V2Entry, now: string) {
    && Lookup(f, "record_type") == Some(Str(e.eventType)) && Lookup(f, "recorded_at") == Some(Str(now))
    && Lookup(f, "component") == Some(Str(e.component)) && Lookup(f, "actor") == Some(Str(e.actor))
    && Lookup(f, "action") == Some(Str(e.action)) && Lookup(f, "environment_ref") == Some(Str(e.environmentRef))
  }

  /** Its dicts, with their keys in order. */
  predicate HoldsDicts(f: seq<Field>, e: V2Entry) {
    && Lookup(f, "authority") == Some(Norm(e.authority)) && Lookup(f, "execution") == Some(Norm(e.execution))
    && Lookup(f, "verification") == Some(Norm(e.verification)) && Lookup(f, "payload") == Some(Norm(e.payload))
  }

  /** And where it stands in the chain. */
  predicate HoldsPlace(f: seq<Field>, seqNo: int, prev: string) {
    && Lookup(f, "schema_version") == Some(Str("msb.audit.v2")) && Lookup(f, "seq") == Some(Int(seqNo))
    && Lookup(f, "prev_hash") == Some(Str(prev))
  }

  lemma {:induction false} SortedHoldsTexts(e: V2Entry, seqNo: int, now: string, prev: string, hash: string)
    ensures HoldsTexts(SortedNorm(RecordFields(e, seqNo, now, prev, hash)), e, now)
  {
    RecordKeysDistinct(e, seqNo, now, prev, hash);
    TypeLookups(e, seqNo, now, prev, hash);
    ComponentLookup(e, seqNo, now, prev, hash);
    OtherTextLookups(e, seqNo, now, prev, hash);
    SortingKeepsTexts(RecordFields(e, seqNo, now, prev, hash), e, now);
  }

  lemma {:induction false} SortingKeepsTexts(f: seq<Field>, e: V2Entry, now: string)
    requires DistinctKeys(f) && HoldsTexts(f, e, now)
    ensures HoldsTexts(SortedNorm(f), e, now)
  {
    LookupSortedNorm(f, "record_type");
    LookupSortedNorm(f, "recorded_at");
    LookupSortedNorm(f, "component");
    LookupSortedNorm(f, "actor");
    LookupSortedNorm(f, "action");
    LookupSortedNorm(f, "environment_ref");
  }

  lemma {:induction false} SortedHoldsDicts(e: V2Entry, seqNo: int, now: string, prev: string, hash: string)
    ensures HoldsDicts(SortedNorm(RecordFields(e, seqNo, now, prev, hash)), e)
  {
    RecordKeysDistinct(e, seqNo, now, prev, hash);
    FirstDictLookups(e, seqNo, now, prev, hash);
    LastDictLookups(e, seqNo, now, prev, hash);
    SortingNormsDicts(RecordFields(e, seqNo, now, prev, hash), e);
  }

  lemma {:induction false} SortingNormsDicts(f: seq<Field>, e: V2Entry)
    requires DistinctKeys(f)
    requires Lookup(f, "authority") == Some(e.authority) && Lookup(f, "execution") == Some(e.execution)
    requires Lookup(f, "verification") == Some(e.verification) && Lookup(f, "payload") == Some(e.payload)
    ensures HoldsDicts(SortedNorm(f), e)
  {
    LookupSortedNorm(f, "authority");
    LookupSortedNorm(f, "execution");
    LookupSortedNorm(f, "verification");
    LookupSortedNorm(f, "payload");
  }

  lemma {:induction false} SortedHoldsPlace(e: V2Entry, seqNo: int, now: string, prev: string, hash: string)
    ensures var g := SortedNorm(RecordFields(e, seqNo, now, prev, hash));
      HoldsPlace(g, seqNo, prev) && Lookup(g, "record_hash") == Some(Str(hash))
  {
    var f := RecordFields(e, seqNo, now, prev, hash);
    RecordKeysDistinct(e, seqNo, now, prev, hash);
    RecordLookups(e, seqNo, now, prev, hash);
    LookupSortedNorm(f, "schema_version");
    LookupSortedNorm(f, "seq");
    LookupSortedNorm(f, "prev_hash");
    LookupSortedNorm(f, "record_hash");
  }

  /** The line that an append to any file writes is a record in the spaced layout that holds what the append was called
      with, under the keys of the schema, the place after the last record, and a hash of its compact text without the
      hash. */
  lemma {:induction false} AppendedRecord(lines: seq<string>, initial: string, e: V2Entry, now: string, n: int, prev: string)
    requires IsHash(prev) && Follows(lines, initial, n, prev) && EntryOk(e) && NEXT_LINE(lines, initial, e, now).Some?
    ensures
      var line := NEXT_LINE(lines, initial, e, now).value;
      var f := ReadRecord(line);
      && f.Some? && line == Print(Style(", ", ": ", false), Obj(f.value)) && |f.value| == 14
      && HoldsTexts(f.value, e, now) && HoldsDicts(f.value, e) && HoldsPlace(f.value, n, prev)
      && Lookup(f.value, "record_hash")
         == Some(Str(HashText(Print(Style(",", ":", false), Norm(Obj(Without(f.value, "record_hash")))))))
  {
    assert NEXT_LINE(lines, initial, e, now) == LineFor(lines, initial, e, now);
    FollowsExactly(lines, initial, n, prev);
    var hash := RecordHash(RecordFields(e, n, now, prev, GENESIS)).value;
    var fields := RecordFields(e, n, now, prev, hash);
    AppendedRecordOk(e, n, now, prev, hash);
    RecordReadsBack(fields);
    SortedHoldsTexts(e, n, now, prev, hash);
    SortedHoldsDicts(e, n, now, prev, hash);
    SortedHoldsPlace(e, n, now, prev, hash);
    RecordKeysDistinct(e, n, now, prev, hash);
    SortedSize(fields);
    RecordHashText(SortedNorm(fields));
  }

  lemma {:induction false} SortedSize(fields: seq<Field>)
    requires DistinctKeys(fields)
    ensures |SortedNorm(fields)| == |fields|
  {
    var inner := NormFields(fields);
    SortSorted(inner);
    assert |SortFields(inner)| == |multiset(SortFields(inner))| == |multiset(inner)| == |inner|;
  }

  lemma {:induction false} RecordHashText(f: seq<Field>)
    requires RecordHash(f).Some?
    ensures RecordHash(f).value == HashText(Print(Style(",", ":", false), Norm(Obj(Without(f, "record_hash")))))
  {
    assert CANONICALIZE(Preimage(f)) == Canonical(COMPACT, Preimage(f));
  }

  // ---------- What the verifier refuses ----------

  predicate Nonblank(f: seq<Field>, key: string) {
    var v := Lookup(f, key);
    v.Some? && v.value.Str? && !IsBlank(v.value.s)
  }

  predicate Dict(f: seq<Field>, key: string) {
    var v := Lookup(f, key);
    v.Some? && v.value.Obj?
  }

  predicate HashText64(f: seq<Field>, key: string) {
    var v := Lookup(f, key);
    v.Some? && v.value.Str? && IsHash(v.value.s)
  }

  lemma {:induction false} TextFieldsAre(f: seq<Field>)
    ensures TextFieldsOk(f) <==>
      && Nonblank(f, "record_type") && Nonblank(f, "recorded_at") && Nonblank(f, "component") && Nonblank(f, "actor")
      && Nonblank(f, "action") && Nonblank(f, "environment_ref")
  {
    if TextFieldsOk(f) {
      assert TextOk(f, TEXT_FIELDS[0]) && TextOk(f, TEXT_FIELDS[1]) && TextOk(f, TEXT_FIELDS[2]);
      assert TextOk(f, TEXT_FIELDS[3]) && TextOk(f, TEXT_FIELDS[4]) && TextOk(f, TEXT_FIELDS[5]);
    }
  }

  lemma {:induction false} DictFieldsAre(f: seq<Field>)
    ensures DictFieldsOk(f) <==> Dict(f, "authority") && Dict(f, "execution") && Dict(f, "verification") && Dict(f, "payload")
  {
    if DictFieldsOk(f) {
      assert DictOk(f, DICT_FIELDS[0]) && DictOk(f, DICT_FIELDS[1]) && DictOk(f, DICT_FIELDS[2]) && DictOk(f, DICT_FIELDS[3]);
    }
  }

  const KEYS: set<string> := {
    "schema_version", "record_type", "seq", "recorded_at", "component", "actor", "action", "authority", "execution",
    "verification", "payload", "environment_ref", "prev_hash", "record_hash"}

  /** The keys of an object are these and no others. */
  predicate KeysOf(f: seq<Field>, keys: set<string>) {
    (forall i | 0 <= i < |f| :: f[i].key in keys) && forall k | k in keys :: Lookup(f, k).Some?
  }

  predicate ListExact(f: seq<Field>, list: seq<string>) {
    (forall i | 0 <= i < |list| :: Lookup(f, list[i]).Some?) && forall i | 0 <= i < |f| :: f[i].key in list
  }

  lemma {:induction false} KeysExactIs(f: seq<Field>)
    ensures KeysExact(f) <==> ListExact(f, REQUIRED)
  {
  }

  lemma {:induction false} KeysOfList(f: seq<Field>, list: seq<string>, keys: set<string>)
    requires forall k :: k in list <==> k in keys
    ensures KeysOf(f, keys) <==> ListExact(f, list)
  {
    if forall i | 0 <= i < |list| :: Lookup(f, list[i]).Some? {
      forall k | k in keys ensures Lookup(f, k).Some? {
        var i :| 0 <= i < |list| && list[i] == k;
      }
    }
  }

  lemma {:induction false} RequiredKeys()
    ensures forall k :: k in REQUIRED <==> k in KEYS
  {
  }

  lemma {:induction false} KeysAre(f: seq<Field>)
    ensures KeysExact(f) <==> KeysOf(f, KEYS)
  {
    KeysExactIs(f);
    RequiredKeys();
    KeysOfList(f, REQUIRED, KEYS);
  }

  lemma {:induction false} HashIs(f: seq<Field>, key: string)
    ensures HashAt(f, key).Some? <==> HashText64(f, key)
  {
  }

  lemma {:induction false} SeqIs(f: seq<Field>)
    ensures (SeqOf(f).Some? && SeqOf(f).value >= 1) <==> exists n | n >= 1 :: Lookup(f, "seq") == Some(Int(n))
  {
  }

  /** A record passes the shape checks exactly when its keys are the fourteen of the schema, it names this schema, its
      seq is a positive integer, its hashes are hashes, its texts are not blank and its dicts are dicts. */
  lemma {:induction false} ShapeExactly(f: seq<Field>)
    ensures PREIMAGE_OK(f) <==>
      && KeysOf(f, KEYS) && Lookup(f, "schema_version") == Some(Str("msb.audit.v2"))
      && (exists n | n >= 1 :: Lookup(f, "seq") == Some(Int(n)))
      && HashText64(f, "prev_hash") && HashText64(f, "record_hash")
      && Nonblank(f, "record_type") && Nonblank(f, "recorded_at") && Nonblank(f, "component") && Nonblank(f, "actor")
      && Nonblank(f, "action") && Nonblank(f, "environment_ref")
      && Dict(f, "authority") && Dict(f, "execution") && Dict(f, "verification") && Dict(f, "payload")
  {
    assert PREIMAGE_OK(f) == ShapeOk(f);
    TextFieldsAre(f);
    DictFieldsAre(f);
    KeysAre(f);
    HashIs(f, "prev_hash");
    HashIs(f, "record_hash");
    SeqIs(f);
  }

  /** A line whose object repeats a key is no record, although json.loads would take it. */
  lemma {:induction false} RepeatedKeyRefused(st: Style, fields: seq<Field>)
    requires StyleOk(st) && !DistinctKeys(fields) && forall i | 0 <= i < |fields| :: WellFormed(fields[i].value)
    ensures ReadRecord(Print(st, Obj(fields))) == None && Loads(false, Print(st, Obj(fields))).Some?
  {
    var line := Print(st, Obj(fields));
    JsonForm.RepeatedKey(st, fields, "");
    assert LOADS_STRICT(line) == Loads(true, line);
  }
}
