/** The texts that are hashed and signed, written out key by key. */
module WrittenTexts {
  import opened Text
  import opened Json
  import opened JsonProofs
  import opened JsonForm
  import opened Sha
  import opened Merkle
  import opened Chain
  import opened Signatures
  import opened Registry
  import opened Anchor
  import opened AnchorProofs
  import Notary
  import opened NotaryHealth

  // ---------- The text of an object whose keys are known ----------

  /** What stands before the value of an entry. */
  function Named(key: string, colon: string): string {
    "\"" + key + "\"" + colon
  }

  /** One entry in a text. */
  function Entry(st: Style, f: seq<Field>, i: nat): string
    requires i < |f|
  {
    Named(f[i].key, st.colon) + Print(st, Norm(f[i].value))
  }

  lemma {:induction false} TextEntry(st: Style, f: seq<Field>, i: nat, key: string, text: string)
    requires i < |f| && f[i] == Field(key, Str(text))
    ensures Entry(st, f, i) == Named(key, st.colon) + Quoted(st.ascii, text)
  {
  }

  lemma {:induction false} ValueEntry(st: Style, f: seq<Field>, i: nat, key: string, v: Value)
    requires i < |f| && f[i] == Field(key, v)
    ensures Entry(st, f, i) == Named(key, st.colon) + Print(st, Norm(v))
  {
  }

  /** What is signed: the compact text, in ASCII, of the value with its keys in order. */
  lemma {:induction false} SignedTextIs(v: Value)
    ensures SIGNED_TEXT(v) == Print(Style(",", ":", true), Norm(v))
  {
    assert SIGNED_TEXT(v) == Canonical(COMPACT_ASCII, v);
  }

  /** `order` lists the entries of f by key. */
  predicate InPlace(f: seq<Field>, order: seq<nat>, i: nat)
    requires i < |order|
  {
    && order[i] < |f| && Plain(f[order[i]].key)
    && (i > 0 ==> order[i - 1] < |f| && LexLess(f[order[i - 1]].key, f[order[i]].key))
  }

  predicate Orders(f: seq<Field>, order: seq<nat>) {
    |order| == |f| && forall i | 0 <= i < |order| :: InPlace(f, order, i)
  }

  function Reordered(f: seq<Field>, order: seq<nat>): (r: seq<Field>)
    requires Orders(f, order)
    ensures |r| == |order| && forall i | 0 <= i < |r| :: InPlace(f, order, i) && r[i] == NormFields(f)[order[i]]
  {
    seq(|order|, i requires 0 <= i < |order| => assert InPlace(f, order, i); NormFields(f)[order[i]])
  }

  function Entries(st: Style, f: seq<Field>, order: seq<nat>): (parts: seq<string>)
    requires Orders(f, order)
    ensures |parts| == |order| && forall i | 0 <= i < |parts| :: InPlace(f, order, i) && parts[i] == Entry(st, f, order[i])
  {
    seq(|order|, i requires 0 <= i < |order| => assert InPlace(f, order, i); Entry(st, f, order[i]))
  }

  lemma {:induction false} ReorderedSorts(f: seq<Field>, order: seq<nat>)
    requires Orders(f, order) && DistinctKeys(f)
    ensures SortFields(NormFields(f)) == Reordered(f, order)
  {
    var r, inner := Reordered(f, order), NormFields(f);
    forall i | 0 < i < |r| ensures KeyBefore(r[i - 1].key, r[i].key) {
      assert InPlace(f, order, i);
      LexIsBefore(r[i - 1].key, r[i].key);
    }
    NeighboursSorted(r);
    SortedDistinct(r);
    DistinctPigeonhole(r, inner);
    SortSorted(inner);
    SortMembers(inner);
    SortedUnique(SortFields(inner), r);
  }

  /** The canonical text of an object is its entries by key, whatever order they were put in. */
  lemma {:induction false} OrderedText(st: Style, f: seq<Field>, order: seq<nat>)
    requires Orders(f, order) && DistinctKeys(f)
    ensures Canonical(st, Obj(f)) == "{" + Joined(st.comma, Entries(st, f, order)) + "}"
  {
    var r, parts := Reordered(f, order), Entries(st, f, order);
    ReorderedSorts(f, order);
    PrintedObject(st, r);
    forall i | 0 <= i < |r| ensures Members(st, r)[i] == parts[i] {
      assert InPlace(f, order, i);
      QuotedPlain(st.ascii, r[i].key);
    }
    assert Members(st, r) == parts;
  }

  lemma {:induction false} TwoEntries(st: Style, fields: seq<Field>, a: nat, b: nat)
    requires Orders(fields, [a, b])
    ensures a < |fields| && b < |fields|
    ensures Entries(st, fields, [a, b]) == [
      Entry(st, fields, a), Entry(st, fields, b)]
  {
    var order := [a, b];
    assert InPlace(fields, order, 0) && InPlace(fields, order, 1);
  }

  lemma {:induction false} FourEntries(st: Style, fields: seq<Field>, a: nat, b: nat, c: nat, d: nat)
    requires Orders(fields, [a, b, c, d])
    ensures a < |fields| && b < |fields| && c < |fields| && d < |fields|
    ensures Entries(st, fields, [a, b, c, d]) == [
      Entry(st, fields, a), Entry(st, fields, b), Entry(st, fields, c), Entry(st, fields, d)]
  {
    var order := [a, b, c, d];
    assert InPlace(fields, order, 0) && InPlace(fields, order, 1) && InPlace(fields, order, 2) && InPlace(fields, order, 3);
  }

  lemma {:induction false} FiveEntries(st: Style, fields: seq<Field>, a: nat, b: nat, c: nat, d: nat, e: nat)
    requires Orders(fields, [a, b, c, d, e])
    ensures a < |fields| && b < |fields| && c < |fields| && d < |fields| && e < |fields|
    ensures Entries(st, fields, [a, b, c, d, e]) == [
      Entry(st, fields, a), Entry(st, fields, b), Entry(st, fields, c), Entry(st, fields, d),
      Entry(st, fields, e)]
  {
    var order := [a, b, c, d, e];
    assert InPlace(fields, order, 0) && InPlace(fields, order, 1) && InPlace(fields, order, 2) && InPlace(fields, order, 3);
    assert InPlace(fields, order, 4);
  }

  lemma {:induction false} SevenEntries(st: Style, fields: seq<Field>,
      a: nat, b: nat, c: nat, d: nat, e: nat, f: nat, g: nat)
    requires Orders(fields, [a, b, c, d, e, f, g])
    ensures a < |fields| && b < |fields| && c < |fields| && d < |fields| && e < |fields| && f < |fields| && g < |fields|
    ensures Entries(st, fields, [a, b, c, d, e, f, g]) == [
      Entry(st, fields, a), Entry(st, fields, b), Entry(st, fields, c), Entry(st, fields, d),
      Entry(st, fields, e), Entry(st, fields, f), Entry(st, fields, g)]
  {
    var order := [a, b, c, d, e, f, g];
    assert InPlace(fields, order, 0) && InPlace(fields, order, 1) && InPlace(fields, order, 2) && InPlace(fields, order, 3);
    assert InPlace(fields, order, 4) && InPlace(fields, order, 5) && InPlace(fields, order, 6);
  }

  lemma {:induction false} EightEntries(st: Style, fields: seq<Field>,
      a: nat, b: nat, c: nat, d: nat, e: nat, f: nat, g: nat, h: nat)
    requires Orders(fields, [a, b, c, d, e, f, g, h])
    ensures a < |fields| && b < |fields| && c < |fields| && d < |fields| && e < |fields| && f < |fields| && g < |fields|
    ensures h < |fields|
    ensures Entries(st, fields, [a, b, c, d, e, f, g, h]) == [
      Entry(st, fields, a), Entry(st, fields, b), Entry(st, fields, c), Entry(st, fields, d),
      Entry(st, fields, e), Entry(st, fields, f), Entry(st, fields, g), Entry(st, fields, h)]
  {
    var order := [a, b, c, d, e, f, g, h];
    assert InPlace(fields, order, 0) && InPlace(fields, order, 1) && InPlace(fields, order, 2) && InPlace(fields, order, 3);
    assert InPlace(fields, order, 4) && InPlace(fields, order, 5) && InPlace(fields, order, 6) && InPlace(fields, order, 7);
  }

  // ---------- v1 records ----------

  lemma {:induction false} RecordKeysPlain()
    ensures Plain("component") && Plain("event_type") && Plain("payload") && Plain("prev_hash") && Plain("timestamp")
  {
  }

  lemma {:induction false} RecordKeysOrdered()
    ensures LexLess("component", "event_type") && LexLess("event_type", "payload")
    ensures LexLess("payload", "prev_hash") && LexLess("prev_hash", "timestamp")
  {
  }

  lemma {:induction false} RecordOrder(p: string, c: string, e: string, v: Value, t: string)
    ensures Orders(HashInput(p, c, e, v, t).fields, [1, 2, 3, 0, 4])
  {
    var f: seq<Field>, order: seq<nat> := HashInput(p, c, e, v, t).fields, [1, 2, 3, 0, 4];
    RecordKeysPlain();
    RecordKeysOrdered();
    assert InPlace(f, order, 0) && InPlace(f, order, 1) && InPlace(f, order, 2) && InPlace(f, order, 3) && InPlace(f, order, 4);
  }

  /** The text that is hashed for a v1 record. */
  lemma {:induction false} HashedText(p: string, c: string, e: string, v: Value, t: string)
    ensures HASHED_TEXT(p, c, e, v, t) == "{" + Joined(", ", [
      Named("component", ": ") + Quoted(false, c), Named("event_type", ": ") + Quoted(false, e),
      Named("payload", ": ") + Print(SPACED, Norm(v)), Named("prev_hash", ": ") + Quoted(false, p),
      Named("timestamp", ": ") + Quoted(false, t)]) + "}"
  {
    var f: seq<Field>, order: seq<nat> := HashInput(p, c, e, v, t).fields, [1, 2, 3, 0, 4];
    assert HASHED_TEXT(p, c, e, v, t) == CanonicalRecord(p, c, e, v, t);
    HashInputKeys(p, c, e, v, t);
    RecordOrder(p, c, e, v, t);
    OrderedText(SPACED, f, order);
    FiveEntries(SPACED, f, 1, 2, 3, 0, 4);
    TextEntry(SPACED, f, 1, "component", c);
    TextEntry(SPACED, f, 2, "event_type", e);
    ValueEntry(SPACED, f, 3, "payload", v);
    TextEntry(SPACED, f, 0, "prev_hash", p);
    TextEntry(SPACED, f, 4, "timestamp", t);
  }

  // ---------- What is signed ----------

  lemma {:induction false} IntEntry(st: Style, f: seq<Field>, i: nat, key: string, n: int)
    requires i < |f| && f[i] == Field(key, Int(n))
    ensures Entry(st, f, i) == Named(key, st.colon) + PrintInt(n)
  {
  }

  lemma {:induction false} SnapshotKeysPlain()
    ensures Plain("anchored_at") && Plain("chain_sha256") && Plain("db_path") && Plain("merkle_root")
    ensures Plain("record_count") && Plain("seq") && Plain("tip_hash") && Plain("version")
  {
  }

  lemma {:induction false} SnapshotKeysOrdered()
    ensures LexLess("anchored_at", "chain_sha256") && LexLess("chain_sha256", "db_path") && LexLess("db_path", "merkle_root")
    ensures LexLess("merkle_root", "record_count") && LexLess("record_count", "seq") && LexLess("seq", "tip_hash")
    ensures LexLess("tip_hash", "version")
  {
  }

  lemma {:induction false} SnapshotOrder(dbPath: string, rows: seq<Row>, now: string)
    ensures Orders(SnapshotValue(dbPath, rows, now).fields, [7, 6, 1, 5, 3, 2, 4, 0])
  {
    var f: seq<Field>, order: seq<nat> := SnapshotValue(dbPath, rows, now).fields, [7, 6, 1, 5, 3, 2, 4, 0];
    SnapshotKeysPlain();
    SnapshotKeysOrdered();
    assert InPlace(f, order, 0) && InPlace(f, order, 1) && InPlace(f, order, 2) && InPlace(f, order, 3);
    assert InPlace(f, order, 4) && InPlace(f, order, 5) && InPlace(f, order, 6) && InPlace(f, order, 7);
  }

  /** The text that is signed for a snapshot. */
  lemma {:induction false} SnapshotText(dbPath: string, rows: seq<Row>, now: string)
    ensures SIGNED_TEXT(SnapshotValue(dbPath, rows, now)) == "{" + Joined(",", [
      Named("anchored_at", ":") + Quoted(true, now), Named("chain_sha256", ":") + Quoted(true, HashText(JoinLines(Hashes(rows)))),
      Named("db_path", ":") + Quoted(true, dbPath), Named("merkle_root", ":") + Quoted(true, Root(Hashes(rows))),
      Named("record_count", ":") + PrintInt(|rows|), Named("seq", ":") + PrintInt(if rows == [] then 0 else rows[|rows| - 1].seqNo),
      Named("tip_hash", ":") + Quoted(true, if rows == [] then GENESIS else rows[|rows| - 1].recordHash),
      Named("version", ":") + PrintInt(1)]) + "}"
  {
    var f := SnapshotValue(dbPath, rows, now).fields;
    assert SIGNED_TEXT(Obj(f)) == Canonical(COMPACT_ASCII, Obj(f));
    SnapshotKeys(dbPath, rows, now);
    SnapshotOrder(dbPath, rows, now);
    OrderedText(COMPACT_ASCII, f, [7, 6, 1, 5, 3, 2, 4, 0]);
    EightEntries(COMPACT_ASCII, f, 7, 6, 1, 5, 3, 2, 4, 0);
    TextEntry(COMPACT_ASCII, f, 7, "anchored_at", now);
    TextEntry(COMPACT_ASCII, f, 6, "chain_sha256", ChainSha(rows));
    TextEntry(COMPACT_ASCII, f, 1, "db_path", dbPath);
    TextEntry(COMPACT_ASCII, f, 5, "merkle_root", Root(Hashes(rows)));
    IntEntry(COMPACT_ASCII, f, 3, "record_count", |rows|);
    IntEntry(COMPACT_ASCII, f, 2, "seq", LastSeq(rows));
    TextEntry(COMPACT_ASCII, f, 4, "tip_hash", LastHash(rows));
    IntEntry(COMPACT_ASCII, f, 0, "version", 1);
  }

  // ---------- Ceremonies ----------

  lemma {:induction false} RotationKeysPlain()
    ensures Plain("from") && Plain("from_algorithm") && Plain("reason") && Plain("rotated_at")
    ensures Plain("to") && Plain("to_algorithm") && Plain("type")
  {
  }

  lemma {:induction false} RotationKeysOrdered()
    ensures LexLess("from", "from_algorithm") && LexLess("from_algorithm", "reason") && LexLess("reason", "rotated_at")
    ensures LexLess("rotated_at", "to") && LexLess("to", "to_algorithm") && LexLess("to_algorithm", "type")
  {
  }

  function RotationFields(from: Bytes, to: Bytes, fromAlgorithm: string, toAlgorithm: string, at: string,
                          reason: string): seq<Field> {
    [Field("type", Str("key-rotation")), Field("from", Str(KEY_TEXT(from))), Field("to", Str(KEY_TEXT(to))),
     Field("from_algorithm", Str(fromAlgorithm)), Field("to_algorithm", Str(toAlgorithm)), Field("rotated_at", Str(at)),
     Field("reason", Str(reason))]
  }

  lemma {:induction false} RotationOrder(fields: seq<Field>)
    requires |fields| == 7 && fields[0].key == "type" && fields[1].key == "from" && fields[2].key == "to"
    requires fields[3].key == "from_algorithm" && fields[4].key == "to_algorithm" && fields[5].key == "rotated_at"
    requires fields[6].key == "reason"
    ensures Orders(fields, [1, 3, 6, 5, 2, 4, 0])
  {
    RotationKeysPlain();
    RotationKeysOrdered();
    SevenInOrder(fields, 1, 3, 6, 5, 2, 4, 0);
  }

  lemma {:induction false} SevenInOrder(fields: seq<Field>, a: nat, b: nat, c: nat, d: nat, e: nat, f: nat, g: nat)
    requires |fields| == 7 && a < 7 && b < 7 && c < 7 && d < 7 && e < 7 && f < 7 && g < 7
    requires Plain(fields[a].key) && Plain(fields[b].key) && Plain(fields[c].key) && Plain(fields[d].key)
    requires Plain(fields[e].key) && Plain(fields[f].key) && Plain(fields[g].key)
    requires LexLess(fields[a].key, fields[b].key) && LexLess(fields[b].key, fields[c].key)
    requires LexLess(fields[c].key, fields[d].key) && LexLess(fields[d].key, fields[e].key)
    requires LexLess(fields[e].key, fields[f].key) && LexLess(fields[f].key, fields[g].key)
    ensures Orders(fields, [a, b, c, d, e, f, g])
  {
    var order := [a, b, c, d, e, f, g];
    assert InPlace(fields, order, 0) && InPlace(fields, order, 1) && InPlace(fields, order, 2) && InPlace(fields, order, 3);
    assert InPlace(fields, order, 4) && InPlace(fields, order, 5) && InPlace(fields, order, 6);
  }

  lemma {:induction false} RotationKeysDistinct(from: Bytes, to: Bytes, fromAlgorithm: string, toAlgorithm: string,
                                                at: string, reason: string)
    ensures DistinctKeys(RotationFields(from, to, fromAlgorithm, toAlgorithm, at, reason))
  {
    assert |"type"| == 4 && |"from"| == 4 && "type"[0] != "from"[0] && |"to"| == 2 && |"reason"| == 6;
    assert |"from_algorithm"| == 14 && |"to_algorithm"| == 12 && |"rotated_at"| == 10;
  }

  /** The text that the predecessor signs in a rotation. */
  lemma {:induction false} RotationTextIs(from: Bytes, to: Bytes, fromAlgorithm: string, toAlgorithm: string, at: string,
                                          reason: string)
    ensures RotationText(from, to, fromAlgorithm, toAlgorithm, at, reason) == "{" + Joined(",", [
      Named("from", ":") + Quoted(true, Hex(from)), Named("from_algorithm", ":") + Quoted(true, fromAlgorithm),
      Named("reason", ":") + Quoted(true, reason), Named("rotated_at", ":") + Quoted(true, at),
      Named("to", ":") + Quoted(true, Hex(to)), Named("to_algorithm", ":") + Quoted(true, toAlgorithm),
      Named("type", ":") + Quoted(true, "key-rotation")]) + "}"
  {
    var f := RotationFields(from, to, fromAlgorithm, toAlgorithm, at, reason);
    assert SIGNED_TEXT(Obj(f)) == Canonical(COMPACT_ASCII, Obj(f));
    RotationKeysDistinct(from, to, fromAlgorithm, toAlgorithm, at, reason);
    RotationOrder(f);
    OrderedText(COMPACT_ASCII, f, [1, 3, 6, 5, 2, 4, 0]);
    SevenEntries(COMPACT_ASCII, f, 1, 3, 6, 5, 2, 4, 0);
    assert KEY_TEXT(from) == Hex(from) && KEY_TEXT(to) == Hex(to);
    TextEntry(COMPACT_ASCII, f, 1, "from", Hex(from));
    TextEntry(COMPACT_ASCII, f, 3, "from_algorithm", fromAlgorithm);
    TextEntry(COMPACT_ASCII, f, 6, "reason", reason);
    TextEntry(COMPACT_ASCII, f, 5, "rotated_at", at);
    TextEntry(COMPACT_ASCII, f, 2, "to", Hex(to));
    TextEntry(COMPACT_ASCII, f, 4, "to_algorithm", toAlgorithm);
    TextEntry(COMPACT_ASCII, f, 0, "type", "key-rotation");
  }

  function RevocationFields(key: Bytes, at: string, reason: string): seq<Field> {
    [Field("type", Str("key-revocation")), Field("key", Str(KEY_TEXT(key))), Field("revoked_at", Str(at)),
     Field("reason", Str(reason))]
  }

  lemma {:induction false} RevocationOrder(key: Bytes, at: string, reason: string)
    ensures Orders(RevocationFields(key, at, reason), [1, 3, 2, 0]) && DistinctKeys(RevocationFields(key, at, reason))
  {
    var f: seq<Field>, order: seq<nat> := RevocationFields(key, at, reason), [1, 3, 2, 0];
    assert |"type"| == 4 && |"key"| == 3 && |"reason"| == 6 && |"revoked_at"| == 10;
    RotationKeysPlain();
    assert Plain("key") && Plain("revoked_at");
    assert LexLess("key", "reason") && LexLess("reason", "revoked_at") && LexLess("revoked_at", "type");
    assert InPlace(f, order, 0) && InPlace(f, order, 1) && InPlace(f, order, 2) && InPlace(f, order, 3);
  }

  /** The text that is signed in a revocation. */
  lemma {:induction false} RevocationTextIs(key: Bytes, at: string, reason: string)
    ensures RevocationText(key, at, reason) == "{" + Joined(",", [
      Named("key", ":") + Quoted(true, Hex(key)), Named("reason", ":") + Quoted(true, reason),
      Named("revoked_at", ":") + Quoted(true, at), Named("type", ":") + Quoted(true, "key-revocation")]) + "}"
  {
    var f := RevocationFields(key, at, reason);
    assert SIGNED_TEXT(Obj(f)) == Canonical(COMPACT_ASCII, Obj(f));
    RevocationOrder(key, at, reason);
    OrderedText(COMPACT_ASCII, f, [1, 3, 2, 0]);
    FourEntries(COMPACT_ASCII, f, 1, 3, 2, 0);
    assert KEY_TEXT(key) == Hex(key);
    TextEntry(COMPACT_ASCII, f, 1, "key", Hex(key));
    TextEntry(COMPACT_ASCII, f, 3, "reason", reason);
    TextEntry(COMPACT_ASCII, f, 2, "revoked_at", at);
    TextEntry(COMPACT_ASCII, f, 0, "type", "key-revocation");
  }

  // ---------- Notary lines ----------

  lemma {:induction false} LineOrder(f: seq<Field>)
    requires |f| == 2 && f[0].key == "notarized_at" && f[1].key == "anchor"
    ensures Orders(f, [1, 0]) && DistinctKeys(f)
  {
    var order: seq<nat> := [1, 0];
    assert |"notarized_at"| != |"anchor"|;
    assert Plain("anchor") && Plain("notarized_at") && LexLess("anchor", "notarized_at");
    assert InPlace(f, order, 0) && InPlace(f, order, 1);
  }

  /** A line of the notary log: the anchor's canonical text and the time. */
  lemma {:induction false} NotaryLine(anchor: Value, now: string)
    ensures SIGNED_TEXT(Notary.Entry(anchor, now)) == "{" + Joined(",", [
      Named("anchor", ":") + SIGNED_TEXT(anchor), Named("notarized_at", ":") + Quoted(true, now)]) + "}"
  {
    var f := Notary.Entry(anchor, now).fields;
    assert SIGNED_TEXT(Obj(f)) == Canonical(COMPACT_ASCII, Obj(f));
    LineOrder(f);
    OrderedText(COMPACT_ASCII, f, [1, 0]);
    TwoEntries(COMPACT_ASCII, f, 1, 0);
    assert SIGNED_TEXT(anchor) == Canonical(COMPACT_ASCII, anchor);
    ValueEntry(COMPACT_ASCII, f, 1, "anchor", anchor);
    TextEntry(COMPACT_ASCII, f, 0, "notarized_at", now);
  }

  lemma {:induction false} AnchorKeysOrdered()
    ensures Plain("key_algorithm") && Plain("public_key") && Plain("signature") && Plain("snapshot")
    ensures LexLess("key_algorithm", "public_key") && LexLess("public_key", "signature") && LexLess("signature", "snapshot")
  {
  }

  lemma {:induction false} AnchorOrder(record: AnchorRecord)
    ensures Orders(Notary.WrittenAnchor(record).fields, [3, 2, 1, 0]) && DistinctKeys(Notary.WrittenAnchor(record).fields)
  {
    var f: seq<Field>, order: seq<nat> := Notary.WrittenAnchor(record).fields, [3, 2, 1, 0];
    assert |"snapshot"| == 8 && |"signature"| == 9 && |"public_key"| == 10 && |"key_algorithm"| == 13;
    AnchorKeysOrdered();
    assert InPlace(f, order, 0) && InPlace(f, order, 1) && InPlace(f, order, 2) && InPlace(f, order, 3);
  }

  /** The anchor inside it. */
  lemma {:induction false} AnchorText(record: AnchorRecord)
    requires WellFormed(record.snapshot)
    ensures SIGNED_TEXT(Notary.AnchorValue(record)) == "{" + Joined(",", [
      Named("key_algorithm", ":") + Quoted(true, if record.algorithm.Some? then record.algorithm.value else "ed25519"),
      Named("public_key", ":") + Quoted(true, Hex(record.publicKey)),
      Named("signature", ":") + Quoted(true, Hex(SIGNATURES.write(record.signature))),
      Named("snapshot", ":") + SIGNED_TEXT(record.snapshot)]) + "}"
  {
    var f := Notary.WrittenAnchor(record).fields;
    WrittenKeys(record, "");
    assert SIGNED_TEXT(Notary.AnchorValue(record)) == Canonical(COMPACT_ASCII, Notary.AnchorValue(record));
    AnchorOrder(record);
    OrderedText(COMPACT_ASCII, f, [3, 2, 1, 0]);
    FourEntries(COMPACT_ASCII, f, 3, 2, 1, 0);
    assert SIGNED_TEXT(record.snapshot) == Canonical(COMPACT_ASCII, record.snapshot);
    TextEntry(COMPACT_ASCII, f, 3, "key_algorithm", RecordedAlgorithm(record));
    TextEntry(COMPACT_ASCII, f, 2, "public_key", Hex(record.publicKey));
    TextEntry(COMPACT_ASCII, f, 1, "signature", Hex(SIGNATURES.write(record.signature)));
    ValueEntry(COMPACT_ASCII, f, 0, "snapshot", record.snapshot);
  }
}
