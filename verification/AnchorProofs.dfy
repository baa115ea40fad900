/** What an accepted anchor proves about the live chain. */
module AnchorProofs {
  import opened Text
  import opened Sha
  import opened Json
  import JsonProofs
  import opened Merkle
  import opened MerkleProofs
  import opened Chain
  import opened Store
  import opened Registry
  import opened Signatures
  import opened Anchor

  // ---------- What is signed ----------

  function ClaimsOf(rows: seq<Row>): Claims {
    Claims(LastHash(rows), LastSeq(rows), ChainSha(rows), Some(Root(Hashes(rows))))
  }

  lemma {:induction false} SnapshotKeys(dbPath: string, rows: seq<Row>, now: string)
    ensures DistinctKeys(SnapshotValue(dbPath, rows, now).fields) && WellFormed(SnapshotValue(dbPath, rows, now))
  {
    assert |"version"| == 7 && |"db_path"| == 7 && "version"[0] != "db_path"[0];
    assert |"seq"| == 3 && |"record_count"| == 12 && |"chain_sha256"| == 12 && "record_count"[0] != "chain_sha256"[0];
    assert |"tip_hash"| == 8;
    assert |"merkle_root"| == 11 && |"anchored_at"| == 11 && "merkle_root"[0] != "anchored_at"[0];
  }

  lemma {:induction false} SnapshotLookups(dbPath: string, rows: seq<Row>, now: string)
    ensures
      var f := SnapshotValue(dbPath, rows, now).fields;
      && Lookup(f, "tip_hash") == Some(Str(LastHash(rows))) && Lookup(f, "seq") == Some(Int(LastSeq(rows)))
      && Lookup(f, "chain_sha256") == Some(Str(ChainSha(rows)))
      && Lookup(f, "merkle_root") == Some(Str(Root(Hashes(rows))))
  {
    SnapshotKeys(dbPath, rows, now);
    var f := SnapshotValue(dbPath, rows, now).fields;
    JsonProofs.LookupDistinct(f, 2);
    JsonProofs.LookupDistinct(f, 4);
    JsonProofs.LookupDistinct(f, 5);
    JsonProofs.LookupDistinct(f, 6);
  }

  lemma {:induction false} SameFieldsSameClaims(x: seq<Field>, dbPath: string, rows: seq<Row>, now: string)
    requires SameValue(SnapshotValue(dbPath, rows, now), Obj(x))
    ensures ReadClaims(Obj(x)) == Some(ClaimsOf(rows))
  {
    var y := SnapshotValue(dbPath, rows, now).fields;
    SnapshotLookups(dbPath, rows, now);
    JsonProofs.SameLookup(x, y, "tip_hash", Str(LastHash(rows)));
    JsonProofs.SameLookup(x, y, "seq", Int(LastSeq(rows)));
    JsonProofs.SameLookup(x, y, "chain_sha256", Str(ChainSha(rows)));
    JsonProofs.SameLookup(x, y, "merkle_root", Str(Root(Hashes(rows))));
    ClaimsFromLookups(x, LastHash(rows), LastSeq(rows), ChainSha(rows), Root(Hashes(rows)));
  }

  lemma {:induction false} ClaimsFromLookups(x: seq<Field>, tipHash: string, seqNo: int, sha: string, root: string)
    requires Lookup(x, "tip_hash") == Some(Str(tipHash)) && Lookup(x, "seq") == Some(Int(seqNo))
    requires Lookup(x, "chain_sha256") == Some(Str(sha)) && Lookup(x, "merkle_root") == Some(Str(root))
    ensures ReadClaims(Obj(x)) == Some(Claims(tipHash, seqNo, sha, Some(root)))
  {
  }

  lemma {:induction false} SameTextSameValue(a: Value, b: Value)
    requires WellFormed(a) && WellFormed(b) && SIGNED_TEXT(a) == SIGNED_TEXT(b)
    ensures SameValue(b, a) && (b.Obj? ==> a.Obj?)
  {
    assert SIGNED_TEXT(a) == Canonical(COMPACT_ASCII, a);
    assert SIGNED_TEXT(b) == Canonical(COMPACT_ASCII, b);
    JsonProofs.CanonicalIffSame(COMPACT_ASCII, b, a);
  }

  /** A snapshot whose canonical text is that of an honest one says what the honest one says. */
  lemma {:induction false} SameTextSameClaims(snapshot: Value, dbPath: string, rows: seq<Row>, now: string)
    requires WellFormed(snapshot) && SIGNED_TEXT(snapshot) == SIGNED_TEXT(SnapshotValue(dbPath, rows, now))
    ensures ReadClaims(snapshot) == Some(ClaimsOf(rows))
  {
    SnapshotKeys(dbPath, rows, now);
    SameTextSameValue(snapshot, SnapshotValue(dbPath, rows, now));
    SameFieldsSameClaims(snapshot.fields, dbPath, rows, now);
  }

  /** The signature in the record was made by the holder of `who`'s key when the chain was `signed`. */
  predicate SignedOver(who: Keyholder, record: AnchorRecord, dbPath: string, signed: seq<Row>, now: string) {
    record.signature == Sig(who.key, who.algorithm, SIGNED_TEXT(SnapshotValue(dbPath, signed, now)))
  }

  /** Whatever else the file says, a record that passes the key checks and carries that signature is compared
      through the claims that were signed. */
  lemma {:induction false} VerdictComparesSigned(who: Keyholder, reg: Registry, record: AnchorRecord, rows: seq<Row>,
                                                 dbPath: string, signed: seq<Row>, now: string)
    requires WellFormed(record.snapshot) && SignedOver(who, record, dbPath, signed, now)
    requires KeyVerdict(who, reg, record) == None && AllParse(rows)
    ensures VerifyAnchor(who, reg, Some(record), rows) == Compare(ClaimsOf(signed), rows)
  {
    SameTextSameClaims(record.snapshot, dbPath, signed, now);
  }

  /** Nothing gets past the key checks on another signature than one under the verifier's own key over the very
      snapshot that is then compared; and the key the record names is not revoked. */
  lemma {:induction false} PassingNeedsOwnSignature(who: Keyholder, reg: Registry, record: AnchorRecord)
    requires KeyVerdict(who, reg, record) == None
    ensures record.signature == Sig(who.key, who.algorithm, SIGNED_TEXT(record.snapshot))
    ensures !IsRevoked(reg, record.publicKey)
  {
  }

  /** The key that signed may be revoked, for only the key the record names is looked up: a record signed by a revoked
      verifier's key passes exactly when it names the registry's recovery key instead, unrevoked, and an algorithm
      of either. */
  lemma {:induction false} RevokedSignerPasses(who: Keyholder, reg: Registry, record: AnchorRecord)
    requires IsRevoked(reg, who.key)
    requires VerifySignature(SIGNED_TEXT(record.snapshot), record.signature, who.key, who.algorithm)
    ensures KeyVerdict(who, reg, record) == None <==>
      && record.publicKey != who.key && IsRecovery(reg, record.publicKey) && !IsRevoked(reg, record.publicKey)
      && (RecordedAlgorithm(record) == who.algorithm || Some(RecordedAlgorithm(record)) == reg.recoveryAlgorithm)
  {
    var known := Bootstrapped(reg, who);
    assert forall k :: IsRevoked(known, k) <==> IsRevoked(reg, k);
  }

  /** The registry after a recovery key was registered and the first key revoked itself. */
  function SelfRevoked(who: Keyholder, recovery: Key, now: string): Registry {
    var none := Registry([], ED25519, None, None, [], []);
    AfterRun(none, [Ceremony.RegisterRecovery(who, recovery, who.algorithm), Ceremony.Revoke(who, None, "", now)])
  }

  lemma {:induction false} SelfRevokedIs(who: Keyholder, recovery: Key, now: string)
    requires who.canSign && recovery != who.key
    ensures var reg := SelfRevoked(who, recovery, now);
      && reg.current == who.key && IsRecovery(reg, recovery) && reg.recoveryAlgorithm == Some(who.algorithm)
      && IsRevoked(reg, who.key) && !IsRevoked(reg, recovery)
  {
    var none := Registry([], ED25519, None, None, [], []);
    var register, revoke := Ceremony.RegisterRecovery(who, recovery, who.algorithm), Ceremony.Revoke(who, None, "", now);
    assert [register, revoke][..1] == [register] && [register][..0] == [];
    var registered := AfterCeremony(none, register);
    assert AfterRun(none, [register]) == registered;
    assert AfterCeremony(registered, revoke).revocations[0].key == who.key;
  }

  /** It comes to that: what the revoked key signs afterwards is trusted under the recovery key's name. */
  lemma {:induction false} RevokedSignerTrusted(backend: Backend, recovery: Key, dbPath: string, rows: seq<Row>, now: string)
    requires recovery != backend.key && AllParse(rows)
    ensures
      var who := Keyholder(backend.key, backend.algorithm, true);
      var reg := SelfRevoked(who, recovery, now);
      var record := HonestRecord(backend, dbPath, rows, now).(publicKey := recovery);
      IsRevoked(reg, record.signature.key) && VerifyAnchor(who, reg, Some(record), rows) == Trusted(|rows|)
  {
    var who := Keyholder(backend.key, backend.algorithm, true);
    SelfRevokedIs(who, recovery, now);
    TrustedUnderOtherName(who, SelfRevoked(who, recovery, now), backend, recovery, dbPath, rows, now);
  }

  lemma {:induction false} TrustedUnderOtherName(who: Keyholder, reg: Registry, backend: Backend, recovery: Key, dbPath: string,
                                                 rows: seq<Row>, now: string)
    requires who.key == backend.key && who.algorithm == backend.algorithm && recovery != backend.key && AllParse(rows)
    requires IsRevoked(reg, who.key) && IsRecovery(reg, recovery) && !IsRevoked(reg, recovery)
    ensures VerifyAnchor(who, reg, Some(HonestRecord(backend, dbPath, rows, now).(publicKey := recovery)), rows)
         == Trusted(|rows|)
  {
    var record := HonestRecord(backend, dbPath, rows, now).(publicKey := recovery);
    RevokedSignerPasses(who, reg, record);
    SnapshotKeys(dbPath, rows, now);
    VerdictComparesSigned(who, reg, record, rows, dbPath, rows, now);
  }

  /** An honest anchor made with the recovery key is never accepted by a verifier that holds another key: the
      signature is checked under the verifier's own key. */
  lemma {:induction false} RecoveryAnchorRejected(who: Keyholder, reg: Registry, backend: Backend, dbPath: string,
                                                  signed: seq<Row>, now: string, rows: seq<Row>)
    requires backend.key != who.key
    ensures
      var v := VerifyAnchor(who, reg, Some(HonestRecord(backend, dbPath, signed, now)), rows);
      v.NotAuthorized? || v.RevokedKey? || v.OtherKey? || v.AlgorithmMismatch? || v.BadSignature?
  {
    if KeyVerdict(who, reg, HonestRecord(backend, dbPath, signed, now)) == None {
      PassingNeedsOwnSignature(who, reg, HonestRecord(backend, dbPath, signed, now));
    }
  }

  // ---------- The verdict is exact ----------

  /** The signed history is the beginning of the live one. */
  predicate PrefixHistory(signed: seq<Row>, live: seq<Row>) {
    |signed| <= |live| && SameHistory(signed, live[..|signed|])
  }

  predicate SeqsFromOne(rows: seq<Row>) {
    forall i | 0 <= i < |rows| :: rows[i].seqNo == i + 1
  }

  lemma {:induction false} SameHistorySameClaims(a: seq<Row>, b: seq<Row>)
    requires SameHistory(a, b)
    ensures LastHash(a) == LastHash(b) && Hashes(a) == Hashes(b)
  {
    forall i | 0 <= i < |a| ensures Hashes(a)[i] == Hashes(b)[i] {
      assert SameRecord(a[i], b[i]);
    }
    if a != [] {
      assert SameRecord(a[|a| - 1], b[|b| - 1]);
    }
  }

  /** The tip of a valid non-empty chain is among the hashes of a valid chain exactly when the first chain is the
      beginning of the second. */
  lemma {:induction false} TipInside(known: iset<Bytes>, a: seq<Row>, b: seq<Row>)
    requires Ideal(known) && RowsKnown(known, a) && RowsKnown(known, b) && ChainOk(a) && ChainOk(b)
    ensures LastHash(a) in Hashes(b) <==> a != [] && PrefixHistory(a, b)
  {
    if LastHash(a) in Hashes(b) {
      var i :| 0 <= i < |b| && Hashes(b)[i] == LastHash(a);
      HashIsNotGenesis(known, b, i);
      PrefixOk(b, i + 1);
      KnownPrefix(known, b, i + 1);
      TipDeterminesChain(known, a, b[..i + 1]);
    }
    if a != [] && PrefixHistory(a, b) {
      SameHistorySameClaims(a, b[..|a|]);
      assert Hashes(b)[|a| - 1] == LastHash(a);
    }
  }

  /** Between valid chains with seqs 1..n the verdict is exact: trusted for the history that was signed, stale for
      a proper extension of it, replaced for anything else; and a signed empty chain is never stale. */
  lemma {:induction false} CompareExact(known: iset<Bytes>, signed: seq<Row>, live: seq<Row>)
    requires Ideal(known) && RowsKnown(known, signed) && RowsKnown(known, live)
    requires ChainOk(signed) && ChainOk(live) && SeqsFromOne(signed) && SeqsFromOne(live)
    ensures
      var v := Compare(ClaimsOf(signed), live);
      && (v.Trusted? <==> SameHistory(signed, live))
      && (v.Stale? <==> signed != [] && |signed| < |live| && PrefixHistory(signed, live))
      && (v.Stale? ==> v.behind == |live| - |signed|)
      && (v.Trusted? || v.Stale? || v.Replaced?)
  {
    TipInside(known, signed, live);
    if LastHash(live) == LastHash(signed) {
      TipDeterminesChain(known, signed, live);
    }
    if SameHistory(signed, live) {
      SameHistorySameClaims(signed, live);
    }
  }

  /** The anchor verdict is exact on every live chain and every signed one. */
  lemma {:induction false} AnchorVerdictExact(
      known: iset<Bytes>, who: Keyholder, reg: Registry, record: AnchorRecord,
      dbPath: string, signed: seq<Row>, now: string, live: seq<Row>)
    requires Ideal(known) && RowsKnown(known, signed) && RowsKnown(known, live)
    requires ChainOk(signed) && ChainOk(live) && SeqsFromOne(signed) && SeqsFromOne(live)
    requires WellFormed(record.snapshot) && SignedOver(who, record, dbPath, signed, now)
    requires KeyVerdict(who, reg, record) == None
    ensures
      var v := VerifyAnchor(who, reg, Some(record), live);
      && (v.Trusted? <==> SameHistory(signed, live))
      && (v.Stale? <==> signed != [] && |signed| < |live| && PrefixHistory(signed, live))
      && (v == Replaced <==> !SameHistory(signed, live) && !(signed != [] && |signed| < |live| && PrefixHistory(signed, live)))
  {
    ValidRowsParse(live);
    VerdictComparesSigned(who, reg, record, live, dbPath, signed, now);
    CompareExact(known, signed, live);
  }

  lemma {:induction false} ValidRowsParse(rows: seq<Row>)
    requires ChainOk(rows)
    ensures AllParse(rows)
  {
    forall i | 0 <= i < |rows| ensures Payload(rows[i]).Some? {
      assert RowOk(rows, i);
    }
  }

  /** An anchor signed over the empty chain reports every later growth as a replacement. */
  lemma {:induction false} EmptyAnchorReadsAsReplacement(known: iset<Bytes>, live: seq<Row>)
    requires Ideal(known) && RowsKnown(known, live) && ChainOk(live) && SeqsFromOne(live) && live != []
    ensures Compare(ClaimsOf([]), live) == Replaced && PrefixHistory([], live)
  {
    CompareExact(known, [], live);
  }

  // ---------- Without internal validity ----------

  lemma {:induction false} HashHasNoNewline(s: string)
    requires IsHash(s)
    ensures '\n' !in s
  {
  }

  lemma {:induction false} EmptyRoot(known: iset<Bytes>, hashes: seq<string>)
    requires Ideal(known) && TreeKnown(known, hashes)
    ensures Root(hashes) == EMPTY_ROOT <==> hashes == []
  {
    if hashes != [] {
      var h := Height(|hashes|);
      RootIsAlone(|hashes|);
      assert MessageAt(hashes, h, 0) in known;
      HexRawGenesis(NodeAt(hashes, h, 0));
    }
  }

  /** The two fingerprints of a snapshot together pin the whole hash column of any table, valid or not: the root
      makes every entry of one column an entry of the other, hence free of newlines, and then the joined text
      gives the order.  `signed` need only have hash-shaped entries. */
  lemma {:induction false} FingerprintsPinHashes(known: iset<Bytes>, signed: seq<string>, live: seq<string>)
    requires Ideal(known) && TreeKnown(known, signed) && TreeKnown(known, live)
    requires Utf8(JoinLines(signed)) in known && Utf8(JoinLines(live)) in known
    requires forall t | t in signed :: IsHash(t)
    requires Root(signed) == Root(live) && HashText(JoinLines(signed)) == HashText(JoinLines(live))
    ensures signed == live
  {
    EmptyRoot(known, signed);
    EmptyRoot(known, live);
    if live != [] {
      RootMembers(known, live, signed);
      HashTextInjective(known, JoinLines(signed), JoinLines(live));
      forall l | l in signed || l in live ensures '\n' !in l {
        HashHasNoNewline(l);
      }
      JoinLinesInjective(signed, live);
    }
  }

  /** `known` holds everything that was hashed to build and to check the two fingerprints of a hash column. */
  ghost predicate FingerprintsKnown(known: iset<Bytes>, rows: seq<Row>) {
    TreeKnown(known, Hashes(rows)) && Utf8(JoinLines(Hashes(rows))) in known
  }

  /** A trusted anchor pins the hash column, whatever table is behind it. */
  lemma {:induction false} TrustPinsHashes(
      known: iset<Bytes>, who: Keyholder, reg: Registry, record: AnchorRecord,
      dbPath: string, signed: seq<Row>, now: string, live: seq<Row>)
    requires Ideal(known) && FingerprintsKnown(known, signed) && FingerprintsKnown(known, live)
    requires forall i | 0 <= i < |signed| :: IsHash(signed[i].recordHash)
    requires WellFormed(record.snapshot) && SignedOver(who, record, dbPath, signed, now)
    requires VerifyAnchor(who, reg, Some(record), live).Trusted?
    ensures Hashes(live) == Hashes(signed)
  {
    VerdictComparesSigned(who, reg, record, live, dbPath, signed, now);
    FingerprintsPinHashes(known, Hashes(signed), Hashes(live));
  }

  /** verify_trustworthy is sound against whole-history replacement: if it passes, the live records have the
      contents of the signed ones, in their order.  Of the signed list only the records' own hashes are assumed. */
  lemma {:induction false} TrustworthySound(
      known: iset<Bytes>, who: Keyholder, reg: Registry, record: AnchorRecord,
      dbPath: string, signed: seq<Row>, now: string, live: seq<Row>)
    requires Ideal(known) && FingerprintsKnown(known, signed) && FingerprintsKnown(known, live)
    requires RowsKnown(known, signed) && RowsKnown(known, live)
    requires forall i | 0 <= i < |signed| :: HashOk(signed[i])
    requires WellFormed(record.snapshot) && SignedOver(who, record, dbPath, signed, now)
    requires Trustworthy(who, reg, Some(record), live)
    ensures ChainOk(live) && SameHistory(signed, live)
  {
    VerdictExact(live);
    TrustPinsHashes(known, who, reg, record, dbPath, signed, now, live);
    forall i | 0 <= i < |signed| ensures SameRecord(signed[i], live[i]) {
      assert Hashes(signed)[i] == Hashes(live)[i];
      assert RowOk(live, i) && RowKnown(known, signed[i]) && RowKnown(known, live[i]);
      HashDeterminesRow(known, signed[i], live[i]);
    }
  }

  // ---------- Honest anchors ----------

  /** An honest record passes the key checks of its own signer exactly when the registry names that key, as
      current or as recovery key, and has not revoked it. */
  lemma {:induction false} HonestPassesKeyChecks(backend: Backend, canSign: bool, reg: Registry, dbPath: string,
                                                 rows: seq<Row>, now: string)
    ensures
      var who := Keyholder(backend.key, backend.algorithm, canSign);
      var known := Bootstrapped(reg, who);
      (KeyVerdict(who, reg, HonestRecord(backend, dbPath, rows, now)) == None) <==>
      (IsCurrent(known, backend.key) || IsRecovery(known, backend.key)) && !IsRevoked(known, backend.key)
  {
  }

  lemma {:induction false} HonestClaims(dbPath: string, rows: seq<Row>, now: string)
    ensures ReadClaims(SnapshotValue(dbPath, rows, now)) == Some(ClaimsOf(rows))
  {
    SnapshotKeys(dbPath, rows, now);
    SameTextSameClaims(SnapshotValue(dbPath, rows, now), dbPath, rows, now);
  }

  lemma {:induction false} HonestVerdict(who: Keyholder, reg: Registry, backend: Backend, dbPath: string,
                                         signed: seq<Row>, now: string, live: seq<Row>)
    requires KeyVerdict(who, reg, HonestRecord(backend, dbPath, signed, now)) == None && AllParse(live)
    ensures VerifyAnchor(who, reg, Some(HonestRecord(backend, dbPath, signed, now)), live) == Compare(ClaimsOf(signed), live)
  {
    HonestClaims(dbPath, signed, now);
  }

  /** A fresh anchor is trusted: no property of the hash is needed, and the chain need not even be valid. */
  lemma {:induction false} FreshAnchorTrusted(who: Keyholder, reg: Registry, backend: Backend, dbPath: string,
                                              rows: seq<Row>, now: string)
    requires KeyVerdict(who, reg, HonestRecord(backend, dbPath, rows, now)) == None && AllParse(rows)
    ensures VerifyAnchor(who, reg, Some(HonestRecord(backend, dbPath, rows, now)), rows) == Trusted(|rows|)
  {
    HonestVerdict(who, reg, backend, dbPath, rows, now, rows);
  }

  // ---------- Notary entries ----------

  /** An entry whose signature verifies, by a registered key, over the snapshot of the chain `signed`. */
  predicate EntryOver(who: Keyholder, reg: Registry, record: AnchorRecord, dbPath: string, signed: seq<Row>, now: string) {
    && IsRegistered(Bootstrapped(reg, who), record.publicKey)
    && VerifySignature(SIGNED_TEXT(record.snapshot), record.signature, record.publicKey, RecordedAlgorithm(record))
    && SIGNED_TEXT(record.snapshot) == SIGNED_TEXT(SnapshotValue(dbPath, signed, now))
  }

  /** Whatever the live table, valid or not, such an entry is accepted exactly when the signed tip is among its hashes. */
  lemma {:induction false} EntryTipExactly(who: Keyholder, reg: Registry, record: AnchorRecord, dbPath: string,
                                           signed: seq<Row>, now: string, live: seq<Row>)
    requires WellFormed(record.snapshot) && EntryOver(who, reg, record, dbPath, signed, now) && AllParse(live)
    ensures VerifyEntry(who, reg, NotaryEntry(Some(record)), live) == EntryValid <==> LastHash(signed) in Hashes(live)
  {
    SameTextSameTip(record.snapshot, dbPath, signed, now);
    TipListed(live, LastHash(signed));
    EntryNeedsTip(who, reg, record, live, LastHash(signed));
  }

  /** Notarized history: against a valid live chain such an entry is accepted exactly when the chain it was made over
      is not empty and is the beginning of the live one.  No seq is looked at. */
  lemma {:induction false} EntryExactly(known: iset<Bytes>, who: Keyholder, reg: Registry, record: AnchorRecord,
                                        dbPath: string, signed: seq<Row>, now: string, live: seq<Row>)
    requires Ideal(known) && RowsKnown(known, signed) && RowsKnown(known, live) && ChainOk(signed) && ChainOk(live)
    requires WellFormed(record.snapshot) && EntryOver(who, reg, record, dbPath, signed, now)
    ensures VerifyEntry(who, reg, NotaryEntry(Some(record)), live) == EntryValid
       <==> signed != [] && PrefixHistory(signed, live)
  {
    ValidRowsParse(live);
    EntryTipExactly(who, reg, record, dbPath, signed, now, live);
    TipInside(known, signed, live);
  }

  lemma {:induction false} SameTextSameTip(snapshot: Value, dbPath: string, rows: seq<Row>, now: string)
    requires WellFormed(snapshot) && SIGNED_TEXT(snapshot) == SIGNED_TEXT(SnapshotValue(dbPath, rows, now))
    ensures TipOf(snapshot) == Str(LastHash(rows))
  {
    SnapshotKeys(dbPath, rows, now);
    SnapshotLookups(dbPath, rows, now);
    SameTextSameValue(snapshot, SnapshotValue(dbPath, rows, now));
    JsonProofs.SameLookup(snapshot.fields, SnapshotValue(dbPath, rows, now).fields, "tip_hash", Str(LastHash(rows)));
  }

  lemma {:induction false} TipListed(rows: seq<Row>, tip: string)
    ensures tip in Hashes(rows) <==> exists i | 0 <= i < |rows| :: rows[i].recordHash == tip
  {
    if i :| 0 <= i < |rows| && rows[i].recordHash == tip {
      assert Hashes(rows)[i] == tip;
    }
  }

  lemma {:induction false} EntryNeedsTip(who: Keyholder, reg: Registry, record: AnchorRecord, rows: seq<Row>, tip: string)
    requires IsRegistered(Bootstrapped(reg, who), record.publicKey) && AllParse(rows)
    requires VerifySignature(SIGNED_TEXT(record.snapshot), record.signature, record.publicKey, RecordedAlgorithm(record))
    requires TipOf(record.snapshot) == Str(tip)
    ensures VerifyEntry(who, reg, NotaryEntry(Some(record)), rows) == EntryValid
       <==> exists i | 0 <= i < |rows| :: rows[i].recordHash == tip
  {
    assert forall i | 0 <= i < |rows| :: TipOf(record.snapshot) == Str(rows[i].recordHash) <==> rows[i].recordHash == tip;
  }

  // ---------- Acceptance over time ----------

  /** An entry accepted under a key that took part in a rotation stays accepted through every later run of
      ceremonies and every append. */
  lemma {:induction false} EntryStaysAccepted(who: Keyholder, reg: Registry, run: seq<Ceremony>, record: AnchorRecord,
                                              rows: seq<Row>, more: seq<Row>)
    requires CustodyOk(reg) && TookPart(reg, record.publicKey) && AllParse(rows + more)
    ensures VerifyEntry(who, reg, NotaryEntry(Some(record)), rows) == EntryValid ==>
      VerifyEntry(who, AfterRun(reg, run), NotaryEntry(Some(record)), rows + more) == EntryValid
  {
    RunKeepsKeys(reg, run, record.publicKey);
    if VerifyEntry(who, reg, NotaryEntry(Some(record)), rows) == EntryValid {
      var i :| 0 <= i < |rows| && TipOf(record.snapshot) == Str(rows[i].recordHash);
      assert (rows + more)[i] == rows[i];
      var after := AfterRun(reg, run);
      assert TookPart(Bootstrapped(after, who), record.publicKey);
    }
  }

  /** Once a key is revoked, no later verification accepts an anchor recorded under it. */
  lemma {:induction false} RevokedForGood(who: Keyholder, reg: Registry, run: seq<Ceremony>, record: AnchorRecord, rows: seq<Row>)
    requires CustodyOk(reg) && IsRevoked(reg, record.publicKey)
    ensures var v := VerifyAnchor(who, AfterRun(reg, run), Some(record), rows); v.NotAuthorized? || v.RevokedKey?
  {
    RunKeepsKeys(reg, run, record.publicKey);
    var after := AfterRun(reg, run);
    assert IsRevoked(Bootstrapped(after, who), record.publicKey);
  }
}
