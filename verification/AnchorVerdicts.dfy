/** Which verdict verification gives: for anchors and for notary entries, each with its exact condition. */
module AnchorVerdicts {
  import opened Text
  import opened Sha
  import opened Json
  import opened Merkle
  import opened Chain
  import opened Store
  import opened Signatures
  import opened Registry
  import opened Anchor
  import opened AnchorProofs

  // ---------- Keys ----------

  /** The current key, which is the verifier's own while no registry names one. */
  function CurrentKey(reg: Registry, who: Keyholder): Key {
    if reg.current == [] then who.key else reg.current
  }

  predicate RecoveryKey(reg: Registry, key: Bytes) {
    key != [] && reg.recovery == Some(key)
  }

  predicate Retired(reg: Registry, key: Bytes) {
    exists r | r in reg.revocations :: r.key == key
  }

  /** A key that the registry has in whatever role. */
  predicate EverAuthorized(reg: Registry, who: Keyholder, key: Bytes) {
    key == CurrentKey(reg, who) || RecoveryKey(reg, key) || exists r | r in reg.rotations :: r.from == key || r.to == key
  }

  lemma {:induction false} RetiredIs(reg: Registry, who: Keyholder, key: Bytes)
    ensures IsRevoked(Bootstrapped(reg, who), key) <==> Retired(reg, key)
  {
    var known := Bootstrapped(reg, who);
    if IsRevoked(known, key) {
      var i :| 0 <= i < |known.revocations| && known.revocations[i].key == key;
      assert known.revocations[i] in reg.revocations;
    }
    if r :| r in reg.revocations && r.key == key {
      var i :| 0 <= i < |reg.revocations| && reg.revocations[i] == r;
      assert known.revocations[i].key == key;
    }
  }

  lemma {:induction false} EverAuthorizedIs(reg: Registry, who: Keyholder, key: Bytes)
    ensures IsRegistered(Bootstrapped(reg, who), key) <==> EverAuthorized(reg, who, key)
  {
    var known := Bootstrapped(reg, who);
    if TookPart(known, key) {
      var i :| 0 <= i < |known.rotations| && (known.rotations[i].from == key || known.rotations[i].to == key);
      assert known.rotations[i] in reg.rotations;
    }
    if r :| r in reg.rotations && (r.from == key || r.to == key) {
      var i :| 0 <= i < |reg.rotations| && reg.rotations[i] == r;
      assert known.rotations[i].from == key || known.rotations[i].to == key;
    }
  }

  /** A record that may be compared: it names the current or the recovery key, unrevoked, and the verifier's own key unless
      it is the recovery key, an algorithm that goes with it, and carries the verifier's signature. */
  predicate MayCompare(who: Keyholder, reg: Registry, record: AnchorRecord) {
    && Named(who, reg, record) && AlgorithmFits(who, reg, record)
    && record.signature == Sig(who.key, who.algorithm, SIGNED_TEXT(record.snapshot))
  }

  predicate Authorized(who: Keyholder, reg: Registry, key: Bytes) {
    key == CurrentKey(reg, who) || RecoveryKey(reg, key)
  }

  predicate Named(who: Keyholder, reg: Registry, record: AnchorRecord) {
    var key := record.publicKey;
    Authorized(who, reg, key) && !Retired(reg, key) && (key == who.key || RecoveryKey(reg, key))
  }

  predicate AlgorithmFits(who: Keyholder, reg: Registry, record: AnchorRecord) {
    var algorithm := if record.algorithm.Some? then record.algorithm.value else "ed25519";
    algorithm == who.algorithm || reg.recoveryAlgorithm == Some(algorithm)
  }

  lemma {:induction false} KeysDecide(who: Keyholder, reg: Registry, record: AnchorRecord)
    ensures var k, v := record.publicKey, KeyVerdict(who, reg, record);
      && (v == Some(NotAuthorized) <==> !Authorized(who, reg, k))
      && (v == Some(RevokedKey) <==> Authorized(who, reg, k) && Retired(reg, k))
      && (v == Some(OtherKey) <==> Authorized(who, reg, k) && !Retired(reg, k) && k != who.key && !RecoveryKey(reg, k))
      && (v == Some(AlgorithmMismatch) <==> Named(who, reg, record) && !AlgorithmFits(who, reg, record))
      && (v == Some(BadSignature) <==> Named(who, reg, record) && AlgorithmFits(who, reg, record) && !MayCompare(who, reg, record))
      && (v == None <==> MayCompare(who, reg, record))
  {
    RetiredIs(reg, who, record.publicKey);
  }

  lemma {:induction false} ComparisonKinds(claims: Claims, rows: seq<Row>)
    ensures var v := Compare(claims, rows); v.Trusted? || v.Stale? || v.Replaced? || v.FingerprintMismatch? || v.RootMismatch?
  {
  }

  lemma {:induction false} VerdictSteps(who: Keyholder, reg: Registry, record: AnchorRecord, rows: seq<Row>)
    ensures
      var v, key, claims := VerifyAnchor(who, reg, Some(record), rows), KeyVerdict(who, reg, record), ReadClaims(record.snapshot);
      v == if key.Some? then key.value else if !AllParse(rows) || claims == None then Raised else Compare(claims.value, rows)
  {
  }

  /** Each refusal of verify, for every registry, record and live table. */
  lemma {:induction false} RefusalsExactly(who: Keyholder, reg: Registry, record: AnchorRecord, rows: seq<Row>)
    ensures
      var k, v := record.publicKey, VerifyAnchor(who, reg, Some(record), rows);
      && (v == NotAuthorized <==> !Authorized(who, reg, k))
      && (v == RevokedKey <==> Authorized(who, reg, k) && Retired(reg, k))
      && (v == OtherKey <==> Authorized(who, reg, k) && !Retired(reg, k) && k != who.key && !RecoveryKey(reg, k))
      && (v == AlgorithmMismatch <==> Named(who, reg, record) && !AlgorithmFits(who, reg, record))
      && (v == BadSignature <==> Named(who, reg, record) && AlgorithmFits(who, reg, record) && !MayCompare(who, reg, record))
      && (v == Raised <==> MayCompare(who, reg, record) && (!AllParse(rows) || ReadClaims(record.snapshot) == None))
      && v != NoAnchor
  {
    KeysDecide(who, reg, record);
    VerdictSteps(who, reg, record, rows);
    var claims := ReadClaims(record.snapshot);
    if claims.Some? {
      ComparisonKinds(claims.value, rows);
    }
  }

  lemma {:induction false} NothingToVerify(who: Keyholder, reg: Registry, rows: seq<Row>)
    ensures VerifyAnchor(who, reg, None, rows) == NoAnchor
  {
  }

  // ---------- Comparisons ----------

  /** What a snapshot claims: a tip, a seq and a fingerprint, each of its type, and a root if it has one. */
  predicate Claiming(snapshot: Value, claims: Claims) {
    && snapshot.Obj?
    && Lookup(snapshot.fields, "tip_hash") == Some(Str(claims.tipHash))
    && Lookup(snapshot.fields, "seq") == Some(Int(claims.seqNo))
    && Lookup(snapshot.fields, "chain_sha256") == Some(Str(claims.chainSha))
    && Lookup(snapshot.fields, "merkle_root") == (match claims.root case None => None case Some(root) => Some(Str(root)))
  }

  lemma {:induction false} ClaimsExactly(snapshot: Value, claims: Claims)
    ensures ReadClaims(snapshot) == Some(claims) <==> Claiming(snapshot, claims)
  {
  }

  /** Live rows, valid or not, against a believed anchor with another tip or another seq: stale, by the difference of the
      seqs, exactly if the signed tip is in the hash column and the live seq is greater, and replaced otherwise. */
  lemma {:induction false} OtherTipVerdict(who: Keyholder, reg: Registry, record: AnchorRecord, claims: Claims, rows: seq<Row>)
    requires MayCompare(who, reg, record) && AllParse(rows) && Claiming(record.snapshot, claims)
    ensures
      var v := VerifyAnchor(who, reg, Some(record), rows);
      var grown := rows != [] && rows[|rows| - 1].seqNo > claims.seqNo
                   && exists row | row in rows :: row.recordHash == claims.tipHash;
      var same := if rows == [] then claims.tipHash == GENESIS && claims.seqNo == 0
                  else rows[|rows| - 1].recordHash == claims.tipHash && rows[|rows| - 1].seqNo == claims.seqNo;
      && (v.Stale? <==> grown) && (v.Stale? ==> v.behind == rows[|rows| - 1].seqNo - claims.seqNo)
      && (v == Replaced <==> !grown && !same)
  {
    BelievedIsCompared(who, reg, record, claims, rows);
    HashInColumn(claims.tipHash, rows);
  }

  lemma {:induction false} BelievedIsCompared(who: Keyholder, reg: Registry, record: AnchorRecord, claims: Claims, rows: seq<Row>)
    requires MayCompare(who, reg, record) && AllParse(rows) && Claiming(record.snapshot, claims)
    ensures VerifyAnchor(who, reg, Some(record), rows) == Compare(claims, rows)
  {
    ClaimsExactly(record.snapshot, claims);
    KeysDecide(who, reg, record);
    VerdictSteps(who, reg, record, rows);
  }

  lemma {:induction false} HashInColumn(hash: string, rows: seq<Row>)
    ensures hash in Hashes(rows) <==> exists row | row in rows :: row.recordHash == hash
  {
    if hash in Hashes(rows) {
      var i :| 0 <= i < |rows| && Hashes(rows)[i] == hash;
      assert rows[i] in rows;
    }
    if row :| row in rows && row.recordHash == hash {
      var i :| 0 <= i < |rows| && rows[i] == row;
      assert Hashes(rows)[i] == hash;
    }
  }

  lemma {:induction false} SameFingerprint(known: iset<Bytes>, a: seq<string>, b: seq<string>)
    requires Ideal(known) && Utf8(JoinLines(a)) in known && Utf8(JoinLines(b)) in known && a != [] && b != []
    requires (forall t | t in a :: IsHash(t)) && forall t | t in b :: IsHash(t)
    ensures HashText(JoinLines(a)) == HashText(JoinLines(b)) <==> a == b
  {
    if HashText(JoinLines(a)) == HashText(JoinLines(b)) {
      HashTextInjective(known, JoinLines(a), JoinLines(b));
      forall l | l in a || l in b ensures '\n' !in l {
        HashHasNoNewline(l);
      }
      JoinLinesInjective(a, b);
    }
  }

  /** Live rows that end in the signed tip, with the signed seq: trusted exactly for the signed hash column, and reported
      as another fingerprint otherwise. */
  lemma {:induction false} SameTipVerdict(known: iset<Bytes>, signed: seq<Row>, live: seq<Row>)
    requires Ideal(known) && signed != [] && live != []
    requires Utf8(JoinLines(Hashes(signed))) in known && Utf8(JoinLines(Hashes(live))) in known
    requires (forall t | t in Hashes(signed) :: IsHash(t)) && forall t | t in Hashes(live) :: IsHash(t)
    requires live[|live| - 1].recordHash == signed[|signed| - 1].recordHash && live[|live| - 1].seqNo == signed[|signed| - 1].seqNo
    ensures Compare(ClaimsOf(signed), live) == if Hashes(live) == Hashes(signed) then Trusted(|live|) else FingerprintMismatch
  {
    SameFingerprint(known, Hashes(live), Hashes(signed));
  }

  /** The root is checked last, and only if the snapshot has one. */
  lemma {:induction false} RootChecked(rows: seq<Row>, root: Option<string>)
    ensures Compare(ClaimsOf(rows).(root := root), rows)
         == if root == None || root == Some(Root(Hashes(rows))) then Trusted(|rows|) else RootMismatch
  {
  }

  // ---------- Notary entries ----------

  /** The entry's signature verifies under the key it names. */
  predicate SelfSigned(record: AnchorRecord) {
    var algorithm := if record.algorithm.Some? then record.algorithm.value else "ed25519";
    record.signature == Sig(record.publicKey, algorithm, SIGNED_TEXT(record.snapshot))
  }

  /** Each outcome of verify_notary_entry. */
  lemma {:induction false} EntriesExactly(who: Keyholder, reg: Registry, entry: NotaryEntry, rows: seq<Row>)
    ensures VerifyEntry(who, reg, entry, rows) == NoSnapshot <==> entry.anchor == None
    ensures entry.anchor.Some? ==>
      var record, v := entry.anchor.value, VerifyEntry(who, reg, entry, rows);
      var known := EverAuthorized(reg, who, record.publicKey);
      var live := exists row | row in rows :: NamesTip(record.snapshot, row.recordHash);
      && (v == KeyNotRegistered <==> !known)
      && (v == EntryBadSignature <==> known && !SelfSigned(record))
      && (v == EntryRaised <==> known && SelfSigned(record) && exists row | row in rows :: Payload(row) == None)
      && (v == TipNotLive <==> known && SelfSigned(record) && AllParse(rows) && !live)
      && (v == EntryValid <==> known && SelfSigned(record) && AllParse(rows) && live)
  {
    if entry.anchor.Some? {
      var record := entry.anchor.value;
      EverAuthorizedIs(reg, who, record.publicKey);
      LiveTip(record.snapshot, rows);
      SomeUnreadable(rows);
    }
  }

  /** The snapshot's tip; one without a tip names the empty text. */
  predicate NamesTip(snapshot: Value, hash: string) {
    && snapshot.Obj?
    && (Lookup(snapshot.fields, "tip_hash") == Some(Str(hash)) || (Lookup(snapshot.fields, "tip_hash") == None && hash == ""))
  }

  lemma {:induction false} LiveTip(snapshot: Value, rows: seq<Row>)
    ensures (exists i | 0 <= i < |rows| :: TipOf(snapshot) == Str(rows[i].recordHash))
       <==> exists row | row in rows :: NamesTip(snapshot, row.recordHash)
  {
    if i :| 0 <= i < |rows| && TipOf(snapshot) == Str(rows[i].recordHash) {
      assert rows[i] in rows && NamesTip(snapshot, rows[i].recordHash);
    }
    if row :| row in rows && NamesTip(snapshot, row.recordHash) {
      var i :| 0 <= i < |rows| && rows[i] == row;
      assert TipOf(snapshot) == Str(rows[i].recordHash);
    }
  }

  lemma {:induction false} SomeUnreadable(rows: seq<Row>)
    ensures !AllParse(rows) <==> exists row | row in rows :: Payload(row) == None
  {
    if i :| 0 <= i < |rows| && Payload(rows[i]).None? {
      assert rows[i] in rows;
    }
  }
}
