/** The signed external anchor of a chain's tip: snapshots, the verdict of verification, and the ceremonies. */
module Anchor {
  import opened Text
  import opened Sha
  import opened Json
  import opened Merkle
  import opened Chain
  import opened Store
  import opened Registry
  import opened Signatures

  // ---------- Snapshots ----------

  function LastSeq(rows: seq<Row>): int {
    if rows == [] then 0 else rows[|rows| - 1].seqNo
  }

  function ChainSha(rows: seq<Row>): string {
    HashText(JoinLines(Hashes(rows)))
  }

  function SnapshotValue(dbPath: string, rows: seq<Row>, now: string): Value {
    Obj([Field("version", Int(1)), Field("db_path", Str(dbPath)), Field("seq", Int(LastSeq(rows))),
         Field("record_count", Int(|rows|)), Field("tip_hash", Str(LastHash(rows))),
         Field("merkle_root", Str(Root(Hashes(rows)))), Field("chain_sha256", Str(ChainSha(rows))),
         Field("anchored_at", Str(now))])
  }

  /** The anchor file, as parsed; any process may have written it. */
  datatype AnchorRecord = AnchorRecord(snapshot: Value, signature: Signature, publicKey: Bytes, algorithm: Option<string>)

  function RecordedAlgorithm(record: AnchorRecord): string {
    if record.algorithm.Some? then record.algorithm.value else ED25519
  }

  function HonestRecord(backend: Backend, dbPath: string, rows: seq<Row>, now: string): AnchorRecord {
    var snapshot := SnapshotValue(dbPath, rows, now);
    AnchorRecord(snapshot, Sign(backend, SIGNED_TEXT(snapshot)), backend.key, Some(backend.algorithm))
  }

  // ---------- Verification ----------

  /** What verification reads from a snapshot; anchors written before the Merkle tree carry no root. */
  datatype Claims = Claims(tipHash: string, seqNo: int, chainSha: string, root: Option<string>)

  /** None stands for the exception a missing or mistyped field raises. */
  function ReadClaims(snapshot: Value): Option<Claims> {
    if !snapshot.Obj? then None
    else
      var f := snapshot.fields;
      match (Lookup(f, "tip_hash"), Lookup(f, "seq"), Lookup(f, "chain_sha256"), Lookup(f, "merkle_root"))
      case (Some(Str(tip)), Some(Int(seqNo)), Some(Str(sha)), Some(Str(root))) => Some(Claims(tip, seqNo, sha, Some(root)))
      case (Some(Str(tip)), Some(Int(seqNo)), Some(Str(sha)), None) => Some(Claims(tip, seqNo, sha, None))
      case _ => None
  }

  datatype AnchorVerdict =
    | Trusted(recordCount: nat)
    | NoAnchor | NotAuthorized | RevokedKey | OtherKey | AlgorithmMismatch | BadSignature
    | Stale(behind: int)
    | Replaced | FingerprintMismatch | RootMismatch
    | Raised

  /** Whether the record may be believed at all; None lets it through. */
  function KeyVerdict(who: Keyholder, reg: Registry, record: AnchorRecord): Option<AnchorVerdict> {
    var effective, key := Bootstrapped(reg, who), record.publicKey;
    var algorithm := RecordedAlgorithm(record);
    if !IsCurrent(effective, key) && !IsRecovery(effective, key) then Some(NotAuthorized)
    else if IsRevoked(effective, key) then Some(RevokedKey)
    else if key != who.key && !IsRecovery(effective, key) then Some(OtherKey)
    else if algorithm != who.algorithm && Some(algorithm) != effective.recoveryAlgorithm then Some(AlgorithmMismatch)
    else if !VerifySignature(SIGNED_TEXT(record.snapshot), record.signature, who.key, who.algorithm) then Some(BadSignature)
    else None
  }

  /** The live chain against what was signed. */
  function Compare(claims: Claims, rows: seq<Row>): AnchorVerdict {
    if LastHash(rows) != claims.tipHash || LastSeq(rows) != claims.seqNo then
      if claims.tipHash in Hashes(rows) && LastSeq(rows) > claims.seqNo then Stale(LastSeq(rows) - claims.seqNo)
      else Replaced
    else if ChainSha(rows) != claims.chainSha then FingerprintMismatch
    else if claims.root.Some? && Root(Hashes(rows)) != claims.root.value then RootMismatch
    else Trusted(|rows|)
  }

  function VerifyAnchor(who: Keyholder, reg: Registry, stored: Option<AnchorRecord>, rows: seq<Row>): AnchorVerdict {
    match stored
    case None => NoAnchor
    case Some(record) =>
      match KeyVerdict(who, reg, record)
      case Some(v) => v
      case None =>
        if !AllParse(rows) then Raised
        else match ReadClaims(record.snapshot)
          case None => Raised
          case Some(claims) => Compare(claims, rows)
  }

  /** verify_trustworthy on an anchored chain: the first check that fails decides. */
  predicate Trustworthy(who: Keyholder, reg: Registry, stored: Option<AnchorRecord>, rows: seq<Row>) {
    VerdictOf(rows).Valid? && VerifyAnchor(who, reg, stored, rows).Trusted?
  }

  // ---------- Notary entries ----------

  /** One line of a notary log, as parsed; None stands for an entry without an anchor snapshot. */
  datatype NotaryEntry = NotaryEntry(anchor: Option<AnchorRecord>)

  datatype EntryVerdict = EntryValid | NoSnapshot | KeyNotRegistered | EntryBadSignature | TipNotLive | EntryRaised

  function TipOf(snapshot: Value): Value {
    if !snapshot.Obj? then Null
    else match Lookup(snapshot.fields, "tip_hash")
      case Some(tip) => tip
      case None => Str("")
  }

  /** verify_notary_entry: under the entry's own key, which must only be registered, against any live record. */
  function VerifyEntry(who: Keyholder, reg: Registry, entry: NotaryEntry, rows: seq<Row>): EntryVerdict {
    match entry.anchor
    case None => NoSnapshot
    case Some(record) =>
      if !IsRegistered(Bootstrapped(reg, who), record.publicKey) then KeyNotRegistered
      else if !VerifySignature(SIGNED_TEXT(record.snapshot), record.signature, record.publicKey, RecordedAlgorithm(record)) then
        EntryBadSignature
      else if !AllParse(rows) then EntryRaised
      else if !(exists i | 0 <= i < |rows| :: TipOf(record.snapshot) == Str(rows[i].recordHash)) then TipNotLive
      else EntryValid
  }

  // ---------- The objects ----------

  /** chain_anchor.json */
  class AnchorFile {
    var stored: Option<AnchorRecord>

    constructor ()
      ensures stored == None
    {
      stored := None;
    }
  }

  class ChainAnchor {
    const signer: Option<Backend>
    const key: Key
    const algorithm: string
    const dbPath: string
    const file: AnchorFile
    const registry: KeyRegistry

    function Who(): Keyholder {
      Keyholder(key, algorithm, signer.Some?)
    }

    ghost predicate Valid() {
      signer.Some? ==> key == signer.value.key && algorithm == signer.value.algorithm
    }

    constructor Signing(backend: Backend, dbPath: string, file: AnchorFile, registry: KeyRegistry)
      ensures Valid() && signer == Some(backend) && this.file == file && this.registry == registry && this.dbPath == dbPath
    {
      signer, key, algorithm := Some(backend), backend.key, backend.algorithm;
      this.dbPath, this.file, this.registry := dbPath, file, registry;
    }

    constructor VerifyOnly(key: Key, algorithm: string, dbPath: string, file: AnchorFile, registry: KeyRegistry)
      ensures Valid() && signer == None && this.key == key && this.algorithm == algorithm
      ensures this.file == file && this.registry == registry && this.dbPath == dbPath
    {
      signer := None;
      this.key, this.algorithm, this.dbPath, this.file, this.registry := key, algorithm, dbPath, file, registry;
    }

    /** Sign the tip of the chain as it is, whatever state it is in; refused without a private key. */
    method Anchor(chain: AuditChain, now: string) returns (ok: bool)
      requires Valid()
      modifies file
      ensures ok <==> signer.Some? && AllParse(chain.rows)
      ensures file.stored == if ok then Some(HonestRecord(signer.value, dbPath, chain.rows, now)) else old(file.stored)
    {
      if signer.None? || !AllParse(chain.rows) {
        return false;
      }
      var hashes := Hashes(chain.rows);
      var root := MerkleRoot(hashes);
      var snapshot := Obj([
        Field("version", Int(1)), Field("db_path", Str(dbPath)), Field("seq", Int(LastSeq(chain.rows))),
        Field("record_count", Int(|chain.rows|)), Field("tip_hash", Str(LastHash(chain.rows))),
        Field("merkle_root", Str(root)), Field("chain_sha256", Str(HashText(JoinLines(hashes)))),
        Field("anchored_at", Str(now))]);
      var signature := Sign(signer.value, SIGNED_TEXT(snapshot));
      file.stored := Some(AnchorRecord(snapshot, signature, key, Some(algorithm)));
      return true;
    }

    /** The comparisons at the end of verify, in their order. */
    method CompareLive(chain: AuditChain, claims: Claims) returns (v: AnchorVerdict)
      ensures v == Compare(claims, chain.rows)
    {
      var tipHash, seqNo := LastHash(chain.rows), LastSeq(chain.rows);
      if tipHash != claims.tipHash || seqNo != claims.seqNo {
        if claims.tipHash in Hashes(chain.rows) && seqNo > claims.seqNo {
          return Stale(seqNo - claims.seqNo);
        }
        return Replaced;
      }
      if ChainSha(chain.rows) != claims.chainSha {
        return FingerprintMismatch;
      }
      var root := MerkleRoot(Hashes(chain.rows));
      if claims.root.Some? && claims.root.value != root {
        return RootMismatch;
      }
      return Trusted(|chain.rows|);
    }

    method Verify(chain: AuditChain) returns (v: AnchorVerdict)
      ensures v == VerifyAnchor(Who(), registry.View(), file.stored, chain.rows)
    {
      if file.stored.None? {
        return NoAnchor;
      }
      var record := file.stored.value;
      var early := KeyVerdict(Who(), registry.View(), record);
      if early.Some? {
        return early.value;
      }
      if !AllParse(chain.rows) {
        return Raised;
      }
      var claims := ReadClaims(record.snapshot);
      if claims.None? {
        return Raised;
      }
      v := CompareLive(chain, claims.value);
    }

    method Bootstrap()
      modifies registry
      ensures registry.View() == Bootstrapped(old(registry.View()), Who())
    {
      if registry.current == [] {
        registry.current := key;
        registry.algorithm := algorithm;
      }
    }

    /** Planned rotation: the current key endorses its successor, which signs the tip anew. */
    method Rotate(chain: AuditChain, successor: Backend, reason: string, now: string) returns (ok: bool)
      requires Valid()
      modifies registry, file
      ensures var c := Ceremony.Rotate(Who(), successor, reason, now);
        && registry.View() == AfterCeremony(old(registry.View()), c)
        && (ok <==> Allowed(old(registry.View()), c) && AllParse(chain.rows))
      ensures file.stored == if ok then Some(HonestRecord(successor, dbPath, chain.rows, now)) else old(file.stored)
    {
      if signer.None? {
        return false;
      }
      Bootstrap();
      if registry.current == [] || key != registry.current {
        return false;
      }
      var _ := registry.Rotate(signer.value, successor, reason, now);
      var moved := new ChainAnchor.Signing(successor, dbPath, file, registry);
      ok := moved.Anchor(chain, now);
    }

    method RegisterRecovery(recoveryKey: Bytes, recoveryAlgorithm: string)
      modifies registry
      ensures registry.View()
           == AfterCeremony(old(registry.View()), Ceremony.RegisterRecovery(Who(), recoveryKey, recoveryAlgorithm))
    {
      Bootstrap();
      registry.RegisterRecovery(recoveryKey, recoveryAlgorithm);
    }

    /** Recovery: the registered recovery key endorses itself and signs the tip. */
    method Recover(chain: AuditChain, backend: Backend, reason: string, now: string) returns (ok: bool)
      requires Valid()
      modifies registry, file
      ensures var c := Ceremony.Recover(Who(), backend, reason, now);
        && registry.View() == AfterCeremony(old(registry.View()), c)
        && (ok <==> Allowed(old(registry.View()), c) && AllParse(chain.rows))
      ensures file.stored == if ok then Some(HonestRecord(backend, dbPath, chain.rows, now)) else old(file.stored)
    {
      Bootstrap();
      if registry.recovery != Some(backend.key) || IsRevoked(registry.View(), backend.key) {
        return false;
      }
      var _ := registry.Rotate(backend, backend, if reason == "" then "recovery: primary key lost" else reason, now);
      var moved := new ChainAnchor.Signing(backend, dbPath, file, registry);
      ok := moved.Anchor(chain, now);
    }

    method Revoke(target: Option<Bytes>, reason: string, now: string) returns (ok: bool)
      requires Valid()
      modifies registry
      ensures var c := Ceremony.Revoke(Who(), target, reason, now);
        registry.View() == AfterCeremony(old(registry.View()), c) && (ok <==> Allowed(old(registry.View()), c))
    {
      if signer.None? {
        return false;
      }
      Bootstrap();
      var revoked := RevokeTarget(target, Who());
      if !IsCurrent(registry.View(), revoked) && !IsRegistered(registry.View(), revoked) {
        return false;
      }
      registry.Revoke(revoked, reason, signer.value, now);
      return true;
    }
  }
}
