/** The key registry and its ceremonies: rotation, recovery and revocation. */
module Registry {
  import opened Text
  import opened Json
  import opened Signatures

  /** json.dumps(value, sort_keys=True, separators=(",", ":")), the text that is signed; a value for the same
      reason as the payload parser is one. */
  type Writer = f: Value -> string
    | forall v {:trigger Canonical(COMPACT_ASCII, v)} :: f(v) == Canonical(COMPACT_ASCII, v)
    witness (v: Value) => Canonical(COMPACT_ASCII, v)

  const SIGNED_TEXT: Writer

  /** Hexadecimal text of a key, a value too. */
  type KeyWriter = f: Bytes -> string | forall b {:trigger Hex(b)} :: f(b) == Hex(b)
    witness (b: Bytes) => Hex(b)

  const KEY_TEXT: KeyWriter

  datatype Rotation = Rotation(from: Key, to: Key, fromAlgorithm: string, toAlgorithm: string,
                               rotatedAt: string, reason: string, fromSignature: Signature)

  datatype Revocation = Revocation(key: Bytes, revokedAt: string, reason: string, signature: Signature)

  /** What the `from` key of a rotation signs. */
  function RotationText(from: Bytes, to: Bytes, fromAlgorithm: string, toAlgorithm: string, rotatedAt: string,
                        reason: string): string
  {
    SIGNED_TEXT(Obj([
      Field("type", Str("key-rotation")), Field("from", Str(KEY_TEXT(from))), Field("to", Str(KEY_TEXT(to))),
      Field("from_algorithm", Str(fromAlgorithm)), Field("to_algorithm", Str(toAlgorithm)),
      Field("rotated_at", Str(rotatedAt)), Field("reason", Str(reason))]))
  }

  function RevocationText(key: Bytes, revokedAt: string, reason: string): string {
    SIGNED_TEXT(Obj([
      Field("type", Str("key-revocation")), Field("key", Str(KEY_TEXT(key))), Field("revoked_at", Str(revokedAt)),
      Field("reason", Str(reason))]))
  }

  /** verify_rotation: the predecessor's signature over the record without its signature. */
  predicate VerifyRotation(r: Rotation) {
    VerifySignature(RotationText(r.from, r.to, r.fromAlgorithm, r.toAlgorithm, r.rotatedAt, r.reason),
                    r.fromSignature, r.from, r.fromAlgorithm)
  }

  /** The registry file.  An empty current key means that no registry has been written yet. */
  datatype Registry = Registry(current: Bytes, algorithm: string, recovery: Option<Bytes>,
                               recoveryAlgorithm: Option<string>, rotations: seq<Rotation>, revocations: seq<Revocation>)

  predicate IsCurrent(reg: Registry, key: Bytes) {
    reg.current != [] && key == reg.current
  }

  predicate IsRecovery(reg: Registry, key: Bytes) {
    reg.recovery.Some? && reg.recovery.value != [] && key == reg.recovery.value
  }

  predicate IsRevoked(reg: Registry, key: Bytes) {
    exists i | 0 <= i < |reg.revocations| :: reg.revocations[i].key == key
  }

  predicate TookPart(reg: Registry, key: Bytes) {
    exists i | 0 <= i < |reg.rotations| :: reg.rotations[i].from == key || reg.rotations[i].to == key
  }

  predicate IsRegistered(reg: Registry, key: Bytes) {
    IsCurrent(reg, key) || IsRecovery(reg, key) || TookPart(reg, key)
  }

  // ---------- The registry's own operations ----------

  function NewRotation(from: Backend, to: Backend, reason: string, now: string): Rotation {
    Rotation(from.key, to.key, from.algorithm, to.algorithm, now, reason,
             Sign(from, RotationText(from.key, to.key, from.algorithm, to.algorithm, now, reason)))
  }

  function Rotated(reg: Registry, from: Backend, to: Backend, reason: string, now: string): Registry {
    reg.(rotations := reg.rotations + [NewRotation(from, to, reason, now)], current := to.key, algorithm := to.algorithm)
  }

  function Revoked(reg: Registry, signer: Backend, key: Bytes, reason: string, now: string): Registry {
    reg.(revocations := reg.revocations + [Revocation(key, now, reason, Sign(signer, RevocationText(key, now, reason)))])
  }

  class KeyRegistry {
    var current: Bytes
    var algorithm: string
    var recovery: Option<Bytes>
    var recoveryAlgorithm: Option<string>
    var rotations: seq<Rotation>
    var revocations: seq<Revocation>

    function View(): Registry
      reads this
    {
      Registry(current, algorithm, recovery, recoveryAlgorithm, rotations, revocations)
    }

    constructor (current: Bytes, algorithm: string)
      ensures View() == Registry(current, algorithm, None, None, [], [])
    {
      this.current, this.algorithm := current, algorithm;
      recovery, recoveryAlgorithm, rotations, revocations := None, None, [], [];
    }

    method Rotate(from: Backend, to: Backend, reason: string, now: string) returns (record: Rotation)
      modifies this
      ensures View() == Rotated(old(View()), from, to, reason, now)
      ensures record == rotations[|rotations| - 1] && VerifyRotation(record)
    {
      var text := RotationText(from.key, to.key, from.algorithm, to.algorithm, now, reason);
      record := Rotation(from.key, to.key, from.algorithm, to.algorithm, now, reason, Sign(from, text));
      rotations := rotations + [record];
      current := to.key;
      algorithm := to.algorithm;
    }

    method RegisterRecovery(key: Bytes, recoveryAlgorithm: string)
      modifies this
      ensures View() == old(View()).(recovery := Some(key), recoveryAlgorithm := Some(recoveryAlgorithm))
    {
      recovery := Some(key);
      this.recoveryAlgorithm := Some(recoveryAlgorithm);
    }

    method Revoke(key: Bytes, reason: string, signer: Backend, now: string)
      modifies this
      ensures View() == Revoked(old(View()), signer, key, reason, now)
    {
      revocations := revocations + [Revocation(key, now, reason, Sign(signer, RevocationText(key, now, reason)))];
    }
  }

  // ---------- The ceremonies, as steps on the registry ----------

  /** Who runs a ceremony: a ChainAnchor, which knows its public key and may hold the private one. */
  datatype Keyholder = Keyholder(key: Key, algorithm: string, canSign: bool)

  datatype Ceremony =
    | Rotate(who: Keyholder, successor: Backend, reason: string, now: string)
    | Recover(who: Keyholder, backend: Backend, reason: string, now: string)
    | RegisterRecovery(who: Keyholder, key: Bytes, algorithm: string)
    | Revoke(who: Keyholder, target: Option<Bytes>, reason: string, now: string)

  /** Write paths fill in a missing current key before anything else. */
  function Bootstrapped(reg: Registry, who: Keyholder): Registry {
    if reg.current == [] then reg.(current := who.key, algorithm := who.algorithm) else reg
  }

  /** key_to_revoke or self._pub */
  function RevokeTarget(target: Option<Bytes>, who: Keyholder): Bytes {
    if target.Some? && target.value != [] then target.value else who.key
  }

  predicate Allowed(reg: Registry, c: Ceremony) {
    var booted := Bootstrapped(reg, c.who);
    match c
    case Rotate(who, successor, _, _) => who.canSign && IsCurrent(booted, who.key)
    case Recover(_, backend, _, _) => booted.recovery == Some(backend.key) && !IsRevoked(booted, backend.key)
    case RegisterRecovery(_, _, _) => true
    case Revoke(who, target, _, _) => who.canSign && IsRegistered(booted, RevokeTarget(target, who))
  }

  /** A refused ceremony leaves at most the bootstrap behind; a verify-only holder is turned away before that. */
  function AfterCeremony(reg: Registry, c: Ceremony): Registry {
    var booted := Bootstrapped(reg, c.who);
    if !Allowed(reg, c) then (if !c.who.canSign && (c.Rotate? || c.Revoke?) then reg else booted)
    else match c
      case Rotate(who, successor, reason, now) => Rotated(booted, Backend(who.key, who.algorithm), successor, reason, now)
      case Recover(who, backend, reason, now) =>
        Rotated(booted, backend, backend, if reason == "" then "recovery: primary key lost" else reason, now)
      case RegisterRecovery(who, key, algorithm) => booted.(recovery := Some(key), recoveryAlgorithm := Some(algorithm))
      case Revoke(who, target, reason, now) =>
        Revoked(booted, Backend(who.key, who.algorithm), RevokeTarget(target, who), reason, now)
  }

  function AfterRun(reg: Registry, run: seq<Ceremony>): Registry {
    if run == [] then reg else AfterCeremony(AfterRun(reg, run[..|run| - 1]), run[|run| - 1])
  }

  // ---------- Custody over every run ----------

  /** Each record verifies; each either continues from the key the one before it endorsed, or is a recovery, in
      which the recovery key endorses itself; and the last one endorses the current key. */
  predicate CustodyOk(reg: Registry) {
    CustodyChain(reg.rotations, reg.current)
  }

  predicate CustodyChain(rotations: seq<Rotation>, current: Bytes) {
    && (forall i | 0 <= i < |rotations| :: VerifyRotation(rotations[i]))
    && (forall i | 0 < i < |rotations| :: Continues(rotations, i))
    && (rotations != [] ==> rotations[|rotations| - 1].to == current)
  }

  predicate Continues(rotations: seq<Rotation>, i: nat)
    requires 0 < i < |rotations|
  {
    rotations[i].from == rotations[i - 1].to || rotations[i].from == rotations[i].to
  }

  lemma {:induction false} ExtendCustody(rotations: seq<Rotation>, current: Bytes, record: Rotation)
    requires CustodyChain(rotations, current) && VerifyRotation(record)
    requires record.from == current || record.from == record.to
    ensures CustodyChain(rotations + [record], record.to)
  {
    ExtendContinues(rotations, record);
  }

  lemma {:induction false} ExtendContinues(rotations: seq<Rotation>, record: Rotation)
    requires forall i | 0 < i < |rotations| :: Continues(rotations, i)
    requires rotations != [] ==> record.from == rotations[|rotations| - 1].to || record.from == record.to
    ensures var after := rotations + [record]; forall i | 0 < i < |after| :: Continues(after, i)
  {
    var n, after := |rotations|, rotations + [record];
    forall i | 0 < i < |after| ensures Continues(after, i) {
      assert i < n ==> Continues(rotations, i);
    }
  }

  lemma {:induction false} NewRotationVerifies(from: Backend, to: Backend, reason: string, now: string)
    ensures VerifyRotation(NewRotation(from, to, reason, now))
  {
  }

  lemma {:induction false} RotationKeepsCustody(reg: Registry, from: Backend, to: Backend, reason: string, now: string)
    requires CustodyOk(reg) && (from.key == reg.current || from.key == to.key)
    ensures CustodyOk(Rotated(reg, from, to, reason, now))
  {
    NewRotationVerifies(from, to, reason, now);
    ExtendCustody(reg.rotations, reg.current, NewRotation(from, to, reason, now));
  }

  lemma {:induction false} BootstrapKeepsCustody(reg: Registry, who: Keyholder)
    requires CustodyOk(reg)
    ensures CustodyOk(Bootstrapped(reg, who))
  {
  }

  lemma {:induction false} CeremonyOnlyAdds(reg: Registry, c: Ceremony)
    ensures var after := AfterCeremony(reg, c);
      reg.rotations <= after.rotations && reg.revocations <= after.revocations
  {
  }

  lemma {:induction false} CeremonyKeepsCustody(reg: Registry, c: Ceremony)
    requires CustodyOk(reg)
    ensures CustodyOk(AfterCeremony(reg, c))
  {
    var booted := Bootstrapped(reg, c.who);
    BootstrapKeepsCustody(reg, c.who);
    if Allowed(reg, c) {
      match c
      case Rotate(who, successor, reason, now) =>
        RotationKeepsCustody(booted, Backend(who.key, who.algorithm), successor, reason, now);
      case Recover(who, backend, reason, now) =>
        RotationKeepsCustody(booted, backend, backend, if reason == "" then "recovery: primary key lost" else reason, now);
      case _ =>
    }
  }

  /** Over every run of ceremonies, refused ones included: the records stay, all of them verify, and they form
      one chain of custody that ends at the current key. */
  lemma {:induction false} RunKeepsCustody(reg: Registry, run: seq<Ceremony>)
    requires CustodyOk(reg)
    ensures var after := AfterRun(reg, run);
      CustodyOk(after) && reg.rotations <= after.rotations && reg.revocations <= after.revocations
  {
    if run != [] {
      var front := run[..|run| - 1];
      RunKeepsCustody(reg, front);
      CeremonyKeepsCustody(AfterRun(reg, front), run[|run| - 1]);
      CeremonyOnlyAdds(AfterRun(reg, front), run[|run| - 1]);
    }
  }

  /** A key that took part in a rotation stays registered, and a revoked key stays revoked. */
  lemma {:induction false} RunKeepsKeys(reg: Registry, run: seq<Ceremony>, key: Bytes)
    requires CustodyOk(reg)
    ensures TookPart(reg, key) ==> TookPart(AfterRun(reg, run), key) && IsRegistered(AfterRun(reg, run), key)
    ensures IsRevoked(reg, key) ==> IsRevoked(AfterRun(reg, run), key)
  {
    RunKeepsCustody(reg, run);
    var after := AfterRun(reg, run);
    if TookPart(reg, key) {
      var i :| 0 <= i < |reg.rotations| && (reg.rotations[i].from == key || reg.rotations[i].to == key);
      assert after.rotations[i] == reg.rotations[i];
    }
    if IsRevoked(reg, key) {
      var i :| 0 <= i < |reg.revocations| && reg.revocations[i].key == key;
      assert after.revocations[i] == reg.revocations[i];
    }
  }

  /** Exactly when a ceremony makes a registered key unknown: a recovery by another key drops a current key that
      no rotation names, and registering a new recovery key drops an old one that was never used. */
  lemma {:induction false} KeyDropsOut(reg: Registry, c: Ceremony, key: Bytes)
    requires IsRegistered(reg, key)
    ensures !IsRegistered(AfterCeremony(reg, c), key) <==>
      && Allowed(reg, c) && !TookPart(reg, key)
      && (|| (c.Recover? && !IsRecovery(reg, key))
          || (c.RegisterRecovery? && key != c.key && !IsCurrent(Bootstrapped(reg, c.who), key)))
  {
    var booted, after := Bootstrapped(reg, c.who), AfterCeremony(reg, c);
    assert IsRegistered(booted, key);
    if Allowed(reg, c) && (c.Rotate? || c.Recover?) {
      var n := |reg.rotations|;
      var record := after.rotations[n];
      assert TookPart(after, key) <==> TookPart(reg, key) || record.from == key || record.to == key by {
        TookPartAfter(reg.rotations, record, booted, after, key);
      }
    }
  }

  lemma {:induction false} TookPartAfter(rotations: seq<Rotation>, record: Rotation, before: Registry, after: Registry,
                                         key: Bytes)
    requires before.rotations == rotations && after.rotations == rotations + [record]
    ensures TookPart(after, key) <==> TookPart(before, key) || record.from == key || record.to == key
  {
    var n := |rotations|;
    assert after.rotations[n] == record;
    if TookPart(before, key) {
      var i :| 0 <= i < n && (rotations[i].from == key || rotations[i].to == key);
      assert after.rotations[i] == rotations[i];
    }
    if TookPart(after, key) {
      var i :| 0 <= i <= n && (after.rotations[i].from == key || after.rotations[i].to == key);
      assert i < n ==> after.rotations[i] == rotations[i];
    }
  }

  /** Such a run: no registry yet, a recovery key is registered, and the recovery makes the first key unknown. */
  lemma {:induction false} BootstrapKeyForgotten(who: Keyholder, backend: Backend, reason: string, now: string)
    requires who.key != backend.key
    ensures
      var none := Registry([], ED25519, None, None, [], []);
      var register := RegisterRecovery(who, backend.key, backend.algorithm);
      && IsRegistered(AfterRun(none, [register]), who.key)
      && !IsRegistered(AfterRun(none, [register, Recover(who, backend, reason, now)]), who.key)
  {
    var none := Registry([], ED25519, None, None, [], []);
    var register, recover := RegisterRecovery(who, backend.key, backend.algorithm), Recover(who, backend, reason, now);
    var booted := AfterCeremony(none, register);
    assert [register][..0] == [] && AfterRun(none, [register]) == booted;
    assert [register, recover][..1] == [register];
    KeyDropsOut(booted, recover, who.key);
  }

  // ---------- Who revokes ----------

  /** Whoever may revoke signs the revocation; that is the current key's signature exactly when the revoker holds
      the current key, which is never asked. */
  lemma {:induction false} RevocationSigner(reg: Registry, who: Keyholder, target: Option<Bytes>, reason: string, now: string)
    requires Allowed(reg, Revoke(who, target, reason, now))
    ensures
      var booted, after := Bootstrapped(reg, who), AfterCeremony(reg, Revoke(who, target, reason, now));
      var key := RevokeTarget(target, who);
      && after == booted.(revocations := reg.revocations + [after.revocations[|reg.revocations|]])
      && after.revocations[|reg.revocations|].key == key
      && (var signature := after.revocations[|reg.revocations|].signature;
          && VerifySignature(RevocationText(key, now, reason), signature, who.key, who.algorithm)
          && (signature.key == booted.current <==> IsCurrent(booted, who.key)))
  {
  }

  /** A key the registry has never heard of revokes the current one. */
  lemma {:induction false} StrangerRevokes(reg: Registry, stranger: Backend, reason: string, now: string)
    requires reg.current != [] && !IsRegistered(reg, stranger.key)
    ensures
      var c := Revoke(Keyholder(stranger.key, stranger.algorithm, true), Some(reg.current), reason, now);
      Allowed(reg, c) && IsRevoked(AfterCeremony(reg, c), reg.current) && AfterCeremony(reg, c).current == reg.current
  {
    var c := Revoke(Keyholder(stranger.key, stranger.algorithm, true), Some(reg.current), reason, now);
    var after := AfterCeremony(reg, c);
    assert after.revocations[|reg.revocations|].key == reg.current;
  }
}
