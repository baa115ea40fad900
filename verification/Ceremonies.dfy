/** The ceremonies step by step: who may hold which, and what it leaves in the registry. */
module Ceremonies {
  import opened Text
  import opened Json
  import opened JsonProofs
  import opened Chain
  import opened Signatures
  import opened Registry
  import opened AnchorVerdicts
  import opened WrittenTexts

  // ---------- Who may ----------

  /** Who may hold which ceremony: a rotation takes the current key's private half, a recovery the registered recovery key
      while it is not revoked, a revocation some private key and a known target. */
  lemma {:induction false} AllowedExactly(reg: Registry, c: Ceremony)
    ensures c.Rotate? ==> (Allowed(reg, c) <==> c.who.canSign && c.who.key == CurrentKey(reg, c.who))
    ensures c.Recover? ==> (Allowed(reg, c) <==> reg.recovery == Some(c.backend.key) && !Retired(reg, c.backend.key))
    ensures c.RegisterRecovery? ==> Allowed(reg, c)
    ensures c.Revoke? ==>
      (Allowed(reg, c) <==>
         c.who.canSign && EverAuthorized(reg, c.who, if c.target.Some? && c.target.value != [] then c.target.value else c.who.key))
  {
    match c
    case Recover(who, backend, _, _) => RetiredIs(reg, who, backend.key);
    case Revoke(who, target, _, _) => EverAuthorizedIs(reg, who, RevokeTarget(target, who));
    case _ =>
  }

  // ---------- What it leaves ----------

  /** The registry with the verifier's key filled in where none was current. */
  predicate FilledIn(reg: Registry, who: Keyholder, after: Registry) {
    && after.recovery == reg.recovery && after.recoveryAlgorithm == reg.recoveryAlgorithm
    && after.rotations == reg.rotations && after.revocations == reg.revocations
    && (reg.current != [] ==> after.current == reg.current && after.algorithm == reg.algorithm)
    && (reg.current == [] ==> after.current == who.key && after.algorithm == who.algorithm)
  }

  /** A refused ceremony leaves that behind and no more, and nothing at all if a private key was missing. */
  lemma {:induction false} RefusedLeaves(reg: Registry, c: Ceremony)
    requires !Allowed(reg, c)
    ensures if c.Recover? || c.who.canSign then FilledIn(reg, c.who, AfterCeremony(reg, c)) else AfterCeremony(reg, c) == reg
  {
  }

  /** A rotation adds one record, in which the old key names the new one and signs that, and moves on to the new key; a
      recovery does the same with the recovery key in both places, and has a reason in any case. */
  lemma {:induction false} RotationLeaves(reg: Registry, c: Ceremony)
    requires Allowed(reg, c) && (c.Rotate? || c.Recover?)
    ensures
      var after := AfterCeremony(reg, c);
      var from := if c.Rotate? then Backend(c.who.key, c.who.algorithm) else c.backend;
      var to := if c.Rotate? then c.successor else c.backend;
      var why := if c.Rotate? || c.reason != "" then c.reason else "recovery: primary key lost";
      && after.current == to.key && after.algorithm == to.algorithm
      && after.recovery == reg.recovery && after.recoveryAlgorithm == reg.recoveryAlgorithm && after.revocations == reg.revocations
      && |after.rotations| == |reg.rotations| + 1 && after.rotations[..|reg.rotations|] == reg.rotations
      && var record := after.rotations[|reg.rotations|];
         && record.from == from.key && record.to == to.key && record.fromAlgorithm == from.algorithm
         && record.toAlgorithm == to.algorithm && record.rotatedAt == c.now && record.reason == why
         && record.fromSignature == Sig(from.key, from.algorithm,
              RotationText(from.key, to.key, from.algorithm, to.algorithm, c.now, why))
  {
  }

  lemma {:induction false} OthersLeave(reg: Registry, c: Ceremony)
    requires Allowed(reg, c) && (c.RegisterRecovery? || c.Revoke?)
    ensures
      var after := AfterCeremony(reg, c);
      && after.current == CurrentKey(reg, c.who) && after.rotations == reg.rotations
      && (c.RegisterRecovery? ==>
            after.recovery == Some(c.key) && after.recoveryAlgorithm == Some(c.algorithm) && after.revocations == reg.revocations)
      && (c.Revoke? ==>
            var target := if c.target.Some? && c.target.value != [] then c.target.value else c.who.key;
            && after.recovery == reg.recovery && after.recoveryAlgorithm == reg.recoveryAlgorithm
            && after.revocations == reg.revocations + [Revocation(target, c.now, c.reason,
                 Sig(c.who.key, c.who.algorithm, RevocationText(target, c.now, c.reason)))])
  {
  }

  /** So a key that was revoked, the recovery key included, never recovers. */
  lemma {:induction false} RevokedNeverRecovers(reg: Registry, run: seq<Ceremony>, who: Keyholder, backend: Backend,
                                                reason: string, now: string)
    requires CustodyOk(reg) && Retired(reg, backend.key)
    ensures !Allowed(AfterRun(reg, run), Recover(who, backend, reason, now))
  {
    var r :| r in reg.revocations && r.key == backend.key;
    var i :| 0 <= i < |reg.revocations| && reg.revocations[i] == r;
    assert IsRevoked(reg, backend.key);
    RunKeepsKeys(reg, run, backend.key);
    assert IsRevoked(Bootstrapped(AfterRun(reg, run), who), backend.key);
  }

  // ---------- What a signature holds fast ----------

  lemma {:induction false} SameSigned(x: seq<Field>, y: seq<Field>)
    requires WellFormed(Obj(x)) && WellFormed(Obj(y)) && SIGNED_TEXT(Obj(x)) == SIGNED_TEXT(Obj(y))
    ensures SameValue(Obj(x), Obj(y))
  {
    assert SIGNED_TEXT(Obj(x)) == Canonical(COMPACT_ASCII, Obj(x));
    assert SIGNED_TEXT(Obj(y)) == Canonical(COMPACT_ASCII, Obj(y));
    CanonicalIffSame(COMPACT_ASCII, Obj(x), Obj(y));
  }

  /** Two objects of texts under the same keys, signed with one text. */
  lemma {:induction false} SameTexts(x: seq<Field>, y: seq<Field>)
    requires WellFormed(Obj(x)) && WellFormed(Obj(y)) && SIGNED_TEXT(Obj(x)) == SIGNED_TEXT(Obj(y)) && |x| == |y|
    requires forall i | 0 <= i < |x| :: x[i].key == y[i].key && x[i].value.Str? && y[i].value.Str?
    ensures x == y
  {
    SameSigned(x, y);
    forall i | 0 <= i < |x| ensures x[i] == y[i] {
      EntrySame(x, y, i);
    }
  }

  lemma {:induction false} FieldsOf(r: Rotation) returns (f: seq<Field>)
    ensures f == RotationFields(r.from, r.to, r.fromAlgorithm, r.toAlgorithm, r.rotatedAt, r.reason) && WellFormed(Obj(f))
    ensures SIGNED_TEXT(Obj(f)) == RotationText(r.from, r.to, r.fromAlgorithm, r.toAlgorithm, r.rotatedAt, r.reason)
  {
    f := RotationFields(r.from, r.to, r.fromAlgorithm, r.toAlgorithm, r.rotatedAt, r.reason);
    RotationKeysDistinct(r.from, r.to, r.fromAlgorithm, r.toAlgorithm, r.rotatedAt, r.reason);
  }

  lemma {:induction false} SameKeyText(a: Bytes, b: Bytes)
    requires KEY_TEXT(a) == KEY_TEXT(b)
    ensures a == b
  {
    assert KEY_TEXT(a) == Hex(a) && KEY_TEXT(b) == Hex(b);
    HexInjective(a, b);
  }

  lemma {:induction false} RotationFieldsFix(r: Rotation, s: Rotation)
    requires RotationFields(r.from, r.to, r.fromAlgorithm, r.toAlgorithm, r.rotatedAt, r.reason)
          == RotationFields(s.from, s.to, s.fromAlgorithm, s.toAlgorithm, s.rotatedAt, s.reason)
    ensures r.from == s.from && r.to == s.to && r.fromAlgorithm == s.fromAlgorithm && r.toAlgorithm == s.toAlgorithm
    ensures r.rotatedAt == s.rotatedAt && r.reason == s.reason
  {
    var f := RotationFields(r.from, r.to, r.fromAlgorithm, r.toAlgorithm, r.rotatedAt, r.reason);
    assert f[1].value == Str(KEY_TEXT(s.from)) && f[2].value == Str(KEY_TEXT(s.to));
    assert f[3].value == Str(s.fromAlgorithm) && f[4].value == Str(s.toAlgorithm);
    assert f[5].value == Str(s.rotatedAt) && f[6].value == Str(s.reason);
    SameKeyText(r.from, s.from);
    SameKeyText(r.to, s.to);
  }

  /** A stored rotation cannot be edited under its signature: with whatever field changed it no longer verifies. */
  lemma {:induction false} EditedRotationFails(r: Rotation, edited: Rotation)
    requires VerifyRotation(r) && edited.fromSignature == r.fromSignature
    ensures VerifyRotation(edited) <==> edited == r
  {
    if VerifyRotation(edited) {
      var f := FieldsOf(r);
      var g := FieldsOf(edited);
      SameTexts(f, g);
      RotationFieldsFix(r, edited);
    }
  }
}
