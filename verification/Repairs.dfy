/** Repair as an operator runs it: the token, the cross-check with a notary log, and the anchor and the entry made
    afterwards.  And what of a notarized history survives it. */
module Repairs {
  import opened Text
  import opened Json
  import opened Sha
  import JsonProofs
  import opened Chain
  import opened Store
  import opened Registry
  import opened Signatures
  import opened Anchor
  import opened AnchorProofs
  import opened Notary
  import opened NotaryHealth

  /** verify_notary on the lines of a log; a log that does not exist is like an empty one. */
  function LogCheck(ctx: Context, log: seq<string>): NotaryCheck {
    if log == [] || ParseLine(log[|log| - 1]).None? then NotVerified
    else match CHECK_ENTRY(ctx, ParseLine(log[|log| - 1]).value)
      case EntryRaised => CheckRaised
      case EntryValid => Verified
      case _ => NotVerified
  }

  class NotaryLog {
    var lines: seq<string>

    constructor ()
      ensures lines == []
    {
      lines := [];
    }
  }

  /** The line that ChainAnchor.notarize appends right after anchoring `rows`. */
  function FreshLine(backend: Backend, dbPath: string, rows: seq<Row>, now: string): string {
    SIGNED_TEXT(Entry(AnchorValue(HonestRecord(backend, dbPath, rows, now)), now))
  }

  datatype Outcome =
    | Unauthorized
    | Ended(result: RepairResult)
    | AnchorRefused(result: RepairResult)
    | Secured(result: RepairResult, notarized: bool)

  lemma {:induction false} CheckIs(ctx: Context, log: seq<string>)
    ensures LogCheck(ctx, log) == Verified <==> log != [] && EntryAccepted(ctx, log, |log| - 1)
    ensures Disarmed(ctx, log) ==> LogCheck(ctx, log) == NotVerified
  {
    if log != [] && ParseLine(log[|log| - 1]).Some? {
      var v := ParseLine(log[|log| - 1]).value;
      assert CHECK_ENTRY(ctx, v) == EntryOutcome(ctx, v);
    }
  }

  /** A log that proves nothing: empty, ending in no JSON, or in an entry without a valid signature under a registered key. */
  predicate Disarmed(ctx: Context, log: seq<string>) {
    || log == [] || ParseLine(log[|log| - 1]).None?
    || (var d := DecodeEntry(ParseLine(log[|log| - 1]).value); d.Decoded? && !EntrySigned(ctx, d))
  }

  /** A broken table `ctx.rows` is repaired only if the log ends in an accepted entry, and refused by a log that proves
      nothing; a refusal leaves the table as it is. */
  predicate CheckDecides(ctx: Context, log: seq<string>, r: RepairResult, after: seq<Row>) {
    && (!r.RefusedByNotary? && !r.NotaryRaised? <==> log != [] && EntryAccepted(ctx, log, |log| - 1))
    && (Disarmed(ctx, log) ==> r.RefusedByNotary?)
    && (r.RefusedByNotary? || r.NotaryRaised? ==> after == ctx.rows)
  }

  lemma {:induction false} ReportDecides(ctx: Context, log: seq<string>, counter: int, arrivals: seq<Row>, operator: string,
                                         now: string, r: RepairResult, after: seq<Row>, counter': int)
    requires RepairReported(ctx.rows, counter, LogCheck(ctx, log), arrivals, operator, now, r, after, counter')
    requires VerdictOf(ctx.rows).Broken?
    ensures CheckDecides(ctx, log, r, after)
  {
    CheckIs(ctx, log);
  }

  /** The anchor and the entry that are forced after a repair. */
  method Secure(chain: AuditChain, anchor: ChainAnchor, log: NotaryLog?, result: RepairResult, later: string) returns (o: Outcome)
    requires anchor.Valid() && AllParse(chain.rows)
    modifies anchor.file, log
    ensures o == if anchor.signer.None? then AnchorRefused(result) else Secured(result, log != null)
    ensures anchor.signer.None? ==> anchor.file.stored == old(anchor.file.stored) && (log != null ==> log.lines == old(log.lines))
    ensures anchor.signer.Some? ==>
      && anchor.file.stored == Some(HonestRecord(anchor.signer.value, anchor.dbPath, chain.rows, later))
      && (log != null ==> log.lines == old(log.lines) + [FreshLine(anchor.signer.value, anchor.dbPath, chain.rows, later)])
  {
    var anchored := anchor.Anchor(chain, later);
    if !anchored {
      return AnchorRefused(result);
    }
    if log == null {
      return Secured(result, false);
    }
    log.lines := log.lines + [SIGNED_TEXT(Entry(AnchorValue(anchor.file.stored.value), later))];
    return Secured(result, true);
  }

  /** The part of repair between the token and the new anchor: the check, when there is an anchor and a log to make it
      with, and the rewrite. */
  method RewriteChecked(chain: AuditChain, operator: string, anchor: ChainAnchor?, log: NotaryLog?, arrivals: seq<Row>, now: string)
      returns (r: RepairResult)
    requires chain.Valid() && Ascending(chain.rows + arrivals) && (arrivals != [] ==> arrivals[0].seqNo > chain.counter)
    modifies chain
    ensures chain.Valid()
    ensures
      var check := if anchor != null && log != null
                   then LogCheck(Context(anchor.Who(), anchor.registry.View(), old(chain.rows)), log.lines) else NotAsked;
      RepairReported(old(chain.rows), old(chain.counter), check, arrivals, operator, now, r, chain.rows, chain.counter)
    ensures anchor != null && log != null && VerdictOf(old(chain.rows)).Broken? ==>
      CheckDecides(Context(anchor.Who(), anchor.registry.View(), old(chain.rows)), log.lines, r, chain.rows)
    ensures chain.meta == if r.Repaired? then old(chain.meta)["state" := "active"]["broken_at_seq" := ""]["repaired_at" := now]
                          else if r.AlreadyValid? then old(chain.meta)["state" := "active"] else old(chain.meta)
    ensures r.Repaired? ==> AllParse(chain.rows)
  {
    var check := NotAsked;
    if anchor != null && log != null {
      check := LogCheck(Context(anchor.Who(), anchor.registry.View(), chain.rows), log.lines);
    }
    ghost var before, counter := chain.rows, chain.counter;
    r := chain.Repair(operator, check, arrivals, now);
    if anchor != null && log != null && VerdictOf(before).Broken? {
      ReportDecides(Context(anchor.Who(), anchor.registry.View(), before), log.lines, counter, arrivals, operator, now,
                    r, chain.rows, chain.counter);
    }
    if r.Repaired? {
      ValidRowsParse(chain.rows);
    }
  }

  /** `token` is the configured operator token, empty if there is none, and `later` the time of the new anchor. */
  method Repair(chain: AuditChain, token: string, operator: string, anchor: ChainAnchor?, log: NotaryLog?,
                arrivals: seq<Row>, now: string, later: string) returns (o: Outcome)
    requires chain.Valid() && Ascending(chain.rows + arrivals) && (arrivals != [] ==> arrivals[0].seqNo > chain.counter)
    requires anchor != null ==> anchor.Valid()
    modifies chain, log, if anchor != null then {anchor.file} else {}
    ensures chain.Valid()
    ensures o.Unauthorized? <==> token != "" && operator != token
    ensures o.Unauthorized? ==>
      chain.rows == old(chain.rows) && chain.counter == old(chain.counter) && chain.meta == old(chain.meta)
    ensures !o.Unauthorized? ==>
      var check := if anchor != null && log != null
                   then LogCheck(Context(anchor.Who(), anchor.registry.View(), old(chain.rows)), old(log.lines)) else NotAsked;
      && RepairReported(old(chain.rows), old(chain.counter), check, arrivals, operator, now, o.result, chain.rows, chain.counter)
      && chain.meta == (if o.result.Repaired? then old(chain.meta)["state" := "active"]["broken_at_seq" := ""]["repaired_at" := now]
                        else if o.result.AlreadyValid? then old(chain.meta)["state" := "active"] else old(chain.meta))
      && o == (if !o.result.Repaired? || anchor == null then Ended(o.result)
               else if anchor.signer.None? then AnchorRefused(o.result) else Secured(o.result, log != null))
    ensures !o.Unauthorized? && anchor != null && log != null && VerdictOf(old(chain.rows)).Broken? ==>
      CheckDecides(Context(anchor.Who(), anchor.registry.View(), old(chain.rows)), old(log.lines), o.result, chain.rows)
    ensures anchor != null && o.Secured? ==>
      anchor.file.stored == Some(HonestRecord(anchor.signer.value, anchor.dbPath, chain.rows, later))
    ensures anchor != null && !o.Secured? ==> anchor.file.stored == old(anchor.file.stored)
    ensures log != null && o.Secured? ==>
      log.lines == old(log.lines) + [FreshLine(anchor.signer.value, anchor.dbPath, chain.rows, later)]
    ensures log != null && !o.Secured? ==> log.lines == old(log.lines)
  {
    if token != "" && operator != token {
      return Unauthorized;
    }
    var result := RewriteChecked(chain, operator, anchor, log, arrivals, now);
    if !result.Repaired? || anchor == null {
      return Ended(result);
    }
    o := Secure(chain, anchor, log, result, later);
  }

  /** What it leaves behind is in order: the anchor is trusted and the log passes the check, with the registry's current
      and unrevoked key. */
  lemma {:induction false} SecuredIsTrusted(backend: Backend, reg: Registry, dbPath: string, rows: seq<Row>, log: seq<string>,
                                            now: string)
    requires ChainOk(rows) && rows != [] && IsCurrent(reg, backend.key) && !IsRevoked(reg, backend.key)
    ensures
      var who := Keyholder(backend.key, backend.algorithm, true);
      && VerifyAnchor(who, reg, Some(HonestRecord(backend, dbPath, rows, now)), rows) == Trusted(|rows|)
      && LogCheck(Context(who, reg, rows), log + [FreshLine(backend, dbPath, rows, now)]) == Verified
  {
    var who := Keyholder(backend.key, backend.algorithm, true);
    ValidRowsParse(rows);
    HonestPassesKeyChecks(backend, true, reg, dbPath, rows, now);
    FreshAnchorTrusted(who, reg, backend, dbPath, rows, now);
    assert Hashes(rows)[|rows| - 1] == LastHash(rows);
    WrittenLineAccepted(Context(who, reg, rows), backend, dbPath, rows, now, now);
  }

  // ---------- What the check checks ----------

  /** The line holds an entry that is signed, under a registered key, over the snapshot of `signed`. */
  predicate SignedLine(ctx: Context, line: string, dbPath: string, signed: seq<Row>, at: string) {
    && ParseLine(line).Some?
    && var d := DecodeEntry(ParseLine(line).value);
       d.Decoded? && d.entry.anchor.Some? && EntryOver(ctx.who, ctx.reg, d.entry.anchor.value, dbPath, signed, at)
  }

  lemma {:induction false} SignedLineOutcome(ctx: Context, line: string, dbPath: string, signed: seq<Row>, at: string)
    requires SignedLine(ctx, line, dbPath, signed, at)
    ensures CHECK_ENTRY(ctx, ParseLine(line).value) == EntryRaised <==> !AllParse(ctx.rows)
    ensures AllParse(ctx.rows) ==>
      (CHECK_ENTRY(ctx, ParseLine(line).value) == EntryValid <==> LastHash(signed) in Hashes(ctx.rows))
  {
    var v := ParseLine(line).value;
    assert CHECK_ENTRY(ctx, v) == EntryOutcome(ctx, v);
    assert ParseLine(line) == Loads(false, line);
    JsonProofs.LoadsWellFormed(false, line);
    DecodedWellFormed(v);
    if AllParse(ctx.rows) {
      EntryTipExactly(ctx.who, ctx.reg, DecodeEntry(v).entry.anchor.value, dbPath, signed, at, ctx.rows);
    }
  }

  /** The cross-check on a log that ends in such a line: it passes exactly when every payload parses and the signed tip
      is in the hash column, whatever the rows under the hashes say. */
  lemma {:induction false} CheckPassesExactly(ctx: Context, log: seq<string>, dbPath: string, signed: seq<Row>, at: string)
    requires log != [] && SignedLine(ctx, log[|log| - 1], dbPath, signed, at)
    ensures LogCheck(ctx, log) == Verified <==> AllParse(ctx.rows) && LastHash(signed) in Hashes(ctx.rows)
    ensures LogCheck(ctx, log) == CheckRaised <==> !AllParse(ctx.rows)
  {
    SignedLineOutcome(ctx, log[|log| - 1], dbPath, signed, at);
  }

  // ---------- What survives a repair ----------

  predicate ContentsBegin(a: seq<Row>, b: seq<Row>) {
    |a| <= |b| && forall i | 0 <= i < |a| :: SameContent(a[i], b[i])
  }

  lemma {:induction false} SameByPosition(x: seq<Field>, y: seq<Field>)
    requires DistinctKeys(y) && |x| == |y|
    requires forall i | 0 <= i < |x| :: x[i].key == y[i].key && SameValue(x[i].value, y[i].value)
    ensures SameValue(Obj(x), Obj(y))
  {
    forall i | 0 <= i < |x| ensures SameEntry(x[i], y) {
      JsonProofs.LookupDistinct(y, i);
    }
  }

  lemma {:induction false} SameInput(p: string, c: string, e: string, t: string, v: Value, w: Value)
    requires SameValue(v, w)
    ensures SameValue(HashInput(p, c, e, v, t), HashInput(p, c, e, w, t))
  {
    HashInputKeys(p, c, e, w, t);
    SameByPosition(HashInput(p, c, e, v, t).fields, HashInput(p, c, e, w, t).fields);
  }

  lemma {:induction false} SameContentSameHash(a: Row, b: Row)
    requires HashOk(a) && HashOk(b) && SameContent(a, b) && a.prevHash == b.prevHash
    ensures a.recordHash == b.recordHash
  {
    var v, w := Payload(a).value, Payload(b).value;
    PayloadWellFormed(a);
    PayloadWellFormed(b);
    SameInput(a.prevHash, a.component, a.eventType, a.timestamp, v, w);
    HashInputWellFormed(a.prevHash, a.component, a.eventType, v, a.timestamp);
    HashInputWellFormed(b.prevHash, b.component, b.eventType, w, b.timestamp);
    JsonProofs.CanonicalIffSame(SPACED, HashInput(a.prevHash, a.component, a.eventType, v, a.timestamp),
                                HashInput(b.prevHash, b.component, b.eventType, w, b.timestamp));
    assert RowText(a) == CanonicalRecord(a.prevHash, a.component, a.eventType, v, a.timestamp);
    assert RowText(b) == CanonicalRecord(b.prevHash, b.component, b.eventType, w, b.timestamp);
  }

  lemma {:induction false} ContentsFixHash(a: seq<Row>, b: seq<Row>, i: nat)
    requires ChainOk(a) && ChainOk(b) && ContentsBegin(a, b) && i < |a|
    ensures SameRecord(a[i], b[i])
  {
    assert RowOk(a, i) && RowOk(b, i);
    if i > 0 {
      ContentsFixHash(a, b, i - 1);
    }
    SameContentSameHash(a[i], b[i]);
  }

  /** A valid chain is the beginning of another exactly when its contents are: the hashes follow. */
  lemma {:induction false} ContentsDetermineChain(a: seq<Row>, b: seq<Row>)
    requires ChainOk(a) && ChainOk(b)
    ensures PrefixHistory(a, b) <==> ContentsBegin(a, b)
  {
    if ContentsBegin(a, b) {
      forall i | 0 <= i < |a| ensures SameRecord(a[i], b[..|a|][i]) {
        ContentsFixHash(a, b, i);
      }
    }
    if PrefixHistory(a, b) {
      forall i | 0 <= i < |a| ensures SameContent(a[i], b[i]) {
        assert SameRecord(a[i], b[..|a|][i]);
      }
    }
  }

  lemma {:induction false} SameTextContent(signed: Row, before: Row, after: Row)
    requires SameEntryText(before, after)
    ensures SameContent(signed, before) <==> SameContent(signed, after)
  {
  }

  /** A notarized history is the beginning of the repaired chain exactly when the table still had its contents, in
      their order: repair restores hashes, and whatever contents it finds it makes valid. */
  lemma {:induction false} NotarizedSurvives(before: seq<Row>, k: nat, after: seq<Row>, seqNo: int, operator: string, now: string,
                                             signed: seq<Row>)
    requires RepairedTo(before, k, after, seqNo, operator, now) && ChainOk(signed) && |signed| <= |before|
    ensures PrefixHistory(signed, after) <==> ContentsBegin(signed, before)
  {
    ContentsDetermineChain(signed, after);
    forall i | 0 <= i < |signed| ensures SameContent(signed[i], before[i]) <==> SameContent(signed[i], after[i]) {
      assert SameEntryText(before[i], after[i]);
      SameTextContent(signed[i], before[i], after[i]);
    }
  }

  lemma {:induction false} EditStaysNotarized(known: iset<Bytes>, ctx: Context, log: seq<string>, dbPath: string, rows: seq<Row>,
                                              at: string, i: nat, row: Row)
    requires Ideal(known) && RowsKnown(known, rows) && RowKnown(known, row) && ChainOk(rows) && i < |rows|
    requires row.recordHash == rows[i].recordHash && Payload(row).Some? && !SameContent(rows[i], row)
    requires log != [] && SignedLine(ctx, log[|log| - 1], dbPath, rows, at)
    ensures
      var edited := rows[i := row];
      FirstBreak(edited) == i && VerdictOf(edited).Broken? && AllParse(edited) && LogCheck(ctx.(rows := edited), log) == Verified
  {
    var edited := rows[i := row];
    ValidRowsParse(rows);
    EditDetected(known, rows, i, row);
    assert Hashes(edited)[|rows| - 1] == LastHash(rows);
    CheckPassesExactly(ctx.(rows := edited), log, dbPath, rows, at);
  }

  /** The cross-check is no protection of contents: change the content of any record under its old hash.  The break is
      seen, the check against the very history that was notarized passes, and the repair it lets through makes a valid
      chain of the change, of which that history is no longer the beginning. */
  lemma {:induction false} LaunderedEdit(known: iset<Bytes>, ctx: Context, log: seq<string>, dbPath: string, rows: seq<Row>,
                                         at: string, i: nat, row: Row, counter: int, operator: string, now: string,
                                         r: RepairResult, after: seq<Row>, counter': int)
    requires Ideal(known) && RowsKnown(known, rows) && RowKnown(known, row) && ChainOk(rows) && i < |rows|
    requires row.recordHash == rows[i].recordHash && Payload(row).Some? && !SameContent(rows[i], row)
    requires log != [] && SignedLine(ctx, log[|log| - 1], dbPath, rows, at)
    requires RepairReported(rows[i := row], counter, LogCheck(ctx.(rows := rows[i := row]), log), [], operator, now,
                            r, after, counter')
    ensures r.Repaired? && ChainOk(after) && |after| == |rows| + 1 && SameEntryText(row, after[i])
    ensures !PrefixHistory(rows, after)
  {
    var edited := rows[i := row];
    EditStaysNotarized(known, ctx, log, dbPath, rows, at, i, row);
    assert edited + [] == edited;
    NotarizedSurvives(edited, i, after, counter', operator, now, rows);
    assert edited[i] == row;
  }
}
