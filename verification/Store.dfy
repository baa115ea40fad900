/** The audit store: a table of rows that append extends and repair alone rewrites, and the metadata beside it. */
module Store {
  import opened Text
  import opened Sha
  import opened Json
  import JsonProofs
  import opened Merkle
  import opened Chain

  predicate Ascending(rows: seq<Row>) {
    forall i, j | 0 <= i < j < |rows| :: rows[i].seqNo < rows[j].seqNo
  }

  /** The seqs of a store that nothing but append and repair has written: 1, 2, 3, ... */
  predicate Dense(rows: seq<Row>, counter: int) {
    counter == |rows| && forall i | 0 <= i < |rows| :: rows[i].seqNo == i + 1
  }

  /** AUTOINCREMENT: one more than the greatest seq in the table or ever handed out. */
  function NextSeq(rows: seq<Row>, counter: int): (n: int)
    ensures n > counter && (rows != [] ==> n > rows[|rows| - 1].seqNo)
    ensures n == counter + 1 || (rows != [] && n == rows[|rows| - 1].seqNo + 1)
  {
    if rows != [] && rows[|rows| - 1].seqNo > counter then rows[|rows| - 1].seqNo + 1 else counter + 1
  }

  /** AUTOINCREMENT after rows that were numbered by it. */
  function CounterAfter(arrivals: seq<Row>, counter: int): int {
    if arrivals == [] then counter else arrivals[|arrivals| - 1].seqNo
  }

  datatype AppendResult = Appended(row: Row) | RefusedByMigration | RefusedPayload

  datatype RepairResult =
    | AlreadyValid(count: nat)
    | Repaired(brokenAtSeq: int, repairedAtSeq: int, scanned: nat)
    | RefusedByNotary
    | NotaryRaised
    | PayloadUnreadable

  /** The cross-check with the off-box notary, which repair makes when it is given one. */
  datatype NotaryCheck = NotAsked | Verified | NotVerified | CheckRaised

  datatype ReceiptResult = Receipt(proof: InclusionProof) | UnknownSeq | RowsUnreadable

  function ReasonText(reason: Reason): string {
    if reason == BadLink then "prev_hash does not match preceding record"
    else "stored hash does not match recomputed content hash"
  }

  predicate AllParse(rows: seq<Row>) {
    forall i | 0 <= i < |rows| :: Payload(rows[i]).Some?
  }

  // ---------- Repair as a relation on tables ----------

  /** The row with its link and hash recomputed on top of `prev`. */
  function Relink(row: Row, prev: string): Row
    requires Payload(row).Some?
  {
    row.(prevHash := prev,
         recordHash := ComputeHash(prev, row.component, row.eventType, Payload(row).value, row.timestamp))
  }

  /** `after` is `before` with rows k..n relinked, each on top of the one before it. */
  predicate Relinked(before: seq<Row>, after: seq<Row>, k: nat, n: nat) {
    k <= n <= |before| == |after| && forall j | 0 <= j < |before| :: RelinkedAt(before, after, k, n, j)
  }

  predicate RelinkedAt(before: seq<Row>, after: seq<Row>, k: nat, n: nat, j: nat)
    requires j < |before| == |after|
  {
    if k <= j < n then Payload(before[j]).Some? && after[j] == Relink(before[j], PrevOf(after, j))
    else after[j] == before[j]
  }

  lemma {:induction false} RelinkOk(row: Row, prev: string)
    requires Payload(row).Some?
    ensures var r := Relink(row, prev); HashOk(r) && r.prevHash == prev && SameEntryText(row, r)
  {
  }

  predicate SameEntryText(a: Row, b: Row) {
    && a.seqNo == b.seqNo && a.component == b.component && a.eventType == b.eventType
    && a.payload == b.payload && a.timestamp == b.timestamp
  }

  function RepairPayload(brokenAtSeq: int, anchor: string, operator: string): (v: Value)
    ensures WellFormed(v)
  {
    var fields := [Field("broken_at_seq", Int(brokenAtSeq)), Field("anchor", Str(anchor)),
                   Field("operator", Str(if operator == "" then "unauthenticated-dev" else operator))];
    assert |"broken_at_seq"| == 13 && |"anchor"| == 6 && |"operator"| == 8;
    Obj(fields)
  }

  lemma {:induction false} RelinkStep(before: seq<Row>, after: seq<Row>, k: nat, n: nat)
    requires Relinked(before, after, k, n) && n < |before| && Payload(before[n]).Some?
    ensures after[n] == before[n]
    ensures Relinked(before, after[n := Relink(after[n], PrevOf(after, n))], k, n + 1)
  {
    assert RelinkedAt(before, after, k, n, n);
    var next, end := after[n := Relink(after[n], PrevOf(after, n))], n + 1;
    forall j | 0 <= j < |before| ensures RelinkedAt(before, next, k, end, j) {
      assert RelinkedAt(before, after, k, n, j);
      assert j <= n ==> PrevOf(next, j) == PrevOf(after, j);
    }
  }

  /** Relinking from the first break makes the chain valid and keeps every row's text and seq. */
  lemma {:induction false} RelinkedIsValid(before: seq<Row>, after: seq<Row>, k: nat)
    requires Relinked(before, after, k, |before|) && forall j | 0 <= j < k :: RowOk(before, j)
    ensures ChainOk(after)
    ensures forall j | 0 <= j < |before| :: SameEntryText(before[j], after[j])
  {
    forall j | 0 <= j < |before| ensures RowOk(after, j) && SameEntryText(before[j], after[j]) {
      assert RelinkedAt(before, after, k, |before|, j);
      if j < k {
        assert RowOk(before, j);
        assert j > 0 ==> RelinkedAt(before, after, k, |before|, j - 1);
      } else {
        RelinkOk(before[j], PrevOf(after, j));
      }
    }
  }

  /** The "chain"/"repaired" record of a repair that began at `brokenAtSeq`, on top of the hash `anchor`. */
  predicate IsRepairEvent(row: Row, brokenAtSeq: int, anchor: string, operator: string, now: string) {
    && row.component == "chain" && row.eventType == "repaired" && row.timestamp == now
    && Payload(row) == Some(RepairPayload(brokenAtSeq, anchor, operator))
  }

  predicate ParsesFrom(rows: seq<Row>, k: nat) {
    forall j | k <= j < |rows| :: Payload(rows[j]).Some?
  }

  /** What repair makes of the rows it finds in its transaction, of which the first break is k: a valid chain
      with the rows before the break untouched, every row's text kept in its place, and one event at the end. */
  predicate RepairedTo(before: seq<Row>, k: nat, after: seq<Row>, seqNo: int, operator: string, now: string) {
    && k < |before| && |after| == |before| + 1
    && (forall j | 0 <= j < k :: after[j] == before[j])
    && (forall j | 0 <= j < |before| :: SameEntryText(before[j], after[j]))
    && after[|before|].seqNo == seqNo
    && IsRepairEvent(after[|before|], before[k].seqNo, PrevOf(before, k), operator, now)
    && ChainOk(after)
  }

  /** What repair reports, and what it makes of the rows and the counter it starts from. */
  predicate RepairReported(before: seq<Row>, counter: int, notary: NotaryCheck, arrivals: seq<Row>, operator: string, now: string,
                           r: RepairResult, after: seq<Row>, counter': int)
  {
    var v, k, all := VerdictOf(before), FirstBreak(before), before + arrivals;
    var goesOn := v.Broken? && notary in {NotAsked, Verified};
    && (r.AlreadyValid? <==> v.Valid?)
    && (r.RefusedByNotary? <==> v.Broken? && notary == NotVerified)
    && (r.NotaryRaised? <==> v.Broken? && notary == CheckRaised)
    && (r.Repaired? <==> goesOn && ParsesFrom(all, k))
    && (r.AlreadyValid? || r.RefusedByNotary? || r.NotaryRaised? || v.Unparseable? ==> after == before && counter' == counter)
    && (r.PayloadUnreadable? && goesOn ==> after == all && counter' == CounterAfter(arrivals, counter))
    && (r.Repaired? ==> k < |before| && RepairedTo(all, k, after, counter', operator, now)
                        && counter' == NextSeq(all, CounterAfter(arrivals, counter))
                        && r == Repaired(all[k].seqNo, counter', |before|))
  }

  method MakeRepairEvent(seqNo: int, prev: string, brokenAtSeq: int, anchor: string, operator: string, now: string)
      returns (event: Row)
    ensures event.seqNo == seqNo && event.prevHash == prev && HashOk(event)
    ensures IsRepairEvent(event, brokenAtSeq, anchor, operator, now)
  {
    var payload := RepairPayload(brokenAtSeq, anchor, operator);
    event := Row(seqNo, "chain", "repaired", Print(SPACED, payload), now, prev,
                 ComputeHash(prev, "chain", "repaired", payload, now));
    JsonProofs.LoadsPrint(SPACED, payload, false);
  }

  /** What the event of a repair says. */
  lemma {:induction false} RepairEventSays(row: Row, brokenAtSeq: int, anchor: string, operator: string, now: string)
    requires IsRepairEvent(row, brokenAtSeq, anchor, operator, now)
    ensures row.component == "chain" && row.eventType == "repaired" && row.timestamp == now
    ensures Payload(row).Some? && Payload(row).value.Obj?
    ensures var f := Payload(row).value.fields;
      && |f| == 3 && Lookup(f, "broken_at_seq") == Some(Int(brokenAtSeq)) && Lookup(f, "anchor") == Some(Str(anchor))
      && Lookup(f, "operator") == Some(Str(if operator == "" then "unauthenticated-dev" else operator))
  {
    var f := Payload(row).value.fields;
    assert |"broken_at_seq"| == 13 && |"anchor"| == 6 && |"operator"| == 8;
    JsonProofs.LookupDistinct(f, 0);
    JsonProofs.LookupDistinct(f, 1);
    JsonProofs.LookupDistinct(f, 2);
  }

  lemma {:induction false} EventCompletesRepair(
      before: seq<Row>, relinked: seq<Row>, k: nat, event: Row, operator: string, now: string)
    requires k < |before| && Relinked(before, relinked, k, |before|) && forall j | 0 <= j < k :: RowOk(before, j)
    requires event.prevHash == LastHash(relinked) && HashOk(event)
    requires IsRepairEvent(event, before[k].seqNo, PrevOf(before, k), operator, now)
    ensures RepairedTo(before, k, relinked + [event], event.seqNo, operator, now)
  {
    RelinkedIsValid(before, relinked, k);
    AppendKeepsChain(relinked, event);
    var after := relinked + [event];
    forall j | 0 <= j < k ensures after[j] == before[j] {
      assert RelinkedAt(before, relinked, k, |before|, j);
    }
  }

  lemma {:induction false} BreakStays(rows: seq<Row>, arrivals: seq<Row>, k: nat)
    requires k == FirstBreak(rows) < |rows|
    ensures (rows + arrivals)[k] == rows[k] && PrevOf(rows + arrivals, k) == PrevOf(rows, k)
    ensures forall j | 0 <= j < k :: RowOk(rows + arrivals, j)
  {
    PrefixRows(rows + arrivals, |rows|);
    assert (rows + arrivals)[..|rows|] == rows;
  }

  lemma {:induction false} SeqAtLeast(rows: seq<Row>, k: nat, i: nat)
    requires Ascending(rows) && k < |rows| && i < |rows|
    ensures rows[i].seqNo >= rows[k].seqNo <==> i >= k
  {
  }

  lemma {:induction false} UnrewrittenRow(before: seq<Row>, after: seq<Row>, k: nat, n: nat, i: nat)
    requires Relinked(before, after, k, n) && i < |before| && (i < k || i >= n)
    ensures after[i] == before[i]
  {
    assert RelinkedAt(before, after, k, n, i);
  }

  lemma {:induction false} ParsesAll(before: seq<Row>, after: seq<Row>, k: nat)
    requires Relinked(before, after, k, |before|)
    ensures ParsesFrom(before, k)
  {
    forall j | k <= j < |before| ensures Payload(before[j]).Some? {
      assert RelinkedAt(before, after, k, |before|, j);
    }
  }

  lemma {:induction false} AppendAscends(rows: seq<Row>, row: Row)
    requires Ascending(rows) && (rows != [] ==> row.seqNo > rows[|rows| - 1].seqNo)
    ensures Ascending(rows + [row])
  {
  }

  lemma {:induction false} SameSeqsAscend(before: seq<Row>, after: seq<Row>)
    requires Ascending(before) && |after| == |before|
    requires forall j | 0 <= j < |before| :: SameEntryText(before[j], after[j])
    ensures Ascending(after)
  {
    forall i, j | 0 <= i < j < |after| ensures after[i].seqNo < after[j].seqNo {
      assert SameEntryText(before[i], after[i]) && SameEntryText(before[j], after[j]);
    }
  }

  lemma {:induction false} AscendingRepair(before: seq<Row>, relinked: seq<Row>, k: nat)
    requires Ascending(before) && Relinked(before, relinked, k, |before|) && forall j | 0 <= j < k :: RowOk(before, j)
    ensures Ascending(relinked)
  {
    RelinkedIsValid(before, relinked, k);
    SameSeqsAscend(before, relinked);
  }

  // ---------- Receipts against the live chain ----------

  /** AuditChain.verify_inclusion, for rows whose payloads parse. */
  predicate LiveAccepts(rows: seq<Row>, proof: InclusionProof, expectedRoot: Option<string>) {
    && Accepts(proof, Some(if expectedRoot.Some? then expectedRoot.value else Root(Hashes(rows))))
    && 0 <= proof.seqNo - 1 < |rows|
    && rows[proof.seqNo - 1].recordHash == proof.leafHash
  }

  class AuditChain {
    var rows: seq<Row>
    var counter: nat
    var meta: map<string, string>

    ghost predicate Valid()
      reads this
    {
      Ascending(rows)
    }

    function MigrationState(): string
      reads this
    {
      if "migration_state" in meta then meta["migration_state"] else "V1_ACTIVE"
    }

    constructor ()
      ensures Valid() && rows == [] && Dense(rows, counter) && MigrationState() == "V1_ACTIVE"
    {
      rows, counter, meta := [], 0, map[];
    }

    /** Refused outside V1_ACTIVE and for a payload with NaN or infinity; else one row that continues the chain. */
    method Append(component: string, eventType: string, payload: Value, timestamp: string) returns (r: AppendResult)
      requires Valid() && WellFormed(payload)
      modifies this`rows, this`counter
      ensures Valid()
      ensures r.RefusedByMigration? <==> MigrationState() != "V1_ACTIVE"
      ensures r.RefusedPayload? <==> MigrationState() == "V1_ACTIVE" && !Finite(payload)
      ensures !r.Appended? ==> rows == old(rows) && counter == old(counter)
      ensures r.Appended? ==>
        && rows == old(rows) + [r.row] && counter == r.row.seqNo
        && r.row.component == component && r.row.eventType == eventType && r.row.timestamp == timestamp
        && r.row.payload == Print(Style(", ", ": ", false), payload) && Payload(r.row) == Some(payload)
        && r.row.prevHash == (if old(rows) == [] then GENESIS else old(rows)[|old(rows)| - 1].recordHash)
        && HashOk(r.row) && r.row.seqNo == NextSeq(old(rows), old(counter))
      ensures ChainOk(old(rows)) ==> ChainOk(rows)
      ensures Dense(old(rows), old(counter)) ==> Dense(rows, counter)
    {
      if MigrationState() != "V1_ACTIVE" {
        return RefusedByMigration;
      }
      if !Finite(payload) {
        return RefusedPayload;
      }
      var prevHash := LastHash(rows);
      var recordHash := ComputeHash(prevHash, component, eventType, payload, timestamp);
      var seqNo := NextSeq(rows, counter);
      var row := Row(seqNo, component, eventType, Print(SPACED, payload), timestamp, prevHash, recordHash);
      StoredTextRehashes(rows, seqNo, component, eventType, payload, timestamp);
      if ChainOk(rows) {
        AppendKeepsChain(rows, row);
      }
      AppendAscends(rows, row);
      rows := rows + [row];
      counter := seqNo;
      return Appended(row);
    }

    method VerifyChain() returns (v: Verdict)
      ensures v == VerdictOf(rows)
    {
      var expectedPrev: string := GENESIS;
      var i := 0;
      while i < |rows|
        invariant 0 <= i <= |rows| && expectedPrev == PrevOf(rows, i)
        invariant forall j | 0 <= j < i :: RowOk(rows, j)
      {
        var row := rows[i];
        match Payload(row) {
          case None =>
            FirstBreakIs(rows, i);
            return Unparseable;
          case Some(payload) =>
            var recomputed := ComputeHash(row.prevHash, row.component, row.eventType, payload, row.timestamp);
            if row.prevHash != expectedPrev {
              FirstBreakIs(rows, i);
              return Verdict.Broken(row.seqNo, BadLink);
            }
            if recomputed != row.recordHash {
              FirstBreakIs(rows, i);
              return Verdict.Broken(row.seqNo, BadHash);
            }
        }
        expectedPrev := row.recordHash;
        i := i + 1;
      }
      FirstBreakIs(rows, |rows|);
      return Verdict.Valid(|rows|);
    }

    /** Records the state the chain is in, and changes no row. */
    method Quarantine(now: string) returns (quarantined: bool)
      modifies this`meta
      ensures quarantined <==> VerdictOf(rows).Broken?
      ensures meta ==
        match VerdictOf(rows)
        case Unparseable => old(meta)
        case Valid(_) => old(meta)["state" := "active"]["broken_at_seq" := ""]
        case Broken(seqNo, reason) =>
          old(meta)["state" := "quarantined"]["broken_at_seq" := PrintInt(seqNo)]["quarantined_at" := now]
                   ["reason" := if reason == BadLink then "prev_hash does not match preceding record"
                                else "stored hash does not match recomputed content hash"]
    {
      var v := VerifyChain();
      match v {
        case Unparseable => return false;
        case Valid(_) =>
          meta := meta["state" := "active"]["broken_at_seq" := ""];
          return false;
        case Broken(seqNo, reason) =>
          meta := meta["state" := "quarantined"]["broken_at_seq" := PrintInt(seqNo)];
          meta := meta["reason" := ReasonText(reason)]["quarantined_at" := now];
          return true;
      }
    }

    /** The scan at the start of repair: the first break, the hash before it, and what verification says. */
    method FindBreak() returns (k: nat, expectedPrev: string, v: Verdict)
      ensures k == FirstBreak(rows) && expectedPrev == PrevOf(rows, k) && v == VerdictOf(rows)
      ensures v.Valid? <==> k == |rows|
    {
      k, expectedPrev := 0, GENESIS;
      while k < |rows|
        invariant 0 <= k <= |rows| && expectedPrev == PrevOf(rows, k)
        invariant forall j | 0 <= j < k :: RowOk(rows, j)
      {
        var row := rows[k];
        match Payload(row) {
          case None =>
            FirstBreakIs(rows, k);
            return k, expectedPrev, Unparseable;
          case Some(payload) =>
            var recomputed := ComputeHash(row.prevHash, row.component, row.eventType, payload, row.timestamp);
            if row.prevHash != expectedPrev || recomputed != row.recordHash {
              FirstBreakIs(rows, k);
              v := Verdict.Broken(row.seqNo, if row.prevHash != expectedPrev then BadLink else BadHash);
              return;
            }
        }
        expectedPrev := row.recordHash;
        k := k + 1;
      }
      FirstBreakIs(rows, |rows|);
      v := Verdict.Valid(|rows|);
    }

    /** The rewriting loop of repair, over the rows whose seq is at least `firstBroken`. */
    method RewriteTail(ghost k: nat, firstBroken: int, anchor: string) returns (done: bool, prev: string)
      requires Valid() && k < |rows| && firstBroken == rows[k].seqNo && anchor == PrevOf(rows, k)
      modifies this`rows
      ensures done <==> ParsesFrom(old(rows), k)
      ensures done ==> Relinked(old(rows), rows, k, |rows|) && prev == LastHash(rows)
    {
      ghost var before := rows;
      prev := anchor;
      var i := 0;
      ghost var n := k;
      while i < |rows|
        invariant 0 <= i <= |rows| && n == (if i <= k then k else i)
        invariant Relinked(before, rows, k, n) && prev == PrevOf(rows, n)
      {
        UnrewrittenRow(before, rows, k, n, i);
        SeqAtLeast(before, k, i);
        assert n <= |rows|;
        if rows[i].seqNo >= firstBroken {
          if Payload(rows[i]).None? {
            return false, prev;
          }
          RelinkStep(before, rows, k, i);
          var relinked := Relink(rows[i], prev);
          rows := rows[i := relinked];
          prev := relinked.recordHash;
          n := i + 1;
        }
        i := i + 1;
      }
      ParsesAll(before, rows, k);
      return true, prev;
    }

    /** The write transaction of repair: relink from the first break and add the event, or roll back. */
    method RelinkAndRecord(k: nat, firstBroken: int, anchor: string, operator: string, now: string) returns (done: bool)
      requires Valid() && k < |rows| && firstBroken == rows[k].seqNo && anchor == PrevOf(rows, k)
      requires forall j | 0 <= j < k :: RowOk(rows, j)
      modifies this`rows, this`counter
      ensures Valid() && (done <==> ParsesFrom(old(rows), k))
      ensures !done ==> rows == old(rows) && counter == old(counter)
      ensures done ==> RepairedTo(old(rows), k, rows, counter, operator, now) && counter == NextSeq(old(rows), old(counter))
    {
      ghost var before := rows;
      var snapshot := rows;
      var ok, prev := RewriteTail(k, firstBroken, anchor);
      if !ok {
        rows := snapshot;
        return false;
      }
      AscendingRepair(before, rows, k);
      var seqNo := NextSeq(rows, counter);
      var event := MakeRepairEvent(seqNo, prev, firstBroken, anchor, operator, now);
      EventCompletesRepair(before, rows, k, event, operator, now);
      AppendAscends(rows, event);
      rows := rows + [event];
      counter := seqNo;
      return true;
    }

    /** Rows that other writers commit meanwhile. */
    method Arrive(arrivals: seq<Row>)
      requires Valid() && Ascending(rows + arrivals) && (arrivals != [] ==> arrivals[0].seqNo > counter)
      modifies this`rows, this`counter
      ensures Valid() && rows == old(rows) + arrivals
      ensures counter == CounterAfter(arrivals, old(counter))
      ensures counter == if arrivals == [] then old(counter) else rows[|rows| - 1].seqNo
    {
      if arrivals != [] {
        ghost var all := rows + arrivals;
        assert all[|rows|] == arrivals[0] && all[|all| - 1] == arrivals[|arrivals| - 1];
        counter := arrivals[|arrivals| - 1].seqNo;
      }
      rows := rows + arrivals;
    }

    /** Repair, from the scan to the commit: `arrivals` are the rows other writers commit in between. */
    method Repair(operator: string, notary: NotaryCheck, arrivals: seq<Row>, now: string) returns (r: RepairResult)
      requires Valid() && Ascending(rows + arrivals) && (arrivals != [] ==> arrivals[0].seqNo > counter)
      modifies this
      ensures Valid()
      ensures VerdictOf(old(rows)).Valid? ==> r == AlreadyValid(|rows|) && rows == old(rows)
      ensures VerdictOf(old(rows)).Broken? && notary == NotVerified ==> r == RefusedByNotary && rows == old(rows)
      ensures VerdictOf(old(rows)).Broken? && notary == CheckRaised ==> r == NotaryRaised && rows == old(rows)
      ensures VerdictOf(old(rows)).Broken? && (notary == NotAsked || notary == Verified) ==> r.Repaired? || r.PayloadUnreadable?
      ensures RepairReported(old(rows), old(counter), notary, arrivals, operator, now, r, rows, counter)
      ensures r.Repaired? ==>
        && VerdictOf(old(rows)).Broken? && r.brokenAtSeq == VerdictOf(old(rows)).seqNo
        && r.repairedAtSeq == counter && r.scanned == |old(rows)|
      ensures r.AlreadyValid? ==> meta == old(meta)["state" := "active"]
      ensures r.Repaired? ==> meta == old(meta)["state" := "active"]["broken_at_seq" := ""]["repaired_at" := now]
      ensures !r.AlreadyValid? && !r.Repaired? ==> meta == old(meta)
    {
      var k, expectedPrev, v := FindBreak();
      if v.Unparseable? {
        return PayloadUnreadable;
      }
      var scanned := |rows|;
      if v.Valid? {
        meta := meta["state" := "active"];
        return AlreadyValid(scanned);
      }
      var firstBroken := rows[k].seqNo;
      if notary == NotVerified {
        return RefusedByNotary;
      }
      if notary == CheckRaised {
        return NotaryRaised;
      }

      BreakStays(rows, arrivals, k);
      Arrive(arrivals);
      var done := RelinkAndRecord(k, firstBroken, expectedPrev, operator, now);
      if !done {
        return PayloadUnreadable;
      }
      meta := meta["state" := "active"]["broken_at_seq" := ""]["repaired_at" := now];
      return Repaired(firstBroken, counter, scanned);
    }

    // ---------- The migration states ----------

    method BeginMigration(migrationId: string, now: string) returns (ok: bool)
      modifies this`meta
      ensures ok <==> !IsBlank(migrationId)
      ensures !ok ==> meta == old(meta)
      ensures ok ==> MigrationState() == "MIGRATING"
      ensures ok ==>
        meta == old(meta)["migration_state" := "MIGRATING"]["migration_id" := migrationId]["migration_started_at" := now]
    {
      if IsBlank(migrationId) {
        return false;
      }
      meta := meta["migration_state" := "MIGRATING"]["migration_id" := migrationId]["migration_started_at" := now];
      return true;
    }

    method CompleteMigration(now: string)
      modifies this`meta
      ensures MigrationState() == "V2_ACTIVE"
      ensures meta == old(meta)["migration_state" := "V2_ACTIVE"]["migration_completed_at" := now]
    {
      meta := meta["migration_state" := "V2_ACTIVE"]["migration_completed_at" := now];
    }

    method AbortMigration(now: string)
      modifies this`meta
      ensures MigrationState() == "V1_ACTIVE"
      ensures meta == old(meta)["migration_state" := "V1_ACTIVE"]["migration_aborted_at" := now]
    {
      meta := meta["migration_state" := "V1_ACTIVE"]["migration_aborted_at" := now];
    }

    method BlockMigration(reason: string, now: string)
      modifies this`meta
      ensures MigrationState() == "MIGRATION_BLOCKED"
      ensures meta == old(meta)["migration_state" := "MIGRATION_BLOCKED"]["migration_blocked_reason" := reason]
                      ["migration_blocked_at" := now]
    {
      meta := meta["migration_state" := "MIGRATION_BLOCKED"]["migration_blocked_reason" := reason]
                  ["migration_blocked_at" := now];
    }

    // ---------- Receipts ----------

    /** The receipt for the first record with the seq asked for. */
    method InclusionProof(seqNo: int) returns (r: ReceiptResult)
      ensures r.RowsUnreadable? <==> !AllParse(rows)
      ensures r.Receipt? ==>
        exists i | 0 <= i < |rows| ::
          && rows[i].seqNo == seqNo && (forall j | 0 <= j < i :: rows[j].seqNo != seqNo)
          && r.proof == ProofFor(Hashes(rows), i).(seqNo := seqNo)
          && r.proof.seqNo == seqNo && r.proof.leafHash == rows[i].recordHash && r.proof.leafIndex == i
          && r.proof.treeSize == |rows| && r.proof.root == Root(Hashes(rows))
      ensures r.UnknownSeq? <==> AllParse(rows) && forall j | 0 <= j < |rows| :: rows[j].seqNo != seqNo
    {
      if !AllParse(rows) {
        return RowsUnreadable;
      }
      var i := 0;
      while i < |rows|
        invariant 0 <= i <= |rows|
        invariant forall j | 0 <= j < i :: rows[j].seqNo != seqNo
      {
        if rows[i].seqNo == seqNo {
          var proof := BuildProof(Hashes(rows), i);
          return Receipt(proof.value.(seqNo := seqNo));
        }
        i := i + 1;
      }
      return UnknownSeq;
    }

    /** None stands for the exception a payload that does not parse raises. */
    method VerifyInclusion(proof: InclusionProof, expectedRoot: Option<string>) returns (r: Option<bool>)
      ensures AllParse(rows) ==> r == Some(LiveAccepts(rows, proof, expectedRoot))
      ensures !AllParse(rows) ==>
        r == if Accepts(proof, Some(if expectedRoot.Some? then expectedRoot.value else Root(Hashes(rows)))) then None
             else Some(false)
    {
      var root;
      if expectedRoot.Some? {
        root := expectedRoot.value;
      } else {
        root := MerkleRoot(Hashes(rows));
      }
      var ok := Merkle.VerifyInclusion(proof, Some(root));
      if !ok {
        return Some(false);
      }
      if !AllParse(rows) {
        return None;
      }
      if !(0 <= proof.seqNo - 1 < |rows|) {
        return Some(false);
      }
      return Some(rows[proof.seqNo - 1].recordHash == proof.leafHash);
    }
  }

  /** s.strip() == "" */
  predicate IsBlank(s: string) {
    forall i | 0 <= i < |s| :: IsStripped(s[i])
  }

  /** The characters str.strip() removes. */
  predicate IsStripped(c: char) {
    var n := c as int;
    || 0x09 <= n <= 0x0D || 0x1C <= n <= 0x20 || n == 0x85 || n == 0xA0 || n == 0x1680
    || 0x2000 <= n <= 0x200A || n == 0x2028 || n == 0x2029 || n == 0x202F || n == 0x205F || n == 0x3000
  }

  const WHITE_SPACE :=
    "\t\n\U{0B}\U{0C}\r\U{1C}\U{1D}\U{1E}\U{1F} \U{85}\U{A0}\U{1680}\U{2000}\U{2001}\U{2002}\U{2003}\U{2004}\U{2005}"
    + "\U{2006}\U{2007}\U{2008}\U{2009}\U{200A}\U{2028}\U{2029}\U{202F}\U{205F}\U{3000}"

  /** A text is blank exactly when all its characters are white space; the empty one is. */
  lemma {:induction false} BlankExactly(s: string)
    ensures IsBlank(s) <==> forall c | c in s :: c in WHITE_SPACE
  {
    forall c ensures IsStripped(c) <==> c in WHITE_SPACE {
      StrippedIs(c);
    }
  }

  lemma {:induction false} StrippedIs(c: char)
    ensures IsStripped(c) <==> c in WHITE_SPACE
  {
  }
}
