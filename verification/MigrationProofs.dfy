/** Safety of the migration over every run, with a failure or a crash after any step. */
module MigrationProofs {
  import opened Text
  import opened Sha
  import opened Json
  import JsonProofs
  import opened Chain
  import opened Store
  import opened Anchor
  import opened AnchorProofs
  import opened Segment
  import opened SegmentProofs
  import opened Export
  import opened Migration

  // ---------- What holds between attempts ----------

  /** Valid v1 records with seqs from one, and a started segment that links to the last of them. */
  predicate Joined(rows: seq<Row>, segment: seq<string>) {
    && rows != [] && ChainOk(rows) && SeqsFromOne(rows)
    && segment != [] && SegmentOk(segment, LastHash(rows))
  }

  /** v2 is active only on top of the verified v1 head. */
  predicate Sound(w: World) {
    && w.state in {"V1_ACTIVE", "MIGRATING", "V2_ACTIVE", "MIGRATION_BLOCKED"}
    && (w.state == "V2_ACTIVE" ==> Joined(w.rows, w.segment))
  }

  /** v1 active beside a started segment. */
  predicate Spoiled(w: World) {
    w.state == "V1_ACTIVE" && w.segment != []
  }

  /** And v1 is writable only while v2 has not started. */
  predicate Safe(w: World) {
    Sound(w) && !Spoiled(w)
  }

  lemma {:induction false} StopIsSound(w: World, env: Env, began: bool, v2Started: bool)
    requires Sound(w)
    ensures Sound(Interrupted(w, env, began, v2Started).0) && Sound(Refused(w, env, began, v2Started).0)
  {
  }

  lemma {:induction false} ExportedIsValid(rows: seq<Row>, disturbed: bool, head: string)
    requires ExportHead(rows, disturbed) == Some(head)
    ensures rows != [] && ChainOk(rows) && SeqsFromOne(rows) && LastHash(rows) == head
  {
    VerdictExact(rows);
  }

  lemma {:induction false} FinishIsSound(w: World, env: Env, seqNo: int, head: string)
    requires w.state == "MIGRATING" && (SegmentOk(w.segment, head) ==> Joined(w.rows, w.segment))
    ensures Sound(Finish(w, env, seqNo, head).0)
  {
    StopIsSound(w, env, true, true);
    if SegmentOk(w.segment, head) {
      var active := w.(state := "V2_ACTIVE");
      StopIsSound(active, env, true, true);
      StopIsSound(active, env, false, true);
    }
  }

  lemma {:induction false} ActivateIsSound(w: World, env: Env, seqNo: int, head: string)
    requires w.state == "MIGRATING" && ExportHead(w.rows, env.disturbed) == Some(head)
    ensures Sound(Activate(w, env, seqNo, head).0)
  {
    ExportedIsValid(w.rows, env.disturbed, head);
    StopIsSound(w, env, true, true);
    var line := NEXT_LINE(w.segment, head, FirstEntry(env, seqNo, head), env.now);
    if line.Some? {
      var linked := w.(segment := w.segment + [line.value]);
      assert SegmentOk(linked.segment, head) ==> Joined(linked.rows, linked.segment);
      FinishIsSound(linked, env, seqNo, head);
    }
  }

  lemma {:induction false} PrepareIsSound(w: World, env: Env, seqNo: int, head: string)
    requires Sound(w)
    ensures Sound(Prepare(w, env, seqNo, head).0)
  {
    StopIsSound(w, env, false, false);
    var migrating := w.(state := "MIGRATING");
    StopIsSound(migrating, env, true, false);
    var noted := Noted(w, seqNo, head);
    StopIsSound(noted, env, true, false);
    if ExportHead(noted.rows, env.disturbed) == Some(head) {
      ActivateIsSound(noted, env, seqNo, head);
    }
  }

  /** v1 blocked and its head noted in the manifest. */
  function Noted(w: World, seqNo: int, head: string): World {
    w.(state := "MIGRATING", manifest := Some(Manifest("MIGRATING", Some(seqNo), Some(head))))
  }

  // ---------- What a failure leaves ----------

  /** The attempt gets as far as blocking v1. */
  predicate Begins(w: World, env: Env) {
    w.segment == [] && VerdictOf(w.rows).Valid? && w.rows != [] && !Hits(env, 0)
  }

  /** It gets as far as its first v2 record. */
  predicate StartsV2(w: World, env: Env) {
    && Begins(w, env) && !Hits(env, 1) && !Hits(env, 2) && !Hits(env, 3)
    && Exportable(WithArrivals(w, env).rows, env.disturbed, w.rows[|w.rows| - 1].recordHash)
    && Confirms(env.head, w.rows[|w.rows| - 1].recordHash, w.rows[|w.rows| - 1].seqNo)
  }

  /** The rows can be exported undisturbed, and end in this hash. */
  predicate Exportable(rows: seq<Row>, disturbed: bool, head: string) {
    !disturbed && rows != [] && ChainOk(rows) && SeqsFromOne(rows) && rows[|rows| - 1].recordHash == head
  }

  /** The external verifier confirms the head: it is valid, and names no other hash and no other seq. */
  predicate Confirms(report: HeadReport, head: string, seqNo: int) {
    report.valid && (report.head == None || report.head == Some(head)) && (report.seqNo == None || report.seqNo == Some(seqNo))
  }

  /** The exporter finds a head exactly then; a database that changes meanwhile is not exported. */
  lemma {:induction false} ExportExactly(rows: seq<Row>, disturbed: bool, head: string)
    ensures ExportHead(rows, disturbed) == Some(head) <==> Exportable(rows, disturbed, head)
  {
    VerdictExact(rows);
  }

  lemma {:induction false} StartsWhen(w: World, env: Env)
    requires Begins(w, env)
    ensures StartsV2(w, env) <==>
      && !Hits(env, 1) && !Hits(env, 2) && !Hits(env, 3)
      && ExportHead(WithArrivals(w, env).rows, env.disturbed) == Some(LastHash(w.rows))
      && HeadAgrees(env.head, LastHash(w.rows), LastSeq(w.rows))
  {
    ExportExactly(WithArrivals(w, env).rows, env.disturbed, LastHash(w.rows));
  }

  /** v1 is active after the attempt: it had not begun and v1 was active, or it had begun, failed before v2, and its
      handler got to reopen v1. */
  predicate ReopensV1(w: World, env: Env) {
    if Begins(w, env) then !StartsV2(w, env) && Attempt(w, env).1 == Blocked && env.handled >= 1
    else w.state == "V1_ACTIVE"
  }

  lemma {:induction false} ActivationLeavesV1(w: World, env: Env, seqNo: int, head: string)
    requires w.state == "MIGRATING"
    ensures Activate(w, env, seqNo, head).0.state != "V1_ACTIVE" && Activate(w, env, seqNo, head).0.rows == w.rows
  {
  }

  lemma {:induction false} PreparationFails(w: World, env: Env, seqNo: int, head: string)
    requires !Hits(env, 0)
    requires Hits(env, 1) || Hits(env, 2) || Hits(env, 3)
      || ExportHead(w.rows, env.disturbed) != Some(head) || !HeadAgrees(env.head, head, seqNo)
    ensures var (after, o) := Prepare(w, env, seqNo, head);
      after.rows == w.rows && after.segment == w.segment && (after.state == "V1_ACTIVE" <==> o == Blocked && env.handled >= 1)
  {
  }

  lemma {:induction false} StartedAttempt(w: World, env: Env)
    requires StartsV2(w, env)
    ensures Attempt(w, env)
         == Activate(Noted(WithArrivals(w, env), LastSeq(w.rows), LastHash(w.rows)), env, LastSeq(w.rows), LastHash(w.rows))
  {
    StartsWhen(w, env);
  }

  lemma {:induction false} AttemptLeavesV1(w: World, env: Env)
    ensures Attempt(w, env).0.state == "V1_ACTIVE" <==> ReopensV1(w, env)
    ensures
      var found := if VerdictOf(w.rows).Valid? && w.rows != [] && w.segment == [] then WithArrivals(w, env) else w;
      Attempt(w, env).0.rows == found.rows && (ReopensV1(w, env) ==> Attempt(w, env).0.segment == found.segment)
  {
    if Begins(w, env) {
      var started, seqNo, head := WithArrivals(w, env), LastSeq(w.rows), LastHash(w.rows);
      if StartsV2(w, env) {
        StartedAttempt(w, env);
        ActivationLeavesV1(Noted(started, seqNo, head), env, seqNo, head);
      } else {
        StartsWhen(w, env);
        PreparationFails(started, env, seqNo, head);
      }
    }
  }

  /** v1 grows by what others append before it is blocked, and only if it takes appends at all. */
  lemma {:induction false} RowsAfter(w: World, env: Env)
    ensures
      var looks := w.segment == [] && VerdictOf(w.rows).Valid? && w.rows != [];
      Attempt(w, env).0.rows == if looks && w.state == "V1_ACTIVE" then w.rows + env.arrivals else w.rows
  {
    AttemptLeavesV1(w, env);
  }

  predicate OnVerifiedV1(w: World) {
    w.state == "V1_ACTIVE" && ChainOk(w.rows)
  }

  /** A failure leaves the live chain on verified v1 exactly when it was there, and the attempt had not begun or had
      not come to v2 and its handler got to reopen v1.  So it does not after a crash, in a handler cut short, or from
      the first v2 record on. */
  lemma {:induction false} FailureLeavesV1(w: World, env: Env)
    requires Attempt(w, env).1 == Blocked || Attempt(w, env).1 == Died
    requires ChainOk(w.rows) ==> ChainOk(w.rows + env.arrivals)
    ensures OnVerifiedV1(Attempt(w, env).0) <==> ChainOk(w.rows) && ReopensV1(w, env)
  {
    VerdictExact(w.rows);
    AttemptLeavesV1(w, env);
  }

  /** The attempt's own check of the segment passed, and it made v2 active. */
  predicate Completes(w: World, env: Env) {
    && StartsV2(w, env) && !Hits(env, 4) && !Hits(env, 5) && !Hits(env, 6)
    && var lines, head := WithArrivals(w, env).segment, w.rows[|w.rows| - 1].recordHash;
       var line := NEXT_LINE(lines, head, FirstEntry(env, w.rows[|w.rows| - 1].seqNo, head), env.now);
       line.Some? && SegmentOk(lines + [line.value], head)
  }

  lemma {:induction false} FinishStates(w: World, env: Env, seqNo: int, head: string)
    requires w.state == "MIGRATING"
    ensures
      var (after, o) := Finish(w, env, seqNo, head);
      var done := !Hits(env, 5) && !Hits(env, 6) && SegmentOk(w.segment, head);
      && (o == Activated <==> done && !Hits(env, 7) && !Hits(env, 8))
      && after.state == (if done then if Hits(env, 7) && o == Blocked && env.handled >= 1 then "MIGRATION_BLOCKED" else "V2_ACTIVE"
                         else if o == Blocked && env.handled >= 1 then "MIGRATION_BLOCKED" else "MIGRATING")
      && after.rows == w.rows && after.segment == w.segment && o != AlreadyActive
  {
  }

  lemma {:induction false} ActivateStates(w: World, env: Env, seqNo: int, head: string)
    requires w.state == "MIGRATING"
    ensures
      var (after, o) := Activate(w, env, seqNo, head);
      var line := NEXT_LINE(w.segment, head, FirstEntry(env, seqNo, head), env.now);
      var done := !Hits(env, 4) && !Hits(env, 5) && !Hits(env, 6) && line.Some? && SegmentOk(w.segment + [line.value], head);
      && (o == Activated <==> done && !Hits(env, 7) && !Hits(env, 8))
      && after.state == (if done then if Hits(env, 7) && o == Blocked && env.handled >= 1 then "MIGRATION_BLOCKED" else "V2_ACTIVE"
                         else if o == Blocked && env.handled >= 1 then "MIGRATION_BLOCKED" else "MIGRATING")
      && after.rows == w.rows && o != AlreadyActive
      && after.segment == (if Hits(env, 4) || line.None? then w.segment else w.segment + [line.value])
  {
    var line := NEXT_LINE(w.segment, head, FirstEntry(env, seqNo, head), env.now);
    if !Hits(env, 4) && line.Some? {
      FinishStates(w.(segment := w.segment + [line.value]), env, seqNo, head);
    }
  }

  /** The state after every attempt that got as far as v2: active if the check of the segment passed, unless completing the
      migration itself failed; otherwise blocked, or still migrating after a crash or in a handler cut short. */
  lemma {:induction false} StartedExactly(w: World, env: Env)
    requires StartsV2(w, env)
    ensures
      var (after, o) := Attempt(w, env);
      && (o == Activated <==> Completes(w, env) && !Hits(env, 7) && !Hits(env, 8))
      && after.state == (if Completes(w, env)
                         then if Hits(env, 7) && o == Blocked && env.handled >= 1 then "MIGRATION_BLOCKED" else "V2_ACTIVE"
                         else if o == Blocked && env.handled >= 1 then "MIGRATION_BLOCKED" else "MIGRATING")
      && o != AlreadyActive && WithArrivals(w, env).segment <= after.segment && after.rows == WithArrivals(w, env).rows
  {
    StartedAttempt(w, env);
    ActivateStates(Noted(WithArrivals(w, env), LastSeq(w.rows), LastHash(w.rows)), env, LastSeq(w.rows), LastHash(w.rows));
  }

  /** And of one that had begun but not come to v2: v1 active again, or still migrating. */
  lemma {:induction false} BegunExactly(w: World, env: Env)
    requires Begins(w, env) && !StartsV2(w, env)
    ensures
      var (after, o) := Attempt(w, env);
      && (o == Blocked || o == Died)
      && after.state == (if o == Blocked && env.handled >= 1 then "V1_ACTIVE" else "MIGRATING")
      && after.rows == WithArrivals(w, env).rows && after.segment == WithArrivals(w, env).segment
  {
    StartsWhen(w, env);
    PreparationStates(WithArrivals(w, env), env, LastSeq(w.rows), LastHash(w.rows));
  }

  lemma {:induction false} PreparationStates(w: World, env: Env, seqNo: int, head: string)
    requires !Hits(env, 0)
    requires Hits(env, 1) || Hits(env, 2) || Hits(env, 3)
      || ExportHead(w.rows, env.disturbed) != Some(head) || !HeadAgrees(env.head, head, seqNo)
    ensures var (after, o) := Prepare(w, env, seqNo, head);
      && (o == Blocked || o == Died) && after.rows == w.rows && after.segment == w.segment
      && after.state == (if o == Blocked && env.handled >= 1 then "V1_ACTIVE" else "MIGRATING")
  {
  }

  /** An attempt that never began leaves both chains to the others, and the state as it was. */
  lemma {:induction false} NotBegunExactly(w: World, env: Env)
    requires !Begins(w, env)
    ensures
      var (after, o) := Attempt(w, env);
      var found := if w.segment == [] && VerdictOf(w.rows).Valid? && w.rows != [] then WithArrivals(w, env) else w;
      && after.rows == found.rows && after.segment == found.segment && after.state == w.state && o != Activated
      && (o == AlreadyActive <==>
            && w.segment != [] && !Hits(env, 0) && w.state == "V2_ACTIVE"
            && w.manifest.Some? && w.manifest.value.v1HeadHash.Some? && SegmentOk(w.segment, w.manifest.value.v1HeadHash.value))
  {
  }

  /** The step is one that the attempt comes to: nothing before it refuses. */
  predicate Reaches(w: World, env: Env, step: nat) {
    if w.segment != [] then step == 0
    else
      && VerdictOf(w.rows).Valid? && w.rows != [] && step <= 8
      && (step >= 3 ==> Exportable(WithArrivals(w, env).rows, env.disturbed, w.rows[|w.rows| - 1].recordHash))
      && (step >= 4 ==> Confirms(env.head, w.rows[|w.rows| - 1].recordHash, w.rows[|w.rows| - 1].seqNo))
      && (step >= 5 ==> FirstLine(w, env).Some?)
      && (step >= 6 ==> SegmentOk(WithArrivals(w, env).segment + [FirstLine(w, env).value], w.rows[|w.rows| - 1].recordHash))
  }

  /** What the attempt's own append would write, None if it would raise. */
  function FirstLine(w: World, env: Env): Option<string>
    requires w.rows != []
  {
    var head := w.rows[|w.rows| - 1].recordHash;
    NEXT_LINE(WithArrivals(w, env).segment, head, FirstEntry(env, w.rows[|w.rows| - 1].seqNo, head), env.now)
  }

  lemma {:induction false} ActivationDies(w: World, env: Env, seqNo: int, head: string)
    ensures
      var line := NEXT_LINE(w.segment, head, FirstEntry(env, seqNo, head), env.now);
      Activate(w, env, seqNo, head).1 == Died <==>
        && env.fault.Dies? && 4 <= env.fault.after <= 8 && (env.fault.after >= 5 ==> line.Some?)
        && (env.fault.after >= 6 ==> SegmentOk(w.segment + [line.value], head))
  {
  }

  lemma {:induction false} PreparationStops(w: World, env: Env, seqNo: int, head: string)
    requires !Hits(env, 0)
    requires Hits(env, 1) || Hits(env, 2) || Hits(env, 3)
      || ExportHead(w.rows, env.disturbed) != Some(head) || !HeadAgrees(env.head, head, seqNo)
    ensures Prepare(w, env, seqNo, head).1 == Died <==>
      && env.fault.Dies? && 1 <= env.fault.after <= 3
      && (env.fault.after == 3 ==> ExportHead(w.rows, env.disturbed) == Some(head))
    ensures Prepare(w, env, seqNo, head).1 in {Blocked, Died}
  {
  }

  lemma {:induction false} ActivationFails(w: World, env: Env, seqNo: int, head: string)
    ensures
      var line := NEXT_LINE(w.segment, head, FirstEntry(env, seqNo, head), env.now);
      var good := line.Some? && SegmentOk(w.segment + [line.value], head);
      Activate(w, env, seqNo, head).1 == Activated <==> good && (env.fault == NoFault || env.fault.after < 4 || env.fault.after > 8)
    ensures Activate(w, env, seqNo, head).1 in {Blocked, Died, Activated}
  {
  }

  /** The fault strikes: the attempt comes to the step it is set on. */
  predicate Strikes(w: World, env: Env) {
    env.fault != NoFault && Reaches(w, env, env.fault.after)
  }

  /** The process dies exactly when it is to die at a step that the attempt comes to; a new migration succeeds exactly if it
      gets through all steps; and a finished one is found exactly when v2 is active and the segment links to the head in
      the manifest.  Every other attempt is refused. */
  predicate OutcomeIs(w: World, env: Env, o: Outcome) {
    && (o == Died <==> Strikes(w, env) && env.fault.Dies?)
    && (o == Activated <==> w.segment == [] && Reaches(w, env, 8) && !Strikes(w, env))
    && (o == AlreadyActive <==>
          && w.segment != [] && !Strikes(w, env) && w.state == "V2_ACTIVE"
          && w.manifest.Some? && w.manifest.value.v1HeadHash.Some? && SegmentOk(w.segment, w.manifest.value.v1HeadHash.value))
  }

  lemma {:induction false} StartedOutcome(w: World, env: Env)
    requires StartsV2(w, env)
    ensures OutcomeIs(w, env, Attempt(w, env).1)
  {
    var started, seqNo, head := WithArrivals(w, env), LastSeq(w.rows), LastHash(w.rows);
    StartedAttempt(w, env);
    ActivationDies(Noted(started, seqNo, head), env, seqNo, head);
    ActivationFails(Noted(started, seqNo, head), env, seqNo, head);
  }

  lemma {:induction false} BegunOutcome(w: World, env: Env)
    requires Begins(w, env) && !StartsV2(w, env)
    ensures OutcomeIs(w, env, Attempt(w, env).1)
  {
    StartsWhen(w, env);
    ExportExactly(WithArrivals(w, env).rows, env.disturbed, LastHash(w.rows));
    PreparationStops(WithArrivals(w, env), env, LastSeq(w.rows), LastHash(w.rows));
  }

  /** Every outcome of an attempt, from the fault and what it finds. */
  lemma {:induction false} OutcomeExactly(w: World, env: Env)
    ensures OutcomeIs(w, env, Attempt(w, env).1)
  {
    if StartsV2(w, env) {
      StartedOutcome(w, env);
    } else if Begins(w, env) {
      BegunOutcome(w, env);
    }
  }

  const BLOCKED_MANIFEST := Manifest("MIGRATION_BLOCKED", None, None)

  lemma {:induction false} ActivationNotes(w: World, env: Env, seqNo: int, head: string)
    requires w.state == "MIGRATING"
    ensures
      var (after, o) := Activate(w, env, seqNo, head);
      var writes := if env.fault == Fails(8) && after.state == "V2_ACTIVE" then 1 else 2;
      o != Activated ==> after.manifest == if o == Blocked && env.handled >= writes then Some(BLOCKED_MANIFEST) else w.manifest
  {
  }

  lemma {:induction false} PreparationNotes(w: World, env: Env, seqNo: int, head: string)
    requires !Hits(env, 0)
    requires Hits(env, 1) || Hits(env, 2) || Hits(env, 3)
      || ExportHead(w.rows, env.disturbed) != Some(head) || !HeadAgrees(env.head, head, seqNo)
    ensures
      var (after, o) := Prepare(w, env, seqNo, head);
      after.manifest == if o == Blocked && env.handled >= 2 then Some(BLOCKED_MANIFEST)
                        else if Hits(env, 1) then w.manifest else Some(Manifest("MIGRATING", Some(seqNo), Some(head)))
  {
  }

  /** The manifest that an attempt without success leaves.  A handler that gets through records the block: it has to
      write the state first, unless the attempt had not begun or had completed the migration.  Otherwise the manifest
      stays, with the head of v1 in it once the attempt had noted that. */
  lemma {:induction false} ManifestLeft(w: World, env: Env)
    requires Attempt(w, env).1 == Blocked || Attempt(w, env).1 == Died
    ensures
      var (after, o) := Attempt(w, env);
      var writes := if !Begins(w, env) || (env.fault == Fails(8) && Completes(w, env)) then 1 else 2;
      after.manifest == if o == Blocked && env.handled >= writes then Some(BLOCKED_MANIFEST)
                        else if Begins(w, env) && !Hits(env, 1)
                        then Some(Manifest("MIGRATING", Some(w.rows[|w.rows| - 1].seqNo), Some(w.rows[|w.rows| - 1].recordHash)))
                        else w.manifest
  {
    if Begins(w, env) {
      var started, seqNo, head := WithArrivals(w, env), LastSeq(w.rows), LastHash(w.rows);
      if StartsV2(w, env) {
        StartedAttempt(w, env);
        StartedExactly(w, env);
        ActivationNotes(Noted(started, seqNo, head), env, seqNo, head);
      } else {
        StartsWhen(w, env);
        PreparationNotes(started, env, seqNo, head);
      }
    }
  }

  /** One attempt, whatever fails in it, wherever it dies and whoever else writes: the state is one of the four, and v2
      is active only on top of the verified v1 head. */
  lemma {:induction false} AttemptIsSound(w: World, env: Env)
    requires Sound(w)
    ensures Sound(Attempt(w, env).0)
  {
    StopIsSound(w, env, false, false);
    if w.segment == [] && VerdictOf(w.rows).Valid? && w.rows != [] && w.state != "V2_ACTIVE" {
      PrepareIsSound(WithArrivals(w, env), env, LastSeq(w.rows), LastHash(w.rows));
    }
  }

  /** The call adds a record to an empty segment. */
  predicate Adds(call: V2Call) {
    IsHash(call.initial) && Acceptable(call.entry, call.now)
  }

  lemma {:induction false} FirstAppend(call: V2Call)
    ensures Called([], call) != [] <==> Adds(call)
  {
    PlaceDecides([], call.initial, call.entry, call.now);
  }

  predicate SomeAdds(calls: seq<V2Call>) {
    exists i | 0 <= i < |calls| :: Adds(calls[i])
  }

  lemma {:induction false} SomeAddsLast(calls: seq<V2Call>)
    requires calls != []
    ensures SomeAdds(calls) <==> SomeAdds(calls[..|calls| - 1]) || Adds(calls[|calls| - 1])
  {
    var front := calls[..|calls| - 1];
    if i :| 0 <= i < |front| && Adds(front[i]) {
      assert calls[i] == front[i];
    }
    if i :| 0 <= i < |calls| && Adds(calls[i]) {
      assert i < |front| ==> front[i] == calls[i];
    }
  }

  lemma {:induction false} SomeCallAdds(calls: seq<V2Call>)
    ensures AllCalled([], calls) != [] <==> SomeAdds(calls)
  {
    if calls != [] {
      SomeCallAdds(calls[..|calls| - 1]);
      FirstAppend(calls[|calls| - 1]);
      SomeAddsLast(calls);
    }
  }

  /** A v2 append by others falls into an attempt that finds no segment and leaves v1 active. */
  predicate StrayIn(w: World, env: Env) {
    w.segment == [] && VerdictOf(w.rows).Valid? && w.rows != [] && ReopensV1(w, env) && SomeAdds(env.strays)
  }

  /** One attempt keeps a safe world safe exactly when no such append falls into it; otherwise it is spoiled. */
  lemma {:induction false} AttemptIsSafe(w: World, env: Env)
    requires Safe(w)
    ensures Safe(Attempt(w, env).0) <==> !StrayIn(w, env)
    ensures Spoiled(Attempt(w, env).0) <==> StrayIn(w, env)
  {
    AttemptIsSound(w, env);
    AttemptLeavesV1(w, env);
    SomeCallAdds(env.strays);
  }

  // ---------- Runs ----------

  /** What may happen to the two chains: attempts, v1 appends (which the state gates), v1 repairs (which it does
      not, and which leave a valid chain alone), and v2 appends (which it does not gate either). */
  datatype Event =
    | Run(env: Env)
    | V1Append(row: Row)
    | V1Repair(repaired: seq<Row>)
    | V2Append(call: V2Call)

  function Next(w: World, e: Event): World {
    match e
    case Run(env) => Attempt(w, env).0
    case V1Append(row) => if w.state == "V1_ACTIVE" then w.(rows := w.rows + [row]) else w
    case V1Repair(repaired) => if ChainOk(w.rows) then w else w.(rows := repaired)
    case V2Append(call) => w.(segment := Called(w.segment, call))
  }

  function After(w: World, run: seq<Event>): World {
    if run == [] then w else Next(After(w, run[..|run| - 1]), run[|run| - 1])
  }

  /** A v2 append that nothing of the barrier's stops: while v1 is active, or in an attempt that leaves it active. */
  predicate Stray(w: World, e: Event) {
    match e
    case Run(env) => StrayIn(w, env)
    case V2Append(call) => w.state == "V1_ACTIVE" && Adds(call)
    case _ => false
  }

  lemma {:induction false} AppendIsSafe(w: World, call: V2Call)
    requires Safe(w)
    ensures Safe(Next(w, V2Append(call))) <==> !Stray(w, V2Append(call))
    ensures Spoiled(Next(w, V2Append(call))) <==> Stray(w, V2Append(call))
  {
    if w.state == "V1_ACTIVE" {
      FirstAppend(call);
    } else if w.state == "V2_ACTIVE" && NEXT_LINE(w.segment, call.initial, call.entry, call.now).Some? {
      InitialOnlyOnce(w.segment, call.initial, LastHash(w.rows), call.entry, call.now);
      AppendExtends(w.segment, LastHash(w.rows), call.entry, call.now);
      assert Joined(w.rows, Called(w.segment, call));
    }
  }

  /** One event keeps a safe world safe exactly when it is, or holds, no stray append; otherwise it is spoiled. */
  lemma {:induction false} NextIsSafe(w: World, e: Event)
    requires Safe(w)
    ensures Safe(Next(w, e)) <==> !Stray(w, e)
    ensures Spoiled(Next(w, e)) <==> Stray(w, e)
  {
    match e
    case Run(env) => AttemptIsSafe(w, env);
    case V2Append(call) => AppendIsSafe(w, call);
    case _ =>
  }

  lemma {:induction false} SpoiledStays(w: World, e: Event)
    requires Spoiled(w)
    ensures Spoiled(Next(w, e))
  {
  }

  predicate NoStray(w: World, run: seq<Event>) {
    run == [] || (NoStray(w, run[..|run| - 1]) && !Stray(After(w, run[..|run| - 1]), run[|run| - 1]))
  }

  /** Over every run from a safe world, a fresh v1 store for one: v1 is active only while v2 has not started, and
      whenever v2 is active the two chains form one linear history from genesis, exactly as long as nothing is
      appended to the v2 file while v1 is active or in an attempt that leaves it active.  Nothing in the append
      prevents that, and it is never undone. */
  lemma {:induction false} RunIsSafe(w: World, run: seq<Event>)
    requires Safe(w)
    ensures Safe(After(w, run)) <==> NoStray(w, run)
    ensures !Safe(After(w, run)) ==> Spoiled(After(w, run))
  {
    if run != [] {
      var front, e := run[..|run| - 1], run[|run| - 1];
      RunIsSafe(w, front);
      if Safe(After(w, front)) {
        NextIsSafe(After(w, front), e);
      } else {
        SpoiledStays(After(w, front), e);
      }
    }
  }

  lemma {:induction false} PrefixSegmentOk(lines: seq<string>, line: string, head: string)
    requires SegmentOk(lines + [line], head)
    ensures SegmentOk(lines, head)
  {
    var all := lines + [line];
    forall i | 0 <= i < |lines| ensures LineOk(lines, head, i) {
      assert LineOk(all, head, i) && PrevHash(all, head, i) == PrevHash(lines, head, i);
    }
  }

  lemma {:induction false} CallKeepsVerdict(lines: seq<string>, head: string, call: V2Call)
    requires lines != []
    ensures SegmentOk(Called(lines, call), head) <==> SegmentOk(lines, head)
  {
    var line := NEXT_LINE(lines, call.initial, call.entry, call.now);
    if line.Some? {
      if SegmentOk(lines, head) {
        InitialOnlyOnce(lines, call.initial, head, call.entry, call.now);
        AppendExtends(lines, head, call.entry, call.now);
      }
      if SegmentOk(lines + [line.value], head) {
        PrefixSegmentOk(lines, line.value, head);
      }
    }
  }

  /** v2 appends by others after the attempt's own first record need no place in it: they might as well come after it. */
  lemma {:induction false} LateAppendsCommute(w: World, env: Env, seqNo: int, head: string, call: V2Call)
    requires w.segment != []
    ensures
      var grown := w.(segment := Called(w.segment, call));
      Finish(grown, env, seqNo, head) == (Finish(w, env, seqNo, head).0.(segment := grown.segment), Finish(w, env, seqNo, head).1)
  {
    CallKeepsVerdict(w.segment, head, call);
  }

  // ---------- Activation ----------

  lemma {:induction false} FinishReports(w: World, env: Env, seqNo: int, head: string)
    requires Finish(w, env, seqNo, head).1 == Activated
    ensures SegmentOk(w.segment, head)
    ensures Finish(w, env, seqNo, head).0
         == w.(state := "V2_ACTIVE", manifest := Some(Manifest("V2_ACTIVE", Some(seqNo), Some(head))))
  {
  }

  lemma {:induction false} ActivateReports(w: World, env: Env, seqNo: int, head: string)
    requires Activate(w, env, seqNo, head).1 == Activated
    ensures var after := Activate(w, env, seqNo, head).0;
      && after.rows == w.rows && after.state == "V2_ACTIVE" && |after.segment| == |w.segment| + 1
      && SegmentOk(after.segment, head) && after.manifest == Some(Manifest("V2_ACTIVE", Some(seqNo), Some(head)))
  {
    var line := NEXT_LINE(w.segment, head, FirstEntry(env, seqNo, head), env.now);
    FinishReports(w.(segment := w.segment + [line.value]), env, seqNo, head);
  }

  /** The preparation passed: the export found the head, the verifier agreed, and the rest was the activation. */
  lemma {:induction false} PrepareReports(w: World, env: Env, seqNo: int, head: string)
    requires Prepare(w, env, seqNo, head).1 == Activated
    ensures ExportHead(w.rows, env.disturbed) == Some(head) && HeadAgrees(env.head, head, seqNo)
    ensures Prepare(w, env, seqNo, head) == Activate(Noted(w, seqNo, head), env, seqNo, head)
  {
  }

  /** A migration reports success only when the live head, the exported head, the head the external verifier named
      and the predecessor of the first v2 record are one and the same. */
  lemma {:induction false} ActivatedJoins(w: World, env: Env)
    requires Attempt(w, env).1 == Activated
    ensures var after := Attempt(w, env).0; var head := LastHash(w.rows);
      && w.segment == [] && after.state == "V2_ACTIVE" && Joined(after.rows, after.segment)
      && |after.segment| == |AllCalled([], env.strays)| + 1
      && LastHash(after.rows) == head && ExportHead(after.rows, env.disturbed) == Some(head)
      && env.head.valid && (env.head.head.Some? ==> env.head.head.value == head)
      && (env.head.seqNo.Some? ==> env.head.seqNo.value == LastSeq(w.rows))
      && after.manifest == Some(Manifest("V2_ACTIVE", Some(LastSeq(w.rows)), Some(head)))
  {
    var seqNo, head := LastSeq(w.rows), LastHash(w.rows);
    var started := WithArrivals(w, env);
    assert Attempt(w, env) == Prepare(started, env, seqNo, head);
    PrepareReports(started, env, seqNo, head);
    ExportedIsValid(started.rows, env.disturbed, head);
    ActivateReports(Noted(started, seqNo, head), env, seqNo, head);
  }

  lemma {:induction false} FirstPayloadOk(env: Env, seqNo: int, head: string)
    ensures WellFormed(FirstEntry(env, seqNo, head).payload)
  {
    ApartInParts(FirstEntry(env, seqNo, head).payload.fields, 0);
  }

  lemma {:induction false} FirstAuthorityOk(env: Env, seqNo: int, head: string)
    ensures WellFormed(FirstEntry(env, seqNo, head).authority)
  {
    ApartInParts(FirstEntry(env, seqNo, head).authority.fields, 0);
  }

  lemma {:induction false} FirstExecutionOk(env: Env, seqNo: int, head: string)
    ensures WellFormed(FirstEntry(env, seqNo, head).execution)
  {
    ApartInParts(FirstEntry(env, seqNo, head).execution.fields, 0);
  }

  lemma {:induction false} FirstVerificationOk(env: Env, seqNo: int, head: string)
    ensures WellFormed(FirstEntry(env, seqNo, head).verification)
  {
    ApartInParts(FirstEntry(env, seqNo, head).verification.fields, 0);
  }

  lemma {:induction false} FirstEntryOk(env: Env, seqNo: int, head: string)
    ensures EntryOk(FirstEntry(env, seqNo, head))
  {
    FirstPayloadOk(env, seqNo, head);
    FirstAuthorityOk(env, seqNo, head);
    FirstExecutionOk(env, seqNo, head);
    FirstVerificationOk(env, seqNo, head);
  }

  lemma {:induction false} FirstTextsOk(env: Env, seqNo: int, head: string)
    ensures AllTexts(Texts(FirstEntry(env, seqNo, head), env.now)) <==> !IsBlank(env.operator) && !IsBlank(env.now)
  {
    var texts := Texts(FirstEntry(env, seqNo, head), env.now);
    assert !IsStripped("migration.v2_started"[0]) && !IsStripped("migration"[0]) && !IsStripped("migration.start"[0]);
    assert !IsStripped("migration-test-runtime"[0]);
    if AllTexts(texts) {
      assert !IsBlank(texts[1]) && !IsBlank(texts[3]);
    }
  }

  lemma {:induction false} FirstDictsOk(env: Env, seqNo: int, head: string)
    ensures AllDicts(Dicts(FirstEntry(env, seqNo, head))) && AllFinite(Dicts(FirstEntry(env, seqNo, head)))
  {
    var e := FirstEntry(env, seqNo, head);
    assert Finite(e.payload) && Finite(e.execution) && Finite(e.verification);
    assert Finite(e.authority.fields[2].value);
  }

  /** An undisturbed attempt on a valid v1 chain succeeds exactly when the operator and the time are not blank: its
      own check of the segment it started cannot fail. */
  lemma {:induction false} CleanRunActivates(w: World, env: Env)
    requires w.segment == [] && w.rows != [] && ChainOk(w.rows) && SeqsFromOne(w.rows)
    requires env.fault == NoFault && !env.disturbed && env.arrivals == [] && env.strays == []
    requires HeadAgrees(env.head, LastHash(w.rows), LastSeq(w.rows))
    ensures Attempt(w, env).1 == Activated <==> !IsBlank(env.operator) && !IsBlank(env.now)
  {
    var seqNo, head := LastSeq(w.rows), LastHash(w.rows);
    HeadIsHash(w.rows);
    FirstTextsOk(env, seqNo, head);
    FirstDictsOk(env, seqNo, head);
    AppendSucceedsExactly([], head, FirstEntry(env, seqNo, head), env.now);
    if NEXT_LINE([], head, FirstEntry(env, seqNo, head), env.now).Some? {
      FirstEntryOk(env, seqNo, head);
      AppendExtends([], head, FirstEntry(env, seqNo, head), env.now);
    }
    CleanActivation(Noted(w, seqNo, head), env, seqNo, head);
    CleanPreparation(w, env);
  }

  lemma {:induction false} HeadIsHash(rows: seq<Row>)
    requires rows != [] && ChainOk(rows)
    ensures SegmentOk([], LastHash(rows))
  {
    assert RowOk(rows, |rows| - 1);
  }

  lemma {:induction false} CleanPreparation(w: World, env: Env)
    requires w.segment == [] && w.rows != [] && ChainOk(w.rows) && SeqsFromOne(w.rows)
    requires env.fault == NoFault && !env.disturbed && env.arrivals == [] && env.strays == []
    requires HeadAgrees(env.head, LastHash(w.rows), LastSeq(w.rows))
    ensures Attempt(w, env)
         == Activate(Noted(w, LastSeq(w.rows), LastHash(w.rows)), env, LastSeq(w.rows), LastHash(w.rows))
  {
    VerdictExact(w.rows);
    assert w.rows + [] == w.rows;
  }

  lemma {:induction false} CleanActivation(w: World, env: Env, seqNo: int, head: string)
    requires env.fault == NoFault && w.segment == []
    requires var line := NEXT_LINE([], head, FirstEntry(env, seqNo, head), env.now);
      line.Some? ==> SegmentOk([] + [line.value], head)
    ensures Activate(w, env, seqNo, head).1 == Activated
       <==> NEXT_LINE([], head, FirstEntry(env, seqNo, head), env.now).Some?
  {
  }

  // ---------- After a crash, and after success ----------

  /** v2 has a record but was never made active. */
  predicate Stuck(w: World) {
    w.segment != [] && w.state != "V1_ACTIVE" && w.state != "V2_ACTIVE"
  }

  lemma {:induction false} LateDeath(w: World, env: Env)
    requires w.segment == [] && (env.fault == Dies(5) || env.fault == Dies(6)) && Attempt(w, env).1 == Died
    ensures VerdictOf(w.rows).Valid? && w.rows != []
    ensures Attempt(w, env)
         == Activate(Noted(WithArrivals(w, env), LastSeq(w.rows), LastHash(w.rows)), env, LastSeq(w.rows), LastHash(w.rows))
  {
  }

  lemma {:induction false} DeadActivation(w: World, env: Env, seqNo: int, head: string)
    requires env.fault == Dies(5) || env.fault == Dies(6)
    requires Activate(w, env, seqNo, head).1 == Died
    ensures var line := NEXT_LINE(w.segment, head, FirstEntry(env, seqNo, head), env.now);
      line.Some? && Activate(w, env, seqNo, head).0 == w.(segment := w.segment + [line.value])
  {
  }

  /** Dying between the first v2 record and the activation leaves a stuck migration. */
  lemma {:induction false} CrashLeavesStuck(w: World, env: Env)
    requires w.segment == [] && (env.fault == Dies(5) || env.fault == Dies(6)) && Attempt(w, env).1 == Died
    ensures Stuck(Attempt(w, env).0) && Attempt(w, env).0.state == "MIGRATING"
  {
    LateDeath(w, env);
    DeadActivation(Noted(WithArrivals(w, env), LastSeq(w.rows), LastHash(w.rows)), env, LastSeq(w.rows), LastHash(w.rows));
  }

  lemma {:induction false} StuckStep(w: World, e: Event)
    requires Stuck(w)
    ensures Stuck(Next(w, e)) && Next(w, e).state == w.state && w.segment <= Next(w, e).segment
  {
  }

  lemma {:induction false} StuckRefuses(w: World, env: Env)
    requires Stuck(w)
    ensures Attempt(w, env).1 == Blocked || Attempt(w, env).1 == Died
    ensures Attempt(w, env).0.rows == w.rows && Attempt(w, env).0.segment == w.segment
  {
  }

  /** From then on every attempt is refused, for ever: v1 stays blocked and v2 is never activated.  The records that
      the segment has stay, but it may still grow. */
  lemma {:induction false} StuckForGood(w: World, run: seq<Event>, env: Env)
    requires Stuck(w)
    ensures var after := After(w, run);
      && Stuck(after) && after.state == w.state && w.segment <= after.segment
      && (Attempt(after, env).1 == Blocked || Attempt(after, env).1 == Died)
      && Attempt(after, env).0.segment == after.segment
  {
    StuckStays(w, run);
    StuckRefuses(After(w, run), env);
  }

  lemma {:induction false} StuckStays(w: World, run: seq<Event>)
    requires Stuck(w)
    ensures Stuck(After(w, run)) && After(w, run).state == w.state && w.segment <= After(w, run).segment
  {
    if run != [] {
      StuckStays(w, run[..|run| - 1]);
      StuckStep(After(w, run[..|run| - 1]), run[|run| - 1]);
    }
  }

  /** Blocking is meant to keep both chains from being written.  It does not keep v2: in whatever state, a segment
      that verifies takes one valid record more exactly when the record is acceptable. */
  lemma {:induction false} BlockedSegmentStillWritten(w: World, head: string, call: V2Call)
    requires SegmentOk(w.segment, head) && (w.segment == [] ==> call.initial == head)
    ensures var after := Next(w, V2Append(call));
      && (after.segment != w.segment <==> Acceptable(call.entry, call.now))
      && (Acceptable(call.entry, call.now) ==> |after.segment| == |w.segment| + 1 && SegmentOk(after.segment, head))
      && after.state == w.state && after.rows == w.rows
  {
    if w.segment != [] {
      InitialOnlyOnce(w.segment, call.initial, head, call.entry, call.now);
    }
    AppendSucceedsExactly(w.segment, head, call.entry, call.now);
    if Acceptable(call.entry, call.now) {
      AppendExtends(w.segment, head, call.entry, call.now);
    }
  }

  /** Such a world and such a record exist: a crashed migration whose segment is written all the same. */
  lemma {:induction false} CrashedSegmentStillWritten(w: World, env: Env, entry: JsonEntry, now: string)
    requires w.segment == [] && env.strays == [] && (env.fault == Dies(5) || env.fault == Dies(6)) && Attempt(w, env).1 == Died
    requires Acceptable(entry, now)
    ensures var stuck := Attempt(w, env).0;
      Stuck(stuck) && |Next(stuck, V2Append(V2Call(GENESIS, entry, now))).segment| == |stuck.segment| + 1
  {
    var head := LastHash(w.rows);
    CrashLeavesStuck(w, env);
    CrashedSegmentOk(w, env);
    BlockedSegmentStillWritten(Attempt(w, env).0, head, V2Call(GENESIS, entry, now));
  }

  lemma {:induction false} CrashedSegmentOk(w: World, env: Env)
    requires w.segment == [] && env.strays == [] && (env.fault == Dies(5) || env.fault == Dies(6)) && Attempt(w, env).1 == Died
    ensures SegmentOk(Attempt(w, env).0.segment, LastHash(w.rows)) && Attempt(w, env).0.segment != []
  {
    var seqNo, head := LastSeq(w.rows), LastHash(w.rows);
    LateDeath(w, env);
    DeadActivation(Noted(WithArrivals(w, env), seqNo, head), env, seqNo, head);
    VerdictExact(w.rows);
    HeadIsHash(w.rows);
    FirstEntryOk(env, seqNo, head);
    AppendExtends([], head, FirstEntry(env, seqNo, head), env.now);
  }

  /** Running again after success changes nothing in either chain; it reports that v2 is already active exactly
      when it is not interrupted and the manifest still names a head the segment links to. */
  lemma {:induction false} RerunChangesNothing(w: World, env: Env)
    requires Safe(w) && w.state == "V2_ACTIVE"
    ensures var (after, o) := Attempt(w, env);
      && after.rows == w.rows && after.segment == w.segment && after.state == w.state
      && (o == AlreadyActive <==>
            && !Hits(env, 0) && w.manifest.Some? && w.manifest.value.v1HeadHash.Some?
            && SegmentOk(w.segment, w.manifest.value.v1HeadHash.value))
      && (o == AlreadyActive ==> after == w)
  {
  }

  /** What was active stays active, and the v1 history under it stays as it is, through every later run. */
  lemma {:induction false} ActiveForGood(w: World, run: seq<Event>)
    requires Safe(w) && w.state == "V2_ACTIVE"
    ensures var after := After(w, run);
      Safe(after) && after.state == "V2_ACTIVE" && after.rows == w.rows && w.segment <= after.segment
  {
    if run != [] {
      var before := After(w, run[..|run| - 1]);
      ActiveForGood(w, run[..|run| - 1]);
      NextIsSafe(before, run[|run| - 1]);
      if run[|run| - 1].Run? {
        RerunChangesNothing(before, run[|run| - 1].env);
      }
    }
  }

  lemma {:induction false} SegmentNamesOne(lines: seq<string>, a: string, b: string)
    requires lines != [] && SegmentOk(lines, a)
    ensures SegmentOk(lines, b) <==> a == b
  {
    assert LineOk(lines, a, 0);
    if SegmentOk(lines, b) {
      assert LineOk(lines, b, 0);
    }
  }

  /** An attempt that fails on a started segment and gets to write its manifest, which then names no head. */
  predicate Erases(w: World, e: Event) {
    e.Run? && Attempt(w, e.env).1 == Blocked && e.env.handled >= 1
  }

  predicate Erased(w: World, run: seq<Event>) {
    run != [] && (Erased(w, run[..|run| - 1]) || Erases(After(w, run[..|run| - 1]), run[|run| - 1]))
  }

  lemma {:induction false} ManifestStep(w: World, e: Event)
    requires w.segment != []
    ensures Next(w, e).manifest
         == if Erases(w, e) then Some(Manifest("MIGRATION_BLOCKED", None, None)) else w.manifest
  {
  }

  lemma {:induction false} ManifestAfter(w: World, run: seq<Event>)
    requires Safe(w) && w.state == "V2_ACTIVE"
    ensures After(w, run).manifest
         == if Erased(w, run) then Some(Manifest("MIGRATION_BLOCKED", None, None)) else w.manifest
  {
    if run != [] {
      ManifestAfter(w, run[..|run| - 1]);
      ActiveForGood(w, run[..|run| - 1]);
      ManifestStep(After(w, run[..|run| - 1]), run[|run| - 1]);
    }
  }

  /** After any run on an active migration, a further attempt reports that v2 is already active exactly when it is
      not interrupted, the manifest named the v1 head at first, and no attempt has failed in between: one that does
      leaves a manifest without a head, and from then on none ever reports it again, though nothing is wrong. */
  lemma {:induction false} RerunReports(w: World, run: seq<Event>, env: Env)
    requires Safe(w) && w.state == "V2_ACTIVE"
    ensures Attempt(After(w, run), env).1 == AlreadyActive
       <==> !Hits(env, 0) && w.manifest.Some? && w.manifest.value.v1HeadHash == Some(LastHash(w.rows)) && !Erased(w, run)
  {
    var after := After(w, run);
    ActiveForGood(w, run);
    ManifestAfter(w, run);
    RerunChangesNothing(after, env);
    if after.manifest.Some? && after.manifest.value.v1HeadHash.Some? {
      SegmentNamesOne(after.segment, LastHash(after.rows), after.manifest.value.v1HeadHash.value);
    }
  }

  /** Once v2 has started in a safe world, nothing that follows changes the migration state or takes a record away. */
  lemma {:induction false} StartedForGood(w: World, run: seq<Event>)
    requires Safe(w) && w.segment != []
    ensures Safe(After(w, run)) && After(w, run).state == w.state && w.segment <= After(w, run).segment
  {
    if w.state == "V2_ACTIVE" {
      ActiveForGood(w, run);
    } else {
      StuckStays(w, run);
    }
  }

  // ---------- The first v2 record ----------

  lemma {:induction false} FirstPayloadSays(env: Env, seqNo: int, head: string)
    ensures
      var f := FirstEntry(env, seqNo, head).payload;
      f.Obj? && DistinctKeys(f.fields) && NamesHead(f.fields, env, seqNo, head)
  {
    var f := FirstEntry(env, seqNo, head).payload.fields;
    ApartInParts(f, 0);
    FieldFound(f, 0, "migration_id", Str(env.migrationId));
    FieldFound(f, 1, "v1_head_seq", Int(seqNo));
    FieldFound(f, 2, "v1_head_hash", Str(head));
    FieldFound(f, 3, "v1_export_sha256", Str(env.exportDigest));
  }

  lemma {:induction false} NormedSays(fields: seq<Field>, key: string, v: Value)
    requires DistinctKeys(fields) && Lookup(fields, key) == Some(v) && Norm(v) == v
    ensures Lookup(Norm(Obj(fields)).fields, key) == Some(v)
  {
    JsonProofs.LookupSortedNorm(fields, key);
  }

  lemma {:induction false} FirstPayloadNormed(env: Env, seqNo: int, head: string)
    ensures
      var p := Norm(FirstEntry(env, seqNo, head).payload);
      p.Obj? && NamesHead(p.fields, env, seqNo, head)
  {
    FirstPayloadSays(env, seqNo, head);
    NormNames(FirstEntry(env, seqNo, head).payload.fields, env, seqNo, head);
  }

  lemma {:induction false} NormNames(f: seq<Field>, env: Env, seqNo: int, head: string)
    requires DistinctKeys(f) && NamesHead(f, env, seqNo, head)
    ensures NamesHead(Norm(Obj(f)).fields, env, seqNo, head)
  {
    NormedSays(f, "migration_id", Str(env.migrationId));
    NormedSays(f, "v1_head_seq", Int(seqNo));
    NormedSays(f, "v1_head_hash", Str(head));
    NormedSays(f, "v1_export_sha256", Str(env.exportDigest));
  }

  /** The payload of the first record: which v1 chain it continues, and its export. */
  predicate NamesHead(payload: seq<Field>, env: Env, seqNo: int, head: string) {
    && Lookup(payload, "migration_id") == Some(Str(env.migrationId)) && Lookup(payload, "v1_head_seq") == Some(Int(seqNo))
    && Lookup(payload, "v1_head_hash") == Some(Str(head)) && Lookup(payload, "v1_export_sha256") == Some(Str(env.exportDigest))
  }

  /** Who started the segment, when, and on which v1 head. */
  predicate StartsOn(f: seq<Field>, env: Env, head: string) {
    && Lookup(f, "component") == Some(Str("migration")) && Lookup(f, "record_type") == Some(Str("migration.v2_started"))
    && Lookup(f, "actor") == Some(Str(env.operator)) && Lookup(f, "action") == Some(Str("migration.start"))
    && Lookup(f, "recorded_at") == Some(Str(env.now)) && Lookup(f, "seq") == Some(Int(1))
    && Lookup(f, "prev_hash") == Some(Str(head))
  }

  /** On what authority, by whom and how verified. */
  predicate Vouches(f: seq<Field>, env: Env) {
    && Lookup(f, "authority")
       == Some(Obj([Field("decision_id", Str(env.migrationId)), Field("policy_version", Str("audit-migration-v1")),
                    Field("scope", Arr([Str("audit-chain")]))]))
    && Lookup(f, "execution") == Some(Obj([Field("executor_id", Str("migration-barrier")), Field("result", Str("success"))]))
    && Lookup(f, "verification")
       == Some(Obj([Field("method", Str("v1-export-and-external-head")), Field("result", Str("verified")),
                    Field("verifier_id", Str("migration-barrier"))]))
    && Lookup(f, "environment_ref") == Some(Str("migration-test-runtime"))
  }

  lemma {:induction false} SortsThree(a: Field, b: Field, c: Field)
    requires LexLess(a.key, b.key) && LexLess(b.key, c.key)
    requires !LexLess(c.key, b.key) && !LexLess(c.key, a.key) && !LexLess(b.key, a.key)
    ensures SortFields([a, b]) == [a, b] && SortFields([a, b, c]) == [a, b, c] && SortFields([c, b, a]) == [a, b, c]
  {
    SortsTwo(a, b);
    SortsTwo(b, c);
    assert [a, b, c][1..] == [b, c] && [c, b, a][1..] == [b, a];
    assert [a, b][1..] == [b] && [b][1..] == [];
    assert InsertField(c, [b]) == [b, c];
    assert InsertField(c, [a, b]) == [a] + InsertField(c, [b]);
  }

  lemma {:induction false} SortsTwo(a: Field, b: Field)
    requires LexLess(a.key, b.key) && !LexLess(b.key, a.key)
    ensures SortFields([a, b]) == [a, b] && SortFields([b, a]) == [a, b]
  {
    assert [a, b][1..] == [b] && [b, a][1..] == [a] && [a][1..] == [] && [b][1..] == [];
    assert SortFields([a]) == [a] && SortFields([b]) == [b];
    assert InsertField(b, [a]) == [a] + InsertField(b, []);
  }

  lemma {:induction false} VouchingKeys()
    ensures LexLess("decision_id", "policy_version") && LexLess("policy_version", "scope")
    ensures !LexLess("scope", "policy_version") && !LexLess("scope", "decision_id") && !LexLess("policy_version", "decision_id")
    ensures LexLess("executor_id", "result") && !LexLess("result", "executor_id")
    ensures LexLess("method", "result") && LexLess("result", "verifier_id")
    ensures !LexLess("verifier_id", "result") && !LexLess("verifier_id", "method") && !LexLess("result", "method")
  {
  }

  predicate Normal(fields: seq<Field>) {
    forall i | 0 <= i < |fields| :: Norm(fields[i].value) == fields[i].value
  }

  lemma {:induction false} NormedUp(f: seq<Field>)
    requires |f| == 3 && Normal(f) && LexLess(f[0].key, f[1].key) && LexLess(f[1].key, f[2].key)
    requires !LexLess(f[2].key, f[1].key) && !LexLess(f[2].key, f[0].key) && !LexLess(f[1].key, f[0].key)
    ensures Norm(Obj(f)) == Obj(f)
  {
    SortsThree(f[0], f[1], f[2]);
    assert NormFields(f) == f == [f[0], f[1], f[2]];
  }

  lemma {:induction false} NormedDown(f: seq<Field>)
    requires |f| == 3 && Normal(f) && LexLess(f[2].key, f[1].key) && LexLess(f[1].key, f[0].key)
    requires !LexLess(f[0].key, f[1].key) && !LexLess(f[0].key, f[2].key) && !LexLess(f[1].key, f[2].key)
    ensures Norm(Obj(f)) == Obj([f[2], f[1], f[0]])
  {
    SortsThree(f[2], f[1], f[0]);
    assert NormFields(f) == f == [f[0], f[1], f[2]];
  }

  lemma {:induction false} NormedTwo(f: seq<Field>)
    requires |f| == 2 && Normal(f) && LexLess(f[0].key, f[1].key) && !LexLess(f[1].key, f[0].key)
    ensures Norm(Obj(f)) == Obj(f)
  {
    SortsTwo(f[0], f[1]);
    assert NormFields(f) == f == [f[0], f[1]];
  }

  lemma {:induction false} AuthorityNormed(env: Env, seqNo: int, head: string)
    ensures var v := FirstEntry(env, seqNo, head).authority; Norm(v) == v
  {
    var f, scope := FirstEntry(env, seqNo, head).authority.fields, Arr([Str("audit-chain")]);
    assert [Str("audit-chain")][1..] == [] && Norm(scope) == scope;
    VouchingKeys();
    NormedUp(f);
  }

  lemma {:induction false} ExecutionNormed(env: Env, seqNo: int, head: string)
    ensures var v := FirstEntry(env, seqNo, head).execution; Norm(v) == v
  {
    VouchingKeys();
    NormedTwo(FirstEntry(env, seqNo, head).execution.fields);
  }

  lemma {:induction false} VerificationNormed(env: Env, seqNo: int, head: string)
    ensures var v := FirstEntry(env, seqNo, head).verification; Norm(v) == Obj([v.fields[2], v.fields[1], v.fields[0]])
  {
    VouchingKeys();
    NormedDown(FirstEntry(env, seqNo, head).verification.fields);
  }

  lemma {:induction false} DictsVouch(f: seq<Field>, e: V2Entry, env: Env, seqNo: int, head: string)
    requires e == FirstEntry(env, seqNo, head) && HoldsTexts(f, e, env.now) && HoldsDicts(f, e)
    ensures Vouches(f, env)
  {
    AuthorityNormed(env, seqNo, head);
    ExecutionNormed(env, seqNo, head);
    VerificationNormed(env, seqNo, head);
  }

  lemma {:induction false} FirstHolds(head: string, e: JsonEntry, now: string)
    requires IsHash(head) && NEXT_LINE([], head, e, now).Some?
    ensures
      var f := ReadRecord(NEXT_LINE([], head, e, now).value);
      f.Some? && HoldsTexts(f.value, e, now) && HoldsDicts(f.value, e) && HoldsPlace(f.value, 1, head)
  {
    AppendedRecord([], head, e, now, 1, head);
  }

  lemma {:induction false} StartsFrom(f: seq<Field>, e: V2Entry, env: Env, head: string)
    requires HoldsTexts(f, e, env.now) && HoldsPlace(f, 1, head)
    requires e.component == "migration" && e.eventType == "migration.v2_started" && e.action == "migration.start"
    requires e.actor == env.operator
    ensures StartsOn(f, env, head)
  {
  }

  lemma {:induction false} FirstLineSays(env: Env, seqNo: int, head: string, e: V2Entry)
    requires e == FirstEntry(env, seqNo, head) && IsHash(head) && NEXT_LINE([], head, e, env.now).Some?
    ensures
      var f := ReadRecord(NEXT_LINE([], head, e, env.now).value);
      && f.Some? && StartsOn(f.value, env, head) && Vouches(f.value, env)
      && Lookup(f.value, "payload") == Some(Norm(e.payload))
  {
    FirstEntryOk(env, seqNo, head);
    FirstHolds(head, e, env.now);
    var f := ReadRecord(NEXT_LINE([], head, e, env.now).value).value;
    StartsFrom(f, e, env, head);
    DictsVouch(f, e, env, seqNo, head);
  }

  lemma {:induction false} StartedSegment(w: World, env: Env)
    requires Attempt(w, env).1 == Activated && env.strays == []
    ensures w.rows != [] && IsHash(LastHash(w.rows))
    ensures var line := NEXT_LINE([], LastHash(w.rows), FirstEntry(env, LastSeq(w.rows), LastHash(w.rows)), env.now);
      line.Some? && Attempt(w, env).0.segment == [line.value]
  {
    var seqNo, head := LastSeq(w.rows), LastHash(w.rows);
    ActivatedStarts(w, env);
    StartedAttempt(w, env);
    VerdictExact(w.rows);
    HeadIsHash(w.rows);
    ActivateStates(Noted(WithArrivals(w, env), seqNo, head), env, seqNo, head);
  }

  /** The first record of a migration that nobody disturbs by v2 appends names the v1 chain it continues, the export and
      the operator. */
  lemma {:induction false} FirstRecordSays(w: World, env: Env)
    requires Attempt(w, env).1 == Activated && env.strays == []
    ensures
      var lines, last := Attempt(w, env).0.segment, w.rows[|w.rows| - 1];
      |lines| == 1 && ReadRecord(lines[0]).Some? &&
      var f := ReadRecord(lines[0]).value;
      && StartsOn(f, env, last.recordHash) && Vouches(f, env)
      && Lookup(f, "payload").Some? && Lookup(f, "payload").value.Obj?
      && NamesHead(Lookup(f, "payload").value.fields, env, last.seqNo, last.recordHash)
  {
    StartedSegment(w, env);
    FirstLineSays(env, LastSeq(w.rows), LastHash(w.rows), FirstEntry(env, LastSeq(w.rows), LastHash(w.rows)));
    FirstPayloadNormed(env, LastSeq(w.rows), LastHash(w.rows));
  }

  lemma {:induction false} ActivatedStarts(w: World, env: Env)
    requires Attempt(w, env).1 == Activated
    ensures StartsV2(w, env)
  {
    if !Begins(w, env) {
      NotBegunExactly(w, env);
    } else if !StartsV2(w, env) {
      BegunExactly(w, env);
    }
  }
}
