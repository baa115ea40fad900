/** The v1-to-v2 migration barrier: one attempt with its failures and crashes, and every run of attempts. */
module Migration {
  import opened Text
  import opened Json
  import opened Chain
  import opened Store
  import opened Anchor
  import opened Segment
  import opened Export

  /** migration-manifest.json, as far as it is read back. */
  datatype Manifest = Manifest(state: string, v1HeadSeq: Option<int>, v1HeadHash: Option<string>)

  /** What the external verifier of the v1 head answers; anything but a valid dict is not valid. */
  datatype HeadReport = HeadReport(valid: bool, head: Option<string>, seqNo: Option<int>)

  /** An exception, or the death of the process, when `after` of the attempt's steps are done. */
  datatype Fault = NoFault | Fails(after: nat) | Dies(after: nat)

  /** One call of V2Segment.append, by anyone. */
  datatype V2Call = V2Call(initial: string, entry: JsonEntry, now: string)

  /** Everything an attempt does not decide itself: `arrivals` are v1 appends between reading the head and
      blocking v1, `strays` are v2 appends by others between the look at the empty segment and the attempt's own first
      record, and `handled` is how many writes of the exception handler get through. */
  datatype Env = Env(migrationId: string, operator: string, now: string, arrivals: seq<Row>, strays: seq<V2Call>,
                     disturbed: bool, exportDigest: string, head: HeadReport, fault: Fault, handled: nat)

  /** The v1 table, its migration state, the v2 file and the manifest. */
  datatype World = World(rows: seq<Row>, state: string, segment: seq<string>, manifest: Option<Manifest>)

  datatype Outcome = Activated | AlreadyActive | Blocked | Died

  // ---------- One attempt ----------

  function FirstEntry(env: Env, seqNo: int, head: string): V2Entry {
    V2Entry("migration", "migration.v2_started",
      Obj([Field("migration_id", Str(env.migrationId)), Field("v1_head_seq", Int(seqNo)), Field("v1_head_hash", Str(head)),
           Field("v1_export_sha256", Str(env.exportDigest))]),
      env.operator, "migration.start",
      Obj([Field("decision_id", Str(env.migrationId)), Field("policy_version", Str("audit-migration-v1")),
           Field("scope", Arr([Str("audit-chain")]))]),
      Obj([Field("executor_id", Str("migration-barrier")), Field("result", Str("success"))]),
      Obj([Field("verifier_id", Str("migration-barrier")), Field("result", Str("verified")),
           Field("method", Str("v1-export-and-external-head"))]),
      "migration-test-runtime")
  }

  predicate Hits(env: Env, step: nat) {
    env.fault == Fails(step) || env.fault == Dies(step)
  }

  /** The exception handler, which reopens v1 only if no v2 segment has been started. */
  function Handled(w: World, began: bool, v2Started: bool, handled: nat): World {
    var reset := if began && handled >= 1 then w.(state := if v2Started then "MIGRATION_BLOCKED" else "V1_ACTIVE") else w;
    if handled >= (if began then 2 else 1) then reset.(manifest := Some(Manifest("MIGRATION_BLOCKED", None, None))) else reset
  }

  function Refused(w: World, env: Env, began: bool, v2Started: bool): (World, Outcome) {
    (Handled(w, began, v2Started, env.handled), Blocked)
  }

  function Interrupted(w: World, env: Env, began: bool, v2Started: bool): (World, Outcome) {
    if env.fault.Dies? then (w, Died) else Refused(w, env, began, v2Started)
  }

  predicate HeadAgrees(report: HeadReport, head: string, seqNo: int) {
    && report.valid && (report.head.Some? ==> report.head.value == head)
    && (report.seqNo.Some? ==> report.seqNo.value == seqNo)
  }

  /** An attempt that finds a v2 segment. */
  function Rerun(w: World, env: Env): (World, Outcome) {
    if Hits(env, 0) then Interrupted(w, env, false, false)
    else if w.manifest.None? || w.manifest.value.v1HeadHash.None? then Refused(w, env, false, false)
    else if !SegmentOk(w.segment, w.manifest.value.v1HeadHash.value) then Refused(w, env, false, false)
    else if w.state != "V2_ACTIVE" then Refused(w, env, false, false)
    else (w, AlreadyActive)
  }

  /** From the check of the started segment to the end. */
  function Finish(w: World, env: Env, seqNo: int, head: string): (World, Outcome) {
    if Hits(env, 5) then Interrupted(w, env, true, true)
    else if !SegmentOk(w.segment, head) then Refused(w, env, true, true)
    else if Hits(env, 6) then Interrupted(w, env, true, true)
    else
      var active := w.(state := "V2_ACTIVE");
      if Hits(env, 7) then Interrupted(active, env, true, true)
      else if Hits(env, 8) then Interrupted(active, env, false, true)
      else (active.(manifest := Some(Manifest("V2_ACTIVE", Some(seqNo), Some(head)))), Activated)
  }

  /** The first v2 record; `w` is blocked, exported and externally verified. */
  function Activate(w: World, env: Env, seqNo: int, head: string): (World, Outcome) {
    if Hits(env, 4) then Interrupted(w, env, true, true)
    else match NEXT_LINE(w.segment, head, FirstEntry(env, seqNo, head), env.now)
      case None => Refused(w, env, true, true)
      case Some(line) => Finish(w.(segment := w.segment + [line]), env, seqNo, head)
  }

  /** From blocking v1 to the external check of its head. */
  function Prepare(w: World, env: Env, seqNo: int, head: string): (World, Outcome) {
    if Hits(env, 0) then Interrupted(w, env, false, false)
    else
      var migrating := w.(state := "MIGRATING");
      if Hits(env, 1) then Interrupted(migrating, env, true, false)
      else
        var noted := migrating.(manifest := Some(Manifest("MIGRATING", Some(seqNo), Some(head))));
        if Hits(env, 2) then Interrupted(noted, env, true, false)
        else if ExportHead(noted.rows, env.disturbed) != Some(head) then Refused(noted, env, true, false)
        else if Hits(env, 3) then Interrupted(noted, env, true, false)
        else if !HeadAgrees(env.head, head, seqNo) then Refused(noted, env, true, false)
        else Activate(noted, env, seqNo, head)
  }

  /** MigrationBarrier.run */
  function Attempt(w: World, env: Env): (World, Outcome) {
    if w.segment != [] then Rerun(w, env)
    else if !VerdictOf(w.rows).Valid? || w.rows == [] then Refused(w, env, false, false)
    else Prepare(WithArrivals(w, env), env, LastSeq(w.rows), LastHash(w.rows))
  }

  function Called(lines: seq<string>, call: V2Call): seq<string> {
    match NEXT_LINE(lines, call.initial, call.entry, call.now)
    case Some(line) => lines + [line]
    case None => lines
  }

  function AllCalled(lines: seq<string>, calls: seq<V2Call>): seq<string> {
    if calls == [] then lines else Called(AllCalled(lines, calls[..|calls| - 1]), calls[|calls| - 1])
  }

  /** What others write meanwhile.  Appends reach v1 only while it is active; they always reach the v2 file. */
  function WithArrivals(w: World, env: Env): World {
    w.(rows := if w.state == "V1_ACTIVE" then w.rows + env.arrivals else w.rows, segment := AllCalled(w.segment, env.strays))
  }

  /** The metadata of a migration that went through. */
  function ActiveMeta(before: map<string, string>, env: Env): map<string, string> {
    before["migration_state" := "MIGRATING"]["migration_id" := env.migrationId]["migration_started_at" := env.now]
          ["migration_state" := "V2_ACTIVE"]["migration_completed_at" := env.now]
  }

  class MigrationBarrier {
    const chain: AuditChain
    const file: SegmentFile
    var manifest: Option<Manifest>

    constructor (chain: AuditChain, file: SegmentFile)
      ensures this.chain == chain && this.file == file && manifest == None
    {
      this.chain, this.file, manifest := chain, file, None;
    }

    function View(): World
      reads this, chain, file
    {
      World(chain.rows, chain.MigrationState(), file.lines, manifest)
    }

    /** The exception handler of run. */
    method Recover(began: bool, v2Started: bool, env: Env)
      modifies this, chain`meta
      ensures View() == Handled(old(View()), began, v2Started, env.handled)
    {
      var left := env.handled;
      if began {
        if left == 0 {
          return;
        }
        if v2Started {
          chain.BlockMigration("", env.now);
        } else {
          chain.AbortMigration(env.now);
        }
        left := left - 1;
      }
      if left > 0 {
        manifest := Some(Manifest("MIGRATION_BLOCKED", None, None));
      }
    }

    method Stop(began: bool, v2Started: bool, env: Env) returns (o: Outcome)
      modifies this, chain`meta
      ensures (View(), o) == Interrupted(old(View()), env, began, v2Started)
    {
      if env.fault.Dies? {
        return Died;
      }
      Recover(began, v2Started, env);
      return Blocked;
    }

    method Refuse(began: bool, v2Started: bool, env: Env) returns (o: Outcome)
      modifies this, chain`meta
      ensures (View(), o) == Refused(old(View()), env, began, v2Started)
    {
      Recover(began, v2Started, env);
      return Blocked;
    }

    method Run(env: Env) returns (o: Outcome)
      requires !IsBlank(env.migrationId)
      requires chain.Valid() && Ascending(chain.rows + env.arrivals)
      requires env.arrivals != [] ==> env.arrivals[0].seqNo > chain.counter
      modifies this, chain, file
      ensures (View(), o) == Attempt(old(View()), env)
      ensures o == Activated ==> chain.meta == ActiveMeta(old(chain.meta), env)
      ensures chain.Valid()
      ensures chain.counter
           == if chain.rows == old(chain.rows) then old(chain.counter) else CounterAfter(env.arrivals, old(chain.counter))
    {
      if file.lines != [] {
        o := RunAgain(env);
        return;
      }
      var internal := chain.VerifyChain();
      if !internal.Valid? || chain.rows == [] {
        o := Refuse(false, false, env);
        return;
      }
      var seqNo, head := LastSeq(chain.rows), LastHash(chain.rows);
      if chain.MigrationState() == "V1_ACTIVE" {
        chain.Arrive(env.arrivals);
      }
      file.lines := AllCalled(file.lines, env.strays);
      o := RunPreparation(env, seqNo, head);
    }

    method RunAgain(env: Env) returns (o: Outcome)
      modifies this, chain`meta
      ensures (View(), o) == Rerun(old(View()), env)
    {
      if Hits(env, 0) {
        o := Stop(false, false, env);
        return;
      }
      if manifest.None? || manifest.value.v1HeadHash.None? {
        o := Refuse(false, false, env);
        return;
      }
      var result := VerifyJsonl(file.lines, manifest.value.v1HeadHash.value);
      if !result.SegmentValid? || chain.MigrationState() != "V2_ACTIVE" {
        o := Refuse(false, false, env);
        return;
      }
      return AlreadyActive;
    }

    method RunPreparation(env: Env, seqNo: int, head: string) returns (o: Outcome)
      requires !IsBlank(env.migrationId)
      modifies this, chain`meta, file
      ensures (View(), o) == Prepare(old(View()), env, seqNo, head)
      ensures o == Activated ==> chain.meta == ActiveMeta(old(chain.meta), env)
    {
      if Hits(env, 0) {
        o := Stop(false, false, env);
        return;
      }
      var ok := chain.BeginMigration(env.migrationId, env.now);
      if Hits(env, 1) {
        o := Stop(true, false, env);
        return;
      }
      manifest := Some(Manifest("MIGRATING", Some(seqNo), Some(head)));
      if Hits(env, 2) {
        o := Stop(true, false, env);
        return;
      }
      var exported := ExportV1(chain.rows, env.disturbed);
      if exported != Some(head) {
        o := Refuse(true, false, env);
        return;
      }
      if Hits(env, 3) {
        o := Stop(true, false, env);
        return;
      }
      if !HeadAgrees(env.head, head, seqNo) {
        o := Refuse(true, false, env);
        return;
      }
      o := RunActivation(env, seqNo, head);
    }

    method RunActivation(env: Env, seqNo: int, head: string) returns (o: Outcome)
      modifies this, chain`meta, file
      ensures (View(), o) == Activate(old(View()), env, seqNo, head)
      ensures o == Activated ==>
        chain.meta == old(chain.meta)["migration_state" := "V2_ACTIVE"]["migration_completed_at" := env.now]
    {
      if Hits(env, 4) {
        o := Stop(true, true, env);
        return;
      }
      var v2 := new V2Segment(file, head);
      var appended := v2.Append(FirstEntry(env, seqNo, head), env.now);
      if !appended {
        o := Refuse(true, true, env);
        return;
      }
      if Hits(env, 5) {
        o := Stop(true, true, env);
        return;
      }
      var good := v2.Verify();
      if !good {
        o := Refuse(true, true, env);
        return;
      }
      if Hits(env, 6) {
        o := Stop(true, true, env);
        return;
      }
      chain.CompleteMigration(env.now);
      if Hits(env, 7) {
        o := Stop(true, true, env);
        return;
      }
      if Hits(env, 8) {
        o := Stop(false, true, env);
        return;
      }
      manifest := Some(Manifest("V2_ACTIVE", Some(seqNo), Some(head)));
      return Activated;
    }
  }
}
