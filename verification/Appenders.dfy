/**
 * Any number of writers appending at once, as steps of a transition system.  An append takes the write lock,
 * reads the tail, inserts its row and commits; the process may die at any point, which gives the lock up and
 * leaves nothing behind.
 */
module Appenders {
  import opened Text
  import opened Json
  import opened Chain
  import opened Store
  import JsonProofs

  /** What one append is called with; the timestamp is taken before the lock. */
  datatype Entry = Entry(component: string, eventType: string, payload: Value, timestamp: string)

  datatype Phase =
    | Idle
    | Locked(entry: Entry)
    | HasTail(entry: Entry, prevHash: string)
    | Inserted(row: Row)

  /** `lock` is the writer inside BEGIN IMMEDIATE; `rows` is what has been committed. */
  datatype State = State(rows: seq<Row>, counter: int, lock: Option<nat>, writers: seq<Phase>)

  datatype Action =
    | Begin(w: nat, entry: Entry)
    | ReadTail(w: nat)
    | Insert(w: nat)
    | Commit(w: nat)
    | Crash(w: nat)

  function RowOf(entry: Entry, prevHash: string, seqNo: int): Row {
    Row(seqNo, entry.component, entry.eventType, Print(SPACED, entry.payload), entry.timestamp, prevHash,
        ComputeHash(prevHash, entry.component, entry.eventType, entry.payload, entry.timestamp))
  }

  predicate Step(s: State, a: Action, t: State) {
    a.w < |s.writers| &&
    var phase := s.writers[a.w];
    match a
    case Begin(w, entry) =>
      && phase.Idle? && s.lock.None? && WellFormed(entry.payload) && Finite(entry.payload)
      && t == s.(lock := Some(w), writers := s.writers[w := Locked(entry)])
    case ReadTail(w) =>
      && phase.Locked?
      && t == s.(writers := s.writers[w := HasTail(phase.entry, LastHash(s.rows))])
    case Insert(w) =>
      && phase.HasTail?
      && t == s.(writers := s.writers[w := Inserted(RowOf(phase.entry, phase.prevHash, NextSeq(s.rows, s.counter)))])
    case Commit(w) =>
      && phase.Inserted?
      && t == State(s.rows + [phase.row], phase.row.seqNo, None, s.writers[w := Idle])
    case Crash(w) =>
      && !phase.Idle?
      && t == s.(lock := None, writers := s.writers[w := Idle])
  }

  /** Only the holder of the lock is past Idle, and what it has read or inserted is current. */
  predicate Consistent(s: State) {
    forall w | 0 <= w < |s.writers| :: WriterOk(s, w)
  }

  predicate WriterOk(s: State, w: nat)
    requires w < |s.writers|
  {
    match s.writers[w]
    case Idle => true
    case Locked(entry) => s.lock == Some(w) && WellFormed(entry.payload)
    case HasTail(entry, prevHash) => s.lock == Some(w) && WellFormed(entry.payload) && prevHash == LastHash(s.rows)
    case Inserted(row) =>
      && s.lock == Some(w) && row.prevHash == LastHash(s.rows) && HashOk(row)
      && row.seqNo == NextSeq(s.rows, s.counter)
  }

  predicate Safe(s: State) {
    Consistent(s) && ChainOk(s.rows) && Dense(s.rows, s.counter)
  }

  lemma {:induction false} RowOfIsGood(entry: Entry, prevHash: string, seqNo: int)
    requires WellFormed(entry.payload)
    ensures var row := RowOf(entry, prevHash, seqNo);
      HashOk(row) && row.prevHash == prevHash && row.seqNo == seqNo
  {
    assert Payload(RowOf(entry, prevHash, seqNo)) == Some(entry.payload) by {
      JsonProofs.LoadsPrint(SPACED, entry.payload, false);
    }
  }

  lemma {:induction false} StepKeepsConsistent(s: State, a: Action, t: State)
    requires Consistent(s) && Step(s, a, t)
    ensures Consistent(t)
  {
    forall w | 0 <= w < |t.writers| ensures WriterOk(t, w) {
      assert WriterOk(s, w) && WriterOk(s, a.w);
      if w == a.w && a.Insert? {
        var phase := s.writers[w];
        RowOfIsGood(phase.entry, phase.prevHash, NextSeq(s.rows, s.counter));
      }
    }
  }

  predicate Extends(earlier: seq<Row>, later: seq<Row>) {
    |earlier| <= |later| && later[..|earlier|] == earlier
  }

  lemma {:induction false} StepKeepsSafe(s: State, a: Action, t: State)
    requires Safe(s) && Step(s, a, t)
    ensures Safe(t) && Extends(s.rows, t.rows)
    ensures |t.rows| == |s.rows| + if a.Commit? then 1 else 0
  {
    StepKeepsConsistent(s, a, t);
    assert WriterOk(s, a.w);
    if a.Commit? {
      AppendKeepsChain(s.rows, s.writers[a.w].row);
    }
  }

  // ---------- Runs ----------

  predicate Run(states: seq<State>, actions: seq<Action>) {
    |states| == |actions| + 1 && forall i | 0 <= i < |actions| :: Step(states[i], actions[i], states[i + 1])
  }

  function Commits(actions: seq<Action>): nat {
    if actions == [] then 0 else Commits(actions[..|actions| - 1]) + if actions[|actions| - 1].Commit? then 1 else 0
  }

  /** However the writers interleave and wherever they die, the table is a valid, unforked chain with seqs
      1, 2, 3, ...: the old rows and one row per commit. */
  lemma {:induction false} RunIsSafe(states: seq<State>, actions: seq<Action>)
    requires Run(states, actions) && Safe(states[0])
    ensures
      var last := states[|actions|];
      && Safe(last) && Extends(states[0].rows, last.rows)
      && |last.rows| == |states[0].rows| + Commits(actions)
  {
    var n := |actions|;
    if n > 0 {
      RunPrefix(states, actions);
      RunIsSafe(states[..n], actions[..n - 1]);
      assert Step(states[n - 1], actions[n - 1], states[n - 1 + 1]);
      StepKeepsSafe(states[n - 1], actions[n - 1], states[n]);
      ExtendsTransitive(states[0].rows, states[n - 1].rows, states[n].rows);
    }
  }

  lemma {:induction false} RunPrefix(states: seq<State>, actions: seq<Action>)
    requires Run(states, actions) && actions != []
    ensures Run(states[..|actions|], actions[..|actions| - 1])
  {
    var s, a := states[..|actions|], actions[..|actions| - 1];
    forall i | 0 <= i < |a| ensures Step(s[i], a[i], s[i + 1]) {
      assert Step(states[i], actions[i], states[i + 1]);
    }
  }

  lemma {:induction false} ExtendsTransitive(a: seq<Row>, b: seq<Row>, c: seq<Row>)
    requires Extends(a, b) && Extends(b, c)
    ensures Extends(a, c)
  {
    assert c[..|a|] == c[..|b|][..|a|];
  }

  // ---------- What is committed ----------

  /** The row holds the entry. */
  predicate Holds(row: Row, entry: Entry) {
    && row.component == entry.component && row.eventType == entry.eventType && row.timestamp == entry.timestamp
    && Payload(row) == Some(entry.payload)
  }

  /** The entry that a writer began last. */
  function Begun(actions: seq<Action>, w: nat): Option<Entry> {
    if actions == [] then None
    else if actions[|actions| - 1].Begin? && actions[|actions| - 1].w == w then Some(actions[|actions| - 1].entry)
    else Begun(actions[..|actions| - 1], w)
  }

  /** The entries of the writers that commit, in the order of their commits. */
  function Committed(actions: seq<Action>): seq<Option<Entry>> {
    if actions == [] then []
    else
      var front, a := actions[..|actions| - 1], actions[|actions| - 1];
      if a.Commit? then Committed(front) + [Begun(front, a.w)] else Committed(front)
  }

  /** A writer past Idle is at work on the entry it began last. */
  predicate WorksOn(s: State, w: nat, entry: Option<Entry>)
    requires w < |s.writers|
  {
    match s.writers[w]
    case Idle => true
    case Locked(e) => entry == Some(e) && WellFormed(e.payload)
    case HasTail(e, _) => entry == Some(e) && WellFormed(e.payload)
    case Inserted(row) => entry.Some? && Holds(row, entry.value)
  }

  predicate AllWork(s: State, actions: seq<Action>) {
    forall w | 0 <= w < |s.writers| :: WorksOn(s, w, Begun(actions, w))
  }

  lemma {:induction false} RowHolds(entry: Entry, prevHash: string, seqNo: int)
    requires WellFormed(entry.payload)
    ensures Holds(RowOf(entry, prevHash, seqNo), entry)
  {
    JsonProofs.LoadsPrint(SPACED, entry.payload, false);
  }

  lemma {:induction false} StepKeepsWork(s: State, a: Action, t: State, actions: seq<Action>)
    requires Step(s, a, t) && AllWork(s, actions)
    ensures AllWork(t, actions + [a])
  {
    var all := actions + [a];
    assert all[..|all| - 1] == actions;
    forall w | 0 <= w < |t.writers| ensures WorksOn(t, w, Begun(all, w)) {
      assert WorksOn(s, w, Begun(actions, w));
      if w == a.w && a.Insert? {
        RowHolds(s.writers[w].entry, s.writers[w].prevHash, NextSeq(s.rows, s.counter));
      }
    }
  }

  predicate AllHold(rows: seq<Row>, entries: seq<Option<Entry>>) {
    |rows| == |entries| && forall i | 0 <= i < |rows| :: entries[i].Some? && Holds(rows[i], entries[i].value)
  }

  /** From idle writers, the rows added are the entries of the committing writers, in the order of their commits. */
  lemma {:induction false} CommittedRows(states: seq<State>, actions: seq<Action>)
    requires Run(states, actions) && forall w | 0 <= w < |states[0].writers| :: states[0].writers[w].Idle?
    ensures var added := states[|actions|].rows;
      && |states[0].rows| <= |added| && added[..|states[0].rows|] == states[0].rows
      && AllHold(added[|states[0].rows|..], Committed(actions))
    ensures AllWork(states[|actions|], actions)
  {
    var n := |actions|;
    if n > 0 {
      var front, a := actions[..n - 1], actions[n - 1];
      RunPrefix(states, actions);
      CommittedRows(states[..n], front);
      assert Step(states[n - 1], a, states[n - 1 + 1]);
      assert front + [a] == actions;
      StepKeepsWork(states[n - 1], a, states[n], front);
      if a.Commit? {
        var k, before, after := |states[0].rows|, states[n - 1].rows, states[n].rows;
        assert WorksOn(states[n - 1], a.w, Begun(front, a.w));
        assert after[k..] == before[k..] + [after[|after| - 1]];
        assert after[..k] == before[..k];
      }
    }
  }
}
