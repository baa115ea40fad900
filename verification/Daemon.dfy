/** The daily check over whole runs: what it re-signs always extends what it signed before. */
module Daemon {
  import opened Text
  import opened Sha
  import opened Chain
  import opened Registry
  import opened Signatures
  import opened Anchor
  import opened AnchorProofs
  import opened Anchored

  datatype Event =
    | Grow(more: seq<Row>)
    | Swap(table: seq<Row>)
    | Check(auto: bool, reg: Registry, now: string)

  /** The database, the anchor file, and every history signed so far with the time of its signature. */
  datatype World = World(rows: seq<Row>, stored: AnchorRecord, signed: seq<(seq<Row>, string)>)

  function Next(backend: Backend, dbPath: string, w: World, e: Event): World {
    match e
    case Grow(more) => w.(rows := w.rows + more)
    case Swap(table) => w.(rows := table)
    case Check(auto, reg, now) =>
      var who := Keyholder(backend.key, backend.algorithm, true);
      var after := w.(stored := AfterCheck(backend, reg, dbPath, Some(w.stored), w.rows, auto, now).value);
      if ReAnchors(who, reg, Some(w.stored), w.rows, auto) then after.(signed := w.signed + [(w.rows, now)]) else after
  }

  function After(backend: Backend, dbPath: string, w: World, run: seq<Event>): World {
    if run == [] then w else Next(backend, dbPath, After(backend, dbPath, w, run[..|run| - 1]), run[|run| - 1])
  }

  ghost predicate EventKnown(known: iset<Bytes>, e: Event) {
    match e
    case Grow(more) => RowsKnown(known, more)
    case Swap(table) => RowsKnown(known, table)
    case Check(_, _, _) => true
  }

  /** Every signed history is a valid chain, each extends the one before it, and the file holds the anchor of the
      last one. */
  ghost predicate Honest(known: iset<Bytes>, backend: Backend, dbPath: string, w: World) {
    && RowsKnown(known, w.rows) && w.signed != []
    && w.stored == HonestRecord(backend, dbPath, w.signed[|w.signed| - 1].0, w.signed[|w.signed| - 1].1)
    && (forall i | 0 <= i < |w.signed| :: SignedOk(known, w, i))
    && (forall i, j | 0 <= i <= j < |w.signed| :: Grew(w, i, j))
  }

  ghost predicate SignedOk(known: iset<Bytes>, w: World, i: nat)
    requires i < |w.signed|
  {
    RowsKnown(known, w.signed[i].0) && ChainOk(w.signed[i].0)
  }

  predicate Grew(w: World, i: nat, j: nat)
    requires i <= j < |w.signed|
  {
    PrefixHistory(w.signed[i].0, w.signed[j].0)
  }

  lemma {:induction false} PrefixReflexive(known: iset<Bytes>, a: seq<Row>)
    requires Ideal(known) && RowsKnown(known, a) && ChainOk(a)
    ensures PrefixHistory(a, a)
  {
    assert a[..|a|] == a;
    TipDeterminesChain(known, a, a);
  }

  lemma {:induction false} PrefixTip(a: seq<Row>, b: seq<Row>, i: nat)
    requires PrefixHistory(a, b) && i < |a|
    ensures a[i].recordHash == b[i].recordHash
  {
    assert SameRecord(a[i], b[..|a|][i]);
  }

  lemma {:induction false} PrefixTransitive(known: iset<Bytes>, a: seq<Row>, b: seq<Row>, c: seq<Row>)
    requires Ideal(known) && RowsKnown(known, a) && RowsKnown(known, c) && ChainOk(a) && ChainOk(c)
    requires PrefixHistory(a, b) && PrefixHistory(b, c)
    ensures PrefixHistory(a, c)
  {
    if a != [] {
      PrefixTip(a, b, |a| - 1);
      PrefixTip(b, c, |a| - 1);
    }
    SameTipIsPrefix(known, a, c);
  }

  lemma {:induction false} SameTipIsPrefix(known: iset<Bytes>, a: seq<Row>, c: seq<Row>)
    requires Ideal(known) && RowsKnown(known, a) && RowsKnown(known, c) && ChainOk(a) && ChainOk(c)
    requires |a| <= |c| && LastHash(a) == PrevOf(c, |a|)
    ensures PrefixHistory(a, c)
  {
    PrefixRows(c, |a|);
    PrefixOk(c, |a|);
    KnownPrefix(known, c, |a|);
    TipDeterminesChain(known, a, c[..|a|]);
  }

  /** A stale verdict on a valid live chain means that the live chain extends the signed one, whatever its seqs. */
  lemma {:induction false} StaleMeansExtended(known: iset<Bytes>, who: Keyholder, reg: Registry, backend: Backend,
                                              dbPath: string, signed: seq<Row>, now: string, live: seq<Row>)
    requires Ideal(known) && RowsKnown(known, signed) && RowsKnown(known, live) && ChainOk(signed) && ChainOk(live)
    requires VerifyAnchor(who, reg, Some(HonestRecord(backend, dbPath, signed, now)), live).Stale?
    ensures PrefixHistory(signed, live)
  {
    ValidRowsParse(live);
    HonestVerdict(who, reg, backend, dbPath, signed, now, live);
    TipInside(known, signed, live);
  }

  lemma {:induction false} SignAgain(known: iset<Bytes>, backend: Backend, dbPath: string, w: World, now: string)
    requires Ideal(known) && Honest(known, backend, dbPath, w) && ChainOk(w.rows)
    requires PrefixHistory(w.signed[|w.signed| - 1].0, w.rows)
    ensures Honest(known, backend, dbPath,
                   w.(stored := HonestRecord(backend, dbPath, w.rows, now), signed := w.signed + [(w.rows, now)]))
  {
    var n := |w.signed|;
    var t := w.(stored := HonestRecord(backend, dbPath, w.rows, now), signed := w.signed + [(w.rows, now)]);
    forall i | 0 <= i < |t.signed| ensures SignedOk(known, t, i) {
      assert i < n ==> SignedOk(known, w, i);
    }
    forall i, j | 0 <= i <= j < |t.signed| ensures Grew(t, i, j) {
      if j < n {
        assert Grew(w, i, j);
      } else if i < n {
        assert Grew(w, i, n - 1) && SignedOk(known, w, i);
        PrefixTransitive(known, w.signed[i].0, w.signed[n - 1].0, w.rows);
      } else {
        PrefixReflexive(known, w.rows);
      }
    }
  }

  /** The check re-signs only a valid chain that extends the one signed last. */
  lemma {:induction false} ReAnchorExtends(known: iset<Bytes>, backend: Backend, dbPath: string, w: World, auto: bool,
                                           reg: Registry)
    requires Ideal(known) && Honest(known, backend, dbPath, w)
    ensures ReAnchors(Keyholder(backend.key, backend.algorithm, true), reg, Some(w.stored), w.rows, auto) ==>
      ChainOk(w.rows) && PrefixHistory(w.signed[|w.signed| - 1].0, w.rows)
  {
    var who := Keyholder(backend.key, backend.algorithm, true);
    if ReAnchors(who, reg, Some(w.stored), w.rows, auto) {
      var last := |w.signed| - 1;
      assert SignedOk(known, w, last);
      VerdictExact(w.rows);
      StaleMeansExtended(known, who, reg, backend, dbPath, w.signed[last].0, w.signed[last].1, w.rows);
    }
  }

  lemma {:induction false} CheckStaysHonest(known: iset<Bytes>, backend: Backend, dbPath: string, w: World,
                                            auto: bool, reg: Registry, now: string)
    requires Ideal(known) && Honest(known, backend, dbPath, w)
    ensures Honest(known, backend, dbPath, Next(backend, dbPath, w, Check(auto, reg, now)))
  {
    if ReAnchors(Keyholder(backend.key, backend.algorithm, true), reg, Some(w.stored), w.rows, auto) {
      ReAnchorExtends(known, backend, dbPath, w, auto, reg);
      SignAgain(known, backend, dbPath, w, now);
    }
  }

  lemma {:induction false} OtherRowsStayHonest(known: iset<Bytes>, backend: Backend, dbPath: string, w: World, rows: seq<Row>)
    requires Honest(known, backend, dbPath, w) && RowsKnown(known, rows)
    ensures Honest(known, backend, dbPath, w.(rows := rows))
  {
    var t := w.(rows := rows);
    forall i | 0 <= i < |t.signed| ensures SignedOk(known, t, i) {
      assert SignedOk(known, w, i);
    }
    forall i, j | 0 <= i <= j < |t.signed| ensures Grew(t, i, j) {
      assert Grew(w, i, j);
    }
  }

  lemma {:induction false} StepStaysHonest(known: iset<Bytes>, backend: Backend, dbPath: string, w: World, e: Event)
    requires Ideal(known) && Honest(known, backend, dbPath, w) && EventKnown(known, e)
    ensures Honest(known, backend, dbPath, Next(backend, dbPath, w, e))
  {
    match e
    case Check(auto, reg, now) => CheckStaysHonest(known, backend, dbPath, w, auto, reg, now);
    case Grow(more) => OtherRowsStayHonest(known, backend, dbPath, w, w.rows + more);
    case Swap(table) => OtherRowsStayHonest(known, backend, dbPath, w, table);
  }

  /** Over any run of checks, appends and arbitrary replacements of the database: every history the check signs
      begins with every history signed before it. */
  lemma {:induction false} NeverLaunders(known: iset<Bytes>, backend: Backend, dbPath: string, w: World, run: seq<Event>)
    requires Ideal(known) && Honest(known, backend, dbPath, w)
    requires forall i | 0 <= i < |run| :: EventKnown(known, run[i])
    ensures Honest(known, backend, dbPath, After(backend, dbPath, w, run))
  {
    if run != [] {
      NeverLaunders(known, backend, dbPath, w, run[..|run| - 1]);
      StepStaysHonest(known, backend, dbPath, After(backend, dbPath, w, run[..|run| - 1]), run[|run| - 1]);
    }
  }

  // ---------- When the check re-signs ----------

  /** With an honest anchor over a valid non-empty chain, both chains numbered from one, and the key checks passing: the
      file holds the honest record over the live chain afterwards exactly when that is valid and a proper extension of
      the signed one, by however many records, and the check was asked to; otherwise it holds the old record. */
  lemma {:induction false} ReAnchorsExactly(known: iset<Bytes>, backend: Backend, reg: Registry, dbPath: string,
                                            signed: seq<Row>, at: string, live: seq<Row>, auto: bool, now: string)
    requires Ideal(known) && RowsKnown(known, signed) && RowsKnown(known, live) && ChainOk(signed) && signed != []
    requires SeqsFromOne(signed) && SeqsFromOne(live)
    requires KeyVerdict(Keyholder(backend.key, backend.algorithm, true), reg, HonestRecord(backend, dbPath, signed, at)) == None
    ensures
      var extended := ChainOk(live) && |signed| < |live| && PrefixHistory(signed, live);
      AfterCheck(backend, reg, dbPath, Some(HonestRecord(backend, dbPath, signed, at)), live, auto, now)
      == Some(if auto && extended then HonestRecord(backend, dbPath, live, now) else HonestRecord(backend, dbPath, signed, at))
  {
    VerdictExact(live);
    if ChainOk(live) {
      ValidRowsParse(live);
      HonestVerdict(Keyholder(backend.key, backend.algorithm, true), reg, backend, dbPath, signed, at, live);
      CompareExact(known, signed, live);
    }
  }

  /** A record that fails the key checks is never replaced. */
  lemma {:induction false} RefusedStays(backend: Backend, reg: Registry, dbPath: string, record: AnchorRecord, live: seq<Row>,
                                        auto: bool, now: string)
    requires KeyVerdict(Keyholder(backend.key, backend.algorithm, true), reg, record).Some?
    ensures AfterCheck(backend, reg, dbPath, Some(record), live, auto, now) == Some(record)
  {
    assert KeyVerdict(Keyholder(backend.key, backend.algorithm, true), reg, record) != Some(Stale(1));
  }

  /** Over runs: a check signs a further history exactly then. */
  lemma {:induction false} SignsExactly(known: iset<Bytes>, backend: Backend, dbPath: string, w: World, auto: bool, reg: Registry,
                                        now: string)
    requires Ideal(known) && Honest(known, backend, dbPath, w)
    requires SeqsFromOne(w.rows) && SeqsFromOne(w.signed[|w.signed| - 1].0) && w.signed[|w.signed| - 1].0 != []
    requires KeyVerdict(Keyholder(backend.key, backend.algorithm, true), reg, w.stored) == None
    ensures
      var last, after := w.signed[|w.signed| - 1].0, Next(backend, dbPath, w, Check(auto, reg, now));
      after.signed == w.signed + if auto && ChainOk(w.rows) && |last| < |w.rows| && PrefixHistory(last, w.rows)
                                 then [(w.rows, now)] else []
  {
    var (last, at) := w.signed[|w.signed| - 1];
    assert SignedOk(known, w, |w.signed| - 1);
    VerdictExact(w.rows);
    if ChainOk(w.rows) {
      ValidRowsParse(w.rows);
      HonestVerdict(Keyholder(backend.key, backend.algorithm, true), reg, backend, dbPath, last, at, w.rows);
      CompareExact(known, last, w.rows);
    }
  }
}
