/** pkg/migrate/migrate.go: what changed SQL can get past when no lock is held. */
module MigrateDrift {
  import opened Sequences
  import opened Migrate
  import opened MigrateRuns
  import opened MigrateConcurrent
  import Text

  ghost predicate Calm(a: Attempt) {
    FaultFree(a.faults) && forall j :: a.faults.at(j) == NoFault
  }

  // A run of the build on this database would be admitted past reconcile.
  ghost predicate Fit(hash: Hash, db: Db, b: Build) {
    && !Text.Blank(b.owner) && WellFormed(b.ships)
    && forall n | Key(b.owner, n) in db.ledger :: ShippedAs(hash, b.ships, n, db.ledger[Key(b.owner, n)].checksum)
  }

  ghost predicate AtStart(m: Machine) {
    forall r | r in m.runners :: r.phase.Ready?
  }

  // Every runner that returned nil finds each shipped name recorded with its own checksum.
  ghost predicate NilFindsOwn(hash: Hash, m: Machine) {
    forall r, s | r in m.runners && r.phase == Finished(None) && s in r.a.build.ships ::
      RecordedAs(hash, m.db, r.a.build.owner, s)
  }

  ghost predicate RecordedAs(hash: Hash, db: Db, owner: string, s: Migration) {
    Key(owner, s.name) in db.ledger && db.ledger[Key(owner, s.name)].checksum == hash(s.sql)
  }

  // Two builds that would both be admitted ship different SQL under one missing name.
  ghost predicate Rivals(hash: Hash, db: Db, b: Build, c: Build, s: Migration, t: Migration) {
    && b.owner == c.owner && Fit(hash, db, b) && Fit(hash, db, c) && s in b.ships && t in c.ships
    && s.name == t.name && Key(b.owner, s.name) !in db.ledger && hash(s.sql) != hash(t.sql)
  }

  ghost predicate Compatible(hash: Hash, m: Machine) {
    forall q, r, s, t | q in m.runners && r in m.runners :: !Rivals(hash, m.db, q.a.build, r.a.build, s, t)
  }

  // ----- compatible builds: drift is always caught -----

  // The row is what some admissible build ships.
  ghost predicate Sourced(hash: Hash, start: Machine, k: Key, sum: string) {
    exists r :: r in start.runners && r.a.build.owner == k.owner && Fit(hash, start.db, r.a.build) &&
                ShippedAs(hash, r.a.build.ships, k.name, sum)
  }

  ghost predicate RowsStay(db: Db, db': Db) {
    forall k | k in db.ledger :: k in db'.ledger && db'.ledger[k] == db.ledger[k]
  }

  ghost predicate AllSourced(hash: Hash, start: Machine, db: Db) {
    RowsStay(start.db, db) && forall k | k in db.ledger && k !in start.db.ledger ::
      Sourced(hash, start, k, db.ledger[k].checksum)
  }

  // A runner under way passed reconcile, and so fits the first database too.
  ghost predicate Admitted(hash: Hash, start: Machine, r: Runner) {
    && Buffered(hash, r)
    && (exists r0 :: r0 in start.runners && r0.a == r.a)
    && (r.phase.Ready? || (r.phase.Finished? && r.phase.err.Some?) || Fit(hash, start.db, r.a.build))
  }

  ghost predicate Traced(hash: Hash, start: Machine, m: Machine) {
    && AllSourced(hash, start, m.db) && AllCover(m)
    && forall r | r in m.runners :: Admitted(hash, start, r)
  }

  lemma AdvanceKeepsRows(hash: Hash, db: Db, r: Runner)
    ensures RowsStay(db, Advance(hash, db, r).0)
  {
  }

  lemma StartFits(hash: Hash, db0: Db, db: Db, a: Attempt)
    requires RowsStay(db0, db)
    ensures var p := Start(hash, db, a); (p.Finished? && p.err.Some?) || (p.Scanning? && Fit(hash, db0, a.build))
  {
    var p, owner, ms := Start(hash, db, a), a.build.owner, a.build.ships;
    if !p.Finished? {
      ValidateAcceptsExactlyWellFormed(ms);
      ReconciledMeans(hash, ms, Namespace(db, owner));
      NamespaceLookup(db, owner);
    }
  }

  lemma CommitIsSourced(hash: Hash, start: Machine, db: Db, r: Runner)
    requires AllSourced(hash, start, db) && Admitted(hash, start, r) && Covers(r, db) && r.phase.Recorded?
    ensures AllSourced(hash, start, Advance(hash, db, r).0)
  {
    var e, row, s := r.phase.e, r.phase.row, r.a.build.ships[r.phase.next];
    assert s in r.a.build.ships && ShippedAs(hash, r.a.build.ships, s.name, row.checksum);
    assert Sourced(hash, start, KeyOf(e), row.checksum);
  }

  lemma AdvanceTraced(hash: Hash, start: Machine, db: Db, r: Runner)
    requires AllSourced(hash, start, db) && Admitted(hash, start, r) && Covers(r, db)
    ensures var next := Advance(hash, db, r);
            AllSourced(hash, start, next.0) && Admitted(hash, start, Runner(r.a, next.1))
  {
    AdvanceAdmitted(hash, start, db, r);
    if r.phase.Recorded? {
      CommitIsSourced(hash, start, db, r);
    }
  }

  lemma AdvanceAdmitted(hash: Hash, start: Machine, db: Db, r: Runner)
    requires RowsStay(start.db, db) && Admitted(hash, start, r)
    ensures Admitted(hash, start, Runner(r.a, Advance(hash, db, r).1))
  {
    if r.phase.Ready? {
      StartFits(hash, start.db, db, r.a);
    }
  }

  lemma StepTraced(hash: Hash, start: Machine, m: Machine, i: nat)
    requires Traced(hash, start, m)
    ensures Traced(hash, start, Step(hash, m, i))
  {
    if i < |m.runners| {
      var r := m.runners[i];
      assert r in m.runners;
      StepCovers(hash, m, i);
      AdvanceTraced(hash, start, m.db, r);
      forall q | q in Step(hash, m, i).runners ensures Admitted(hash, start, q) {
        assert q in m.runners || q == Runner(r.a, Advance(hash, m.db, r).1);
      }
    }
  }

  lemma {:induction false} PlayTraced(hash: Hash, m: Machine, schedule: seq<nat>)
    requires AtStart(m)
    ensures Traced(hash, m, Play(hash, m, schedule))
  {
    if schedule != [] {
      PlayTraced(hash, m, schedule[..|schedule| - 1]);
      StepTraced(hash, m, Play(hash, m, schedule[..|schedule| - 1]), schedule[|schedule| - 1]);
    }
  }

  // What a nil runner finds under a shipped name is its own.
  lemma TracedFindsOwn(hash: Hash, start: Machine, m: Machine, r: Runner, s: Migration)
    requires Compatible(hash, start) && Traced(hash, start, m)
    requires r in m.runners && r.phase == Finished(None) && s in r.a.build.ships
    ensures RecordedAs(hash, m.db, r.a.build.owner, s)
  {
    var b, k := r.a.build, Key(r.a.build.owner, s.name);
    assert Fit(hash, start.db, b) && k in m.db.ledger by {
      var i :| 0 <= i < |m.runners| && m.runners[i] == r;
      assert Covers(m.runners[i], m.db);
      var j :| 0 <= j < |b.ships| && b.ships[j] == s;
    }
    if k in start.db.ledger {
      AscendingShipsOnce(hash, b.ships, s, start.db.ledger[k].checksum);
    } else {
      var r0 :| r0 in start.runners && r0.a == r.a;
      var q :| q in start.runners && q.a.build.owner == k.owner && Fit(hash, start.db, q.a.build) &&
               ShippedAs(hash, q.a.build.ships, k.name, m.db.ledger[k].checksum);
      var t :| t in q.a.build.ships && t.name == k.name && hash(t.sql) == m.db.ledger[k].checksum;
      assert !Rivals(hash, start.db, r0.a.build, q.a.build, s, t);
    }
  }

  // If no two admissible builds of a module disagree on a missing migration,
  // then in every schedule, whatever fails, nil means the build's own SQL is recorded.
  lemma CompatibleBuildsFindOwn(hash: Hash, m: Machine, schedule: seq<nat>)
    requires AtStart(m) && Compatible(hash, m)
    ensures NilFindsOwn(hash, Play(hash, m, schedule))
  {
    PlayTraced(hash, m, schedule);
    var end := Play(hash, m, schedule);
    forall r, s | r in end.runners && r.phase == Finished(None) && s in r.a.build.ships
      ensures RecordedAs(hash, end.db, r.a.build.owner, s)
    {
      TracedFindsOwn(hash, m, end, r, s);
    }
  }

  // ----- rivals: a schedule that misses it -----

  lemma {:induction false} PlayAppend(hash: Hash, m: Machine, a: seq<nat>, b: seq<nat>)
    ensures Play(hash, m, a + b) == Play(hash, Play(hash, m, a), b)
  {
    if b == [] {
      assert a + b == a;
    } else {
      assert (a + b)[..|a + b| - 1] == a + b[..|b| - 1];
      PlayAppend(hash, m, a, b[..|b| - 1]);
    }
  }

  function Repeat(i: nat, n: nat): seq<nat> {
    if n == 0 then [] else Repeat(i, n - 1) + [i]
  }

  lemma SoloStep(hash: Hash, m: Machine, i: nat)
    requires i < |m.runners|
    ensures var next := Step(hash, m, i);
            && |next.runners| == |m.runners| && next.runners[i].a == m.runners[i].a
            && (forall k | 0 <= k < |m.runners| && k != i :: next.runners[k] == m.runners[k])
            && Outlook(hash, next.db, next.runners[i]) == Outlook(hash, m.db, m.runners[i])
            && RowsStay(m.db, next.db)
  {
    AdvanceKeepsOutlook(hash, m.db, m.runners[i]);
    AdvanceKeepsRows(hash, m.db, m.runners[i]);
  }

  // One runner moving alone keeps its outlook and the others as they are.
  lemma {:induction false} SoloRun(hash: Hash, m: Machine, i: nat, n: nat)
    requires i < |m.runners|
    ensures var end := Play(hash, m, Repeat(i, n));
            && |end.runners| == |m.runners| && end.runners[i].a == m.runners[i].a
            && (forall k | 0 <= k < |m.runners| && k != i :: end.runners[k] == m.runners[k])
            && Outlook(hash, end.db, end.runners[i]) == Outlook(hash, m.db, m.runners[i])
            && RowsStay(m.db, end.db)
    ensures Turns(Repeat(i, n), i) == n
  {
    if n > 0 {
      SoloRun(hash, m, i, n - 1);
      var front := Repeat(i, n - 1);
      PlayOneMore(hash, m, front, i);
      assert (front + [i])[..|front|] == front;
      SoloStep(hash, Play(hash, m, front), i);
    }
  }

  // Given turns enough, it ends as its outlook said.
  lemma SoloEnds(hash: Hash, m: Machine, i: nat) returns (turns: seq<nat>)
    requires i < |m.runners|
    ensures var end := Play(hash, m, turns);
            && |end.runners| == |m.runners|
            && (forall k | 0 <= k < |m.runners| && k != i :: end.runners[k] == m.runners[k])
            && end.runners[i] == Runner(m.runners[i].a, Finished(Outlook(hash, m.db, m.runners[i]).1))
            && end.db == Outlook(hash, m.db, m.runners[i]).0
            && RowsStay(m.db, end.db)
  {
    turns := Repeat(i, Rank(m.runners[i]));
    SoloRun(hash, m, i, Rank(m.runners[i]));
    EveryRunnerFinishes(hash, m, turns, i);
  }

  lemma FitStarts(hash: Hash, db: Db, a: Attempt)
    requires Fit(hash, db, a.build) && Calm(a)
    ensures Start(hash, db, a) == Scanning(0, Namespace(db, a.build.owner))
  {
    ValidateAcceptsExactlyWellFormed(a.build.ships);
    ReconciledMeans(hash, a.build.ships, Namespace(db, a.build.owner));
    NamespaceLookup(db, a.build.owner);
  }

  lemma CalmScanEndsNil(hash: Hash, db: Db, r: Runner)
    requires Calm(r.a) && r.phase.Scanning?
    ensures Outlook(hash, db, r).1.None?
  {
    ApplyFromFailures(hash, db, r.a, r.phase.snapshot, r.phase.next);
  }

  lemma StartStep(hash: Hash, m: Machine, i: nat)
    requires i < |m.runners| && m.runners[i].phase.Ready?
    ensures Step(hash, m, i) == Machine(m.db, m.runners[i := Runner(m.runners[i].a, Start(hash, m.db, m.runners[i].a))])
  {
  }

  lemma TwoSteps(hash: Hash, m: Machine, i: nat, j: nat)
    ensures Play(hash, m, [i, j]) == Step(hash, Step(hash, m, i), j)
  {
    assert Play(hash, m, []) == m;
    PlayOneMore(hash, m, [], i);
    PlayOneMore(hash, m, [i], j);
    assert [] + [i] == [i] && [i] + [j] == [i, j];
  }

  // Both take their snapshots before either commits.
  lemma BothStart(hash: Hash, m: Machine, i: nat, j: nat)
    requires i < |m.runners| && j < |m.runners| && i != j && m.runners[i].phase.Ready? && m.runners[j].phase.Ready?
    ensures var ai, aj := m.runners[i].a, m.runners[j].a;
            Play(hash, m, [i, j]) ==
            Machine(m.db, m.runners[i := Runner(ai, Start(hash, m.db, ai))][j := Runner(aj, Start(hash, m.db, aj))])
  {
    TwoSteps(hash, m, i, j);
    StartStep(hash, m, i);
    var ai := m.runners[i].a;
    StartStep(hash, Machine(m.db, m.runners[i := Runner(ai, Start(hash, m.db, ai))]), j);
  }

  lemma RivalsDiffer(hash: Hash, db: Db, b: Build, s: Migration, t: Migration)
    ensures !Rivals(hash, db, b, b, s, t)
  {
    if Fit(hash, db, b) && s in b.ships && t in b.ships && s.name == t.name {
      AscendingShipsOnce(hash, b.ships, s, hash(t.sql));
    }
  }

  // Of two undisturbed rivals the second can return nil over the SQL of the
  // first: its snapshot is stale, and the re-check looks for the name, not the checksum.
  lemma StaleSnapshotMissesDrift(hash: Hash, m: Machine, i: nat, j: nat, s: Migration, t: Migration)
      returns (schedule: seq<nat>)
    requires i < |m.runners| && j < |m.runners| && m.runners[i].phase.Ready? && m.runners[j].phase.Ready?
    requires Calm(m.runners[i].a) && Calm(m.runners[j].a)
    requires Rivals(hash, m.db, m.runners[i].a.build, m.runners[j].a.build, s, t)
    ensures var end := Play(hash, m, schedule);
            && |end.runners| == |m.runners|
            && end.runners[i] == Runner(m.runners[i].a, Finished(None))
            && end.runners[j] == Runner(m.runners[j].a, Finished(None))
            && RecordedAs(hash, end.db, m.runners[i].a.build.owner, s)
  {
    RivalsDiffer(hash, m.db, m.runners[i].a.build, s, t);
    BothStart(hash, m, i, j);
    FitStarts(hash, m.db, m.runners[j].a);
    var stale := Play(hash, m, [i, j]);
    StartKeepsOutlook(hash, m.db, m.runners[i].a);
    SucceedsExactlyWhenReconciled(hash, m.db, m.runners[i].a);
    NilMeansShipped(hash, m.db, m.runners[i].a);
    var first := SoloEnds(hash, stale, i);
    var mid := Play(hash, stale, first);
    CalmScanEndsNil(hash, mid.db, mid.runners[j]);
    var second := SoloEnds(hash, mid, j);
    schedule := [i, j] + first + second;
    PlayAppend(hash, m, [i, j], first);
    PlayAppend(hash, m, [i, j] + first, second);
  }

  // ----- exactly when the lock is needed -----

  // Undisturbed runners find their own SQL recorded in every schedule exactly
  // when no two admissible builds of a module disagree on a missing migration.
  lemma DriftIsCaughtExactly(hash: Hash, m: Machine)
    requires AtStart(m) && forall r | r in m.runners :: Calm(r.a)
    ensures (forall schedule: seq<nat> :: NilFindsOwn(hash, Play(hash, m, schedule))) <==> Compatible(hash, m)
  {
    if Compatible(hash, m) {
      forall schedule: seq<nat> ensures NilFindsOwn(hash, Play(hash, m, schedule)) {
        CompatibleBuildsFindOwn(hash, m, schedule);
      }
    } else {
      var q, r, s, t :| q in m.runners && r in m.runners && Rivals(hash, m.db, q.a.build, r.a.build, s, t);
      var i, j :| 0 <= i < |m.runners| && 0 <= j < |m.runners| && m.runners[i] == q && m.runners[j] == r;
      var schedule := StaleSnapshotMissesDrift(hash, m, i, j, s, t);
      var end := Play(hash, m, schedule);
      assert end.runners[j] in end.runners && !RecordedAs(hash, end.db, r.a.build.owner, t);
      assert !NilFindsOwn(hash, end);
    }
  }
}
