/** pkg/migrate/migrate.go: any number of runners, interleaved statement by statement. */
module MigrateConcurrent {
  import opened Sequences
  import opened Migrate
  import opened MigrateRuns
  import Text

  // Where a runner stands. An open transaction carries what it has buffered:
  // the effect from Executed on, the ledger row from Recorded on.
  datatype Phase =
    | Ready
    | Scanning(next: nat, snapshot: map<string, Row>)
    | Begun(next: nat, snapshot: map<string, Row>, e: Effect)
    | Rechecked(next: nat, snapshot: map<string, Row>, e: Effect)
    | Executed(next: nat, snapshot: map<string, Row>, e: Effect)
    | Recorded(next: nat, snapshot: map<string, Row>, e: Effect, row: Row)
    | Finished(err: Option<Error>)

  datatype Runner = Runner(a: Attempt, phase: Phase)
  datatype Machine = Machine(db: Db, runners: seq<Runner>)

  ghost function Start(hash: Hash, db: Db, a: Attempt): Phase {
    if Refused(a.build).Some? then Finished(Refused(a.build))
    else if a.build.postgres && a.faults.lock then Finished(Some(LockFailed))
    else if a.faults.ensure then Finished(Unlocked(a, (db, Some(EnsureFailed))).1)
    else if a.faults.read then Finished(Unlocked(a, (db, Some(ReadFailed))).1)
    else
      var snapshot := Namespace(db, a.build.owner);
      var complaint := Reconciled(hash, a.build.ships, snapshot);
      if complaint.Some? then Finished(complaint) else Scanning(0, snapshot)
  }

  function Scan(db: Db, a: Attempt, i: nat, snapshot: map<string, Row>): Phase {
    if i >= |a.build.ships| then Finished(Unlocked(a, (db, None)).1)
    else if a.build.ships[i].name in snapshot then Scanning(i + 1, snapshot)
    else if a.faults.at(i) == Fails(Begin) then Finished(Some(StageFailed(a.build.ships[i].name, Begin)))
    else Begun(i, snapshot, EffectOf(a.build.owner, a.build.ships[i]))
  }

  // One statement of one runner.
  ghost function Advance(hash: Hash, db: Db, r: Runner): (Db, Phase) {
    match r.phase
    case Ready => (db, Start(hash, db, r.a))
    case Scanning(i, s) => (db, Scan(db, r.a, i, s))
    case Begun(i, s, e) => (db,
        if r.a.faults.at(i) == Fails(Recheck) then Finished(Some(StageFailed(e.name, Recheck)))
        else if KeyOf(e) in db.ledger then Scanning(i + 1, s)
        else Rechecked(i, s, e))
    case Rechecked(i, s, e) => (db,
        if r.a.faults.at(i) == Fails(Exec) then Finished(Some(StageFailed(e.name, Exec)))
        else Executed(i, s, e))
    case Executed(i, s, e) => (db,
        if r.a.faults.at(i) == Fails(Record) then Finished(Some(StageFailed(e.name, Record)))
        else if KeyOf(e) in db.ledger then Finished(Some(Clash(e.name)))
        else Recorded(i, s, e, Row(hash(e.sql), r.a.faults.clock(i))))
    case Recorded(i, s, e, row) =>
      var o := CommitStage(db, e, row, r.a.faults.at(i));
      (o.0, if o.1.Some? then Finished(o.1) else Scanning(i + 1, s))
    case Finished(_) => (db, r.phase)
  }

  ghost function Step(hash: Hash, m: Machine, i: nat): Machine {
    if i >= |m.runners| then m
    else
      var next := Advance(hash, m.db, m.runners[i]);
      Machine(next.0, m.runners[i := Runner(m.runners[i].a, next.1)])
  }

  // No lock at all: the schedule says whose statement comes next.
  ghost function Play(hash: Hash, m: Machine, schedule: seq<nat>): Machine {
    if schedule == [] then m
    else Step(hash, Play(hash, m, schedule[..|schedule| - 1]), schedule[|schedule| - 1])
  }

  // ----- at most once, in every interleaving -----

  ghost predicate Buffered(hash: Hash, r: Runner) {
    r.phase.Recorded? ==> r.phase.row.checksum == hash(r.phase.e.sql)
  }

  lemma StepAgrees(hash: Hash, m: Machine, i: nat)
    requires Agrees(hash, m.db) && forall r | r in m.runners :: Buffered(hash, r)
    ensures Agrees(hash, Step(hash, m, i).db) && forall r | r in Step(hash, m, i).runners :: Buffered(hash, r)
  {
    if i < |m.runners| {
      var r := m.runners[i];
      assert r in m.runners;
      if r.phase.Recorded? && KeyOf(r.phase.e) !in m.db.ledger {
        CommittedAgrees(hash, m.db, r.phase.e, r.phase.row);
      }
      forall q | q in Step(hash, m, i).runners ensures Buffered(hash, q) {
        assert q in m.runners || q == Runner(r.a, Advance(hash, m.db, r).1);
      }
    }
  }

  // Whatever each runner's snapshot says and however statements interleave, no
  // migration's SQL is committed twice and the ledger never parts from the history.
  lemma {:induction false} AtMostOnceInEveryInterleaving(hash: Hash, m: Machine, schedule: seq<nat>)
    requires Agrees(hash, m.db) && forall r | r in m.runners :: Buffered(hash, r)
    ensures Agrees(hash, Play(hash, m, schedule).db)
    ensures forall r | r in Play(hash, m, schedule).runners :: Buffered(hash, r)
  {
    if schedule != [] {
      AtMostOnceInEveryInterleaving(hash, m, schedule[..|schedule| - 1]);
      StepAgrees(hash, Play(hash, m, schedule[..|schedule| - 1]), schedule[|schedule| - 1]);
    }
  }

  // ----- nil means recorded, in every interleaving -----

  // What a runner has passed is in the ledger.
  ghost predicate Covers(r: Runner, db: Db) {
    var owner, ms := r.a.build.owner, r.a.build.ships;
    if r.phase.Ready? then true
    else if r.phase.Finished? then r.phase.err.None? ==> Passed(db, owner, ms, |ms|)
    else
      && r.phase.next <= |ms|
      && Passed(db, owner, ms, r.phase.next)
      && Seen(db, owner, r.phase.snapshot)
      && (!r.phase.Scanning? ==> r.phase.next < |ms| && r.phase.e == EffectOf(owner, ms[r.phase.next]))
  }

  ghost predicate Passed(db: Db, owner: string, ms: seq<Migration>, i: nat)
    requires i <= |ms|
  {
    forall j | 0 <= j < i :: Key(owner, ms[j].name) in db.ledger
  }

  ghost predicate Seen(db: Db, owner: string, snapshot: map<string, Row>) {
    forall n | n in snapshot :: Key(owner, n) in db.ledger
  }

  lemma StartCovers(hash: Hash, db: Db, a: Attempt)
    ensures Covers(Runner(a, Start(hash, db, a)), db)
  {
    NamespaceLookup(db, a.build.owner);
  }

  lemma CommitCovers(hash: Hash, db: Db, r: Runner)
    requires Covers(r, db) && r.phase.Recorded?
    ensures var next := Advance(hash, db, r);
            Covers(Runner(r.a, next.1), next.0) && forall k | k in db.ledger :: k in next.0.ledger
  {
    assert KeyOf(r.phase.e) == Key(r.a.build.owner, r.a.build.ships[r.phase.next].name);
  }

  lemma AdvanceCovers(hash: Hash, db: Db, r: Runner)
    requires Covers(r, db)
    ensures var next := Advance(hash, db, r);
            Covers(Runner(r.a, next.1), next.0) && forall k | k in db.ledger :: k in next.0.ledger
  {
    if r.phase.Ready? {
      StartCovers(hash, db, r.a);
    } else if r.phase.Recorded? {
      CommitCovers(hash, db, r);
    }
  }

  lemma CoversGrows(r: Runner, db: Db, db': Db)
    requires Covers(r, db) && forall k | k in db.ledger :: k in db'.ledger
    ensures Covers(r, db')
  {
  }

  ghost predicate AllCover(m: Machine) {
    forall k | 0 <= k < |m.runners| :: Covers(m.runners[k], m.db)
  }

  lemma StepCovers(hash: Hash, m: Machine, i: nat)
    requires AllCover(m)
    ensures AllCover(Step(hash, m, i))
  {
    if i < |m.runners| {
      var next := Step(hash, m, i);
      AdvanceCovers(hash, m.db, m.runners[i]);
      forall k | 0 <= k < |m.runners| ensures Covers(next.runners[k], next.db) {
        if k != i {
          CoversGrows(m.runners[k], m.db, next.db);
        }
      }
    }
  }

  lemma {:induction false} NilMeansRecordedInEveryInterleaving(hash: Hash, m: Machine, schedule: seq<nat>)
    requires AllCover(m)
    ensures AllCover(Play(hash, m, schedule))
    ensures var end := Play(hash, m, schedule);
            forall k, s | 0 <= k < |end.runners| && end.runners[k].phase == Finished(None) &&
              s in end.runners[k].a.build.ships ::
              Key(end.runners[k].a.build.owner, s.name) in end.db.ledger
  {
    if schedule != [] {
      NilMeansRecordedInEveryInterleaving(hash, m, schedule[..|schedule| - 1]);
      StepCovers(hash, Play(hash, m, schedule[..|schedule| - 1]), schedule[|schedule| - 1]);
    }
  }

  // ----- order, in every interleaving -----

  ghost predicate RunnerOnTrack(r: Runner, owner: string, full: seq<Migration>, j: nat) {
    r.a.build.owner == owner ==>
      && r.a.build.ships <= full
      && (!r.phase.Ready? && !r.phase.Finished? ==> Ascending(r.a.build.ships) && r.phase.next <= j)
      && (r.phase == Finished(None) ==> |r.a.build.ships| <= j)
  }

  lemma EarlierIsRecorded(db: Db, owner: string, full: seq<Migration>, j: nat, n: nat, i: nat)
    requires OnTrack(db, owner, full, j) && i < n <= |full| && Ascending(full[..n]) && i <= j
    ensures Key(owner, full[i].name) in db.ledger <==> i < j
  {
    if i < j {
      assert full[..j][i] == full[i] && full[i] in full[..j];
    } else if Names(full[..j], full[i].name) {
      var m :| m in full[..j] && m.name == full[i].name;
      var l :| 0 <= l < j && full[..j][l] == m;
      assert full[..n][l] == m && full[..n][i] == full[i];
      DistinctNames(full[..n], l, i);
    }
  }

  lemma CommitOnTrack(db: Db, owner: string, full: seq<Migration>, j: nat, n: nat, row: Row)
    requires OnTrack(db, owner, full, j) && j < n <= |full| && Ascending(full[..n])
    ensures OnTrack(Committed(db, EffectOf(owner, full[j]), row), owner, full, j + 1)
  {
    var e := EffectOf(owner, full[j]);
    OfAppend(owner, db.history, [e]);
    assert [e][..0] == [] && Of(owner, [e]) == [e];
    assert full[..j + 1] == full[..j] + [full[j]];
    NamesAppend(full[..j], [full[j]]);
    assert full[j] in [full[j]];
    assert Effects(owner, full[..j + 1]) == Effects(owner, full[..j]) + [e];
    assert full[..j + 1] == full[..n][..j + 1];
  }

  lemma OtherCommitOnTrack(db: Db, owner: string, full: seq<Migration>, j: nat, e: Effect, row: Row)
    requires OnTrack(db, owner, full, j) && e.owner != owner
    ensures OnTrack(Committed(db, e, row), owner, full, j)
  {
    OfAppend(owner, db.history, [e]);
    assert [e][..0] == [] && Of(owner, [e]) == [];
  }

  lemma RecordedOnTrack(hash: Hash, db: Db, r: Runner, owner: string, full: seq<Migration>, j: nat) returns (j': nat)
    requires OnTrack(db, owner, full, j) && Covers(r, db) && RunnerOnTrack(r, owner, full, j)
    requires r.a.build.owner == owner && r.phase.Recorded?
    ensures var next := Advance(hash, db, r);
            j <= j' && OnTrack(next.0, owner, full, j') && RunnerOnTrack(Runner(r.a, next.1), owner, full, j')
  {
    var n, i := |r.a.build.ships|, r.phase.next;
    assert r.a.build.ships == full[..n] && full[..n][i] == full[i];
    EarlierIsRecorded(db, owner, full, j, n, i);
    if i < j || r.a.faults.at(i) == Fails(Commit) {
      return j;
    }
    CommitOnTrack(db, owner, full, j, n, r.phase.row);
    return j + 1;
  }

  lemma AdvanceOnTrack(hash: Hash, db: Db, r: Runner, owner: string, full: seq<Migration>, j: nat) returns (j': nat)
    requires OnTrack(db, owner, full, j) && Covers(r, db) && RunnerOnTrack(r, owner, full, j)
    ensures var next := Advance(hash, db, r);
            j <= j' && OnTrack(next.0, owner, full, j') && RunnerOnTrack(Runner(r.a, next.1), owner, full, j')
  {
    if r.phase.Recorded? {
      if r.a.build.owner == owner {
        j' := RecordedOnTrack(hash, db, r, owner, full, j);
      } else {
        OtherCommitOnTrack(db, owner, full, j, r.phase.e, r.phase.row);
        j' := j;
      }
      return;
    }
    j' := j;
    if r.a.build.owner == owner {
      ReadingOnTrack(hash, db, r, owner, full, j);
    }
  }

  lemma ReadingOnTrack(hash: Hash, db: Db, r: Runner, owner: string, full: seq<Migration>, j: nat)
    requires OnTrack(db, owner, full, j) && Covers(r, db) && RunnerOnTrack(r, owner, full, j)
    requires r.a.build.owner == owner && !r.phase.Recorded?
    ensures RunnerOnTrack(Runner(r.a, Advance(hash, db, r).1), owner, full, j)
  {
    if r.phase.Ready? {
      ValidateAcceptsExactlyWellFormed(r.a.build.ships);
    } else if !r.phase.Finished? {
      var n, i := |r.a.build.ships|, r.phase.next;
      assert r.a.build.ships == full[..n];
      if i < n {
        assert full[..n][i] == full[i];
        EarlierIsRecorded(db, owner, full, j, n, i);
      }
    }
  }

  // If every build of a module ships an initial part of one list, then with no
  // lock and stale snapshots its commits are still an initial part of that list,
  // and a runner that returned nil left its whole list committed.
  lemma {:induction false} OrderInEveryInterleaving(hash: Hash, m: Machine, schedule: seq<nat>, owner: string,
                                                    full: seq<Migration>, j: nat)
      returns (j': nat)
    requires OnTrack(m.db, owner, full, j)
    requires forall r | r in m.runners :: r.phase.Ready? && (r.a.build.owner == owner ==> r.a.build.ships <= full)
    ensures var end := Play(hash, m, schedule);
            && j <= j'
            && OnTrack(end.db, owner, full, j')
            && AllCover(end)
            && forall r | r in end.runners :: RunnerOnTrack(r, owner, full, j')
  {
    j' := j;
    if schedule != [] {
      var mid, i := Play(hash, m, schedule[..|schedule| - 1]), schedule[|schedule| - 1];
      var k := OrderInEveryInterleaving(hash, m, schedule[..|schedule| - 1], owner, full, j);
      j' := k;
      NilMeansRecordedInEveryInterleaving(hash, m, schedule);
      if i < |mid.runners| {
        assert mid.runners[i] in mid.runners;
        j' := AdvanceOnTrack(hash, mid.db, mid.runners[i], owner, full, k);
        forall r | r in Step(hash, mid, i).runners ensures RunnerOnTrack(r, owner, full, j') {
          assert r in mid.runners || r == Runner(mid.runners[i].a, Advance(hash, mid.db, mid.runners[i]).1);
        }
      }
    }
  }

  // ----- every runner finishes -----

  function Rank(r: Runner): nat {
    var n := |r.a.build.ships|;
    match r.phase
    case Ready => 6 * n + 2
    case Scanning(i, _) => if i <= n then 6 * (n - i) + 1 else 1
    case Begun(i, _, _) => if i < n then 6 * (n - i) else 5
    case Rechecked(i, _, _) => if i < n then 6 * (n - i) - 1 else 4
    case Executed(i, _, _) => if i < n then 6 * (n - i) - 2 else 3
    case Recorded(i, _, _, _) => if i < n then 6 * (n - i) - 3 else 2
    case Finished(_) => 0
  }

  function Turns(schedule: seq<nat>, i: nat): nat {
    if schedule == [] then 0
    else Turns(schedule[..|schedule| - 1], i) + if schedule[|schedule| - 1] == i then 1 else 0
  }

  lemma AdvanceRanks(hash: Hash, db: Db, r: Runner)
    ensures r.phase.Finished? ==> Advance(hash, db, r).1 == r.phase
    ensures !r.phase.Finished? ==> Rank(Runner(r.a, Advance(hash, db, r).1)) < Rank(r)
  {
  }

  // No runner waits on another between its statements: 6n + 2 of its own
  // statements bring a run over n migrations to its end.
  lemma {:induction false} EveryRunnerFinishes(hash: Hash, m: Machine, schedule: seq<nat>, i: nat)
    requires i < |m.runners|
    ensures |Play(hash, m, schedule).runners| == |m.runners|
    ensures Play(hash, m, schedule).runners[i].a == m.runners[i].a
    ensures var r := Play(hash, m, schedule).runners[i];
            r.phase.Finished? || Rank(r) + Turns(schedule, i) <= Rank(m.runners[i])
    ensures Turns(schedule, i) >= Rank(m.runners[i]) ==> Play(hash, m, schedule).runners[i].phase.Finished?
  {
    if schedule != [] {
      EveryRunnerFinishes(hash, m, schedule[..|schedule| - 1], i);
      var mid := Play(hash, m, schedule[..|schedule| - 1]);
      AdvanceRanks(hash, mid.db, mid.runners[i]);
    }
  }

  // ----- under the lock, runs are serial -----

  datatype Turn = Turn(runner: nat, a: Attempt)

  // stuck: a failed unlock has left the advisory lock held by no runner.
  datatype Guarded = Guarded(m: Machine, holder: Option<nat>, stuck: bool, log: seq<Turn>)

  // The attempt gets as far as the advisory lock.
  predicate Takes(a: Attempt) {
    a.build.postgres && Refused(a.build).None? && !a.faults.lock
  }

  predicate Sticks(a: Attempt) {
    Takes(a) && a.faults.unlock && a.faults.stuck
  }

  predicate Admits(g: Guarded, i: nat) {
    i < |g.m.runners| && g.holder.None? && g.m.runners[i].phase.Ready? && !(g.stuck && Takes(g.m.runners[i].a))
  }

  function Acquired(g: Guarded, i: nat): Guarded
    requires i < |g.m.runners|
  {
    g.(holder := Some(i), log := g.log + [Turn(i, g.m.runners[i].a)])
  }

  // The lock admits one runner at a time, from its first statement to its end;
  // the log records who was admitted.
  ghost function GuardedStep(hash: Hash, g: Guarded, i: nat): Guarded {
    if i < |g.m.runners| && g.holder == Some(i) then
      var next := Step(hash, g.m, i);
      if next.runners[i].phase.Finished? then Guarded(next, None, g.stuck || Sticks(next.runners[i].a), g.log)
      else g.(m := next)
    else if Admits(g, i) then Acquired(g, i)
    else g
  }

  ghost function GuardedPlay(hash: Hash, g: Guarded, schedule: seq<nat>): Guarded {
    if schedule == [] then g
    else GuardedStep(hash, GuardedPlay(hash, g, schedule[..|schedule| - 1]), schedule[|schedule| - 1])
  }

  // The database after the admitted runs, one after another.
  ghost function After(hash: Hash, db: Db, log: seq<Turn>): Db {
    RunAll(hash, db, seq(|log|, k requires 0 <= k < |log| => log[k].a))
  }

  // What a runner will leave behind if no one else moves.
  ghost function Outlook(hash: Hash, db: Db, r: Runner): Outcome {
    match r.phase
    case Ready => RunOutcome(hash, db, r.a)
    case Scanning(i, s) => Unlocked(r.a, ApplyFrom(hash, db, r.a, s, i))
    case Begun(i, s, e) =>
      Unlocked(r.a, Then(hash, RecheckStage(hash, db, e, r.a.faults.at(i), r.a.faults.clock(i)), r.a, s, i))
    case Rechecked(i, s, e) =>
      Unlocked(r.a, Then(hash, ExecStage(hash, db, e, r.a.faults.at(i), r.a.faults.clock(i)), r.a, s, i))
    case Executed(i, s, e) =>
      Unlocked(r.a, Then(hash, RecordStage(hash, db, e, r.a.faults.at(i), r.a.faults.clock(i)), r.a, s, i))
    case Recorded(i, s, e, row) =>
      Unlocked(r.a, Then(hash, CommitStage(db, e, row, r.a.faults.at(i)), r.a, s, i))
    case Finished(err) => (db, err)
  }

  lemma StartKeepsOutlook(hash: Hash, db: Db, a: Attempt)
    ensures Outlook(hash, db, Runner(a, Start(hash, db, a))) == RunOutcome(hash, db, a)
  {
    var o := LockedBody(hash, db, a);
    assert o == if a.faults.ensure || a.faults.read then o else Reconciling(hash, db, a, Namespace(db, a.build.owner));
  }

  lemma AdvanceKeepsOutlook(hash: Hash, db: Db, r: Runner)
    ensures var next := Advance(hash, db, r);
            Outlook(hash, next.0, Runner(r.a, next.1)) == Outlook(hash, db, r)
  {
    if r.phase.Ready? {
      StartKeepsOutlook(hash, db, r.a);
    } else {
      LaterKeepsOutlook(hash, db, r);
    }
  }

  lemma LaterKeepsOutlook(hash: Hash, db: Db, r: Runner)
    requires !r.phase.Ready?
    ensures var next := Advance(hash, db, r);
            Outlook(hash, next.0, Runner(r.a, next.1)) == Outlook(hash, db, r)
  {
  }

  // Only logged runners have moved, each logged once.
  ghost predicate Logged(g: Guarded) {
    && (forall p | 0 <= p < |g.log| :: g.log[p].runner < |g.m.runners| && g.m.runners[g.log[p].runner].a == g.log[p].a)
    && (forall p, q | 0 <= p < q < |g.log| :: g.log[p].runner != g.log[q].runner)
    && (forall i | 0 <= i < |g.m.runners| ::
          g.m.runners[i].phase.Ready? || exists p :: 0 <= p < |g.log| && g.log[p].runner == i)
    && (forall h | g.holder == Some(h) :: g.log != [] && g.log[|g.log| - 1].runner == h)
  }

  // Turn p ended as it would have, run after the turns before it.
  ghost predicate EndedSerially(hash: Hash, db0: Db, g: Guarded, p: nat)
    requires Logged(g) && p < |g.log|
  {
    g.m.runners[g.log[p].runner].phase == Finished(RunOutcome(hash, After(hash, db0, g.log[..p]), g.log[p].a).1)
  }

  function Ended(g: Guarded): nat
    requires g.holder.Some? ==> g.log != []
  {
    if g.holder.None? then |g.log| else |g.log| - 1
  }

  ghost predicate Serial(hash: Hash, db0: Db, g: Guarded) {
    && Logged(g)
    && (forall p | 0 <= p < Ended(g) :: EndedSerially(hash, db0, g, p))
    && match g.holder
       case None => g.m.db == After(hash, db0, g.log)
       case Some(h) =>
         Outlook(hash, g.m.db, g.m.runners[h]) ==
         RunOutcome(hash, After(hash, db0, g.log[..|g.log| - 1]), g.log[|g.log| - 1].a)
  }

  lemma AcquireStaysLogged(g: Guarded, i: nat)
    requires Logged(g) && g.holder.None? && i < |g.m.runners|
    requires forall p | 0 <= p < |g.log| :: g.log[p].runner != i
    ensures Logged(Acquired(g, i))
  {
    var next := Acquired(g, i);
    forall k | 0 <= k < |next.m.runners| && !next.m.runners[k].phase.Ready?
      ensures exists p :: 0 <= p < |next.log| && next.log[p].runner == k
    {
      var p :| 0 <= p < |g.log| && g.log[p].runner == k;
      assert next.log[p].runner == k;
    }
  }

  lemma AcquireStaysSerial(hash: Hash, db0: Db, g: Guarded, i: nat)
    requires Serial(hash, db0, g) && g.holder.None? && i < |g.m.runners| && g.m.runners[i].phase.Ready?
    ensures Serial(hash, db0, Acquired(g, i))
  {
    var next := Acquired(g, i);
    forall p | 0 <= p < |g.log| ensures g.log[p].runner != i {
      assert EndedSerially(hash, db0, g, p);
    }
    AcquireStaysLogged(g, i);
    assert next.log[..|next.log| - 1] == g.log;
    forall p | 0 <= p < |g.log| ensures EndedSerially(hash, db0, next, p) {
      assert EndedSerially(hash, db0, g, p);
      assert next.log[..p] == g.log[..p];
    }
  }

  lemma HolderStaysLogged(hash: Hash, g: Guarded, i: nat)
    requires Logged(g) && g.holder == Some(i) && i < |g.m.runners|
    ensures Logged(GuardedStep(hash, g, i))
  {
    var next := GuardedStep(hash, g, i);
    forall k | 0 <= k < |next.m.runners| && !next.m.runners[k].phase.Ready?
      ensures exists p :: 0 <= p < |next.log| && next.log[p].runner == k
    {
      if k == i {
        assert next.log[|g.log| - 1].runner == k;
      } else {
        var p :| 0 <= p < |g.log| && g.log[p].runner == k;
        assert next.log[p].runner == k;
      }
    }
  }

  lemma AfterOneMore(hash: Hash, db0: Db, log: seq<Turn>)
    requires log != []
    ensures After(hash, db0, log) == RunOutcome(hash, After(hash, db0, log[..|log| - 1]), log[|log| - 1].a).0
  {
    var runs := seq(|log|, k requires 0 <= k < |log| => log[k].a);
    var front := log[..|log| - 1];
    assert runs[..|runs| - 1] == seq(|front|, k requires 0 <= k < |front| => front[k].a);
  }

  lemma HolderStaysSerial(hash: Hash, db0: Db, g: Guarded, i: nat)
    requires Serial(hash, db0, g) && g.holder == Some(i) && i < |g.m.runners|
    ensures Serial(hash, db0, GuardedStep(hash, g, i))
  {
    HolderStaysLogged(hash, g, i);
    HolderKeepsEnded(hash, db0, g, i);
    if GuardedStep(hash, g, i).holder.Some? {
      HolderKeepsOutlook(hash, db0, g, i);
    } else {
      HolderEnds(hash, db0, g, i);
    }
  }

  lemma HolderKeepsEnded(hash: Hash, db0: Db, g: Guarded, i: nat)
    requires Serial(hash, db0, g) && g.holder == Some(i) && i < |g.m.runners|
    requires Logged(GuardedStep(hash, g, i))
    ensures forall p | 0 <= p < |g.log| - 1 :: EndedSerially(hash, db0, GuardedStep(hash, g, i), p)
  {
    var n, next := |g.log| - 1, GuardedStep(hash, g, i);
    forall p | 0 <= p < n ensures EndedSerially(hash, db0, next, p) {
      assert EndedSerially(hash, db0, g, p);
      assert next.m.runners[g.log[p].runner] == g.m.runners[g.log[p].runner];
    }
  }

  lemma HolderKeepsOutlook(hash: Hash, db0: Db, g: Guarded, i: nat)
    requires Serial(hash, db0, g) && g.holder == Some(i) && i < |g.m.runners|
    requires GuardedStep(hash, g, i).holder.Some?
    ensures var next, n := GuardedStep(hash, g, i), |g.log| - 1;
            Outlook(hash, next.m.db, next.m.runners[i]) == RunOutcome(hash, After(hash, db0, g.log[..n]), g.log[n].a)
  {
    AdvanceKeepsOutlook(hash, g.m.db, g.m.runners[i]);
  }

  lemma EndIsOutlook(hash: Hash, g: Guarded, i: nat)
    requires g.holder == Some(i) && i < |g.m.runners| && GuardedStep(hash, g, i).holder.None?
    ensures var next := GuardedStep(hash, g, i);
            && next.log == g.log && |next.m.runners| == |g.m.runners|
            && next.m.runners[i].phase.Finished?
            && (next.m.db, next.m.runners[i].phase.err) == Outlook(hash, g.m.db, g.m.runners[i])
  {
    AdvanceKeepsOutlook(hash, g.m.db, g.m.runners[i]);
  }

  lemma HolderEnds(hash: Hash, db0: Db, g: Guarded, i: nat)
    requires Serial(hash, db0, g) && g.holder == Some(i) && i < |g.m.runners|
    requires Logged(GuardedStep(hash, g, i)) && GuardedStep(hash, g, i).holder.None?
    ensures var next := GuardedStep(hash, g, i);
            next.m.db == After(hash, db0, next.log) && EndedSerially(hash, db0, next, |g.log| - 1)
  {
    EndIsOutlook(hash, g, i);
    AfterOneMore(hash, db0, g.log);
  }

  // Under the lock, stuck or not, every schedule is serial: when no one holds it the database
  // is what the admitted runs leave one after another, and each run ended as
  // it does in that order.
  lemma {:induction false} LockMakesRunsSerial(hash: Hash, g: Guarded, schedule: seq<nat>)
    requires g.holder.None? && g.log == [] && forall r | r in g.m.runners :: r.phase.Ready?
    ensures Serial(hash, g.m.db, GuardedPlay(hash, g, schedule))
    ensures |GuardedPlay(hash, g, schedule).m.runners| == |g.m.runners|
  {
    if schedule != [] {
      var mid, i := GuardedPlay(hash, g, schedule[..|schedule| - 1]), schedule[|schedule| - 1];
      LockMakesRunsSerial(hash, g, schedule[..|schedule| - 1]);
      if i < |mid.m.runners| && mid.holder == Some(i) {
        HolderStaysSerial(hash, g.m.db, mid, i);
      } else if Admits(mid, i) {
        AcquireStaysSerial(hash, g.m.db, mid, i);
      }
    }
  }

  // The lock was free after some part of the schedule.
  ghost predicate Freed(hash: Hash, g: Guarded, schedule: seq<nat>) {
    exists k | 0 <= k <= |schedule| :: GuardedPlay(hash, g, schedule[..k]).holder.None?
  }

  ghost predicate StillHolds(hash: Hash, g: Guarded, schedule: seq<nat>, h: nat)
    requires h < |g.m.runners|
  {
    var end := GuardedPlay(hash, g, schedule);
    && end.holder == Some(h) && h < |end.m.runners| && !end.m.runners[h].phase.Finished?
    && Rank(end.m.runners[h]) + Turns(schedule, h) <= Rank(g.m.runners[h])
  }

  lemma HolderStep(hash: Hash, g: Guarded, i: nat, h: nat)
    requires g.holder == Some(h) && h < |g.m.runners| && !g.m.runners[h].phase.Finished?
    ensures var next := GuardedStep(hash, g, i);
            || next.holder.None?
            || (&& next.holder == Some(h) && h < |next.m.runners| && !next.m.runners[h].phase.Finished?
                && Rank(next.m.runners[h]) + (if i == h then 1 else 0) <= Rank(g.m.runners[h]))
  {
    AdvanceRanks(hash, g.m.db, g.m.runners[h]);
  }

  // Whoever holds the lock frees it within as many of its turns as it has statements left.
  lemma {:induction false} HolderFreesLock(hash: Hash, g: Guarded, schedule: seq<nat>, h: nat)
    requires g.holder == Some(h) && h < |g.m.runners| && !g.m.runners[h].phase.Finished?
    ensures Freed(hash, g, schedule) || StillHolds(hash, g, schedule, h)
    ensures Turns(schedule, h) >= Rank(g.m.runners[h]) ==> Freed(hash, g, schedule)
  {
    if schedule != [] {
      var front := schedule[..|schedule| - 1];
      HolderFreesLock(hash, g, front, h);
      if Freed(hash, g, front) {
        var k :| 0 <= k <= |front| && GuardedPlay(hash, g, front[..k]).holder.None?;
        assert front[..k] == schedule[..k];
      } else {
        HolderStep(hash, GuardedPlay(hash, g, front), schedule[|schedule| - 1], h);
        assert schedule[..|schedule|] == schedule;
      }
    }
  }

  ghost predicate Blocked(g: Guarded, end: Guarded) {
    && end.stuck && |end.m.runners| == |g.m.runners| && g.log <= end.log
    && (forall h | end.holder == Some(h) :: h < |end.m.runners| && !Takes(end.m.runners[h].a))
    && (forall i | 0 <= i < |g.m.runners| ::
          end.m.runners[i].a == g.m.runners[i].a && (Takes(g.m.runners[i].a) ==> end.m.runners[i] == g.m.runners[i]))
  }

  // A lock left held by a failed unlock admits no further run that needs it, in any schedule.
  lemma {:induction false} StuckLockBlocks(hash: Hash, g: Guarded, schedule: seq<nat>)
    requires g.stuck && g.holder.None?
    ensures Blocked(g, GuardedPlay(hash, g, schedule))
  {
    if schedule != [] {
      StuckLockBlocks(hash, g, schedule[..|schedule| - 1]);
    }
  }

  // A run that was alone with the database never meets a primary-key clash.
  lemma SerialRunsNeverClash(hash: Hash, db: Db, a: Attempt, n: string)
    ensures RunOutcome(hash, db, a).1 != Some(Clash(n))
  {
    ApplyFromFailures(hash, db, a, Namespace(db, a.build.owner), 0);
  }

  // A runner that finds its row taken when it records or commits reports the
  // clash, unless the insert fails on its own, and leaves the database as it is.
  lemma RacedRunnersClash(hash: Hash, db: Db, r: Runner)
    requires (r.phase.Executed? || r.phase.Recorded?) && KeyOf(r.phase.e) in db.ledger
    ensures var fails := r.phase.Executed? && r.a.faults.at(r.phase.next) == Fails(Record);
            Advance(hash, db, r) ==
            (db, Finished(Some(if fails then StageFailed(r.phase.e.name, Record) else Clash(r.phase.e.name))))
  {
  }

  // The attempts that get past the advisory lock are those on postgres that do
  // not end in one of the errors before it.
  lemma TakesExactly(hash: Hash, db: Db, a: Attempt)
    ensures var err := RunOutcome(hash, db, a).1;
            Takes(a) <==> a.build.postgres && err != Some(BlankModule) && err != Some(LockFailed) &&
                          !(err.Some? && err.value.Malformed?)
  {
    RunReports(hash, db, a, "");
    ValidateAcceptsExactlyWellFormed(a.build.ships);
  }

  lemma PlayOneMore(hash: Hash, m: Machine, schedule: seq<nat>, i: nat)
    ensures Play(hash, m, schedule + [i]) == Step(hash, Play(hash, m, schedule), i)
  {
    assert (schedule + [i])[..|schedule|] == schedule;
  }
}
