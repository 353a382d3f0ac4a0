/** What whole sequences of migration runs guarantee, one runner at a time. */
module MigrateRuns {
  import opened Sequences
  import opened Migrate
  import Text

  // The committed effects of one module, in commit order.
  function Of(owner: string, h: seq<Effect>): seq<Effect> {
    if h == [] then []
    else
      var front := Of(owner, h[..|h| - 1]);
      if h[|h| - 1].owner == owner then front + [h[|h| - 1]] else front
  }

  lemma {:induction false} OfAppend(owner: string, a: seq<Effect>, b: seq<Effect>)
    ensures Of(owner, a + b) == Of(owner, a) + Of(owner, b)
  {
    if b == [] {
      assert a + b == a;
    } else {
      assert (a + b)[..|a + b| - 1] == a + b[..|b| - 1];
      OfAppend(owner, a, b[..|b| - 1]);
    }
  }

  lemma {:induction false} OfEffects(owner: string, from: string, ms: seq<Migration>)
    ensures Of(owner, Effects(from, ms)) == if owner == from then Effects(from, ms) else []
  {
    if ms != [] {
      var front := ms[..|ms| - 1];
      assert Effects(from, ms)[..|ms| - 1] == Effects(from, front);
      OfEffects(owner, from, front);
      assert Effects(from, ms) == Effects(from, front) + [EffectOf(from, ms[|ms| - 1])];
    }
  }

  function Missing(db: Db, owner: string, ms: seq<Migration>): seq<Migration> {
    if ms == [] then []
    else if Key(owner, ms[0].name) in db.ledger then Missing(db, owner, ms[1..])
    else [ms[0]] + Missing(db, owner, ms[1..])
  }

  lemma {:induction false} MissingDependsOnNames(db: Db, db': Db, owner: string, ms: seq<Migration>)
    requires forall m | m in ms :: Key(owner, m.name) in db.ledger <==> Key(owner, m.name) in db'.ledger
    ensures Missing(db, owner, ms) == Missing(db', owner, ms)
  {
    if ms != [] {
      MissingDependsOnNames(db, db', owner, ms[1..]);
    }
  }

  lemma {:induction false} MissingMember(db: Db, owner: string, ms: seq<Migration>, m: Migration)
    ensures m in Missing(db, owner, ms) <==> m in ms && Key(owner, m.name) !in db.ledger
  {
    if ms != [] {
      MissingMember(db, owner, ms[1..], m);
      assert ms == [ms[0]] + ms[1..];
    }
  }

  ghost predicate Names(ms: seq<Migration>, n: string) {
    exists m :: m in ms && m.name == n
  }

  lemma NamesAppend(ms: seq<Migration>, ns: seq<Migration>)
    ensures forall n :: Names(ms + ns, n) <==> Names(ms, n) || Names(ns, n)
  {
    forall n | Names(ms, n) || Names(ns, n) ensures Names(ms + ns, n) {
      var m :| (m in ms || m in ns) && m.name == n;
      assert m in ms + ns;
    }
  }

  lemma DistinctNames(ms: seq<Migration>, i: nat, j: nat)
    requires Ascending(ms) && i < |ms| && j < |ms| && i != j
    ensures ms[i].name != ms[j].name
  {
    Text.LessTotal(ms[i].name, ms[j].name);
  }

  // db' is db after ms were committed for one module and nothing else happened.
  ghost predicate Extends(hash: Hash, db: Db, db': Db, owner: string, ms: seq<Migration>) {
    && db'.history == db.history + Effects(owner, ms)
    && (forall k :: k in db'.ledger <==> k in db.ledger || (k.owner == owner && Names(ms, k.name)))
    && (forall k | k in db.ledger :: db'.ledger[k] == db.ledger[k])
    && (forall m | m in ms :: Key(owner, m.name) in db'.ledger &&
         db'.ledger[Key(owner, m.name)].checksum == hash(m.sql))
  }

  lemma ExtendsOne(hash: Hash, db: Db, db': Db, owner: string, m: Migration)
    requires exists row: Row :: db' == Committed(db, EffectOf(owner, m), row) && row.checksum == hash(m.sql)
    requires Key(owner, m.name) !in db.ledger
    ensures Extends(hash, db, db', owner, [m])
  {
    assert m in [m];
    assert Effects(owner, [m]) == [EffectOf(owner, m)];
    assert forall n :: Names([m], n) <==> n == m.name;
  }

  lemma ExtendsCompose(hash: Hash, a: Db, b: Db, c: Db, owner: string, ms: seq<Migration>, ns: seq<Migration>)
    requires Extends(hash, a, b, owner, ms) && Extends(hash, b, c, owner, ns)
    ensures Extends(hash, a, c, owner, ms + ns)
  {
    EffectsAppend(owner, ms, ns);
    NamesAppend(ms, ns);
    forall m | m in ms + ns
      ensures Key(owner, m.name) in c.ledger && c.ledger[Key(owner, m.name)].checksum == hash(m.sql)
    {
      if m in ms {
        assert Key(owner, m.name) in b.ledger;
      }
    }
    assert c.history == a.history + Effects(owner, ms + ns);
  }

  lemma EffectsAppend(owner: string, ms: seq<Migration>, ns: seq<Migration>)
    ensures Effects(owner, ms + ns) == Effects(owner, ms) + Effects(owner, ns)
  {
  }

  // o commits the first k of todo, and all of it when it reports no error.
  ghost predicate Commits(hash: Hash, db: Db, o: Outcome, owner: string, todo: seq<Migration>, k: nat) {
    k <= |todo| && Extends(hash, db, o.0, owner, todo[..k]) && (o.1.None? ==> k == |todo|)
  }

  lemma CommitsMore(hash: Hash, db: Db, mid: Db, o: Outcome, owner: string, ms: seq<Migration>, k: nat)
    requires ms != [] && Ascending(ms) && Key(owner, ms[0].name) !in db.ledger
    requires exists row: Row :: mid == Committed(db, EffectOf(owner, ms[0]), row) && row.checksum == hash(ms[0].sql)
    requires Commits(hash, mid, o, owner, Missing(mid, owner, ms[1..]), k)
    ensures Commits(hash, db, o, owner, Missing(db, owner, ms), k + 1)
  {
    var rest := ms[1..];
    FirstMissing(db, mid, owner, ms);
    var later := Missing(mid, owner, rest)[..k];
    TakeCons(ms[0], Missing(mid, owner, rest), k);
    ExtendsOne(hash, db, mid, owner, ms[0]);
    ExtendsCompose(hash, db, mid, o.0, owner, [ms[0]], later);
  }

  lemma TakeCons<T>(x: T, s: seq<T>, k: nat)
    requires k <= |s|
    ensures ([x] + s)[..k + 1] == [x] + s[..k]
  {
  }

  lemma FirstMissing(db: Db, mid: Db, owner: string, ms: seq<Migration>)
    requires ms != [] && Ascending(ms) && Key(owner, ms[0].name) !in db.ledger
    requires forall k | k != Key(owner, ms[0].name) :: k in mid.ledger <==> k in db.ledger
    ensures Missing(db, owner, ms) == [ms[0]] + Missing(mid, owner, ms[1..])
  {
    var rest := ms[1..];
    forall m | m in rest ensures m.name != ms[0].name {
      var j :| 0 <= j < |rest| && rest[j] == m;
      DistinctNames(ms, 0, 1 + j);
    }
    MissingDependsOnNames(db, mid, owner, rest);
  }

  lemma AppliedCases(hash: Hash, db: Db, e: Effect, fault: Fault, now: int)
    ensures var o, next := Applied(hash, db, e, fault, now), Committed(db, e, Row(hash(e.sql), now));
            && (KeyOf(e) in db.ledger ==> o.0 == db)
            && (o == (db, None) ==> KeyOf(e) in db.ledger)
            && (o.0 == db || o.0 == next)
            && (o.1.Some? ==> o.1.value.StageFailed?)
            && (fault == NoFault ==> o.1.None?)
  {
    var next := Committed(db, e, Row(hash(e.sql), now));
    assert |next.history| != |db.history|;
  }

  lemma {:induction false} ApplyFromExtends(hash: Hash, db: Db, a: Attempt, snapshot: map<string, Row>, i: nat)
      returns (k: nat)
    requires i <= |a.build.ships| && Ascending(a.build.ships)
    requires forall n | n in snapshot :: Key(a.build.owner, n) in db.ledger
    ensures Commits(hash, db, ApplyFrom(hash, db, a, snapshot, i), a.build.owner,
                    Missing(db, a.build.owner, a.build.ships[i..]), k)
    decreases |a.build.ships| - i
  {
    var owner, ms := a.build.owner, a.build.ships;
    k := 0;
    assert Effects(owner, []) == [];
    if i < |ms| {
      assert ms[i..][1..] == ms[i + 1..] && ms[i..][0] == ms[i];
      var e := EffectOf(owner, ms[i]);
      var o := Applied(hash, db, e, a.faults.at(i), a.faults.clock(i));
      AppliedCases(hash, db, e, a.faults.at(i), a.faults.clock(i));
      assert KeyOf(e) == Key(owner, ms[i].name);
      if ms[i].name in snapshot {
        k := ApplyFromExtends(hash, db, a, snapshot, i + 1);
      } else if o.0 == db {
        if o.1.None? {
          k := ApplyFromExtends(hash, db, a, snapshot, i + 1);
        }
      } else {
        k := CommittedThenExtends(hash, db, o.0, a, snapshot, i);
      }
    }
  }

  lemma CommittedThenExtends(hash: Hash, db: Db, mid: Db, a: Attempt, snapshot: map<string, Row>, i: nat)
      returns (k: nat)
    requires i < |a.build.ships| && Ascending(a.build.ships) && a.build.ships[i].name !in snapshot
    requires forall n | n in snapshot :: Key(a.build.owner, n) in db.ledger
    requires var e := EffectOf(a.build.owner, a.build.ships[i]);
             && KeyOf(e) !in db.ledger
             && mid == Committed(db, e, Row(hash(e.sql), a.faults.clock(i)))
             && mid == Applied(hash, db, e, a.faults.at(i), a.faults.clock(i)).0
    ensures Commits(hash, db, ApplyFrom(hash, db, a, snapshot, i), a.build.owner,
                    Missing(db, a.build.owner, a.build.ships[i..]), k)
    decreases |a.build.ships| - i, 0
  {
    var owner, ms := a.build.owner, a.build.ships;
    var todo := Missing(mid, owner, ms[i + 1..]);
    var o := ApplyFrom(hash, db, a, snapshot, i);
    assert Effects(owner, todo[..0]) == [];
    var n := 0;
    if Applied(hash, db, EffectOf(owner, ms[i]), a.faults.at(i), a.faults.clock(i)).1.None? {
      n := ApplyFromExtends(hash, mid, a, snapshot, i + 1);
    } else {
      assert Commits(hash, mid, o, owner, todo, 0);
    }
    assert ms[i..][1..] == ms[i + 1..];
    CommitsMore(hash, db, mid, o, owner, ms[i..], n);
    k := n + 1;
  }

  // A run commits, in order, an initial part of what the ledger lacks; all of
  // it when it returns nil.
  lemma RunExtends(hash: Hash, db: Db, a: Attempt) returns (k: nat)
    ensures Commits(hash, db, RunOutcome(hash, db, a), a.build.owner, Missing(db, a.build.owner, a.build.ships), k)
  {
    k := 0;
    assert Effects(a.build.owner, []) == [];
    if Refused(a.build).None? && !(a.build.postgres && a.faults.lock) {
      ValidateAcceptsExactlyWellFormed(a.build.ships);
      var snapshot := Namespace(db, a.build.owner);
      if !a.faults.ensure && !a.faults.read && Reconciled(hash, a.build.ships, snapshot).None? {
        assert a.build.ships[0..] == a.build.ships;
        k := ApplyFromExtends(hash, db, a, snapshot, 0);
      }
    }
  }

  // ----- the ledger and the history always agree -----

  lemma CommittedAgrees(hash: Hash, db: Db, e: Effect, row: Row)
    requires Agrees(hash, db) && KeyOf(e) !in db.ledger && row.checksum == hash(e.sql)
    ensures Agrees(hash, Committed(db, e, row))
  {
    var db' := Committed(db, e, row);
    assert e in db'.history;
    forall k | k in db'.ledger ensures exists f :: f in db'.history && KeyOf(f) == k {
      if k == KeyOf(e) {
        assert e in db'.history && KeyOf(e) == k;
      } else {
        var f :| f in db.history && KeyOf(f) == k;
        assert f in db'.history;
      }
    }
  }

  lemma {:induction false} ApplyFromAgrees(hash: Hash, db: Db, a: Attempt, snapshot: map<string, Row>, i: nat)
    requires Agrees(hash, db)
    ensures Agrees(hash, ApplyFrom(hash, db, a, snapshot, i).0)
    decreases |a.build.ships| - i
  {
    if i < |a.build.ships| {
      if a.build.ships[i].name in snapshot {
        ApplyFromAgrees(hash, db, a, snapshot, i + 1);
      } else {
        var e := EffectOf(a.build.owner, a.build.ships[i]);
        if KeyOf(e) !in db.ledger {
          CommittedAgrees(hash, db, e, Row(hash(e.sql), a.faults.clock(i)));
        }
        var o := Applied(hash, db, e, a.faults.at(i), a.faults.clock(i));
        ApplyFromAgrees(hash, o.0, a, snapshot, i + 1);
      }
    }
  }

  lemma RunAgrees(hash: Hash, db: Db, a: Attempt)
    requires Agrees(hash, db)
    ensures Agrees(hash, RunOutcome(hash, db, a).0)
  {
    ApplyFromAgrees(hash, db, a, Namespace(db, a.build.owner), 0);
  }

  // ----- what an outcome says -----

  lemma {:induction false} ApplyFromFailures(hash: Hash, db: Db, a: Attempt, snapshot: map<string, Row>, i: nat)
    ensures var err := ApplyFrom(hash, db, a, snapshot, i).1; err.Some? ==> err.value.StageFailed?
    ensures (forall j :: a.faults.at(j) == NoFault) ==> ApplyFrom(hash, db, a, snapshot, i).1.None?
    decreases |a.build.ships| - i
  {
    if i < |a.build.ships| {
      if a.build.ships[i].name in snapshot {
        ApplyFromFailures(hash, db, a, snapshot, i + 1);
      } else {
        var o := Applied(hash, db, EffectOf(a.build.owner, a.build.ships[i]), a.faults.at(i), a.faults.clock(i));
        ApplyFromFailures(hash, o.0, a, snapshot, i + 1);
      }
    }
  }

  // n is shipped with the SQL that was recorded.
  ghost predicate ShippedAs(hash: Hash, ms: seq<Migration>, n: string, sum: string) {
    exists m :: m in ms && m.name == n && hash(m.sql) == sum
  }

  lemma OffendersAreUnshipped(hash: Hash, ms: seq<Migration>, applied: map<string, Row>)
    requires Ascending(ms)
    ensures forall n ::
              n in Offenders(hash, ms, applied) <==> n in applied && !ShippedAs(hash, ms, n, applied[n].checksum)
  {
    ShippedLookup(ms);
    forall n | n in applied
      ensures n in Offenders(hash, ms, applied) <==> !ShippedAs(hash, ms, n, applied[n].checksum)
    {
      if ShippedAs(hash, ms, n, applied[n].checksum) {
        var m :| m in ms && m.name == n && hash(m.sql) == applied[n].checksum;
        var i :| 0 <= i < |ms| && ms[i] == m;
      } else if n in Shipped(ms) {
        var i :| 0 <= i < |ms| && ms[i].name == n;
        assert ms[i] in ms;
      }
    }
  }

  lemma ReconciledMeans(hash: Hash, ms: seq<Migration>, applied: map<string, Row>)
    requires Ascending(ms)
    ensures Reconciled(hash, ms, applied).None? <==>
            forall n | n in applied :: ShippedAs(hash, ms, n, applied[n].checksum)
  {
    OffendersAreUnshipped(hash, ms, applied);
    assert forall n :: n in Offenders(hash, ms, applied) ==> n in applied;
  }

  // n is the least recorded name that is not shipped with its checksum.
  ghost predicate LeastUnshipped(hash: Hash, ms: seq<Migration>, applied: map<string, Row>, n: string) {
    && n in applied && !ShippedAs(hash, ms, n, applied[n].checksum)
    && forall o | o in applied && !ShippedAs(hash, ms, o, applied[o].checksum) :: Text.AtMost(n, o)
  }

  // Drift is reported for the least recorded name not shipped with its checksum
  // exactly when that name is shipped, an unknown migration exactly when it is
  // not, and nothing else is ever reported.
  lemma ReconciledReports(hash: Hash, ms: seq<Migration>, applied: map<string, Row>, n: string)
    requires Ascending(ms)
    ensures Reconciled(hash, ms, applied) == Some(Drift(n)) <==> LeastUnshipped(hash, ms, applied, n) && Names(ms, n)
    ensures Reconciled(hash, ms, applied) == Some(UnknownMigration(n)) <==>
            LeastUnshipped(hash, ms, applied, n) && !Names(ms, n)
    ensures var err := Reconciled(hash, ms, applied);
            err.Some? ==> err.value.Drift? || err.value.UnknownMigration?
  {
    var offenders := Offenders(hash, ms, applied);
    OffendersAreUnshipped(hash, ms, applied);
    ShippedIsNamed(ms);
    if LeastUnshipped(hash, ms, applied, n) {
      Text.LeastUnique(offenders, n);
    }
    if offenders != {} {
      assert LeastUnshipped(hash, ms, applied, Text.Least(offenders));
    }
  }

  lemma ShippedIsNamed(ms: seq<Migration>)
    requires Ascending(ms)
    ensures forall n :: n in Shipped(ms) <==> Names(ms, n)
  {
    ShippedLookup(ms);
    forall n ensures n in Shipped(ms) <==> Names(ms, n) {
      if i :| 0 <= i < |ms| && ms[i].name == n {
        assert ms[i] in ms;
      }
    }
  }

  lemma NilReconciled(hash: Hash, db: Db, a: Attempt)
    requires RunOutcome(hash, db, a).1.None?
    ensures Ascending(a.build.ships)
    ensures forall n | Key(a.build.owner, n) in db.ledger ::
              ShippedAs(hash, a.build.ships, n, db.ledger[Key(a.build.owner, n)].checksum)
  {
    ValidateAcceptsExactlyWellFormed(a.build.ships);
    var before := Namespace(db, a.build.owner);
    ReconciledMeans(hash, a.build.ships, before);
    assert Reconciled(hash, a.build.ships, before).None?;
    forall n | Key(a.build.owner, n) in db.ledger
      ensures ShippedAs(hash, a.build.ships, n, db.ledger[Key(a.build.owner, n)].checksum)
    {
      assert n in before;
    }
  }

  // The module's rows are exactly the shipped (name, checksum) pairs.
  ghost predicate HoldsExactly(hash: Hash, db: Db, owner: string, ms: seq<Migration>) {
    && (forall n | Key(owner, n) in db.ledger :: Names(ms, n))
    && (forall m | m in ms :: Key(owner, m.name) in db.ledger && db.ledger[Key(owner, m.name)].checksum == hash(m.sql))
  }

  lemma AscendingShipsOnce(hash: Hash, ms: seq<Migration>, m: Migration, sum: string)
    requires Ascending(ms) && m in ms && ShippedAs(hash, ms, m.name, sum)
    ensures hash(m.sql) == sum
  {
    var o :| o in ms && o.name == m.name && hash(o.sql) == sum;
    var i, j :| 0 <= i < |ms| && 0 <= j < |ms| && ms[i] == m && ms[j] == o;
    if i != j {
      DistinctNames(ms, i, j);
    }
  }

  lemma ExtendsHoldsExactly(hash: Hash, db: Db, db': Db, owner: string, ms: seq<Migration>)
    requires Ascending(ms) && Extends(hash, db, db', owner, Missing(db, owner, ms))
    requires forall n | Key(owner, n) in db.ledger :: ShippedAs(hash, ms, n, db.ledger[Key(owner, n)].checksum)
    ensures HoldsExactly(hash, db', owner, ms)
  {
    var todo := Missing(db, owner, ms);
    forall m | m in ms
      ensures Key(owner, m.name) in db'.ledger && db'.ledger[Key(owner, m.name)].checksum == hash(m.sql)
    {
      MissingMember(db, owner, ms, m);
      if m !in todo {
        AscendingShipsOnce(hash, ms, m, db.ledger[Key(owner, m.name)].checksum);
      }
    }
    forall n | Key(owner, n) in db'.ledger ensures Names(ms, n) {
      if Key(owner, n) !in db.ledger {
        var m :| m in todo && m.name == n;
        MissingMember(db, owner, ms, m);
      }
    }
  }

  // Nil means the ledger holds exactly what the build ships.
  lemma NilMeansShipped(hash: Hash, db: Db, a: Attempt)
    requires RunOutcome(hash, db, a).1.None?
    ensures HoldsExactly(hash, RunOutcome(hash, db, a).0, a.build.owner, a.build.ships)
  {
    var todo := Missing(db, a.build.owner, a.build.ships);
    NilReconciled(hash, db, a);
    var k := RunExtends(hash, db, a);
    assert todo[..k] == todo;
    ExtendsHoldsExactly(hash, db, RunOutcome(hash, db, a).0, a.build.owner, a.build.ships);
  }

  // Every error but a failed stage or unlock leaves the database untouched.
  lemma RefusalTouchesNothing(hash: Hash, db: Db, a: Attempt)
    ensures var o := RunOutcome(hash, db, a);
            o.1.Some? && !o.1.value.StageFailed? && !o.1.value.UnlockFailed? ==> o.0 == db
  {
    ApplyFromFailures(hash, db, a, Namespace(db, a.build.owner), 0);
  }

  predicate FaultFree(f: Faults) {
    !f.lock && !f.ensure && !f.read && !f.unlock
  }

  // A run the database does not disturb succeeds exactly when the module is
  // named, its list is well formed, and every recorded migration is shipped unchanged.
  lemma SucceedsExactlyWhenReconciled(hash: Hash, db: Db, a: Attempt)
    requires FaultFree(a.faults) && forall j :: a.faults.at(j) == NoFault
    ensures RunOutcome(hash, db, a).1.None? <==>
            && !Text.Blank(a.build.owner)
            && WellFormed(a.build.ships)
            && forall n | Key(a.build.owner, n) in db.ledger ::
                 ShippedAs(hash, a.build.ships, n, db.ledger[Key(a.build.owner, n)].checksum)
  {
    var owner, ms, rows := a.build.owner, a.build.ships, Namespace(db, a.build.owner);
    ApplyFromFailures(hash, db, a, rows, 0);
    ValidateAcceptsExactlyWellFormed(ms);
    if WellFormed(ms) {
      ReconciledMeans(hash, ms, rows);
      NamespaceLookup(db, owner);
    }
  }

  lemma NamespaceLookup(db: Db, owner: string)
    ensures forall n :: n in Namespace(db, owner) <==> Key(owner, n) in db.ledger
    ensures forall n | Key(owner, n) in db.ledger ::
            n in Namespace(db, owner) && Namespace(db, owner)[n] == db.ledger[Key(owner, n)]
  {
    forall n | Key(owner, n) in db.ledger ensures n in Namespace(db, owner) {
      assert Key(owner, n).name == n;
    }
  }

  // ----- which error a run reports -----

  // One transaction: a fault takes effect at its stage, if that is reached;
  // otherwise a recorded migration is left alone and a new one is committed.
  lemma AppliedExactly(hash: Hash, db: Db, e: Effect, fault: Fault, now: int)
    ensures var o := Applied(hash, db, e, fault, now);
            var done := Db(db.ledger[KeyOf(e) := Row(hash(e.sql), now)], db.history + [e]);
            if fault.Fails? && (fault.stage == Begin || fault.stage == Recheck || KeyOf(e) !in db.ledger) then
              o == (db, Some(StageFailed(e.name, fault.stage)))
            else if KeyOf(e) in db.ledger then o == (db, None)
            else o == (done, if fault == CommitLost then Some(StageFailed(e.name, Commit)) else None)
  {
  }

  function StageOf(fault: Fault): Stage {
    match fault
    case Fails(stage) => stage
    case _ => Commit
  }

  // From entry i on, f is the first missing migration the database disturbs.
  predicate FirstFault(db: Db, a: Attempt, i: nat, f: nat) {
    && i <= f < |a.build.ships| && Key(a.build.owner, a.build.ships[f].name) !in db.ledger
    && a.faults.at(f) != NoFault
    && forall j | i <= j < f && Key(a.build.owner, a.build.ships[j].name) !in db.ledger :: a.faults.at(j) == NoFault
  }

  predicate Undisturbed(db: Db, a: Attempt, i: nat) {
    forall j | i <= j < |a.build.ships| && Key(a.build.owner, a.build.ships[j].name) !in db.ledger ::
      a.faults.at(j) == NoFault
  }

  ghost predicate SnapshotTrue(db: Db, a: Attempt, snapshot: map<string, Row>, i: nat) {
    forall j | i <= j < |a.build.ships| ::
      a.build.ships[j].name in snapshot <==> Key(a.build.owner, a.build.ships[j].name) in db.ledger
  }

  lemma CommitKeepsLater(db: Db, a: Attempt, snapshot: map<string, Row>, i: nat, row: Row)
    requires i < |a.build.ships| && Ascending(a.build.ships) && SnapshotTrue(db, a, snapshot, i)
    ensures var next := Committed(db, EffectOf(a.build.owner, a.build.ships[i]), row);
            && SnapshotTrue(next, a, snapshot, i + 1)
            && forall j | i < j < |a.build.ships| ::
                 Key(a.build.owner, a.build.ships[j].name) in next.ledger <==>
                 Key(a.build.owner, a.build.ships[j].name) in db.ledger
  {
    forall j | i < j < |a.build.ships| ensures a.build.ships[j].name != a.build.ships[i].name {
      DistinctNames(a.build.ships, i, j);
    }
  }

  lemma {:induction false} ApplyFromReports(hash: Hash, db: Db, a: Attempt, snapshot: map<string, Row>, i: nat, f: nat)
    requires Ascending(a.build.ships) && SnapshotTrue(db, a, snapshot, i)
    ensures FirstFault(db, a, i, f) ==>
              ApplyFrom(hash, db, a, snapshot, i).1 ==
              Some(StageFailed(a.build.ships[f].name, StageOf(a.faults.at(f))))
    ensures Undisturbed(db, a, i) ==> ApplyFrom(hash, db, a, snapshot, i).1.None?
    decreases |a.build.ships| - i
  {
    if i < |a.build.ships| {
      var e := EffectOf(a.build.owner, a.build.ships[i]);
      if a.build.ships[i].name in snapshot {
        ApplyFromReports(hash, db, a, snapshot, i + 1, f);
      } else {
        AppliedExactly(hash, db, e, a.faults.at(i), a.faults.clock(i));
        if a.faults.at(i) == NoFault {
          var row := Row(hash(e.sql), a.faults.clock(i));
          CommitKeepsLater(db, a, snapshot, i, row);
          ApplyFromReports(hash, Committed(db, e, row), a, snapshot, i + 1, f);
        }
      }
    }
  }

  lemma {:induction false} FindFault(db: Db, a: Attempt, i: nat) returns (f: nat)
    requires !Undisturbed(db, a, i)
    ensures FirstFault(db, a, i, f)
    decreases |a.build.ships| - i
  {
    if Key(a.build.owner, a.build.ships[i].name) !in db.ledger && a.faults.at(i) != NoFault {
      f := i;
    } else {
      f := FindFault(db, a, i + 1);
    }
  }

  // n is the least of the module's recorded names that is not shipped with its checksum.
  ghost predicate LeastUnshippedRow(hash: Hash, db: Db, b: Build, n: string) {
    && Key(b.owner, n) in db.ledger && !ShippedAs(hash, b.ships, n, db.ledger[Key(b.owner, n)].checksum)
    && forall o | Key(b.owner, o) in db.ledger && !ShippedAs(hash, b.ships, o, db.ledger[Key(b.owner, o)].checksum) ::
         Text.AtMost(n, o)
  }

  ghost predicate AllShipped(hash: Hash, db: Db, b: Build) {
    forall n | Key(b.owner, n) in db.ledger :: ShippedAs(hash, b.ships, n, db.ledger[Key(b.owner, n)].checksum)
  }

  // The run gets to compare the ledger with the build.
  predicate Compares(a: Attempt) {
    && !Text.Blank(a.build.owner) && WellFormed(a.build.ships)
    && !(a.build.postgres && a.faults.lock) && !a.faults.ensure && !a.faults.read
  }

  lemma BodyReports(hash: Hash, db: Db, a: Attempt, n: string)
    requires Compares(a)
    ensures var err := LockedBody(hash, db, a).1;
            && (err == Some(Drift(n)) <==> LeastUnshippedRow(hash, db, a.build, n) && Names(a.build.ships, n))
            && (err == Some(UnknownMigration(n)) <==>
                  LeastUnshippedRow(hash, db, a.build, n) && !Names(a.build.ships, n))
            && (err.None? <==> AllShipped(hash, db, a.build) && Undisturbed(db, a, 0))
            && (err.Some? && !err.value.Drift? && !err.value.UnknownMigration? ==>
                  AllShipped(hash, db, a.build) && err.value.StageFailed?)
  {
    var rows := Namespace(db, a.build.owner);
    NamespaceLookup(db, a.build.owner);
    ReconciledReports(hash, a.build.ships, rows, n);
    ReconciledMeans(hash, a.build.ships, rows);
    ApplyFromReports(hash, db, a, rows, 0, 0);
    ApplyFromFailures(hash, db, a, rows, 0);
    if !Undisturbed(db, a, 0) {
      var f := FindFault(db, a, 0);
      ApplyFromReports(hash, db, a, rows, 0, f);
    }
  }

  // The checks and failures before the ledger is read, in their order, and then drift and
  // unknown migrations, each reported exactly when it is the case.
  lemma RunReports(hash: Hash, db: Db, a: Attempt, n: string)
    ensures var err, b := RunOutcome(hash, db, a).1, a.build;
            && (err == Some(BlankModule) <==> Text.Blank(b.owner))
            && (err.Some? && err.value.Malformed? <==> !Text.Blank(b.owner) && !WellFormed(b.ships))
            && (!Text.Blank(b.owner) && !WellFormed(b.ships) ==> err == Validated(b.ships))
            && (err == Some(LockFailed) <==>
                  !Text.Blank(b.owner) && WellFormed(b.ships) && b.postgres && a.faults.lock)
            && (err == Some(EnsureFailed) <==>
                  && !Text.Blank(b.owner) && WellFormed(b.ships) && !(b.postgres && a.faults.lock) && a.faults.ensure)
            && (err == Some(ReadFailed) <==>
                  && !Text.Blank(b.owner) && WellFormed(b.ships) && !(b.postgres && a.faults.lock)
                  && !a.faults.ensure && a.faults.read)
            && (err == Some(Drift(n)) <==> Compares(a) && LeastUnshippedRow(hash, db, b, n) && Names(b.ships, n))
            && (err == Some(UnknownMigration(n)) <==>
                  Compares(a) && LeastUnshippedRow(hash, db, b, n) && !Names(b.ships, n))
  {
    ValidateAcceptsExactlyWellFormed(a.build.ships);
    if Compares(a) {
      BodyReports(hash, db, a, n);
    }
  }

  // Past the comparison: the first missing migration the database disturbs is the
  // one reported, with the stage at which it was; a failed unlock only if none is.
  lemma RunReportsStages(hash: Hash, db: Db, a: Attempt, f: nat)
    requires Compares(a) && AllShipped(hash, db, a.build)
    ensures var err := RunOutcome(hash, db, a).1;
            && (FirstFault(db, a, 0, f) ==> err == Some(StageFailed(a.build.ships[f].name, StageOf(a.faults.at(f)))))
            && (err == Some(UnlockFailed) <==> Undisturbed(db, a, 0) && a.build.postgres && a.faults.unlock)
            && (err.None? <==> Undisturbed(db, a, 0) && !(a.build.postgres && a.faults.unlock))
  {
    var rows := Namespace(db, a.build.owner);
    ValidateAcceptsExactlyWellFormed(a.build.ships);
    NamespaceLookup(db, a.build.owner);
    ReconciledMeans(hash, a.build.ships, rows);
    BodyReports(hash, db, a, "");
    ApplyFromReports(hash, db, a, rows, 0, f);
  }

  // ----- modules do not see each other -----

  ghost predicate SameFor(owner: string, db1: Db, db2: Db) {
    forall n :: (Key(owner, n) in db1.ledger <==> Key(owner, n) in db2.ledger) &&
                (Key(owner, n) in db1.ledger ==> db1.ledger[Key(owner, n)] == db2.ledger[Key(owner, n)])
  }

  lemma {:induction false} ApplyFromReadsOwnRows(hash: Hash, db1: Db, db2: Db, a: Attempt, snapshot: map<string, Row>,
      i: nat)
    requires SameFor(a.build.owner, db1, db2)
    ensures ApplyFrom(hash, db1, a, snapshot, i).1 == ApplyFrom(hash, db2, a, snapshot, i).1
    ensures SameFor(a.build.owner, ApplyFrom(hash, db1, a, snapshot, i).0, ApplyFrom(hash, db2, a, snapshot, i).0)
    decreases |a.build.ships| - i
  {
    if i < |a.build.ships| {
      if a.build.ships[i].name in snapshot {
        ApplyFromReadsOwnRows(hash, db1, db2, a, snapshot, i + 1);
      } else {
        var e := EffectOf(a.build.owner, a.build.ships[i]);
        assert KeyOf(e) == Key(a.build.owner, a.build.ships[i].name);
        var o1 := Applied(hash, db1, e, a.faults.at(i), a.faults.clock(i));
        var o2 := Applied(hash, db2, e, a.faults.at(i), a.faults.clock(i));
        assert o1.1 == o2.1 && SameFor(a.build.owner, o1.0, o2.0);
        if o1.1.None? {
          ApplyFromReadsOwnRows(hash, o1.0, o2.0, a, snapshot, i + 1);
        }
      }
    }
  }

  // A run's result depends only on its own module's rows.
  lemma RunReadsOwnRows(hash: Hash, db: Db, db2: Db, a: Attempt)
    requires SameFor(a.build.owner, db, db2)
    ensures RunOutcome(hash, db, a).1 == RunOutcome(hash, db2, a).1
    ensures SameFor(a.build.owner, RunOutcome(hash, db, a).0, RunOutcome(hash, db2, a).0)
  {
    LockedBodyReadsOwnRows(hash, db, db2, a);
  }

  lemma NamespaceSame(owner: string, db: Db, db2: Db)
    requires SameFor(owner, db, db2)
    ensures Namespace(db, owner) == Namespace(db2, owner)
  {
  }

  lemma LockedBodyReadsOwnRows(hash: Hash, db: Db, db2: Db, a: Attempt)
    requires SameFor(a.build.owner, db, db2)
    ensures LockedBody(hash, db, a).1 == LockedBody(hash, db2, a).1
    ensures SameFor(a.build.owner, LockedBody(hash, db, a).0, LockedBody(hash, db2, a).0)
  {
    NamespaceSame(a.build.owner, db, db2);
    ReconcilingReadsOwnRows(hash, db, db2, a, Namespace(db, a.build.owner));
  }

  lemma ReconcilingReadsOwnRows(hash: Hash, db: Db, db2: Db, a: Attempt, snapshot: map<string, Row>)
    requires SameFor(a.build.owner, db, db2)
    ensures Reconciling(hash, db, a, snapshot).1 == Reconciling(hash, db2, a, snapshot).1
    ensures SameFor(a.build.owner, Reconciling(hash, db, a, snapshot).0, Reconciling(hash, db2, a, snapshot).0)
  {
    ApplyFromReadsOwnRows(hash, db, db2, a, snapshot, 0);
  }

  // A run leaves the rows and the history of every other module as they were.
  lemma RunKeepsOtherModules(hash: Hash, db: Db, a: Attempt, other: string)
    requires other != a.build.owner
    ensures SameFor(other, db, RunOutcome(hash, db, a).0)
    ensures Of(other, RunOutcome(hash, db, a).0.history) == Of(other, db.history)
  {
    var k := RunExtends(hash, db, a);
    var ms := Missing(db, a.build.owner, a.build.ships)[..k];
    ExtendsKeepsOthers(hash, db, RunOutcome(hash, db, a).0, a.build.owner, ms, other);
  }

  lemma ExtendsKeepsOthers(hash: Hash, db: Db, db': Db, owner: string, ms: seq<Migration>, other: string)
    requires Extends(hash, db, db', owner, ms) && other != owner
    ensures SameFor(other, db, db') && Of(other, db'.history) == Of(other, db.history)
  {
    OfAppend(other, db.history, Effects(owner, ms));
    OfEffects(other, owner, ms);
  }

  // ----- failure and resume -----

  ghost function RunAll(hash: Hash, db: Db, runs: seq<Attempt>): Db {
    if runs == [] then db
    else RunOutcome(hash, RunAll(hash, db, runs[..|runs| - 1]), runs[|runs| - 1]).0
  }

  // Extends, as far as one module can tell.
  ghost predicate ExtendsFor(hash: Hash, db: Db, db': Db, owner: string, ms: seq<Migration>) {
    && Of(owner, db'.history) == Of(owner, db.history) + Effects(owner, ms)
    && (forall n :: Key(owner, n) in db'.ledger <==> Key(owner, n) in db.ledger || Names(ms, n))
    && (forall n | Key(owner, n) in db.ledger :: db'.ledger[Key(owner, n)] == db.ledger[Key(owner, n)])
    && (forall m | m in ms :: Key(owner, m.name) in db'.ledger &&
         db'.ledger[Key(owner, m.name)].checksum == hash(m.sql))
  }

  lemma ExtendsForOwner(hash: Hash, db: Db, db': Db, owner: string, ms: seq<Migration>)
    requires Extends(hash, db, db', owner, ms)
    ensures ExtendsFor(hash, db, db', owner, ms)
  {
    OfAppend(owner, db.history, Effects(owner, ms));
    OfEffects(owner, owner, ms);
  }

  lemma ExtendsForCompose(hash: Hash, a: Db, b: Db, c: Db, owner: string, ms: seq<Migration>, ns: seq<Migration>)
    requires ExtendsFor(hash, a, b, owner, ms) && ExtendsFor(hash, b, c, owner, ns)
    ensures ExtendsFor(hash, a, c, owner, ms + ns)
  {
    EffectsAppend(owner, ms, ns);
    NamesAppend(ms, ns);
    forall m | m in ms + ns
      ensures Key(owner, m.name) in c.ledger && c.ledger[Key(owner, m.name)].checksum == hash(m.sql)
    {
      if m in ms {
        assert Key(owner, m.name) in b.ledger;
      }
    }
  }

  // Committing the first k missing migrations leaves the rest missing.
  // db' has, of these migrations, what db has and the first k it lacks.
  ghost predicate Gains(db: Db, db': Db, owner: string, ms: seq<Migration>, k: nat)
    requires k <= |Missing(db, owner, ms)|
  {
    forall m | m in ms :: Key(owner, m.name) in db'.ledger <==>
      Key(owner, m.name) in db.ledger || Names(Missing(db, owner, ms)[..k], m.name)
  }

  lemma FirstGained(db: Db, db': Db, owner: string, ms: seq<Migration>, k: nat)
    requires ms != [] && Ascending(ms) && Key(owner, ms[0].name) !in db.ledger
    requires 0 < k <= |Missing(db, owner, ms)| && Gains(db, db', owner, ms, k)
    ensures Key(owner, ms[0].name) in db'.ledger && Gains(db, db', owner, ms[1..], k - 1)
  {
    var rest, later := ms[1..], Missing(db, owner, ms[1..]);
    TakeCons(ms[0], later, k - 1);
    assert ms[0] in [ms[0]] + later[..k - 1];
    NamesAppend([ms[0]], later[..k - 1]);
    forall j | 0 <= j < |rest| ensures rest[j].name != ms[0].name {
      DistinctNames(ms, 0, j + 1);
    }
  }

  lemma {:induction false} MissingShrinks(db: Db, db': Db, owner: string, ms: seq<Migration>, k: nat)
    requires Ascending(ms) && k <= |Missing(db, owner, ms)| && Gains(db, db', owner, ms, k)
    ensures Missing(db', owner, ms) == Missing(db, owner, ms)[k..]
  {
    if ms != [] {
      var rest := ms[1..];
      if Key(owner, ms[0].name) in db.ledger {
        MissingShrinks(db, db', owner, rest, k);
      } else if k == 0 {
        MissingDependsOnNames(db, db', owner, ms);
      } else {
        FirstGained(db, db', owner, ms, k);
        MissingShrinks(db, db', owner, rest, k - 1);
      }
    }
  }

  // db' has gained, for one module, exactly the first k migrations it lacked in
  // db; if that module ran alone, nothing else was committed at all.
  ghost predicate Progressed(hash: Hash, db: Db, db': Db, owner: string, ships: seq<Migration>, k: nat, alone: bool) {
    var todo := Missing(db, owner, ships);
    && k <= |todo|
    && ExtendsFor(hash, db, db', owner, todo[..k])
    && Missing(db', owner, ships) == todo[k..]
    && (alone ==> db'.history == db.history + Effects(owner, todo[..k]))
  }

  lemma TakeMore<T>(s: seq<T>, k: nat, n: nat)
    requires k + n <= |s|
    ensures s[..k] + s[k..][..n] == s[..k + n]
    ensures s[k..][n..] == s[k + n..]
  {
  }

  lemma HistoryGrows(h: seq<Effect>, owner: string, ms: seq<Migration>, k: nat, n: nat)
    requires k + n <= |ms|
    ensures h + Effects(owner, ms[..k]) + Effects(owner, ms[k..][..n]) == h + Effects(owner, ms[..k + n])
  {
    assert Effects(owner, ms[..k + n]) == Effects(owner, ms[..k]) + Effects(owner, ms[k..][..n]);
  }

  lemma ProgressComposes(hash: Hash, db: Db, mid: Db, end: Db, owner: string, ships: seq<Migration>, k: nat, n: nat,
      alone: bool)
    requires Progressed(hash, db, mid, owner, ships, k, alone)
    requires Progressed(hash, mid, end, owner, ships, n, alone)
    ensures Progressed(hash, db, end, owner, ships, k + n, alone)
  {
    var todo := Missing(db, owner, ships);
    TakeMore(todo, k, n);
    ExtendsForCompose(hash, db, mid, end, owner, todo[..k], todo[k..][..n]);
    HistoryGrows(db.history, owner, todo, k, n);
  }

  lemma ProgressStart(hash: Hash, db: Db, owner: string, ships: seq<Migration>, alone: bool)
    ensures Progressed(hash, db, db, owner, ships, 0, alone)
  {
    assert Effects(owner, Missing(db, owner, ships)[..0]) == [];
  }

  lemma ExtendsProgresses(hash: Hash, db: Db, end: Db, owner: string, ships: seq<Migration>, k: nat)
    requires Ascending(ships) && k <= |Missing(db, owner, ships)|
    requires Extends(hash, db, end, owner, Missing(db, owner, ships)[..k])
    ensures Progressed(hash, db, end, owner, ships, k, true)
  {
    ExtendsForOwner(hash, db, end, owner, Missing(db, owner, ships)[..k]);
    MissingShrinks(db, end, owner, ships, k);
  }

  lemma OtherProgresses(hash: Hash, db: Db, end: Db, owner: string, ships: seq<Migration>)
    requires SameFor(owner, db, end) && Of(owner, db.history) == Of(owner, end.history)
    ensures Progressed(hash, db, end, owner, ships, 0, false)
  {
    MissingDependsOnNames(db, end, owner, ships);
    assert Effects(owner, Missing(db, owner, ships)[..0]) == [];
  }

  lemma RunProgresses(hash: Hash, db: Db, a: Attempt, owner: string, ships: seq<Migration>, alone: bool)
      returns (k: nat)
    requires a.build.owner == owner ==> a.build.ships == ships
    requires alone ==> a.build.owner == owner
    ensures Progressed(hash, db, RunOutcome(hash, db, a).0, owner, ships, k, alone)
  {
    var end := RunOutcome(hash, db, a).0;
    if a.build.owner != owner {
      RunKeepsOtherModules(hash, db, a, owner);
      OtherProgresses(hash, db, end, owner, ships);
      return 0;
    } else if Ascending(ships) {
      k := RunExtends(hash, db, a);
      ExtendsProgresses(hash, db, end, owner, ships, k);
      return;
    } else {
      ValidateAcceptsExactlyWellFormed(ships);
      ProgressStart(hash, db, owner, ships, alone);
      return 0;
    }
  }

  lemma OneMoreProgresses(hash: Hash, db: Db, mid: Db, a: Attempt, owner: string, ships: seq<Migration>, j: nat,
      alone: bool)
      returns (k: nat)
    requires Progressed(hash, db, mid, owner, ships, j, alone)
    requires a.build.owner == owner ==> a.build.ships == ships
    requires alone ==> a.build.owner == owner
    ensures Progressed(hash, db, RunOutcome(hash, mid, a).0, owner, ships, k, alone)
  {
    var end := RunOutcome(hash, mid, a).0;
    var n := RunProgresses(hash, mid, a, owner, ships, alone);
    assert Progressed(hash, mid, end, owner, ships, n, alone);
    ProgressComposes(hash, db, mid, end, owner, ships, j, n, alone);
    k := j + n;
  }

  // Any sequence of runs, failing wherever it fails, has committed for one
  // module some initial part of what it lacked at the start, in order.
  lemma {:induction false} RunsProgress(hash: Hash, db: Db, runs: seq<Attempt>, owner: string, ships: seq<Migration>,
      alone: bool)
      returns (k: nat)
    requires forall r | r in runs && r.build.owner == owner :: r.build.ships == ships
    requires alone ==> forall r | r in runs :: r.build.owner == owner
    ensures Progressed(hash, db, RunAll(hash, db, runs), owner, ships, k, alone)
  {
    if runs == [] {
      ProgressStart(hash, db, owner, ships, alone);
      return 0;
    }
    var front, last := runs[..|runs| - 1], runs[|runs| - 1];
    assert last in runs && forall r | r in front :: r in runs;
    var j := RunsProgress(hash, db, front, owner, ships, alone);
    k := OneMoreProgresses(hash, db, RunAll(hash, db, front), last, owner, ships, j, alone);
  }

  lemma NilLeavesNothingMissing(hash: Hash, db: Db, a: Attempt)
    requires RunOutcome(hash, db, a).1.None?
    ensures Missing(RunOutcome(hash, db, a).0, a.build.owner, a.build.ships) == []
  {
    var end := RunOutcome(hash, db, a).0;
    NilMeansShipped(hash, db, a);
    NothingMissing(end, a.build.owner, a.build.ships);
  }

  lemma {:induction false} NothingMissing(db: Db, owner: string, ms: seq<Migration>)
    requires forall m | m in ms :: Key(owner, m.name) in db.ledger
    ensures Missing(db, owner, ms) == []
  {
    if ms != [] {
      NothingMissing(db, owner, ms[1..]);
    }
  }

  ghost predicate SameRecords(owner: string, a: Db, b: Db) {
    forall n :: (Key(owner, n) in a.ledger <==> Key(owner, n) in b.ledger) &&
                (Key(owner, n) in a.ledger ==> a.ledger[Key(owner, n)].checksum == b.ledger[Key(owner, n)].checksum)
  }

  lemma ProgressedAlike(hash: Hash, db: Db, a: Db, b: Db, owner: string, ships: seq<Migration>, k: nat, alone: bool)
    requires Progressed(hash, db, a, owner, ships, k, alone) && Progressed(hash, db, b, owner, ships, k, true)
    ensures SameRecords(owner, a, b) && Of(owner, a.history) == Of(owner, b.history)
    ensures alone ==> a.history == b.history
  {
    var done := Missing(db, owner, ships)[..k];
    forall n | Key(owner, n) in a.ledger
      ensures Key(owner, n) in b.ledger && a.ledger[Key(owner, n)].checksum == b.ledger[Key(owner, n)].checksum
    {
      if Key(owner, n) !in db.ledger {
        var m :| m in done && m.name == n;
      }
    }
  }

  // The run that finally succeeds after any failures leaves the module where
  // one uninterrupted run would have: the same records, and the same SQL
  // committed in the same order, each piece once.
  lemma Resume(hash: Hash, db: Db, runs: seq<Attempt>, a: Attempt, calm: Attempt)
    requires forall r | r in runs && r.build.owner == a.build.owner :: r.build.ships == a.build.ships
    requires RunOutcome(hash, RunAll(hash, db, runs), a).1.None?
    requires calm.build == a.build && FaultFree(calm.faults) && forall j :: calm.faults.at(j) == NoFault
    ensures var end, direct := RunOutcome(hash, RunAll(hash, db, runs), a).0, RunOutcome(hash, db, calm);
            && direct.1.None?
            && SameRecords(a.build.owner, end, direct.0)
            && Of(a.build.owner, end.history) == Of(a.build.owner, direct.0.history)
            && ((forall r | r in runs :: r.build.owner == a.build.owner) ==> end.history == direct.0.history)
  {
    var owner, ships, mid := a.build.owner, a.build.ships, RunAll(hash, db, runs);
    var alone := forall r | r in runs :: r.build.owner == owner;
    var j := RunsProgress(hash, db, runs, owner, ships, alone);
    var k := OneMoreProgresses(hash, db, mid, a, owner, ships, j, alone);
    ResumedDirectly(hash, db, mid, a, calm, k, alone);
  }

  lemma ResumedDirectly(hash: Hash, db: Db, mid: Db, a: Attempt, calm: Attempt, k: nat, alone: bool)
    requires RunOutcome(hash, mid, a).1.None?
    requires Progressed(hash, db, RunOutcome(hash, mid, a).0, a.build.owner, a.build.ships, k, alone)
    requires calm.build == a.build && FaultFree(calm.faults) && forall j :: calm.faults.at(j) == NoFault
    ensures var end, direct := RunOutcome(hash, mid, a).0, RunOutcome(hash, db, calm);
            && direct.1.None?
            && SameRecords(a.build.owner, end, direct.0)
            && Of(a.build.owner, end.history) == Of(a.build.owner, direct.0.history)
            && (alone ==> end.history == direct.0.history)
  {
    var owner, ships, end := a.build.owner, a.build.ships, RunOutcome(hash, mid, a).0;
    ReconcilesEarlier(hash, db, mid, a, calm, k, alone);
    NilLeavesNothingMissing(hash, mid, a);
    NilLeavesNothingMissing(hash, db, calm);
    var d := RunProgresses(hash, db, calm, owner, ships, true);
    ProgressedAlike(hash, db, end, RunOutcome(hash, db, calm).0, owner, ships, k, alone);
  }

  lemma ReconcilesEarlier(hash: Hash, db: Db, mid: Db, a: Attempt, calm: Attempt, k: nat, alone: bool)
    requires RunOutcome(hash, mid, a).1.None?
    requires Progressed(hash, db, RunOutcome(hash, mid, a).0, a.build.owner, a.build.ships, k, alone)
    requires calm.build == a.build && FaultFree(calm.faults) && forall j :: calm.faults.at(j) == NoFault
    ensures RunOutcome(hash, db, calm).1.None?
  {
    var owner, ships, end := a.build.owner, a.build.ships, RunOutcome(hash, mid, a).0;
    NilMeansShipped(hash, mid, a);
    ValidateAcceptsExactlyWellFormed(ships);
    SucceedsExactlyWhenReconciled(hash, db, calm);
    forall n | Key(owner, n) in db.ledger ensures ShippedAs(hash, ships, n, db.ledger[Key(owner, n)].checksum) {
      assert Key(owner, n) in end.ledger && end.ledger[Key(owner, n)] == db.ledger[Key(owner, n)];
      var m :| m in ships && m.name == n;
    }
  }

  // Once a run has returned nil, later runs of the same list change nothing at
  // all, whatever fails in them.
  lemma FurtherRunsChangeNothing(hash: Hash, db: Db, a: Attempt, again: Attempt)
    requires RunOutcome(hash, db, a).1.None?
    requires again.build.owner == a.build.owner && again.build.ships == a.build.ships
    ensures RunOutcome(hash, RunOutcome(hash, db, a).0, again).0 == RunOutcome(hash, db, a).0
  {
    var end := RunOutcome(hash, db, a).0;
    NilLeavesNothingMissing(hash, db, a);
    NothingMissingNothingDone(hash, end, again);
  }

  lemma NothingMissingNothingDone(hash: Hash, db: Db, a: Attempt)
    requires Missing(db, a.build.owner, a.build.ships) == []
    ensures RunOutcome(hash, db, a).0 == db
  {
    var k := RunExtends(hash, db, a);
    ExtendsByNothing(hash, db, RunOutcome(hash, db, a).0, a.build.owner);
  }

  lemma ExtendsByNothing(hash: Hash, db: Db, db': Db, owner: string)
    requires Extends(hash, db, db', owner, [])
    ensures db' == db
  {
    assert Effects(owner, []) == [];
    assert forall n :: !Names([], n);
  }

  ghost predicate Injective(hash: Hash) {
    forall x, y :: hash(x) == hash(y) ==> x == y
  }

  // After nil, each shipped migration's SQL stands in the history exactly once.
  lemma ShippedExactlyOnce(hash: Hash, db: Db, a: Attempt, m: Migration)
    requires Agrees(hash, db) && Injective(hash)
    requires RunOutcome(hash, db, a).1.None? && m in a.build.ships
    ensures var h := RunOutcome(hash, db, a).0.history;
            exists i :: 0 <= i < |h| && h[i] == EffectOf(a.build.owner, m) &&
                        forall j | 0 <= j < |h| && j != i :: KeyOf(h[j]) != Key(a.build.owner, m.name)
  {
    var end := RunOutcome(hash, db, a).0;
    RunAgrees(hash, db, a);
    NilMeansShipped(hash, db, a);
    var e :| e in end.history && KeyOf(e) == Key(a.build.owner, m.name);
    assert hash(e.sql) == hash(m.sql);
    var i :| 0 <= i < |end.history| && end.history[i] == e;
  }

  // ----- lists that only grow at the end -----

  // The module's commits are the first j migrations of the full list.
  ghost predicate OnTrack(db: Db, owner: string, full: seq<Migration>, j: nat) {
    && j <= |full|
    && Ascending(full[..j])
    && Of(owner, db.history) == Effects(owner, full[..j])
    && forall n :: Key(owner, n) in db.ledger <==> Names(full[..j], n)
  }

  lemma {:induction false} MissingOfPrefix(db: Db, owner: string, ms: seq<Migration>, j: nat)
    requires j <= |ms|
    requires forall i | 0 <= i < |ms| :: Key(owner, ms[i].name) in db.ledger <==> i < j
    ensures Missing(db, owner, ms) == ms[j..]
  {
    if ms != [] {
      assert forall i | 0 <= i < |ms| - 1 :: ms[1..][i] == ms[i + 1];
      MissingOfPrefix(db, owner, ms[1..], if j == 0 then 0 else j - 1);
    }
  }

  lemma MissingOnTrack(db: Db, owner: string, full: seq<Migration>, j: nat, n: nat)
    requires OnTrack(db, owner, full, j) && n <= |full| && Ascending(full[..n])
    ensures Missing(db, owner, full[..n]) == if j <= n then full[j..n] else []
  {
    var ms := full[..n];
    forall i | 0 <= i < n ensures Key(owner, ms[i].name) in db.ledger <==> i < j {
      if i < j {
        assert full[..j][i] == ms[i] && ms[i] in full[..j];
      } else if Names(full[..j], ms[i].name) {
        var m :| m in full[..j] && m.name == ms[i].name;
        var l :| 0 <= l < j && full[..j][l] == m;
        assert ms[l] == m;
        DistinctNames(ms, l, i);
      }
    }
    MissingOfPrefix(db, owner, ms, if j <= n then j else n);
  }

  lemma RunStaysOnTrack(hash: Hash, db: Db, a: Attempt, owner: string, full: seq<Migration>, j: nat) returns (j': nat)
    requires OnTrack(db, owner, full, j)
    requires a.build.owner == owner ==> a.build.ships <= full
    ensures OnTrack(RunOutcome(hash, db, a).0, owner, full, j') && j <= j'
  {
    var end, n := RunOutcome(hash, db, a).0, |a.build.ships|;
    if a.build.owner != owner {
      RunKeepsOtherModules(hash, db, a, owner);
      return j;
    } else if Ascending(a.build.ships) {
      assert a.build.ships == full[..n];
      var k := RunExtends(hash, db, a);
      MissingOnTrack(db, owner, full, j, n);
      ExtendsForOwner(hash, db, end, owner, Missing(db, owner, full[..n])[..k]);
      ExtendsStaysOnTrack(hash, db, end, owner, full, j, n, k);
      return j + k;
    } else {
      ValidateAcceptsExactlyWellFormed(a.build.ships);
      return j;
    }
  }

  lemma ExtendsStaysOnTrack(hash: Hash, db: Db, end: Db, owner: string, full: seq<Migration>, j: nat, n: nat, k: nat)
    requires OnTrack(db, owner, full, j) && n <= |full| && Ascending(full[..n])
    requires var todo := if j <= n then full[j..n] else [];
             k <= |todo| && ExtendsFor(hash, db, end, owner, todo[..k])
    ensures OnTrack(end, owner, full, j + k)
  {
    var todo := if j <= n then full[j..n] else [];
    TodoJoins(full, j, n, k);
    NamesAppend(full[..j], todo[..k]);
    EffectsAppend(owner, full[..j], todo[..k]);
  }

  lemma TodoJoins(full: seq<Migration>, j: nat, n: nat, k: nat)
    requires j <= |full| && n <= |full| && Ascending(full[..j]) && Ascending(full[..n])
    requires k <= |if j <= n then full[j..n] else []|
    ensures j + k <= |full| && full[..j] + (if j <= n then full[j..n] else [])[..k] == full[..j + k]
    ensures Ascending(full[..j + k])
  {
    if k > 0 {
      assert full[..j + k] == full[..n][..j + k];
    } else {
      assert full[..j + k] == full[..j];
    }
  }

  // If every build of a module ships a list that the full list only extends at
  // the end, the module's commits are, after any runs in any order and with any
  // failures, an initial part of the full list, so strictly ascending by name.
  lemma {:induction false} GrowingListsStayOrdered(hash: Hash, db: Db, runs: seq<Attempt>, owner: string,
      full: seq<Migration>, j: nat)
      returns (j': nat)
    requires OnTrack(db, owner, full, j)
    requires forall r | r in runs && r.build.owner == owner :: r.build.ships <= full
    ensures OnTrack(RunAll(hash, db, runs), owner, full, j') && j <= j'
    ensures var h := Of(owner, RunAll(hash, db, runs).history);
            forall x, y | 0 <= x < y < |h| :: Text.Less(h[x].name, h[y].name)
  {
    if runs == [] {
      j' := j;
    } else {
      var front, last := runs[..|runs| - 1], runs[|runs| - 1];
      assert last in runs && forall r | r in front :: r in runs;
      var i := GrowingListsStayOrdered(hash, db, front, owner, full, j);
      j' := RunStaysOnTrack(hash, RunAll(hash, db, front), last, owner, full, i);
    }
    OnTrackAscends(RunAll(hash, db, runs), owner, full, j');
  }

  lemma OnTrackAscends(db: Db, owner: string, full: seq<Migration>, j: nat)
    requires OnTrack(db, owner, full, j)
    ensures var h := Of(owner, db.history);
            forall x, y | 0 <= x < y < |h| :: Text.Less(h[x].name, h[y].name)
  {
    var h := Of(owner, db.history);
    forall x, y | 0 <= x < y < |h| ensures Text.Less(h[x].name, h[y].name) {
      assert h[x].name == full[..j][x].name && h[y].name == full[..j][y].name;
    }
  }
}
