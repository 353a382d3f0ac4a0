/** pkg/migrate/migrate.go: the ledger protocol of one runner. */
module Migrate {
  import opened Sequences
  import Text

  datatype Migration = Migration(name: string, sql: string)

  // The ledger's primary key (module, name).
  datatype Key = Key(owner: string, name: string)
  datatype Row = Row(checksum: string, appliedAt: int)

  // One committed migration transaction, as the schema saw it.
  datatype Effect = Effect(owner: string, name: string, sql: string)

  // The schema of a database is determined by the committed history of its SQL.
  datatype Db = Db(ledger: map<Key, Row>, history: seq<Effect>)

  datatype Problem = NoName | NoSql | Duplicate | OutOfOrder
  datatype Stage = Begin | Recheck | Exec | Record | Commit
  datatype Error =
    | BlankModule
    | Malformed(at: nat, problem: Problem)
    | LockFailed
    | EnsureFailed
    | ReadFailed
    | UnknownMigration(name: string)
    | Drift(name: string)
    | StageFailed(name: string, stage: Stage)
    | Clash(name: string)
    | UnlockFailed

  // What the database does to one migration's transaction. CommitLost is a
  // commit that took effect although the caller was told it failed.
  datatype Fault = NoFault | Fails(stage: Stage) | CommitLost

  // unlock is a failed unlock; stuck says that it left the session's lock held.
  datatype Faults = Faults(lock: bool, ensure: bool, read: bool, unlock: bool, stuck: bool,
                           at: nat -> Fault, clock: nat -> int)

  datatype Build = Build(owner: string, postgres: bool, ships: seq<Migration>)
  datatype Attempt = Attempt(build: Build, faults: Faults)

  type Hash = string -> string
  type Outcome = (Db, Option<Error>)

  function KeyOf(e: Effect): Key {
    Key(e.owner, e.name)
  }

  function EffectOf(owner: string, m: Migration): Effect {
    Effect(owner, m.name, m.sql)
  }

  function Effects(owner: string, ms: seq<Migration>): seq<Effect> {
    seq(|ms|, i requires 0 <= i < |ms| => EffectOf(owner, ms[i]))
  }

  // ----- validate -----

  predicate Acceptable(ms: seq<Migration>, i: nat)
    requires i < |ms|
  {
    && !Text.Blank(ms[i].name) && !Text.Blank(ms[i].sql)
    && (i > 0 ==> Text.Less(ms[i - 1].name, ms[i].name))
  }

  predicate Ascending(ms: seq<Migration>) {
    forall i, j | 0 <= i < j < |ms| :: Text.Less(ms[i].name, ms[j].name)
  }

  predicate WellFormed(ms: seq<Migration>) {
    && Ascending(ms)
    && forall i | 0 <= i < |ms| :: !Text.Blank(ms[i].name) && !Text.Blank(ms[i].sql)
  }

  // The problem reported for entry i, if any.
  function ProblemAt(ms: seq<Migration>, i: nat): Option<Problem>
    requires i < |ms|
  {
    if Text.Blank(ms[i].name) then Some(NoName)
    else if Text.Blank(ms[i].sql) then Some(NoSql)
    else if exists j | 0 <= j < i :: ms[j].name == ms[i].name then Some(Duplicate)
    else if i > 0 && !Text.Less(ms[i - 1].name, ms[i].name) then Some(OutOfOrder)
    else None
  }

  function Validated(ms: seq<Migration>, from: nat := 0): (err: Option<Error>)
    ensures err.Some? ==> err.value.Malformed?
    decreases |ms| - from
  {
    if from >= |ms| then None
    else if ProblemAt(ms, from).Some? then Some(Malformed(from, ProblemAt(ms, from).value))
    else Validated(ms, from + 1)
  }

  method Validate(ms: seq<Migration>) returns (err: Option<Error>)
    ensures err == Validated(ms)
  {
    var seen: set<string> := {};
    var i := 0;
    while i < |ms|
      invariant 0 <= i <= |ms|
      invariant seen == set j | 0 <= j < i :: ms[j].name
      invariant Validated(ms) == Validated(ms, i)
    {
      var m := ms[i];
      if Text.Blank(m.name) {
        return Some(Malformed(i, NoName));
      }
      if Text.Blank(m.sql) {
        return Some(Malformed(i, NoSql));
      }
      if m.name in seen {
        return Some(Malformed(i, Duplicate));
      }
      seen := seen + {m.name};
      if i > 0 && Text.AtMost(m.name, ms[i - 1].name) {
        return Some(Malformed(i, OutOfOrder));
      }
      i := i + 1;
    }
    return None;
  }

  lemma {:induction false} AscendingStep(ms: seq<Migration>, n: nat)
    requires n < |ms| && Ascending(ms[..n])
    requires n > 0 ==> Text.Less(ms[n - 1].name, ms[n].name)
    ensures Ascending(ms[..n + 1])
  {
    var next := ms[..n + 1];
    forall i, j | 0 <= i < j < |next| ensures Text.Less(next[i].name, next[j].name) {
      if j < n {
        assert ms[..n][i] == next[i] && ms[..n][j] == next[j];
      } else if i < n - 1 {
        assert ms[..n][i] == next[i] && ms[..n][n - 1] == next[n - 1];
        Text.LessTransitive(next[i].name, next[n - 1].name, next[n].name);
      }
    }
  }

  lemma {:induction false} ValidatedSuffix(ms: seq<Migration>, from: nat)
    requires from <= |ms| && WellFormed(ms[..from])
    ensures Validated(ms, from).None? <==> WellFormed(ms)
    decreases |ms| - from
  {
    if from == |ms| {
      assert ms[..from] == ms;
    } else if Acceptable(ms, from) {
      AscendingStep(ms, from);
      forall j | 0 <= j < from ensures ms[j].name != ms[from].name {
        assert ms[..from + 1][j] == ms[j];
        Text.LessTotal(ms[j].name, ms[from].name);
      }
      ValidatedSuffix(ms, from + 1);
    } else {
      assert ProblemAt(ms, from).Some?;
    }
  }

  // A list is accepted exactly when it has names and SQL and its names ascend.
  lemma ValidateAcceptsExactlyWellFormed(ms: seq<Migration>)
    ensures Validated(ms).None? <==> WellFormed(ms)
  {
    ValidatedSuffix(ms, 0);
  }

  // Entry i is the first that is nameless, empty, or not after its predecessor.
  predicate FirstBad(ms: seq<Migration>, i: nat) {
    && i < |ms|
    && (Text.Blank(ms[i].name) || Text.Blank(ms[i].sql) || (i > 0 && !Text.Less(ms[i - 1].name, ms[i].name)))
    && (forall j | 0 <= j < i :: !Text.Blank(ms[j].name) && !Text.Blank(ms[j].sql))
    && (forall j | 0 < j < i :: Text.Less(ms[j - 1].name, ms[j].name))
  }

  lemma {:induction false} ReportsFirst(ms: seq<Migration>, from: nat)
    requires from <= |ms| && WellFormed(ms[..from])
    ensures Validated(ms, from).Some? ==> FirstBad(ms, Validated(ms, from).value.at)
    ensures Validated(ms, from).Some? ==>
              ProblemAt(ms, Validated(ms, from).value.at) == Some(Validated(ms, from).value.problem)
    decreases |ms| - from
  {
    if from < |ms| && Acceptable(ms, from) {
      AscendingStep(ms, from);
      forall j | 0 <= j < from ensures ms[j].name != ms[from].name {
        assert ms[..from + 1][j] == ms[j];
        Text.LessTotal(ms[j].name, ms[from].name);
      }
      ReportsFirst(ms, from + 1);
    } else if from < |ms| {
      forall j | 0 <= j < from ensures !Text.Blank(ms[j].name) && !Text.Blank(ms[j].sql) {
        assert ms[..from][j] == ms[j];
      }
      forall j | 0 < j < from ensures Text.Less(ms[j - 1].name, ms[j].name) {
        assert ms[..from][j - 1] == ms[j - 1] && ms[..from][j] == ms[j];
      }
    }
  }

  // What is reported is the first bad entry; of its problems a missing name comes
  // before missing SQL, and a name used before comes before a name out of order.
  lemma ValidateReportsFirst(ms: seq<Migration>, i: nat)
    ensures Validated(ms) == Some(Malformed(i, NoName)) <==> FirstBad(ms, i) && Text.Blank(ms[i].name)
    ensures Validated(ms) == Some(Malformed(i, NoSql)) <==>
            FirstBad(ms, i) && !Text.Blank(ms[i].name) && Text.Blank(ms[i].sql)
    ensures Validated(ms) == Some(Malformed(i, Duplicate)) <==>
            && FirstBad(ms, i) && !Text.Blank(ms[i].name) && !Text.Blank(ms[i].sql)
            && exists j | 0 <= j < i :: ms[j].name == ms[i].name
    ensures Validated(ms) == Some(Malformed(i, OutOfOrder)) <==>
            && FirstBad(ms, i) && !Text.Blank(ms[i].name) && !Text.Blank(ms[i].sql)
            && forall j | 0 <= j < i :: ms[j].name != ms[i].name
  {
    ReportsFirst(ms, 0);
    ValidateAcceptsExactlyWellFormed(ms);
    if FirstBad(ms, i) {
      BadIsNotWellFormed(ms, i);
      OneFirstBad(ms, i, Validated(ms).value.at);
    }
  }

  lemma BadIsNotWellFormed(ms: seq<Migration>, i: nat)
    requires FirstBad(ms, i)
    ensures !WellFormed(ms)
  {
  }

  lemma OneFirstBad(ms: seq<Migration>, i: nat, j: nat)
    requires FirstBad(ms, i) && FirstBad(ms, j)
    ensures i == j
  {
  }

  // ----- reconcile -----

  function Shipped(ms: seq<Migration>): map<string, string> {
    if ms == [] then map[] else Shipped(ms[..|ms| - 1])[ms[|ms| - 1].name := ms[|ms| - 1].sql]
  }

  lemma {:induction false} ShippedLookup(ms: seq<Migration>)
    requires Ascending(ms)
    ensures forall n :: n in Shipped(ms) <==> exists i | 0 <= i < |ms| :: ms[i].name == n
    ensures forall i | 0 <= i < |ms| :: ms[i].name in Shipped(ms) && Shipped(ms)[ms[i].name] == ms[i].sql
  {
    if ms != [] {
      var front, last := ms[..|ms| - 1], ms[|ms| - 1];
      ShippedLookup(front);
      forall i | 0 <= i < |ms| - 1 ensures ms[i].name != last.name {
        Text.LessTotal(ms[i].name, last.name);
      }
      assert forall i | 0 <= i < |front| :: front[i] == ms[i];
      forall n | n in Shipped(ms) ensures exists i | 0 <= i < |ms| :: ms[i].name == n {
        if n == last.name {
          assert ms[|ms| - 1].name == n;
        } else {
          assert n in Shipped(front);
          var i :| 0 <= i < |front| && front[i].name == n;
          assert ms[i].name == n;
        }
      }
      forall n, i | 0 <= i < |ms| && ms[i].name == n ensures n in Shipped(ms) {
        if i < |front| {
          assert front[i].name == n;
        }
      }
    }
  }

  predicate Offender(hash: Hash, ms: seq<Migration>, applied: map<string, Row>, n: string) {
    && n in applied
    && (n in Shipped(ms) ==> hash(Shipped(ms)[n]) != applied[n].checksum)
  }

  function Complaint(ms: seq<Migration>, n: string): Error {
    if n in Shipped(ms) then Drift(n) else UnknownMigration(n)
  }

  ghost function Offenders(hash: Hash, ms: seq<Migration>, applied: map<string, Row>): set<string> {
    set n | n in applied && Offender(hash, ms, applied, n)
  }

  // The complaint is about the least offending name.
  ghost function Reconciled(hash: Hash, ms: seq<Migration>, applied: map<string, Row>): Option<Error> {
    var offenders := Offenders(hash, ms, applied);
    if offenders == {} then None else Some(Complaint(ms, Text.Least(offenders)))
  }

  method SortedNames(applied: map<string, Row>) returns (names: seq<string>)
    ensures Sorted(Text.AtMost, names)
    ensures forall n :: n in names <==> n in applied
  {
    names := [];
    var rest := applied.Keys;
    while rest != {}
      invariant rest <= applied.Keys
      invariant forall n :: n in applied <==> n in names || n in rest
      decreases rest
    {
      var n :| n in rest;
      names, rest := names + [n], rest - {n};
    }
    AtMostIsPreorder();
    StableSortSorts(Text.AtMost, names);
    forall n ensures n in StableSort(Text.AtMost, names) <==> n in applied {
      StableSortMember(Text.AtMost, names, n);
    }
    names := StableSort(Text.AtMost, names);
  }

  method Reconcile(hash: Hash, ms: seq<Migration>, applied: map<string, Row>) returns (err: Option<Error>)
    ensures err == Reconciled(hash, ms, applied)
  {
    var shipped: map<string, string> := map[];
    for i := 0 to |ms|
      invariant shipped == Shipped(ms[..i])
    {
      assert ms[..i + 1][..i] == ms[..i];
      shipped := shipped[ms[i].name := ms[i].sql];
    }
    assert ms[..|ms|] == ms;
    var names := SortedNames(applied);
    for i := 0 to |names|
      invariant forall j | 0 <= j < i :: !Offender(hash, ms, applied, names[j])
    {
      var name := names[i];
      assert name in names;
      if name !in shipped || hash(shipped[name]) != applied[name].checksum {
        forall o | o in Offenders(hash, ms, applied) ensures Text.AtMost(name, o) {
          assert o in names;
          var j :| 0 <= j < |names| && names[j] == o;
          Text.LessTotal(o, o);
        }
        Text.LeastUnique(Offenders(hash, ms, applied), name);
        return Some(Complaint(ms, name));
      }
    }
    assert forall n | n in applied :: n in names && !Offender(hash, ms, applied, n);
    return None;
  }

  // ----- the database -----

  // The ledger and the committed history name the same migrations, each once,
  // and the ledger holds the checksum of the SQL that was committed.
  ghost predicate Agrees(hash: Hash, db: Db) {
    && (forall i, j | 0 <= i < j < |db.history| :: KeyOf(db.history[i]) != KeyOf(db.history[j]))
    && (forall e | e in db.history :: KeyOf(e) in db.ledger && db.ledger[KeyOf(e)].checksum == hash(e.sql))
    && (forall k | k in db.ledger :: exists e :: e in db.history && KeyOf(e) == k)
  }

  // appliedFor: the rows of one module by name.
  function Namespace(db: Db, owner: string): map<string, Row> {
    map n | n in (set k | k in db.ledger && k.owner == owner :: k.name) :: db.ledger[Key(owner, n)]
  }

  function Committed(db: Db, e: Effect, row: Row): Db {
    Db(db.ledger[KeyOf(e) := row], db.history + [e])
  }

  // ----- apply, stage by stage -----

  function CommitStage(db: Db, e: Effect, row: Row, fault: Fault): Outcome {
    if KeyOf(e) in db.ledger then (db, Some(Clash(e.name)))
    else if fault == Fails(Commit) then (db, Some(StageFailed(e.name, Commit)))
    else (Committed(db, e, row), if fault == CommitLost then Some(StageFailed(e.name, Commit)) else None)
  }

  function RecordStage(hash: Hash, db: Db, e: Effect, fault: Fault, now: int): Outcome {
    if fault == Fails(Record) then (db, Some(StageFailed(e.name, Record)))
    else if KeyOf(e) in db.ledger then (db, Some(Clash(e.name)))
    else CommitStage(db, e, Row(hash(e.sql), now), fault)
  }

  function ExecStage(hash: Hash, db: Db, e: Effect, fault: Fault, now: int): Outcome {
    if fault == Fails(Exec) then (db, Some(StageFailed(e.name, Exec)))
    else RecordStage(hash, db, e, fault, now)
  }

  function RecheckStage(hash: Hash, db: Db, e: Effect, fault: Fault, now: int): Outcome {
    if fault == Fails(Recheck) then (db, Some(StageFailed(e.name, Recheck)))
    else if KeyOf(e) in db.ledger then (db, None)
    else ExecStage(hash, db, e, fault, now)
  }

  function Applied(hash: Hash, db: Db, e: Effect, fault: Fault, now: int): Outcome {
    if fault == Fails(Begin) then (db, Some(StageFailed(e.name, Begin)))
    else RecheckStage(hash, db, e, fault, now)
  }

  function ApplyFrom(hash: Hash, db: Db, a: Attempt, snapshot: map<string, Row>, i: nat): Outcome
    decreases |a.build.ships| - i
  {
    if i >= |a.build.ships| then (db, None)
    else if a.build.ships[i].name in snapshot then ApplyFrom(hash, db, a, snapshot, i + 1)
    else
      var o := Applied(hash, db, EffectOf(a.build.owner, a.build.ships[i]), a.faults.at(i), a.faults.clock(i));
      if o.1.Some? then o else ApplyFrom(hash, o.0, a, snapshot, i + 1)
  }

  // What follows the attempt at migration i.
  function Then(hash: Hash, o: Outcome, a: Attempt, snapshot: map<string, Row>, i: nat): Outcome
  {
    if o.1.Some? then o else ApplyFrom(hash, o.0, a, snapshot, i + 1)
  }

  // The deferred unlock reports its failure only when nothing failed earlier.
  function Unlocked(a: Attempt, o: Outcome): Outcome {
    if o.1.None? && a.build.postgres && a.faults.unlock then (o.0, Some(UnlockFailed)) else o
  }

  ghost function LockedBody(hash: Hash, db: Db, a: Attempt): Outcome {
    if a.faults.ensure then (db, Some(EnsureFailed))
    else if a.faults.read then (db, Some(ReadFailed))
    else
      Reconciling(hash, db, a, Namespace(db, a.build.owner))
  }

  ghost function Reconciling(hash: Hash, db: Db, a: Attempt, snapshot: map<string, Row>): Outcome {
    var complaint := Reconciled(hash, a.build.ships, snapshot);
    if complaint.Some? then (db, complaint) else ApplyFrom(hash, db, a, snapshot, 0)
  }

  // Everything before the lock: the checks that read only the arguments.
  function Refused(b: Build): Option<Error> {
    if Text.Blank(b.owner) then Some(BlankModule) else Validated(b.ships)
  }

  ghost function RunOutcome(hash: Hash, db: Db, a: Attempt): Outcome {
    if Refused(a.build).Some? then (db, Refused(a.build))
    else if a.build.postgres && a.faults.lock then (db, Some(LockFailed))
    else Unlocked(a, LockedBody(hash, db, a))
  }

  // The database as the runner drives it.
  class Database {
    var ledger: map<Key, Row>
    var history: seq<Effect>
    const hash: Hash

    constructor (hash: Hash)
      ensures State() == Db(map[], []) && this.hash == hash && Agrees(hash, State())
    {
      ledger, history := map[], [];
      this.hash := hash;
    }

    function State(): Db
      reads this
    {
      Db(ledger, history)
    }

    method AppliedFor(owner: string) returns (out: map<string, Row>)
      ensures out == Namespace(State(), owner)
    {
      out := map[];
      var rest := ledger.Keys;
      while rest != {}
        invariant rest <= ledger.Keys
        invariant forall n :: n in out <==> Key(owner, n) in ledger && Key(owner, n) !in rest
        invariant forall n | n in out :: out[n] == ledger[Key(owner, n)]
        decreases rest
      {
        var k :| k in rest;
        if k.owner == owner {
          out := out[k.name := ledger[k]];
        }
        rest := rest - {k};
      }
      assert forall n :: n in out <==> n in Namespace(State(), owner);
    }

    // One transaction: the effect and the row are buffered, then committed together.
    method Apply(owner: string, m: Migration, fault: Fault, now: int) returns (err: Option<Error>)
      modifies this
      ensures (State(), err) == Applied(hash, old(State()), EffectOf(owner, m), fault, now)
    {
      if fault == Fails(Begin) {
        return Some(StageFailed(m.name, Begin));
      }
      var pendingEffects: seq<Effect>, pendingRows: map<Key, Row> := [], map[];
      if fault == Fails(Recheck) {
        return Some(StageFailed(m.name, Recheck));
      }
      var already := Key(owner, m.name) in ledger;
      if already {
        return None;
      }
      if fault == Fails(Exec) {
        return Some(StageFailed(m.name, Exec));
      }
      pendingEffects := pendingEffects + [EffectOf(owner, m)];
      if fault == Fails(Record) {
        return Some(StageFailed(m.name, Record));
      }
      pendingRows := pendingRows[Key(owner, m.name) := Row(hash(m.sql), now)];
      if fault == Fails(Commit) {
        return Some(StageFailed(m.name, Commit));
      }
      ledger, history := ledger + pendingRows, history + pendingEffects;
      assert ledger == old(ledger)[Key(owner, m.name) := Row(hash(m.sql), now)];
      assert pendingEffects == [EffectOf(owner, m)];
      assert State() == Committed(old(State()), EffectOf(owner, m), Row(hash(m.sql), now));
      return if fault == CommitLost then Some(StageFailed(m.name, Commit)) else None;
    }

    method Run(a: Attempt) returns (err: Option<Error>)
      modifies this
      ensures (State(), err) == RunOutcome(hash, old(State()), a)
    {
      if Text.Blank(a.build.owner) {
        return Some(BlankModule);
      }
      err := Validate(a.build.ships);
      if err.Some? {
        return;
      }
      if a.build.postgres && a.faults.lock {
        return Some(LockFailed);
      }
      err := RunLocked(a);
      if a.build.postgres && a.faults.unlock && err.None? {
        err := Some(UnlockFailed);
      }
    }

    method RunLocked(a: Attempt) returns (err: Option<Error>)
      modifies this
      ensures (State(), err) == LockedBody(hash, old(State()), a)
    {
      if a.faults.ensure {
        return Some(EnsureFailed);
      }
      if a.faults.read {
        return Some(ReadFailed);
      }
      var applied := AppliedFor(a.build.owner);
      err := Reconcile(hash, a.build.ships, applied);
      if err.Some? {
        return;
      }
      var ms := a.build.ships;
      var i := 0;
      while i < |ms|
        invariant 0 <= i <= |ms|
        invariant ApplyFrom(hash, old(State()), a, applied, 0) == ApplyFrom(hash, State(), a, applied, i)
      {
        if ms[i].name !in applied {
          err := Apply(a.build.owner, ms[i], a.faults.at(i), a.faults.clock(i));
          if err.Some? {
            return;
          }
        }
        i := i + 1;
      }
      return None;
    }
  }
}
