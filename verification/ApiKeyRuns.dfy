/** What every run of Issue, Verify and Revoke guarantees about API keys. */
module ApiKeyRuns {
  import opened Sequences
  import opened ApiKeys
  import Text

  datatype AnyOp =
    | Issue(q: Request, src: Source, now: int)
    | Verify(presented: string, now: int, bumped: bool)
    | Revoke(tenant: string, id: string, now: int)

  // The random source gives what it promises.
  type Op = op: AnyOp | op.Issue? ==> Generated(op.src) witness Revoke("", "", 0)

  function Step(allowed: set<string>, rows: seq<Row>, op: Op): seq<Row>
  {
    match op
    case Issue(q, src, now) => AfterIssue(allowed, rows, q, src, now)
    case Verify(presented, now, bumped) => AfterVerify(rows, presented, now, bumped)
    case Revoke(tenant, id, now) => AfterRevoke(rows, tenant, id, now)
  }

  function Run(allowed: set<string>, rows: seq<Row>, ops: seq<Op>): seq<Row>
  {
    if ops == [] then rows
    else
      Step(allowed, Run(allowed, rows, ops[..|ops| - 1]), ops[|ops| - 1])
  }

  // Every row's indexed prefix is the one its plaintext parses to, its scopes
  // are grantable, and ids are unique.
  ghost predicate Sound(allowed: set<string>, rows: seq<Row>) {
    && (forall r | r in rows :: ParsePrefix(r.hash.of) == Some(r.prefix) && Granted(allowed, r.scopes))
    && (forall i, j | 0 <= i < j < |rows| :: rows[i].id != rows[j].id)
  }

  // Nothing but last use and a first revocation ever changes in a row.
  predicate RowEvolves(a: Row, b: Row) {
    && b == a.(lastUsed := b.lastUsed, revokedAt := b.revokedAt)
    && (a.revokedAt.Some? ==> b.revokedAt == a.revokedAt)
  }

  predicate Evolves(a: seq<Row>, b: seq<Row>) {
    |a| <= |b| && forall i | 0 <= i < |a| :: RowEvolves(a[i], b[i])
  }

  lemma StepEvolves(allowed: set<string>, rows: seq<Row>, op: Op)
    ensures Evolves(rows, Step(allowed, rows, op))
    ensures !op.Issue? ==> |Step(allowed, rows, op)| == |rows|
  {
  }

  lemma IssuePrefix(secret: string)
    requires |secret| >= PREFIX_LENGTH
    ensures ParsePrefix(Plaintext(secret)) == Some(secret[..PREFIX_LENGTH])
  {
    assert Plaintext(secret) == "pk_" + secret;
    assert Plaintext(secret)[3..] == secret;
  }

  lemma EvolvedSound(allowed: set<string>, rows: seq<Row>, next: seq<Row>)
    requires Sound(allowed, rows) && Evolves(rows, next) && |next| == |rows|
    ensures Sound(allowed, next)
  {
    forall r | r in next ensures ParsePrefix(r.hash.of) == Some(r.prefix) && Granted(allowed, r.scopes) {
      var i :| 0 <= i < |next| && next[i] == r;
      assert RowEvolves(rows[i], next[i]) && rows[i] in rows;
    }
    forall i, j | 0 <= i < j < |next| ensures next[i].id != next[j].id {
      assert RowEvolves(rows[i], next[i]) && RowEvolves(rows[j], next[j]);
    }
  }

  lemma StepSound(allowed: set<string>, rows: seq<Row>, op: Op)
    requires Sound(allowed, rows)
    ensures Sound(allowed, Step(allowed, rows, op))
  {
    if op.Issue? {
      if Issued(allowed, rows, op.q, op.src, op.now).Ok? {
        IssuePrefix(op.src.secret.value);
        NormalizedMeans(allowed, op.q.scopes);
      }
    } else {
      StepEvolves(allowed, rows, op);
      EvolvedSound(allowed, rows, Step(allowed, rows, op));
    }
  }

  lemma {:induction false} RunSound(allowed: set<string>, rows: seq<Row>, ops: seq<Op>)
    requires Sound(allowed, rows)
    ensures Sound(allowed, Run(allowed, rows, ops))
  {
    if ops != [] {
      RunSound(allowed, rows, ops[..|ops| - 1]);
      StepSound(allowed, Run(allowed, rows, ops[..|ops| - 1]), ops[|ops| - 1]);
    }
  }

  // ----- the index agrees with a scan -----

  lemma {:induction false} ExamineSelected(rows: seq<Row>, plaintext: string, now: int, prefix: string)
    requires forall r | r in rows && r.hash == Digest(plaintext) :: r.prefix == prefix
    ensures Examine(Filter((r: Row) => r.prefix == prefix, rows), plaintext, now) == Examine(rows, plaintext, now)
  {
    var sel := (r: Row) => r.prefix == prefix;
    if rows != [] {
      ExamineSelected(rows[1..], plaintext, now, prefix);
      FilterAgree(sel, (r: Row) => r.prefix == prefix, rows);
      FilterAgree(sel, (r: Row) => r.prefix == prefix, rows[1..]);
      if sel(rows[0]) {
        assert Filter(sel, rows)[1..] == Filter(sel, rows[1..]);
      }
    }
  }

  lemma {:induction false} ExamineNothing(rows: seq<Row>, plaintext: string, now: int)
    requires forall r | r in rows :: r.hash != Digest(plaintext)
    ensures Examine(rows, plaintext, now) == Err(InvalidKey)
  {
    if rows != [] {
      ExamineNothing(rows[1..], plaintext, now);
    }
  }

  // Looking up by prefix gives the outcome of comparing every row's hash.
  lemma IndexAgreesWithScan(allowed: set<string>, ops: seq<Op>, presented: string, now: int)
    ensures var rows := Run(allowed, [], ops);
            Verified(rows, presented, now) == Examine(rows, Text.TrimSpace(presented), now)
  {
    var rows, plaintext := Run(allowed, [], ops), Text.TrimSpace(presented);
    RunSound(allowed, [], ops);
    if ParsePrefix(plaintext).None? {
      ExamineNothing(rows, plaintext, now);
    } else {
      var prefix := ParsePrefix(plaintext).value;
      ExamineSelected(rows, plaintext, now, prefix);
      FilterAgree((r: Row) => r.prefix == prefix, (r: Row) => r.prefix == ParsePrefix(plaintext).value, rows);
    }
  }

  // ----- one row decides -----

  function Judged(row: Row, now: int): Result<Row, VerifyError> {
    if row.revokedAt.Some? then Err(KeyRevoked)
    else if row.expiresAt.Some? && now > row.expiresAt.value then Err(KeyExpired)
    else Ok(row.(lastUsed := Some(now)))
  }

  predicate FirstMatch(rows: seq<Row>, plaintext: string, i: nat) {
    && i < |rows| && rows[i].hash == Digest(plaintext)
    && forall j | 0 <= j < i :: rows[j].hash != Digest(plaintext)
  }

  lemma {:induction false} ExamineFirstMatch(rows: seq<Row>, plaintext: string, now: int, i: nat)
    requires FirstMatch(rows, plaintext, i)
    ensures Examine(rows, plaintext, now) == Judged(rows[i], now)
  {
    if i > 0 {
      assert FirstMatch(rows[1..], plaintext, i - 1);
      ExamineFirstMatch(rows[1..], plaintext, now, i - 1);
    }
  }

  lemma {:induction false} ExamineFinds(rows: seq<Row>, plaintext: string, now: int) returns (i: nat)
    requires Examine(rows, plaintext, now) != Err(InvalidKey)
    ensures FirstMatch(rows, plaintext, i)
  {
    if rows[0].hash == Digest(plaintext) {
      i := 0;
    } else {
      var j := ExamineFinds(rows[1..], plaintext, now);
      i := j + 1;
      forall k | 0 <= k < i ensures rows[k].hash != Digest(plaintext) {
        assert k == 0 || rows[k] == rows[1..][k - 1];
      }
    }
  }

  // With fresh secrets a plaintext has one row, so the order in which the engine
  // returns candidates cannot matter.
  lemma CandidateOrderIsIrrelevant(rows: seq<Row>, other: seq<Row>, plaintext: string, now: int)
    requires multiset(rows) == multiset(other)
    requires forall r, s | r in rows && s in rows && r.hash == s.hash :: r == s
    ensures Examine(rows, plaintext, now) == Examine(other, plaintext, now)
  {
    forall r ensures r in rows <==> r in other {
      assert r in multiset(rows) <==> r in multiset(other);
    }
    if Examine(rows, plaintext, now) == Err(InvalidKey) {
      if Examine(other, plaintext, now) != Err(InvalidKey) {
        var j := ExamineFinds(other, plaintext, now);
        assert other[j] in rows;
        var i := FirstMatchOf(rows, plaintext, other[j]);
        ExamineFirstMatch(rows, plaintext, now, i);
        assert rows[i] in rows;
        ExamineFirstMatch(other, plaintext, now, j);
      }
    } else {
      var i := ExamineFinds(rows, plaintext, now);
      assert rows[i] in other;
      var j := FirstMatchOf(other, plaintext, rows[i]);
      ExamineFirstMatch(rows, plaintext, now, i);
      ExamineFirstMatch(other, plaintext, now, j);
      assert other[j] in other && other[j] in rows;
    }
  }

  lemma {:induction false} FirstMatchOf(rows: seq<Row>, plaintext: string, row: Row) returns (i: nat)
    requires row in rows && row.hash == Digest(plaintext)
    ensures FirstMatch(rows, plaintext, i)
  {
    if rows[0].hash == Digest(plaintext) {
      i := 0;
    } else {
      assert rows == [rows[0]] + rows[1..];
      var j := FirstMatchOf(rows[1..], plaintext, row);
      i := j + 1;
      forall k | 0 <= k < i ensures rows[k].hash != Digest(plaintext) {
        assert k == 0 || rows[k] == rows[1..][k - 1];
      }
    }
  }

  // ----- the one-way lifecycle -----

  // An effective Revoke of this key with its own tenant.
  predicate Revokes(op: Op, tenant: string, id: string) {
    op.Revoke? && op.tenant == tenant && op.id == id && !Text.Blank(tenant) && !Text.Blank(id)
  }

  predicate RevokedIn(ops: seq<Op>, tenant: string, id: string) {
    exists j | 0 <= j < |ops| :: Revokes(ops[j], tenant, id)
  }

  // Row i after a run: its revocation is the time of the first effective Revoke
  // of its own tenant and id, if it was not revoked already, and never changes.
  ghost predicate RevokedOnlyByOwner(a: Row, b: Row, ops: seq<Op>) {
    if a.revokedAt.Some? then b.revokedAt == a.revokedAt
    else if !RevokedIn(ops, a.tenant, a.id) then b.revokedAt == None
    else exists j :: FirstRevoke(ops, a.tenant, a.id, j) && b.revokedAt == Some(ops[j].now)
  }

  ghost predicate FirstRevoke(ops: seq<Op>, tenant: string, id: string, j: int) {
    && 0 <= j < |ops| && Revokes(ops[j], tenant, id)
    && forall i | 0 <= i < j :: !Revokes(ops[i], tenant, id)
  }

  lemma RevokedInFront(ops: seq<Op>, tenant: string, id: string)
    requires ops != []
    ensures RevokedIn(ops, tenant, id) <==>
            RevokedIn(ops[..|ops| - 1], tenant, id) || Revokes(ops[|ops| - 1], tenant, id)
  {
    var front := ops[..|ops| - 1];
    if RevokedIn(front, tenant, id) {
      var j :| 0 <= j < |front| && Revokes(front[j], tenant, id);
      assert Revokes(ops[j], tenant, id);
    }
    if RevokedIn(ops, tenant, id) && !Revokes(ops[|ops| - 1], tenant, id) {
      var j :| 0 <= j < |ops| && Revokes(ops[j], tenant, id);
      assert Revokes(front[j], tenant, id);
    }
  }

  lemma RowSteps(allowed: set<string>, rows: seq<Row>, op: Op, i: nat)
    requires i < |rows|
    ensures var a, next := rows[i], Step(allowed, rows, op);
            && |rows| <= |next| && RowEvolves(a, next[i])
            && next[i].revokedAt == if a.revokedAt.None? && Revokes(op, a.tenant, a.id) then Some(op.now)
                 else a.revokedAt
  {
  }

  lemma RevokedByOneMore(a: Row, mid: Row, end: Row, ops: seq<Op>)
    requires ops != [] && RowEvolves(a, mid) && RevokedOnlyByOwner(a, mid, ops[..|ops| - 1])
    requires var last := ops[|ops| - 1];
             end.revokedAt == if mid.revokedAt.None? && Revokes(last, a.tenant, a.id) then Some(last.now)
               else mid.revokedAt
    ensures RevokedOnlyByOwner(a, end, ops)
  {
    var front, last := ops[..|ops| - 1], ops[|ops| - 1];
    RevokedInFront(ops, a.tenant, a.id);
    if a.revokedAt.None? {
      if RevokedIn(front, a.tenant, a.id) {
        var j :| FirstRevoke(front, a.tenant, a.id, j) && mid.revokedAt == Some(front[j].now);
        assert FirstRevoke(ops, a.tenant, a.id, j);
      } else if Revokes(last, a.tenant, a.id) {
        forall k | 0 <= k < |front| ensures !Revokes(ops[k], a.tenant, a.id) {
          assert ops[k] == front[k];
        }
        assert FirstRevoke(ops, a.tenant, a.id, |front|);
      }
    }
  }

  lemma {:induction false} LifecycleIsOneWay(allowed: set<string>, rows: seq<Row>, ops: seq<Op>, i: nat)
    requires i < |rows|
    ensures var end := Run(allowed, rows, ops);
            |rows| <= |end| && RowEvolves(rows[i], end[i]) && RevokedOnlyByOwner(rows[i], end[i], ops)
  {
    if ops != [] {
      var front, last := ops[..|ops| - 1], ops[|ops| - 1];
      LifecycleIsOneWay(allowed, rows, front, i);
      var mid := Run(allowed, rows, front);
      RowSteps(allowed, mid, last, i);
      RevokedByOneMore(rows[i], mid[i], Run(allowed, rows, ops)[i], ops);
    }
  }

  lemma {:induction false} RunEvolves(allowed: set<string>, rows: seq<Row>, ops: seq<Op>)
    ensures Evolves(rows, Run(allowed, rows, ops))
  {
    if rows == [] {
    } else {
      forall i: nat | i < |rows|
        ensures |rows| <= |Run(allowed, rows, ops)| && RowEvolves(rows[i], Run(allowed, rows, ops)[i])
      {
        LifecycleIsOneWay(allowed, rows, ops, i);
      }
      LifecycleIsOneWay(allowed, rows, ops, 0);
    }
  }

  lemma FirstMatchStays(a: seq<Row>, b: seq<Row>, plaintext: string, i: nat)
    requires Evolves(a, b) && FirstMatch(a, plaintext, i)
    ensures FirstMatch(b, plaintext, i)
  {
    forall j | 0 <= j <= i ensures b[j].hash == a[j].hash {
      assert RowEvolves(a[j], b[j]);
    }
  }

  // A key once reported revoked or expired never verifies again, whatever runs
  // in between, as long as the clock does not go back.
  lemma DeadKeysStayDead(allowed: set<string>, before: seq<Op>, after: seq<Op>, presented: string, t: int, t': int)
    requires t <= t'
    requires Verified(Run(allowed, [], before), presented, t) in {Err(KeyRevoked), Err(KeyExpired)}
    ensures Verified(Run(allowed, [], before + after), presented, t') in {Err(KeyRevoked), Err(KeyExpired)}
  {
    var plaintext := Text.TrimSpace(presented);
    var rows := Run(allowed, [], before);
    IndexAgreesWithScan(allowed, before, presented, t);
    var i := ExamineFinds(rows, plaintext, t);
    ExamineFirstMatch(rows, plaintext, t, i);
    RunSplits(allowed, [], before, after);
    var end := Run(allowed, [], before + after);
    RunEvolves(allowed, rows, after);
    FirstMatchStays(rows, end, plaintext, i);
    assert RowEvolves(rows[i], end[i]);
    IndexAgreesWithScan(allowed, before + after, presented, t');
    ExamineFirstMatch(end, plaintext, t', i);
  }

  lemma {:induction false} RunSplits(allowed: set<string>, rows: seq<Row>, a: seq<Op>, b: seq<Op>)
    ensures Run(allowed, rows, a + b) == Run(allowed, Run(allowed, rows, a), b)
  {
    if b == [] {
      assert a + b == a;
    } else {
      assert (a + b)[..|a + b| - 1] == a + b[..|b| - 1];
      RunSplits(allowed, rows, a, b[..|b| - 1]);
    }
  }

  // An issued key verifies, with the tenant, user, name and scopes requested,
  // exactly until a Revoke by that tenant or the time its lifetime ends, through
  // any later operations.
  lemma IssuedKeyVerifiesUntilRevokedOrExpired(allowed: set<string>, before: seq<Op>, issue: Op, after: seq<Op>, t: int)
    requires issue.Issue?
    requires Issued(allowed, Run(allowed, [], before), issue.q, issue.src, issue.now).Ok?
    requires forall r | r in Run(allowed, [], before) :: r.hash != Digest(Plaintext(issue.src.secret.value))
    ensures var q := issue.q;
            var r := Verified(Run(allowed, [], before + [issue] + after), Plaintext(issue.src.secret.value), t);
            if RevokedIn(after, Text.TrimSpace(q.tenant), issue.src.id.value) then r == Err(KeyRevoked)
            else if q.ttl > 0 && t > issue.now + q.ttl then r == Err(KeyExpired)
            else
              && r.Ok? && r.value.id == issue.src.id.value && r.value.tenant == Text.TrimSpace(q.tenant)
              && r.value.user == Text.TrimSpace(q.user) && r.value.name == Text.TrimSpace(q.name)
              && r.value.scopes == Distinct(Trims(q.scopes)) && Granted(allowed, r.value.scopes)
              && r.value.createdAt == issue.now && r.value.lastUsed == Some(t)
  {
    IssuedRowHolds(allowed, Run(allowed, [], before), issue.q, issue.src, issue.now);
    var rows := Run(allowed, [], before);
    var row := Issued(allowed, rows, issue.q, issue.src, issue.now).value;
    var plaintext := Plaintext(issue.src.secret.value);
    PlaintextIsTrimmed(issue.src.secret.value);
    var all := before + [issue] + after;
    assert (before + [issue])[..|before|] == before;
    RunSplits(allowed, [], before + [issue], after);
    var start := rows + [row];
    assert Run(allowed, [], before + [issue]) == start;
    var end := Run(allowed, [], all);
    assert FirstMatch(start, plaintext, |rows|);
    RunEvolves(allowed, start, after);
    FirstMatchStays(start, end, plaintext, |rows|);
    LifecycleIsOneWay(allowed, start, after, |rows|);
    IndexAgreesWithScan(allowed, all, plaintext, t);
    ExamineFirstMatch(end, plaintext, t, |rows|);
    NormalizedMeans(allowed, issue.q.scopes);
  }

  lemma PlaintextIsTrimmed(secret: string)
    requires secret != [] && forall c | c in secret :: IsBase64Url(c)
    ensures Text.TrimSpace(Plaintext(secret)) == Plaintext(secret)
  {
    var p := Plaintext(secret);
    assert p[|p| - 1] == secret[|secret| - 1] && secret[|secret| - 1] in secret;
    Text.TrimSpaceTrims(p);
  }

  // Every verified key carries distinct scopes of the catalog, none reserved;
  // a list is exactly the tenant's unrevoked keys, newest first.
  lemma VerifiedAndListedKeys(allowed: set<string>, ops: seq<Op>, presented: string, tenant: string, t: int)
    ensures var rows := Run(allowed, [], ops);
            && (Verified(rows, presented, t).Ok? ==> Granted(allowed, Verified(rows, presented, t).value.scopes))
            && (forall r :: r in Listed(rows, tenant) <==> r in rows && r.tenant == tenant && r.revokedAt.None?)
            && Sorted(Newer, Listed(rows, tenant))
  {
    StableSortSorts(Newer, Filter((r: Row) => r.tenant == tenant && r.revokedAt.None?, Run(allowed, [], ops)));
    var rows := Run(allowed, [], ops);
    RunSound(allowed, [], ops);
    IndexAgreesWithScan(allowed, ops, presented, t);
    if Verified(rows, presented, t).Ok? {
      var i := ExamineFinds(rows, Text.TrimSpace(presented), t);
      ExamineFirstMatch(rows, Text.TrimSpace(presented), t, i);
      assert rows[i] in rows;
    }
    var p := (r: Row) => r.tenant == tenant && r.revokedAt.None?;
    forall r ensures r in Listed(rows, tenant) <==> r in rows && r.tenant == tenant && r.revokedAt.None? {
      FilterAgree(p, (r: Row) => r.tenant == tenant && r.revokedAt.None?, rows);
      StableSortMember(Newer, Filter(p, rows), r);
      FilterMember(p, rows, r);
    }
  }
}
