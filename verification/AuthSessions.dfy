/** pkg/auth: the login, validation and revocation of sessions over one table. */
module AuthSessions {
  import opened Sequences
  import Text

  datatype Session = Session(id: string, user: string, tenant: string, issuedAt: int, expiresAt: int,
    revokedAt: Option<int>)

  // time.Time's zero value.
  const ZERO_TIME := 0

  datatype Credentials = Credentials(email: string, username: string, password: string)

  // A user as the boundary reader returns it. An ideal hasher verifies exactly
  // the password a hash was made from; None is no password set.
  datatype User = User(id: string, active: bool, password: Option<string>)

  datatype LoginError =
    | InvalidRequest | PolicyDenied | InvalidCredentials | UserInactive
    | GenerationFailed | InvalidSession | DuplicateSession | StoreFailed

  datatype ValidateError = BlankId | NotFound | SessionRevoked | SessionExpired

  // What Login meets outside: the policy's answer, the user lookup, the random
  // source and the store.
  datatype Surroundings = Surroundings(allows: bool, user: Option<User>, id: Option<string>, stores: bool)

  // One login attempt as the throttle counts it.
  datatype Attempt = Attempt(tenant: string, identifier: string)

  // Calls made to the policy hook.
  datatype Policy = Policy(allowed: multiset<Attempt>, successes: multiset<Attempt>, failures: multiset<Attempt>)

  datatype Auth = Auth(table: map<string, Session>, policy: Policy)

  const EMPTY := Auth(map[], Policy(multiset{}, multiset{}, multiset{}))

  function Identifier(c: Credentials): string {
    if !Text.Blank(c.email) then Text.TrimSpace(c.email) else Text.TrimSpace(c.username)
  }

  predicate SessionValid(s: Session) {
    !Text.Blank(s.id) && !Text.Blank(s.user) && !Text.Blank(s.tenant) && s.expiresAt != ZERO_TIME
  }

  // ----- the effect of each operation -----

  predicate WellFormed(tenant: string, c: Credentials) {
    !Text.Blank(tenant) && Identifier(c) != [] && c.password != []
  }

  predicate Authentic(c: Credentials, u: Option<User>) {
    u.Some? && u.value.active && u.value.password == Some(c.password)
  }

  function NewSession(ttl: int, tenant: string, u: User, id: string, now: int): Session {
    Session(id, u.id, Text.TrimSpace(tenant), now, now + ttl, None)
  }

  // The session a Login creates, or why there is none.
  function LoginOutcome(ttl: int, table: map<string, Session>, tenant: string, c: Credentials, env: Surroundings,
      now: int)
    : Result<Session, LoginError>
  {
    if !WellFormed(tenant, c) then Err(InvalidRequest)
    else if !env.allows then Err(PolicyDenied)
    else if env.user.None? then Err(InvalidCredentials)
    else if !env.user.value.active then Err(UserInactive)
    else if env.user.value.password != Some(c.password) then Err(InvalidCredentials)
    else if env.id.None? then Err(GenerationFailed)
    else
      var s := NewSession(ttl, tenant, env.user.value, env.id.value, now);
      if !SessionValid(s) then Err(InvalidSession)
      else if s.id in table then Err(DuplicateSession)
      else if !env.stores then Err(StoreFailed)
      else Ok(s)
  }

  // The credentials' identifier: the email, else the username, trimmed.
  predicate Identifies(c: Credentials, identifier: string) {
    && identifier != []
    && ((Text.TrimSpace(c.email) != [] && identifier == Text.TrimSpace(c.email)) ||
        (Text.TrimSpace(c.email) == [] && identifier == Text.TrimSpace(c.username)))
  }

  predicate Complete(tenant: string, c: Credentials) {
    && Text.TrimSpace(tenant) != [] && c.password != []
    && (Text.TrimSpace(c.email) != [] || Text.TrimSpace(c.username) != [])
  }

  // The user exists, is active, and the password is theirs.
  predicate Matches(c: Credentials, u: Option<User>) {
    u.Some? && u.value.active && u.value.password.Some? && u.value.password.value == c.password
  }

  lemma WellFormedIsComplete(tenant: string, c: Credentials)
    ensures WellFormed(tenant, c) <==> Complete(tenant, c)
    ensures forall i :: Identifies(c, i) <==> i != [] && i == Identifier(c)
    ensures forall u :: Authentic(c, u) <==> Matches(c, u)
  {
    assert Identifier(c) != [] ==> Identifies(c, Identifier(c));
  }

  // A login succeeds exactly for an allowed attempt with an active user's own
  // password, when the session can be made and stored; it is then the user's,
  // under the trimmed tenant, from now for the service's lifetime.
  lemma LoginSucceedsExactly(ttl: int, table: map<string, Session>, tenant: string, c: Credentials, env: Surroundings,
      now: int)
    ensures var o := LoginOutcome(ttl, table, tenant, c, env, now);
            && (o.Ok? <==>
                  && Complete(tenant, c) && env.allows && Matches(c, env.user)
                  && env.id.Some? && !Text.Blank(env.id.value) && env.id.value !in table
                  && !Text.Blank(env.user.value.id) && now + ttl != 0 && env.stores)
            && (o.Ok? ==>
                  o.value == Session(env.id.value, env.user.value.id, Text.TrimSpace(tenant), now, now + ttl, None))
  {
    Text.TrimSpaceIdempotent(tenant);
    WellFormedIsComplete(tenant, c);
  }

  // Each refusal is reported exactly when it is the first that applies; an unknown
  // user, a user without a password and a wrong password look alike.
  lemma LoginReports(ttl: int, table: map<string, Session>, tenant: string, c: Credentials, env: Surroundings, now: int)
    ensures var o := LoginOutcome(ttl, table, tenant, c, env, now);
            var tried := Complete(tenant, c) && env.allows;
            var known := tried && Matches(c, env.user);
            var made := known && env.id.Some? && !Text.Blank(env.id.value) && !Text.Blank(env.user.value.id) &&
                        now + ttl != 0;
            && (o == Err(InvalidRequest) <==> !Complete(tenant, c))
            && (o == Err(PolicyDenied) <==> Complete(tenant, c) && !env.allows)
            && (o == Err(UserInactive) <==> tried && env.user.Some? && !env.user.value.active)
            && (o == Err(InvalidCredentials) <==>
                  tried && !Matches(c, env.user) && (env.user.Some? ==> env.user.value.active))
            && (o == Err(GenerationFailed) <==> known && env.id.None?)
            && (o == Err(InvalidSession) <==> known && env.id.Some? && !made)
            && (o == Err(DuplicateSession) <==> made && env.id.value in table)
            && (o == Err(StoreFailed) <==> made && env.id.value !in table && !env.stores)
  {
    Text.TrimSpaceIdempotent(tenant);
    WellFormedIsComplete(tenant, c);
  }

  function PolicyAfterLogin(p: Policy, tenant: string, c: Credentials, env: Surroundings): Policy {
    var one := multiset{Attempt(Text.TrimSpace(tenant), Identifier(c))};
    if !WellFormed(tenant, c) || !env.allows then p
    else if Authentic(c, env.user) then p.(allowed := p.allowed + one, successes := p.successes + one)
    else p.(allowed := p.allowed + one, failures := p.failures + one)
  }

  function AfterLogin(ttl: int, a: Auth, tenant: string, c: Credentials, env: Surroundings, now: int): Auth {
    var o := LoginOutcome(ttl, a.table, tenant, c, env, now);
    Auth(if o.Ok? then a.table[o.value.id := o.value] else a.table, PolicyAfterLogin(a.policy, tenant, c, env))
  }

  predicate Live(s: Session) {
    s.revokedAt.None?
  }

  // UPDATE ... SET revoked_at = now WHERE p AND revoked_at IS NULL
  function RevokedWhere(table: map<string, Session>, p: Session -> bool, now: int): map<string, Session> {
    map id | id in table :: if p(table[id]) && Live(table[id]) then table[id].(revokedAt := Some(now)) else table[id]
  }

  function AfterLogout(a: Auth, id: string, now: int): Auth {
    if Text.Blank(id) then a else a.(table := RevokedWhere(a.table, (s: Session) => s.id == id, now))
  }

  function AfterInvalidateAll(a: Auth, user: string, now: int): Auth {
    if Text.Blank(user) then a else a.(table := RevokedWhere(a.table, (s: Session) => s.user == user, now))
  }

  function Validated(table: map<string, Session>, id: string, now: int): Result<Session, ValidateError> {
    if Text.Blank(id) then Err(BlankId)
    else if id !in table then Err(NotFound)
    else if table[id].revokedAt.Some? then Err(SessionRevoked)
    else if table[id].expiresAt != ZERO_TIME && now > table[id].expiresAt then Err(SessionExpired)
    else Ok(table[id])
  }

  // ----- the service -----

  class AuthService {
    var table: map<string, Session>
    var policy: Policy
    const ttl: int

    function State(): Auth
      reads this
    {
      Auth(table, policy)
    }

    constructor (ttl: int)
      ensures State() == EMPTY && this.ttl == ttl
    {
      table, policy := map[], EMPTY.policy;
      this.ttl := ttl;
    }

    method RecordSuccess(attempt: Attempt)
      modifies this`policy
      ensures policy == old(policy).(successes := old(policy).successes + multiset{attempt})
    {
      policy := policy.(successes := policy.successes + multiset{attempt});
    }

    method RecordFailure(attempt: Attempt)
      modifies this`policy
      ensures policy == old(policy).(failures := old(policy).failures + multiset{attempt})
    {
      policy := policy.(failures := policy.failures + multiset{attempt});
    }

    method Login(tenantId: string, creds: Credentials, env: Surroundings, now: int)
        returns (r: Result<Session, LoginError>)
      modifies this
      ensures r == LoginOutcome(ttl, old(table), tenantId, creds, env, now)
      ensures State() == AfterLogin(ttl, old(State()), tenantId, creds, env, now)
    {
      var tenant := Text.TrimSpace(tenantId);
      if tenant == [] {
        return Err(InvalidRequest);
      }
      var identifier := Identifier(creds);
      if identifier == [] {
        return Err(InvalidRequest);
      }
      if creds.password == [] {
        return Err(InvalidRequest);
      }
      if !env.allows {
        return Err(PolicyDenied);
      }
      policy := policy.(allowed := policy.allowed + multiset{Attempt(tenant, identifier)});
      if env.user.None? {
        RecordFailure(Attempt(tenant, identifier));
        return Err(InvalidCredentials);
      }
      var u := env.user.value;
      if !u.active {
        RecordFailure(Attempt(tenant, identifier));
        return Err(UserInactive);
      }
      if u.password.None? {
        RecordFailure(Attempt(tenant, identifier));
        return Err(InvalidCredentials);
      }
      if u.password.value != creds.password {
        RecordFailure(Attempt(tenant, identifier));
        return Err(InvalidCredentials);
      }
      RecordSuccess(Attempt(tenant, identifier));
      if env.id.None? {
        return Err(GenerationFailed);
      }
      var sess := Session(env.id.value, u.id, tenant, now, now + ttl, None);
      if !SessionValid(sess) {
        return Err(InvalidSession);
      }
      if sess.id in table {
        return Err(DuplicateSession);
      }
      if !env.stores {
        return Err(StoreFailed);
      }
      table := table[sess.id := sess];
      return Ok(sess);
    }

    method Logout(id: string, now: int) returns (err: Option<ValidateError>)
      modifies this`table
      ensures State() == AfterLogout(old(State()), id, now)
      ensures err == if Text.Blank(id) then Some(BlankId)
                     else if forall k | k in old(table) :: old(table)[k].id != id then Some(NotFound) else None
    {
      if Text.Blank(id) {
        return Some(BlankId);
      }
      var known := exists k | k in table :: table[k].id == id;
      table := RevokedWhere(table, (s: Session) => s.id == id, now);
      return if known then None else Some(NotFound);
    }

    method InvalidateAllSessions(user: string, now: int) returns (err: Option<ValidateError>)
      modifies this`table
      ensures State() == AfterInvalidateAll(old(State()), user, now)
      ensures err == if Text.Blank(user) then Some(BlankId) else None
    {
      if Text.Blank(user) {
        return Some(BlankId);
      }
      table := RevokedWhere(table, (s: Session) => s.user == user, now);
      return None;
    }

    method ValidateSession(id: string, now: int) returns (r: Result<Session, ValidateError>)
      ensures r == Validated(table, id, now)
    {
      if Text.Blank(id) {
        return Err(BlankId);
      }
      if id !in table {
        return Err(NotFound);
      }
      var sess := table[id];
      if sess.revokedAt.Some? {
        return Err(SessionRevoked);
      }
      if sess.expiresAt != ZERO_TIME && now > sess.expiresAt {
        return Err(SessionExpired);
      }
      return Ok(sess);
    }
  }

  // ----- whole runs -----

  datatype Op =
    | Login(tenant: string, creds: Credentials, env: Surroundings, now: int)
    | Logout(id: string, now: int)
    | InvalidateAll(user: string, now: int)

  function Step(ttl: int, a: Auth, op: Op): Auth {
    match op
    case Login(tenant, creds, env, now) => AfterLogin(ttl, a, tenant, creds, env, now)
    case Logout(id, now) => AfterLogout(a, id, now)
    case InvalidateAll(user, now) => AfterInvalidateAll(a, user, now)
  }

  function Run(ttl: int, ops: seq<Op>): Auth {
    if ops == [] then EMPTY else Step(ttl, Run(ttl, ops[..|ops| - 1]), ops[|ops| - 1])
  }

  // Login number i of the run created the session s.
  predicate Created(ttl: int, ops: seq<Op>, i: nat, s: Session) {
    && i < |ops| && ops[i].Login?
    && LoginOutcome(ttl, Run(ttl, ops[..i]).table, ops[i].tenant, ops[i].creds, ops[i].env, ops[i].now) == Ok(s)
  }

  // The operation ends this session if it is live.
  predicate Ends(op: Op, s: Session) {
    match op
    case Login(_, _, _, _) => false
    case Logout(id, _) => id == s.id && !Text.Blank(id)
    case InvalidateAll(user, _) => user == s.user && !Text.Blank(user)
  }

  predicate EndedAfter(ops: seq<Op>, i: nat, s: Session) {
    exists j | i < j < |ops| :: Ends(ops[j], s)
  }

  // Operation j is the first after i to end the session.
  predicate EndedFirst(ops: seq<Op>, i: nat, s: Session, j: nat) {
    i < j < |ops| && Ends(ops[j], s) && forall k | i < k < j :: !Ends(ops[k], s)
  }

  // A row is in the table under its own id, and is the session some Login
  // created, revoked exactly if something since has ended it, and then at the
  // time of the first that did.
  ghost predicate Explained(ttl: int, ops: seq<Op>, id: string) {
    var table := Run(ttl, ops).table;
    id in table ==>
      && table[id].id == id
      && exists i: nat, s: Session :: ExplainedBy(ttl, ops, table[id], i, s)
  }

  ghost predicate ExplainedBy(ttl: int, ops: seq<Op>, row: Session, i: nat, s: Session) {
    && Created(ttl, ops, i, s)
    && row == s.(revokedAt := row.revokedAt)
    && (row.revokedAt.Some? <==> EndedAfter(ops, i, s))
    && forall j: nat | EndedFirst(ops, i, s, j) :: row.revokedAt == Some(ops[j].now)
  }

  lemma CreatedInFront(ttl: int, front: seq<Op>, op: Op, i: nat, s: Session)
    requires Created(ttl, front, i, s)
    ensures Created(ttl, front + [op], i, s)
    ensures EndedAfter(front + [op], i, s) <==> EndedAfter(front, i, s) || Ends(op, s)
  {
    assert (front + [op])[..i] == front[..i];
    if EndedAfter(front, i, s) {
      var j :| i < j < |front| && Ends(front[j], s);
      assert Ends((front + [op])[j], s);
    }
    if Ends(op, s) {
      assert Ends((front + [op])[|front|], s);
    }
  }

  // What one operation does to a row it finds.
  lemma RowSteps(ttl: int, a: Auth, op: Op, id: string)
    requires id in a.table && a.table[id].id == id
    ensures var row, next := a.table[id], Step(ttl, a, op).table;
            && id in next
            && next[id] == row.(revokedAt := next[id].revokedAt)
            && (row.revokedAt.Some? ==> next[id] == row)
            && next[id].revokedAt == if row.revokedAt.None? && Ends(op, row) then Some(op.now) else row.revokedAt
  {
  }

  lemma ExplainedStays(ttl: int, front: seq<Op>, op: Op, row: Session, next: Session, i: nat, s: Session)
    requires ExplainedBy(ttl, front, row, i, s)
    requires next == row.(revokedAt := next.revokedAt)
    requires next.revokedAt == if row.revokedAt.None? && Ends(op, row) then Some(op.now) else row.revokedAt
    ensures ExplainedBy(ttl, front + [op], next, i, s)
  {
    var ops := front + [op];
    CreatedInFront(ttl, front, op, i, s);
    forall j: nat | EndedFirst(ops, i, s, j) ensures next.revokedAt == Some(ops[j].now) {
      if j < |front| {
        assert EndedFirst(front, i, s, j) by {
          assert forall k | i < k <= j :: ops[k] == front[k];
        }
      } else {
        assert forall k | i < k < |front| :: ops[k] == front[k];
      }
    }
  }

  lemma RunOneMore(ttl: int, front: seq<Op>, op: Op)
    ensures Run(ttl, front + [op]) == Step(ttl, Run(ttl, front), op)
  {
    assert (front + [op])[..|front|] == front;
  }

  lemma OldRowIsExplained(ttl: int, front: seq<Op>, op: Op, id: string)
    requires Explained(ttl, front, id) && id in Run(ttl, front).table
    ensures Explained(ttl, front + [op], id)
  {
    var table := Run(ttl, front).table;
    RunOneMore(ttl, front, op);
    RowSteps(ttl, Run(ttl, front), op, id);
    var i: nat, s: Session :| ExplainedBy(ttl, front, table[id], i, s);
    ExplainedStays(ttl, front, op, table[id], Run(ttl, front + [op]).table[id], i, s);
  }

  lemma {:induction false} RowsAreExplained(ttl: int, ops: seq<Op>, id: string)
    ensures Explained(ttl, ops, id)
  {
    if ops != [] {
      var front, last := ops[..|ops| - 1], ops[|ops| - 1];
      assert ops == front + [last];
      RowsAreExplained(ttl, front, id);
      RunOneMore(ttl, front, last);
      if id in Run(ttl, front).table {
        OldRowIsExplained(ttl, front, last, id);
      } else if id in Run(ttl, ops).table {
        NewRowIsExplained(ttl, front, last, id);
      }
    }
  }

  lemma NewRowIsExplained(ttl: int, front: seq<Op>, op: Op, id: string)
    requires id !in Run(ttl, front).table && id in Step(ttl, Run(ttl, front), op).table
    ensures Explained(ttl, front + [op], id)
  {
    var ops := front + [op];
    assert ops[..|ops| - 1] == front;
    var s := LoginOutcome(ttl, Run(ttl, front).table, op.tenant, op.creds, op.env, op.now).value;
    assert Created(ttl, ops, |front|, s);
    NothingEndsYet(ttl, ops, s);
    RunOneMore(ttl, front, op);
  }

  lemma NothingEndsYet(ttl: int, ops: seq<Op>, s: Session)
    requires ops != [] && Created(ttl, ops, |ops| - 1, s)
    ensures ExplainedBy(ttl, ops, s, |ops| - 1, s)
  {
    CreatedIsValid(ttl, ops, |ops| - 1, s);
  }

  lemma CreatedRowIsThere(ttl: int, front: seq<Op>, op: Op, s: Session)
    requires Created(ttl, front + [op], |front|, s)
    ensures s.id in Run(ttl, front + [op]).table &&
            ExplainedBy(ttl, front + [op], Run(ttl, front + [op]).table[s.id], |front|, s)
  {
    RunOneMore(ttl, front, op);
    assert (front + [op])[..|front|] == front;
  }

  lemma {:induction false} CreatedRowsStay(ttl: int, ops: seq<Op>, i: nat, s: Session)
    requires Created(ttl, ops, i, s)
    ensures s.id in Run(ttl, ops).table && ExplainedBy(ttl, ops, Run(ttl, ops).table[s.id], i, s)
    decreases |ops|
  {
    var front, last := ops[..|ops| - 1], ops[|ops| - 1];
    assert ops == front + [last];
    if i == |front| {
      CreatedRowIsThere(ttl, front, last, s);
    } else {
      assert front[..i] == ops[..i];
      CreatedRowsStay(ttl, front, i, s);
      RunOneMore(ttl, front, last);
      var row := Run(ttl, front).table[s.id];
      RowSteps(ttl, Run(ttl, front), last, s.id);
      ExplainedStays(ttl, front, last, row, Run(ttl, ops).table[s.id], i, s);
    }
  }

  // s was created by login number i and nothing has ended it.
  predicate LiveSince(ttl: int, ops: seq<Op>, i: nat, s: Session) {
    Created(ttl, ops, i, s) && !EndedAfter(ops, i, s)
  }

  lemma CreatedIsValid(ttl: int, ops: seq<Op>, i: nat, s: Session)
    requires Created(ttl, ops, i, s)
    ensures SessionValid(s) && s.revokedAt.None?
  {
  }

  // What ValidateSession answers for a session that was created.
  function AnswerFor(ops: seq<Op>, i: nat, s: Session, t: int): Result<Session, ValidateError> {
    if EndedAfter(ops, i, s) then Err(SessionRevoked) else if t > s.expiresAt then Err(SessionExpired) else Ok(s)
  }

  lemma RowAnswers(ttl: int, ops: seq<Op>, table: map<string, Session>, i: nat, s: Session, t: int)
    requires s.id in table && ExplainedBy(ttl, ops, table[s.id], i, s) && SessionValid(s) && s.revokedAt.None?
    ensures Validated(table, s.id, t) == AnswerFor(ops, i, s, t)
  {
  }

  lemma CreatedAnswers(ttl: int, ops: seq<Op>, i: nat, s: Session, t: int)
    requires Created(ttl, ops, i, s)
    ensures Validated(Run(ttl, ops).table, s.id, t) == AnswerFor(ops, i, s, t) && !Text.Blank(s.id)
  {
    CreatedRowsStay(ttl, ops, i, s);
    CreatedIsValid(ttl, ops, i, s);
    RowAnswers(ttl, ops, Run(ttl, ops).table, i, s, t);
  }

  ghost predicate EverCreated(ttl: int, ops: seq<Op>, id: string) {
    exists i: nat, s: Session :: Created(ttl, ops, i, s) && s.id == id
  }

  lemma RowWasCreated(ttl: int, ops: seq<Op>, id: string)
    requires id in Run(ttl, ops).table
    ensures EverCreated(ttl, ops, id)
  {
    RowsAreExplained(ttl, ops, id);
    var i: nat, s: Session :| ExplainedBy(ttl, ops, Run(ttl, ops).table[id], i, s);
    assert Created(ttl, ops, i, s) && s.id == id;
  }

  lemma NeverCreatedAnswers(ttl: int, ops: seq<Op>, id: string, t: int)
    requires !EverCreated(ttl, ops, id)
    ensures Validated(Run(ttl, ops).table, id, t) == Err(if Text.Blank(id) then BlankId else NotFound)
  {
    if id in Run(ttl, ops).table {
      RowWasCreated(ttl, ops, id);
    }
  }

  // ValidateSession answers a session at a time exactly when a Login created it,
  // nothing has ended it since, and that time is not past its expiry.
  lemma ValidExactlyWhileLive(ttl: int, ops: seq<Op>, id: string, t: int, s: Session)
    ensures Validated(Run(ttl, ops).table, id, t) == Ok(s) <==>
            exists i: nat :: LiveSince(ttl, ops, i, s) && s.id == id && t <= s.expiresAt
  {
    if i: nat :| LiveSince(ttl, ops, i, s) && s.id == id && t <= s.expiresAt {
      CreatedAnswers(ttl, ops, i, s, t);
    } else if EverCreated(ttl, ops, id) {
      var i: nat, made: Session :| Created(ttl, ops, i, made) && made.id == id;
      CreatedAnswers(ttl, ops, i, made, t);
      assert LiveSince(ttl, ops, i, made) <==> !EndedAfter(ops, i, made);
    } else {
      NeverCreatedAnswers(ttl, ops, id, t);
    }
  }

  // Each refusal exactly when it applies: no such session was ever created, it
  // has been ended since, or the time is past its expiry.
  lemma ValidateReports(ttl: int, ops: seq<Op>, id: string, t: int)
    ensures var v := Validated(Run(ttl, ops).table, id, t);
            if !EverCreated(ttl, ops, id) then v == Err(if Text.Blank(id) then BlankId else NotFound)
            else
              && (exists i: nat, s: Session :: Created(ttl, ops, i, s) && s.id == id && v == AnswerFor(ops, i, s, t))
              && (forall i: nat, s: Session | Created(ttl, ops, i, s) && s.id == id :: v == AnswerFor(ops, i, s, t))
  {
    if EverCreated(ttl, ops, id) {
      forall i: nat, s: Session | Created(ttl, ops, i, s) && s.id == id
        ensures Validated(Run(ttl, ops).table, id, t) == AnswerFor(ops, i, s, t)
      {
        CreatedAnswers(ttl, ops, i, s, t);
      }
    } else {
      NeverCreatedAnswers(ttl, ops, id, t);
    }
  }

  predicate Dead(r: Result<Session, ValidateError>) {
    r == Err(SessionRevoked) || r == Err(SessionExpired)
  }

  lemma DeadStep(ttl: int, a: Auth, op: Op, id: string, t: int)
    requires id in a.table ==> a.table[id].id == id
    requires Dead(Validated(a.table, id, t))
    ensures Dead(Validated(Step(ttl, a, op).table, id, t))
  {
    RowSteps(ttl, a, op, id);
  }

  // A session once reported revoked or expired never validates again, whatever
  // runs in between, as long as the clock does not go back.
  lemma {:induction false} DeadSessionsStayDead(ttl: int, before: seq<Op>, after: seq<Op>, id: string, t: int, t': int)
    requires t <= t'
    requires Dead(Validated(Run(ttl, before).table, id, t))
    ensures Dead(Validated(Run(ttl, before + after).table, id, t'))
    decreases |after|
  {
    if after == [] {
      assert before + after == before;
    } else {
      var front, last := after[..|after| - 1], after[|after| - 1];
      DeadSessionsStayDead(ttl, before, front, id, t, t');
      assert before + after == before + front + [last];
      RunOneMore(ttl, before + front, last);
      RowsAreExplained(ttl, before + front, id);
      DeadStep(ttl, Run(ttl, before + front), last, id, t');
    }
  }

  // Every reservation AllowLogin took is released, whatever failed in between.
  lemma {:induction false} ReservationsAreReleased(ttl: int, ops: seq<Op>)
    ensures var p := Run(ttl, ops).policy; p.allowed == p.successes + p.failures
  {
    if ops != [] {
      ReservationsAreReleased(ttl, ops[..|ops| - 1]);
    }
  }

  // ----- what the throttle counts -----

  // The operation is a complete, allowed login attempt counted as this one.
  predicate Tries(op: Op, a: Attempt) {
    && op.Login? && Complete(op.tenant, op.creds) && op.env.allows
    && a.tenant == Text.TrimSpace(op.tenant) && Identifies(op.creds, a.identifier)
  }

  predicate TriesRightly(op: Op, a: Attempt) {
    Tries(op, a) && Matches(op.creds, op.env.user)
  }

  predicate TriesWrongly(op: Op, a: Attempt) {
    Tries(op, a) && !Matches(op.creds, op.env.user)
  }

  // The throttle's counts of an attempt are the run's logins of it: all that were
  // allowed, those with the user's own password, and those without.
  lemma {:induction false} ThrottleCountsExactly(ttl: int, ops: seq<Op>, a: Attempt)
    ensures var p := Run(ttl, ops).policy;
            && p.allowed[a] == |Filter((op: Op) => Tries(op, a), ops)|
            && p.successes[a] == |Filter((op: Op) => TriesRightly(op, a), ops)|
            && p.failures[a] == |Filter((op: Op) => TriesWrongly(op, a), ops)|
  {
    if ops != [] {
      var front, last := ops[..|ops| - 1], ops[|ops| - 1];
      ThrottleCountsExactly(ttl, front, a);
      assert ops == front + [last];
      FilterAppend((op: Op) => Tries(op, a), front, [last]);
      FilterAppend((op: Op) => TriesRightly(op, a), front, [last]);
      FilterAppend((op: Op) => TriesWrongly(op, a), front, [last]);
      ThrottleStep(ttl, Run(ttl, front), last, a);
    }
  }

  lemma ThrottleStep(ttl: int, before: Auth, op: Op, a: Attempt)
    ensures var p, q := before.policy, Step(ttl, before, op).policy;
            && q.allowed[a] == p.allowed[a] + (if Tries(op, a) then 1 else 0)
            && q.successes[a] == p.successes[a] + (if TriesRightly(op, a) then 1 else 0)
            && q.failures[a] == p.failures[a] + (if TriesWrongly(op, a) then 1 else 0)
  {
    if op.Login? {
      WellFormedIsComplete(op.tenant, op.creds);
    }
  }
}
