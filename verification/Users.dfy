/** pkg/user/store/sqlite: one table of users shared by every tenant. */
module Users {
  import opened Sequences
  import Text

  const DEFAULT_LIMIT := 50
  const MAX_LIMIT := 1000
  const ZERO_TIME := 0

  datatype User = User(id: string, tenant: string, email: string, username: string, passHash: string,
                       displayName: string, active: bool, createdAt: int, updatedAt: int)

  // Rows in insertion order.
  type Table = seq<User>

  datatype Constraint = PrimaryKey | TenantEmail | TenantUsername

  datatype Op =
    | Create(user: User)
    | Update(user: User)
    | UpdatePassHash(tenant: string, id: string, hash: string, at: int)
    | Delete(tenant: string, id: string)
    | Get(tenant: string, id: string)
    | GetByEmail(tenant: string, email: string)
    | GetByUsername(tenant: string, username: string)
    | List(tenant: string, limit: int, offset: int)

  // A refused write breaks every constraint listed; the driver names one of them.
  datatype Reply = Done | NotFound | Refused(broken: set<Constraint>) | Found(user: User) | Listed(users: seq<User>)

  // ----- the WHERE clauses -----

  function InTenant(tenant: string): User -> bool {
    (u: User) => u.tenant == tenant
  }

  function WithId(tenant: string, id: string): User -> bool {
    (u: User) => u.tenant == tenant && u.id == id
  }

  function WithEmail(tenant: string, email: string): User -> bool {
    (u: User) => u.tenant == tenant && u.email == email
  }

  function WithUsername(tenant: string, username: string): User -> bool {
    (u: User) => u.tenant == tenant && u.username == username
  }

  predicate NameAtMost(a: User, b: User) {
    Text.AtMost(a.username, b.username)
  }

  // ----- the statements -----

  // The unique constraints a new row would break.
  function Broken(t: Table, u: User): set<Constraint> {
    (if exists r | r in t :: r.id == u.id then {PrimaryKey} else {}) + BrokenInTenant(t, u)
  }

  function BrokenInTenant(t: Table, u: User): set<Constraint> {
    (if exists r | r in t :: WithEmail(u.tenant, u.email)(r) then {TenantEmail} else {})
    + (if exists r | r in t :: WithUsername(u.tenant, u.username)(r) then {TenantUsername} else {})
  }

  function Stamped(u: User, now: int): User {
    u.(createdAt := if u.createdAt == ZERO_TIME then now else u.createdAt,
       updatedAt := if u.updatedAt == ZERO_TIME then now else u.updatedAt)
  }

  // SET ... WHERE id = ? AND tenant_id = ?, row by row.
  function Edited(u: User, now: int): User -> User {
    (r: User) =>
      if WithId(u.tenant, u.id)(r)
      then r.(email := u.email, username := u.username, displayName := u.displayName, active := u.active,
        updatedAt := now)
      else r
  }

  function Rehashed(tenant: string, id: string, hash: string, at: int): User -> User {
    (r: User) => if WithId(tenant, id)(r) then r.(passHash := hash, updatedAt := at) else r
  }

  function Others(tenant: string, id: string): User -> bool {
    (r: User) => !WithId(tenant, id)(r)
  }

  function EffectiveLimit(limit: int): (n: nat)
    ensures 1 <= n <= MAX_LIMIT
  {
    if limit <= 0 then DEFAULT_LIMIT else if limit > MAX_LIMIT then MAX_LIMIT else limit
  }

  function ByName(t: Table, tenant: string): seq<User> {
    StableSort(NameAtMost, Filter(InTenant(tenant), t))
  }

  function First(p: User -> bool, t: Table): Reply {
    var found := Filter(p, t);
    if found == [] then NotFound else Found(found[0])
  }

  // The table and the reply after one store call at time now.
  function Step(t: Table, op: Op, now: int): (Table, Reply) {
    match op
    case Create(u) =>
      var broken := Broken(t, u);
      if broken != {} then (t, Refused(broken)) else (t + [Stamped(u, now)], Done)
    case Update(u) =>
      var broken := BrokenInTenant(Filter(Others(u.tenant, u.id), t), u);
      if Filter(WithId(u.tenant, u.id), t) == [] then (t, NotFound)
      else if broken != {} then (t, Refused(broken))
      else (Map(Edited(u, now), t), Done)
    case UpdatePassHash(tenant, id, hash, at) =>
      if Filter(WithId(tenant, id), t) == [] then (t, NotFound)
      else (Map(Rehashed(tenant, id, hash, if at == ZERO_TIME then now else at), t), Done)
    case Delete(tenant, id) =>
      if Filter(WithId(tenant, id), t) == [] then (t, NotFound) else (Filter(Others(tenant, id), t), Done)
    case Get(tenant, id) => (t, First(WithId(tenant, id), t))
    case GetByEmail(tenant, email) => (t, First(WithEmail(tenant, email), t))
    case GetByUsername(tenant, username) => (t, First(WithUsername(tenant, username), t))
    case List(tenant, limit, offset) =>
      (t, Listed(Page(ByName(t, tenant), EffectiveLimit(limit), if offset < 0 then 0 else offset)))
  }

  // ----- the store -----

  class UserStore {
    var rows: Table

    constructor ()
      ensures rows == []
    {
      rows := [];
    }

    method Create(u: User, now: int) returns (reply: Reply)
      modifies this
      ensures (rows, reply) == Step(old(rows), Op.Create(u), now)
    {
      var row := u;
      if row.createdAt == ZERO_TIME {
        row := row.(createdAt := now);
      }
      if row.updatedAt == ZERO_TIME {
        row := row.(updatedAt := now);
      }
      if Broken(rows, row) != {} {
        return Refused(Broken(rows, row));
      }
      rows := rows + [row];
      return Done;
    }

    method Get(tenant: string, id: string) returns (reply: Reply)
      ensures (rows, reply) == Step(rows, Op.Get(tenant, id), 0)
    {
      reply := First(WithId(tenant, id), rows);
    }

    method GetByEmail(tenant: string, email: string) returns (reply: Reply)
      ensures (rows, reply) == Step(rows, Op.GetByEmail(tenant, email), 0)
    {
      reply := First(WithEmail(tenant, email), rows);
    }

    method GetByUsername(tenant: string, username: string) returns (reply: Reply)
      ensures (rows, reply) == Step(rows, Op.GetByUsername(tenant, username), 0)
    {
      reply := First(WithUsername(tenant, username), rows);
    }

    method List(tenant: string, limit: int, offset: int) returns (reply: Reply)
      ensures (rows, reply) == Step(rows, Op.List(tenant, limit, offset), 0)
    {
      var size, skip := limit, offset;
      if size <= 0 {
        size := DEFAULT_LIMIT;
      }
      if size > MAX_LIMIT {
        size := MAX_LIMIT;
      }
      if skip < 0 {
        skip := 0;
      }
      reply := Listed(Page(ByName(rows, tenant), size, skip));
    }

    method Update(u: User, now: int) returns (reply: Reply)
      modifies this
      ensures (rows, reply) == Step(old(rows), Op.Update(u), now)
    {
      if Filter(WithId(u.tenant, u.id), rows) == [] {
        return NotFound;
      }
      var broken := BrokenInTenant(Filter(Others(u.tenant, u.id), rows), u);
      if broken != {} {
        return Refused(broken);
      }
      rows := Map(Edited(u, now), rows);
      return Done;
    }

    method UpdatePassHash(tenant: string, id: string, hash: string, at: int, now: int) returns (reply: Reply)
      modifies this
      ensures (rows, reply) == Step(old(rows), Op.UpdatePassHash(tenant, id, hash, at), now)
    {
      var stamp := at;
      if stamp == ZERO_TIME {
        stamp := now;
      }
      if Filter(WithId(tenant, id), rows) == [] {
        return NotFound;
      }
      rows := Map(Rehashed(tenant, id, hash, stamp), rows);
      return Done;
    }

    method Delete(tenant: string, id: string) returns (reply: Reply)
      modifies this
      ensures (rows, reply) == Step(old(rows), Op.Delete(tenant, id), 0)
    {
      if Filter(WithId(tenant, id), rows) == [] {
        return NotFound;
      }
      rows := Filter(Others(tenant, id), rows);
      return Done;
    }
  }

  // ----- the constraints hold in every reachable table -----

  predicate Apart(a: User, b: User) {
    a.id != b.id && !(a.tenant == b.tenant && (a.email == b.email || a.username == b.username))
  }

  predicate Constrained(t: Table) {
    forall i, j | 0 <= i < j < |t| :: Apart(t[i], t[j])
  }

  lemma {:induction false} FilterStaysConstrained(p: User -> bool, t: Table)
    requires Constrained(t)
    ensures Constrained(Filter(p, t))
  {
    if t != [] {
      FilterStaysConstrained(p, t[1..]);
      forall u | u in Filter(p, t[1..]) ensures Apart(t[0], u) {
        FilterMember(p, t[1..], u);
      }
    }
  }

  lemma UpdateStaysConstrained(t: Table, u: User, now: int)
    requires Constrained(t) && BrokenInTenant(Filter(Others(u.tenant, u.id), t), u) == {}
    ensures Constrained(Map(Edited(u, now), t))
  {
    var rest := Filter(Others(u.tenant, u.id), t);
    forall r | r in t && !WithId(u.tenant, u.id)(r)
      ensures !WithEmail(u.tenant, u.email)(r) && !WithUsername(u.tenant, u.username)(r)
    {
      FilterMember(Others(u.tenant, u.id), t, r);
      assert r in rest;
      assert TenantEmail !in BrokenInTenant(rest, u) && TenantUsername !in BrokenInTenant(rest, u);
    }
    var next := Map(Edited(u, now), t);
    forall i, j | 0 <= i < j < |t| ensures Apart(next[i], next[j]) {
      assert Apart(t[i], t[j]);
      assert t[i] in t && t[j] in t;
    }
  }

  lemma CreateStaysConstrained(t: Table, u: User, now: int)
    requires Constrained(t) && Broken(t, u) == {}
    ensures Constrained(t + [Stamped(u, now)])
  {
    assert PrimaryKey !in Broken(t, u) && TenantEmail !in Broken(t, u) && TenantUsername !in Broken(t, u);
    forall r | r in t ensures Apart(r, Stamped(u, now)) {
      assert !WithEmail(u.tenant, u.email)(r) && !WithUsername(u.tenant, u.username)(r);
    }
  }

  // Every call keeps ids, and emails and usernames within a tenant, unique.
  lemma StepStaysConstrained(t: Table, op: Op, now: int)
    requires Constrained(t)
    ensures Constrained(Step(t, op, now).0)
  {
    match op
    case Create(u) =>
      if Broken(t, u) == {} {
        CreateStaysConstrained(t, u, now);
      }
    case Update(u) =>
      if BrokenInTenant(Filter(Others(u.tenant, u.id), t), u) == {} {
        UpdateStaysConstrained(t, u, now);
      }
    case UpdatePassHash(tenant, id, hash, at) =>
      var next := Map(Rehashed(tenant, id, hash, if at == ZERO_TIME then now else at), t);
      forall i, j | 0 <= i < j < |t| ensures Apart(next[i], next[j]) {
        assert Apart(t[i], t[j]);
      }
    case Delete(tenant, id) => FilterStaysConstrained(Others(tenant, id), t);
    case _ =>
  }

  lemma MembersApart(t: Table, a: User, b: User)
    requires Constrained(t) && a in t && b in t && a != b
    ensures Apart(a, b)
  {
    forall i, j | 0 <= i < |t| && 0 <= j < |t| && i != j ensures Apart(t[i], t[j]) {
      assert if i < j then Apart(t[i], t[j]) else Apart(t[j], t[i]);
    }
  }

  // The call left the row alone, or is the owning tenant's Update or UpdatePassHash of it.
  predicate Became(before: User, after: User, op: Op, now: int) {
    || after == before
    || (&& op.Update? && op.user.tenant == before.tenant && op.user.id == before.id
        && after == before.(email := op.user.email, username := op.user.username, displayName := op.user.displayName,
                            active := op.user.active, updatedAt := now))
    || (&& op.UpdatePassHash? && op.tenant == before.tenant && op.id == before.id
        && after == before.(passHash := op.hash, updatedAt := if op.at == ZERO_TIME then now else op.at))
  }

  predicate HasOrigin(t: Table, after: User, op: Op, now: int) {
    exists r | r in t :: Became(r, after, op, now)
  }

  lemma RowsHaveOrigins(t: Table, op: Op, now: int, after: User)
    requires after in Step(t, op, now).0
    ensures HasOrigin(t, after, op, now) || (op.Create? && forall r | r in t :: r.id != after.id)
  {
    match op
    case Create(u) =>
      if Broken(t, u) == {} {
        assert PrimaryKey !in Broken(t, u);
      }
      if after in t {
        assert Became(after, after, op, now);
      }
    case Update(u) =>
      if after !in t {
        var i :| 0 <= i < |t| && Edited(u, now)(t[i]) == after;
        assert t[i] in t && Became(t[i], after, op, now);
      } else {
        assert Became(after, after, op, now);
      }
    case UpdatePassHash(tenant, id, hash, at) =>
      if after !in t {
        var i :| 0 <= i < |t| && Rehashed(tenant, id, hash, if at == ZERO_TIME then now else at)(t[i]) == after;
        assert t[i] in t && Became(t[i], after, op, now);
      } else {
        assert Became(after, after, op, now);
      }
    case Delete(tenant, id) =>
      FilterMember(Others(tenant, id), t, after);
      assert Became(after, after, op, now);
    case _ => assert Became(after, after, op, now);
  }

  // A row changes only by its own tenant's Update, which leaves the credential,
  // or UpdatePassHash, which leaves the rest; no call changes its tenant or
  // creation time.
  lemma RowsChangeOnlyAsAsked(t: Table, op: Op, now: int, before: User, after: User)
    requires Constrained(t) && before in t && after in Step(t, op, now).0 && before.id == after.id
    ensures Became(before, after, op, now)
    ensures before.tenant == after.tenant && before.createdAt == after.createdAt
  {
    RowsHaveOrigins(t, op, now, after);
    var r :| r in t && Became(r, after, op, now);
    if r != before {
      MembersApart(t, before, r);
    }
  }

  // ----- runs -----

  datatype Timed = Timed(op: Op, now: int)

  function Run(t: Table, ops: seq<Timed>): Table
    decreases |ops|
  {
    if ops == [] then t else Run(Step(t, ops[0].op, ops[0].now).0, ops[1..])
  }

  function Replies(t: Table, ops: seq<Timed>): seq<Reply>
    decreases |ops|
  {
    if ops == [] then [] else [Step(t, ops[0].op, ops[0].now).1] + Replies(Step(t, ops[0].op, ops[0].now).0, ops[1..])
  }

  // The calls run one after the other, each on what the ones before it left.
  lemma {:induction false} RunsInTurn(t: Table, ops: seq<Timed>, last: Timed)
    ensures Run(t, []) == t && Replies(t, []) == []
    ensures Run(t, ops + [last]) == Step(Run(t, ops), last.op, last.now).0
    ensures Replies(t, ops + [last]) == Replies(t, ops) + [Step(Run(t, ops), last.op, last.now).1]
    decreases |ops|
  {
    if ops != [] {
      RunsInTurn(Step(t, ops[0].op, ops[0].now).0, ops[1..], last);
      assert (ops + [last])[0] == ops[0] && (ops + [last])[1..] == ops[1..] + [last];
    }
  }

  function TenantOf(op: Op): string {
    if op.Create? || op.Update? then op.user.tenant else op.tenant
  }

  // A create whose id another tenant holds.
  predicate IdTaken(t: Table, op: Op) {
    op.Create? && exists r | r in t :: r.id == op.user.id && r.tenant != op.user.tenant
  }

  // The tenant's calls that no other tenant's id stands in the way of.
  predicate Kept(t: Table, tenant: string, op: Op) {
    TenantOf(op) == tenant && !IdTaken(t, op)
  }

  function OwnOps(t: Table, tenant: string, ops: seq<Timed>): seq<Timed>
    decreases |ops|
  {
    if ops == [] then []
    else
      (if Kept(t, tenant, ops[0].op) then [ops[0]] else []) +
      OwnOps(Step(t, ops[0].op, ops[0].now).0, tenant, ops[1..])
  }

  function OwnReplies(t: Table, tenant: string, ops: seq<Timed>): seq<Reply>
    decreases |ops|
  {
    if ops == [] then []
    else
      var (next, reply) := Step(t, ops[0].op, ops[0].now);
      (if Kept(t, tenant, ops[0].op) then [reply] else []) + OwnReplies(next, tenant, ops[1..])
  }

  lemma {:induction false} EveryRunIsConstrained(t: Table, ops: seq<Timed>)
    requires Constrained(t)
    ensures Constrained(Run(t, ops))
    decreases |ops|
  {
    if ops != [] {
      StepStaysConstrained(t, ops[0].op, ops[0].now);
      EveryRunIsConstrained(Step(t, ops[0].op, ops[0].now).0, ops[1..]);
    }
  }

  // ----- what each call does and answers -----

  lemma FirstIsExact(p: User -> bool, t: Table, u: User)
    requires forall v, w | v in t && w in t && p(v) && p(w) :: v == w
    ensures First(p, t) == Found(u) <==> u in t && p(u)
  {
    FilterMember(p, t, u);
    var found := Filter(p, t);
    if found != [] {
      FilterMember(p, t, found[0]);
    }
  }

  // A lookup finds a row exactly when it is the tenant's row with that key.
  lemma LookupsAreExact(t: Table, tenant: string, key: string, u: User, now: int)
    requires Constrained(t)
    ensures Step(t, Get(tenant, key), now).1 == Found(u) <==> u in t && u.tenant == tenant && u.id == key
    ensures Step(t, GetByEmail(tenant, key), now).1 == Found(u) <==> u in t && u.tenant == tenant && u.email == key
    ensures Step(t, GetByUsername(tenant, key), now).1 == Found(u) <==>
            u in t && u.tenant == tenant && u.username == key
  {
    forall v, w | v in t && w in t && v != w ensures Apart(v, w) {
      MembersApart(t, v, w);
    }
    FirstIsExact(WithId(tenant, key), t, u);
    FirstIsExact(WithEmail(tenant, key), t, u);
    FirstIsExact(WithUsername(tenant, key), t, u);
  }

  predicate Owns(t: Table, tenant: string, id: string) {
    exists r | r in t :: r.tenant == tenant && r.id == id
  }

  lemma FoundIffOwned(t: Table, tenant: string, id: string)
    ensures Filter(WithId(tenant, id), t) != [] <==> Owns(t, tenant, id)
  {
    var found := Filter(WithId(tenant, id), t);
    if found != [] {
      FilterMember(WithId(tenant, id), t, found[0]);
    }
    forall r | r in t && r.tenant == tenant && r.id == id ensures r in found {
      FilterMember(WithId(tenant, id), t, r);
    }
  }

  // A create succeeds exactly when it clashes with no row; an update exactly when
  // the tenant has the row and no other row of the tenant has the email or
  // username; the other writes exactly when the tenant has the row.
  lemma WritesSucceedExactly(t: Table, u: User, now: int)
    ensures Step(t, Create(u), now).1 == Done <==> forall r | r in t :: Apart(r, u)
    ensures Step(t, Update(u), now).1 == Done <==>
            && Owns(t, u.tenant, u.id)
            && forall r | r in t && r.tenant == u.tenant && r.id != u.id ::
                 r.email != u.email && r.username != u.username
    ensures Step(t, UpdatePassHash(u.tenant, u.id, u.passHash, u.updatedAt), now).1 == Done <==> Owns(t, u.tenant, u.id)
    ensures Step(t, Delete(u.tenant, u.id), now).1 == Done <==> Owns(t, u.tenant, u.id)
  {
    BrokenIsClash(t, u);
    FoundIffOwned(t, u.tenant, u.id);
    var rest := Filter(Others(u.tenant, u.id), t);
    forall r ensures r in rest <==> r in t && !(r.tenant == u.tenant && r.id == u.id) {
      FilterMember(Others(u.tenant, u.id), t, r);
    }
    BrokenIsClash(rest, u);
  }

  lemma BrokenIsClash(t: Table, u: User)
    ensures BrokenInTenant(t, u) == {} <==>
            forall r | r in t && r.tenant == u.tenant :: r.email != u.email && r.username != u.username
    ensures Broken(t, u) == {} <==> forall r | r in t :: Apart(r, u)
  {
    assert TenantEmail in BrokenInTenant(t, u) <==> exists r | r in t :: WithEmail(u.tenant, u.email)(r);
    assert TenantUsername in BrokenInTenant(t, u) <==> exists r | r in t :: WithUsername(u.tenant, u.username)(r);
    assert PrimaryKey in Broken(t, u) <==> exists r | r in t :: r.id == u.id;
  }

  // What a successful write of the row must show the next Get.
  predicate Shows(op: Op, now: int, reply: Reply) {
    match op
    case Create(u) =>
      reply == Found(User(u.id, u.tenant, u.email, u.username, u.passHash, u.displayName, u.active,
                          if u.createdAt == 0 then now else u.createdAt, if u.updatedAt == 0 then now else u.updatedAt))
    case Update(u) =>
      && reply.Found? && reply.user.email == u.email && reply.user.username == u.username
      && reply.user.displayName == u.displayName && reply.user.active == u.active && reply.user.updatedAt == now
    case UpdatePassHash(_, _, hash, at) =>
      reply.Found? && reply.user.passHash == hash && reply.user.updatedAt == if at == 0 then now else at
    case Delete(_, _) => reply == NotFound
    case _ => true
  }

  function IdOf(op: Op): string
    requires op.Create? || op.Update? || op.UpdatePassHash? || op.Delete?
  {
    if op.Create? || op.Update? then op.user.id else op.id
  }

  // Reading back a successful write returns what was written.
  lemma WritesAreRead(t: Table, op: Op, now: int, later: int)
    requires Constrained(t) && Step(t, op, now).1 == Done
    ensures Shows(op, now, Step(Step(t, op, now).0, Get(TenantOf(op), IdOf(op)), later).1)
  {
    var next, tenant, id := Step(t, op, now).0, TenantOf(op), IdOf(op);
    StepStaysConstrained(t, op, now);
    FoundIffOwned(t, tenant, id);
    FoundIffOwned(next, tenant, id);
    match op
    case Create(u) =>
      assert next[|t|] == Stamped(u, now);
      LookupsAreExact(next, tenant, id, Stamped(u, now), later);
    case Update(u) =>
      var i :| 0 <= i < |t| && t[i].tenant == tenant && t[i].id == id;
      assert next[i] == Edited(u, now)(t[i]) && next[i] in next;
      LookupsAreExact(next, tenant, id, next[i], later);
    case UpdatePassHash(_, _, hash, at) =>
      var i :| 0 <= i < |t| && t[i].tenant == tenant && t[i].id == id;
      assert next[i] == Rehashed(tenant, id, hash, if at == ZERO_TIME then now else at)(t[i]) && next[i] in next;
      LookupsAreExact(next, tenant, id, next[i], later);
    case Delete(_, _) =>
      forall r | r in next ensures !(r.tenant == tenant && r.id == id) {
        FilterMember(Others(tenant, id), t, r);
      }
  }

  // ----- one tenant cannot see another -----

  function Own(tenant: string, t: Table): Table {
    Filter(InTenant(tenant), t)
  }

  lemma {:induction false} FilterCommutes(p: User -> bool, q: User -> bool, t: Table)
    ensures Filter(p, Filter(q, t)) == Filter(q, Filter(p, t))
  {
    if t != [] {
      FilterCommutes(p, q, t[1..]);
    }
  }

  lemma {:induction false} FilterAll(p: User -> bool, t: Table)
    requires forall u | u in t :: p(u)
    ensures Filter(p, t) == t
  {
    if t != [] {
      FilterAll(p, t[1..]);
    }
  }

  lemma {:induction false} FilterMap(p: User -> bool, f: User -> User, t: Table)
    requires forall u | u in t :: p(f(u)) == p(u)
    ensures Filter(p, Map(f, t)) == Map(f, Filter(p, t))
  {
    if t != [] {
      FilterMap(p, f, t[1..]);
      assert Map(f, t)[1..] == Map(f, t[1..]);
    }
  }

  // A query on the tenant's rows sees the same rows in the whole table.
  lemma QuerySeesOwn(p: User -> bool, tenant: string, t: Table)
    requires forall u | u in t && p(u) :: u.tenant == tenant
    ensures Filter(p, Own(tenant, t)) == Filter(p, t)
  {
    FilterCommutes(p, InTenant(tenant), t);
    forall u | u in Filter(p, t) ensures InTenant(tenant)(u) {
      FilterMember(p, t, u);
    }
    FilterAll(InTenant(tenant), Filter(p, t));
  }

  lemma BrokenSeesOwn(t: Table, u: User)
    ensures BrokenInTenant(Own(u.tenant, t), u) == BrokenInTenant(t, u)
    ensures !IdTaken(t, Create(u)) ==> Broken(Own(u.tenant, t), u) == Broken(t, u)
  {
    forall r ensures r in Own(u.tenant, t) <==> r in t && r.tenant == u.tenant {
      FilterMember(InTenant(u.tenant), t, r);
    }
    var own := Own(u.tenant, t);
    assert (exists r | r in t :: WithEmail(u.tenant, u.email)(r)) ==
           (exists r | r in own :: WithEmail(u.tenant, u.email)(r));
    assert (exists r | r in t :: WithUsername(u.tenant, u.username)(r)) ==
           (exists r | r in own :: WithUsername(u.tenant, u.username)(r));
    if !IdTaken(t, Create(u)) {
      assert (exists r | r in t :: r.id == u.id) == (exists r | r in own :: r.id == u.id);
    }
  }

  // A kept call does to the tenant's rows, and replies, what it would with no
  // other tenant in the table.
  lemma OwnStep(t: Table, op: Op, now: int)
    requires Kept(t, TenantOf(op), op)
    ensures var (next, reply) := Step(t, op, now);
            (Own(TenantOf(op), next), reply) == Step(Own(TenantOf(op), t), op, now)
  {
    var tenant := TenantOf(op);
    var own := Own(tenant, t);
    match op
    case Create(u) =>
      BrokenSeesOwn(t, u);
      FilterAppend(InTenant(tenant), t, [Stamped(u, now)]);
      assert Filter(InTenant(tenant), [Stamped(u, now)]) == [Stamped(u, now)];
    case Update(u) =>
      QuerySeesOwn(WithId(tenant, u.id), tenant, t);
      FilterCommutes(Others(tenant, u.id), InTenant(tenant), t);
      BrokenSeesOwn(Filter(Others(tenant, u.id), t), u);
      FilterMap(InTenant(tenant), Edited(u, now), t);
    case UpdatePassHash(_, id, hash, at) =>
      QuerySeesOwn(WithId(tenant, id), tenant, t);
      FilterMap(InTenant(tenant), Rehashed(tenant, id, hash, if at == ZERO_TIME then now else at), t);
    case Delete(_, id) =>
      QuerySeesOwn(WithId(tenant, id), tenant, t);
      FilterCommutes(Others(tenant, id), InTenant(tenant), t);
    case Get(_, id) => QuerySeesOwn(WithId(tenant, id), tenant, t);
    case GetByEmail(_, email) => QuerySeesOwn(WithEmail(tenant, email), tenant, t);
    case GetByUsername(_, username) => QuerySeesOwn(WithUsername(tenant, username), tenant, t);
    case List(_, _, _) => QuerySeesOwn(InTenant(tenant), tenant, t);
  }

  lemma MapSkips(f: User -> User, tenant: string, t: Table)
    requires forall u | u in t :: InTenant(tenant)(f(u)) == InTenant(tenant)(u)
    requires forall u | u in t && u.tenant == tenant :: f(u) == u
    ensures Own(tenant, Map(f, t)) == Own(tenant, t)
  {
    FilterMap(InTenant(tenant), f, t);
    forall u | u in Own(tenant, t) ensures f(u) == u {
      FilterMember(InTenant(tenant), t, u);
    }
    assert Map(f, Own(tenant, t)) == Own(tenant, t);
  }

  // Any other call leaves the tenant's rows as they are.
  lemma OtherStep(t: Table, tenant: string, op: Op, now: int)
    requires !Kept(t, tenant, op)
    ensures Own(tenant, Step(t, op, now).0) == Own(tenant, t)
  {
    match op
    case Create(u) =>
      if Broken(t, u) == {} {
        assert PrimaryKey !in Broken(t, u);
        FilterAppend(InTenant(tenant), t, [Stamped(u, now)]);
        assert Filter(InTenant(tenant), [Stamped(u, now)]) == [];
      }
    case Update(u) =>
      ElsewhereMisses(t, u.tenant, tenant, u.id);
      MapSkips(Edited(u, now), tenant, t);
    case UpdatePassHash(other, id, hash, at) =>
      ElsewhereMisses(t, other, tenant, id);
      MapSkips(Rehashed(other, id, hash, if at == ZERO_TIME then now else at), tenant, t);
    case Delete(other, id) =>
      FilterCommutes(InTenant(tenant), Others(other, id), t);
      forall u | u in Own(tenant, t) ensures Others(other, id)(u) {
        FilterMember(InTenant(tenant), t, u);
        ElsewhereMisses(t, other, tenant, id);
      }
      FilterAll(Others(other, id), Own(tenant, t));
    case _ =>
  }

  lemma ElsewhereMisses(t: Table, other: string, tenant: string, id: string)
    requires other != tenant
    ensures forall u | u in t && u.tenant == tenant :: !WithId(other, id)(u)
  {
    forall u | u in t && u.tenant == tenant ensures !WithId(other, id)(u) {
      assert u.tenant != other;
    }
  }

  // A create whose id another tenant holds fails on the primary key and changes nothing.
  lemma TakenIdIsRefused(t: Table, op: Op, now: int)
    requires IdTaken(t, op)
    ensures var (next, reply) := Step(t, op, now);
            next == t && reply.Refused? && PrimaryKey in reply.broken
  {
    assert PrimaryKey in Broken(t, op.user);
  }

  // Over a whole run, one tenant's rows and every reply to its calls are what
  // they would be if no other tenant had ever called, except that its creates
  // with an id another tenant holds are refused.
  lemma {:induction false} TenantsDoNotInterfere(t: Table, tenant: string, ops: seq<Timed>)
    ensures Own(tenant, Run(t, ops)) == Run(Own(tenant, t), OwnOps(t, tenant, ops))
    ensures OwnReplies(t, tenant, ops) == Replies(Own(tenant, t), OwnOps(t, tenant, ops))
    decreases |ops|
  {
    if ops != [] {
      var op, now := ops[0].op, ops[0].now;
      TenantsDoNotInterfere(Step(t, op, now).0, tenant, ops[1..]);
      OwnOpsStep(t, tenant, ops);
      if Kept(t, tenant, op) {
        OwnStep(t, op, now);
      } else {
        OtherStep(t, tenant, op, now);
      }
    }
  }

  lemma OwnOpsStep(t: Table, tenant: string, ops: seq<Timed>)
    requires ops != []
    ensures var (next, reply) := Step(t, ops[0].op, ops[0].now);
            var own, rest := OwnOps(t, tenant, ops), OwnOps(next, tenant, ops[1..]);
            var replies, after := OwnReplies(t, tenant, ops), OwnReplies(next, tenant, ops[1..]);
            if Kept(t, tenant, ops[0].op)
            then own != [] && own[0] == ops[0] && own[1..] == rest && replies == [reply] + after
            else own == rest && replies == after
  {
  }

  // ----- pagination -----

  // A page has as many users as there are from its offset on, at most the limit;
  // 50 stands in for a limit of 0 or less and 1000 bounds it.
  lemma PageLength(t: Table, tenant: string, limit: int, offset: int)
    ensures var r := Step(t, List(tenant, limit, offset), 0).1;
            var size := if limit <= 0 then 50 else if limit > 1000 then 1000 else limit;
            var left := |Own(tenant, t)| - (if offset < 0 then 0 else offset);
            r.Listed? && |r.users| == if left <= 0 then 0 else if left < size then left else size
  {
    StableSortPermutes(NameAtMost, Own(tenant, t));
  }

  // The replies to List at offsets 0, step, 2 * step, ..., joined.
  function ListPages(t: Table, tenant: string, limit: int, step: nat, n: nat): seq<User> {
    if n == 0 then []
    else ListPages(t, tenant, limit, step, n - 1) + Step(t, List(tenant, limit, Offset(step, n - 1)), 0).1.users
  }

  lemma {:induction false} ListPagesArePages(t: Table, tenant: string, limit: int, n: nat)
    ensures ListPages(t, tenant, limit, EffectiveLimit(limit), n) == Pages(ByName(t, tenant), EffectiveLimit(limit), n)
  {
    if n > 0 {
      ListPagesArePages(t, tenant, limit, n - 1);
    }
  }

  lemma EnoughPages(t: Table, tenant: string, limit: int, n: nat)
    requires Offset(EffectiveLimit(limit), n) >= |Own(tenant, t)|
    ensures ListPages(t, tenant, limit, EffectiveLimit(limit), n) == ByName(t, tenant)
  {
    ListPagesArePages(t, tenant, limit, n);
    StableSortPermutes(NameAtMost, Own(tenant, t));
    PagesTile(ByName(t, tenant), EffectiveLimit(limit), n);
  }

  // Each of the tenant's users once, in strictly ascending username order.
  predicate ListsOnce(all: seq<User>, t: Table, tenant: string) {
    && multiset(all) == multiset(Own(tenant, t)) && NoDuplicates(all)
    && forall i, j | 0 <= i < j < |all| :: Text.Less(all[i].username, all[j].username)
  }

  // Enough pages at the effective limit list every user of the tenant exactly once.
  lemma ListTiles(t: Table, tenant: string, limit: int, n: nat)
    requires Constrained(t) && Offset(EffectiveLimit(limit), n) >= |Own(tenant, t)|
    ensures ListsOnce(ListPages(t, tenant, limit, EffectiveLimit(limit), n), t, tenant)
  {
    EnoughPages(t, tenant, limit, n);
    ByNameAscends(t, tenant);
  }

  lemma ByNameAscends(t: Table, tenant: string)
    requires Constrained(t)
    ensures ListsOnce(ByName(t, tenant), t, tenant)
  {
    var own, all := Own(tenant, t), ByName(t, tenant);
    FilterStaysConstrained(InTenant(tenant), t);
    AtMostIsPreorder();
    StableSortSorts(NameAtMost, own);
    StableSortPermutes(NameAtMost, own);
    StableSortKeepsDistinct(NameAtMost, own);
    forall i, j | 0 <= i < j < |all| ensures Text.Less(all[i].username, all[j].username) {
      StableSortMember(NameAtMost, own, all[i]);
      StableSortMember(NameAtMost, own, all[j]);
      FilterMember(InTenant(tenant), t, all[i]);
      FilterMember(InTenant(tenant), t, all[j]);
      assert all[i] != all[j] && NameAtMost(all[i], all[j]);
      MembersApart(t, all[i], all[j]);
      Text.LessTotal(all[i].username, all[j].username);
    }
  }
}
