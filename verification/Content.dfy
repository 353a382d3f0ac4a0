/** pkg/content: read-then-write service calls over one table, interleaved statement by statement. */
module Content {
  import opened Sequences
  import Text

  const MARKDOWN := "markdown"
  const FORMATS: set<string> := {"", "markdown", "html", "text"}
  const MAX_SLUG_BYTES := 200
  const MAX_KIND_BYTES := 50
  const MAX_TITLE_BYTES := 300
  const ZERO_TIME := 0

  datatype Row = Row(tenant: string, kind: string, slug: string, title: string, body: string, format: string,
                     author: string, publishedAt: Option<int>, createdAt: int, updatedAt: int)

  // Rows by primary key.
  type Table = map<string, Row>

  datatype Error = Invalid | NotFound | Duplicate | SlugTaken

  // ----- the statements -----

  datatype Statement =
    | Insert(id: string, row: Row)
    | UpdateRow(id: string, row: Row, now: int)
    | SetPublished(id: string, tenant: string, at: Option<int>, now: int)
    | DeleteRow(id: string, tenant: string)

  predicate SameSlot(a: Row, b: Row) {
    a.tenant == b.tenant && a.kind == b.kind && a.slug == b.slug
  }

  predicate SlotTaken(table: Table, id: string, row: Row) {
    exists k | k in table :: k != id && SameSlot(table[k], row)
  }

  function Execute(table: Table, st: Statement): Result<Table, Error> {
    match st
    case Insert(id, row) =>
      if id in table then Err(Duplicate) else if SlotTaken(table, id, row) then Err(SlugTaken) else Ok(table[id := row])
    case UpdateRow(id, row, now) =>
      if id !in table || table[id].tenant != row.tenant then Err(NotFound)
      else
        var next := table[id].(kind := row.kind, slug := row.slug, title := row.title, body := row.body,
                               format := row.format, author := row.author, updatedAt := now);
        if SlotTaken(table, id, next) then Err(SlugTaken) else Ok(table[id := next])
    case SetPublished(id, tenant, at, now) =>
      if id !in table || table[id].tenant != tenant then Err(NotFound)
      else Ok(table[id := table[id].(publishedAt := at, updatedAt := now)])
    case DeleteRow(id, tenant) =>
      if id !in table || table[id].tenant != tenant then Err(NotFound) else Ok(table - {id})
  }

  // ----- the service calls -----

  datatype Call =
    | Create(id: string, row: Row)
    | Update(id: string, row: Row)
    | Publish(id: string, tenant: string)
    | Unpublish(id: string, tenant: string)
    | Delete(id: string, tenant: string)

  predicate ContentValid(r: Row) {
    && !Text.Blank(r.tenant) && !Text.Blank(r.kind) && !Text.Blank(r.slug) && !Text.Blank(r.title)
    && Text.ByteLen(r.slug) <= MAX_SLUG_BYTES && Text.ByteLen(r.kind) <= MAX_KIND_BYTES
    && Text.ByteLen(r.title) <= MAX_TITLE_BYTES
    && r.format in FORMATS
  }

  predicate Admissible(call: Call) {
    match call
    case Create(_, row) => ContentValid(row)
    case Update(id, row) => ContentValid(row) && !Text.Blank(id)
    case _ => true
  }

  function TenantOf(call: Call): string {
    if call.Create? || call.Update? then call.row.tenant else call.tenant
  }

  function Defaulted(r: Row): Row {
    if r.format == "" then r.(format := MARKDOWN) else r
  }

  // The Get every call but Create begins with.
  function Read(table: Table, call: Call): Option<Row> {
    if call.id in table && table[call.id].tenant == TenantOf(call) then Some(table[call.id]) else None
  }

  // The statement a call ends with, given the row its Get returned.
  function Write(call: Call, seen: Row, now: int): Statement
    requires !call.Create?
  {
    match call
    case Update(id, row) =>
      UpdateRow(id, Defaulted(row).(author := seen.author, publishedAt := seen.publishedAt,
        createdAt := seen.createdAt), now)
    case Publish(id, tenant) => SetPublished(id, tenant, Some(now), now)
    case Unpublish(id, tenant) => SetPublished(id, tenant, None, now)
    case Delete(id, tenant) => DeleteRow(id, tenant)
  }

  // The row a Create inserts, with its timestamps and format defaulted.
  function Fresh(r: Row, now: int): Row {
    var created := if r.createdAt == ZERO_TIME then now else r.createdAt;
    Defaulted(r).(createdAt := created, updatedAt := if r.updatedAt == ZERO_TIME then created else r.updatedAt)
  }

  // A call run without interruption.
  function Served(table: Table, call: Call, now: int): Result<Table, Error> {
    if !Admissible(call) then Err(Invalid)
    else if call.Create? then Execute(table, Insert(call.id, Fresh(call.row, now)))
    else if Read(table, call).None? then Err(NotFound)
    else Execute(table, Write(call, Read(table, call).value, now))
  }

  class ContentService {
    var table: Table

    constructor ()
      ensures table == map[]
    {
      table := map[];
    }

    // One SQL statement.
    method Exec(st: Statement) returns (err: Option<Error>)
      modifies this
      ensures var r := Execute(old(table), st);
              && (err.None? <==> r.Ok?)
              && (r.Ok? ==> table == r.value)
              && (r.Err? ==> table == old(table) && err == Some(r.error))
    {
      match st {
      case Insert(id, row) =>
        if id in table {
          return Some(Duplicate);
        }
        if SlotTaken(table, id, row) {
          return Some(SlugTaken);
        }
        table := table[id := row];
      case UpdateRow(id, row, now) =>
        if id !in table || table[id].tenant != row.tenant {
          return Some(NotFound);
        }
        var next := table[id].(kind := row.kind, slug := row.slug, title := row.title, body := row.body,
                               format := row.format, author := row.author, updatedAt := now);
        if SlotTaken(table, id, next) {
          return Some(SlugTaken);
        }
        table := table[id := next];
      case SetPublished(id, tenant, at, now) =>
        if id !in table || table[id].tenant != tenant {
          return Some(NotFound);
        }
        table := table[id := table[id].(publishedAt := at, updatedAt := now)];
      case DeleteRow(id, tenant) =>
        if id !in table || table[id].tenant != tenant {
          return Some(NotFound);
        }
        table := table - {id};
      }
      return None;
    }

    method Serve(call: Call, now: int) returns (err: Option<Error>)
      modifies this
      ensures var r := Served(old(table), call, now);
              && (err.None? <==> r.Ok?)
              && (r.Ok? ==> table == r.value)
              && (r.Err? ==> table == old(table) && err == Some(r.error))
    {
      if !Admissible(call) {
        return Some(Invalid);
      }
      if call.Create? {
        err := Exec(Insert(call.id, Fresh(call.row, now)));
        return;
      }
      var existing := Read(table, call);
      if existing.None? {
        return Some(NotFound);
      }
      match call
      case Update(id, row) =>
        var c := Defaulted(row);
        c := c.(author := existing.value.author, publishedAt := existing.value.publishedAt,
          createdAt := existing.value.createdAt);
        err := Exec(UpdateRow(id, c, now));
      case Publish(id, tenant) =>
        err := Exec(SetPublished(id, tenant, Some(now), now));
      case Unpublish(id, tenant) =>
        err := Exec(SetPublished(id, tenant, None, now));
      case Delete(id, tenant) =>
        err := Exec(DeleteRow(id, tenant));
    }
  }

  // ----- every interleaving of calls -----

  // A process holding a row read it when the first at statements had taken effect.
  datatype Proc = Waiting(call: Call) | Holding(call: Call, seen: Row, at: nat) | Done(err: Option<Error>)

  // log holds the statements that took effect, in order; runners[i] is the process that ran log[i].
  datatype Machine = Machine(table: Table, procs: seq<Proc>, log: seq<Statement>, runners: seq<nat>)

  function Run(m: Machine, p: nat, st: Statement): Machine
    requires p < |m.procs|
  {
    var r := Execute(m.table, st);
    if r.Ok? then Machine(r.value, m.procs[p := Done(None)], m.log + [st], m.runners + [p])
    else m.(procs := m.procs[p := Done(Some(r.error))])
  }

  // Process p executes its next statement at time now.
  function Step(m: Machine, p: nat, now: int): Machine {
    if p >= |m.procs| then m
    else match m.procs[p]
      case Waiting(call) =>
        if !Admissible(call) then m.(procs := m.procs[p := Done(Some(Invalid))])
        else if call.Create? then Run(m, p, Insert(call.id, Fresh(call.row, now)))
        else if Read(m.table, call).None? then m.(procs := m.procs[p := Done(Some(NotFound))])
        else m.(procs := m.procs[p := Holding(call, Read(m.table, call).value, |m.log|)])
      case Holding(call, seen, _) => if call.Create? then m else Run(m, p, Write(call, seen, now))
      case Done(_) => m
  }

  function Play(m: Machine, schedule: seq<(nat, int)>): Machine {
    if schedule == [] then m
    else Step(Play(m, schedule[..|schedule| - 1]), schedule[|schedule| - 1].0, schedule[|schedule| - 1].1)
  }

  // The latest publication decision about a row: its insert's, or the last
  // Publish or Unpublish since.
  function Decision(log: seq<Statement>, id: string): Option<int> {
    if log == [] then None
    else match log[|log| - 1]
      case Insert(k, row) => if k == id then row.publishedAt else Decision(log[..|log| - 1], id)
      case SetPublished(k, _, at, _) => if k == id then at else Decision(log[..|log| - 1], id)
      case _ => Decision(log[..|log| - 1], id)
  }

  // The insert that brought the row.
  function Origin(log: seq<Statement>, id: string): Option<Row> {
    if log == [] then None
    else match log[|log| - 1]
      case Insert(k, row) => if k == id then Some(row) else Origin(log[..|log| - 1], id)
      case _ => Origin(log[..|log| - 1], id)
  }

  // The last insert or update of the row, whose columns it shows.
  function Written(log: seq<Statement>, id: string): Option<Row> {
    if log == [] then None
    else match log[|log| - 1]
      case Insert(k, row) => if k == id then Some(row) else Written(log[..|log| - 1], id)
      case UpdateRow(k, row, _) => if k == id then Some(row) else Written(log[..|log| - 1], id)
      case _ => Written(log[..|log| - 1], id)
  }

  // The row was inserted, and not deleted since.
  predicate Present(log: seq<Statement>, id: string) {
    log != [] &&
    match log[|log| - 1]
    case Insert(k, _) => k == id || Present(log[..|log| - 1], id)
    case DeleteRow(k, _) => k != id && Present(log[..|log| - 1], id)
    case _ => Present(log[..|log| - 1], id)
  }

  predicate SameText(a: Row, b: Row) {
    a.kind == b.kind && a.slug == b.slug && a.title == b.title && a.body == b.body && a.format == b.format &&
      a.author == b.author
  }

  ghost predicate UniqueSlots(table: Table) {
    forall a, b | a in table && b in table && a != b :: !SameSlot(table[a], table[b])
  }

  // The table holds the rows inserted and not deleted, with the text of their last write.
  ghost predicate ShowsText(m: Machine) {
    && (forall id :: id in m.table <==> Present(m.log, id))
    && (forall id | id in m.table :: Written(m.log, id).Some? && SameText(m.table[id], Written(m.log, id).value))
  }

  // Each row carries its insert's tenant and creation time and the latest
  // publication decision.
  ghost predicate ShowsDecision(m: Machine) {
    forall id | id in m.table ::
      && Origin(m.log, id).Some?
      && m.table[id].tenant == Origin(m.log, id).value.tenant
      && m.table[id].createdAt == Origin(m.log, id).value.createdAt
      && m.table[id].publishedAt == Decision(m.log, id)
  }

  ghost predicate Faithful(m: Machine) {
    UniqueSlots(m.table) && ShowsText(m) && ShowsDecision(m)
  }

  lemma ExecuteKeepsSlots(table: Table, st: Statement)
    requires UniqueSlots(table) && Execute(table, st).Ok?
    ensures UniqueSlots(Execute(table, st).value)
  {
  }

  lemma RunShowsText(m: Machine, p: nat, st: Statement)
    requires ShowsText(m) && p < |m.procs|
    ensures ShowsText(Run(m, p, st))
  {
    assert (m.log + [st])[..|m.log|] == m.log;
  }

  lemma RunShowsDecision(m: Machine, p: nat, st: Statement)
    requires ShowsDecision(m) && p < |m.procs|
    ensures ShowsDecision(Run(m, p, st))
  {
    assert (m.log + [st])[..|m.log|] == m.log;
  }

  lemma RunFaithful(m: Machine, p: nat, st: Statement)
    requires Faithful(m) && p < |m.procs|
    ensures Faithful(Run(m, p, st))
  {
    RunShowsText(m, p, st);
    RunShowsDecision(m, p, st);
    if Execute(m.table, st).Ok? {
      ExecuteKeepsSlots(m.table, st);
    }
  }

  // A call run alone takes two steps here and does what Served says.
  lemma UninterruptedCall(m: Machine, p: nat, now: int)
    requires p < |m.procs| && m.procs[p].Waiting?
    ensures var r := Served(m.table, m.procs[p].call, now);
            var end := Step(Step(m, p, now), p, now);
            && end.procs == m.procs[p := Done(if r.Ok? then None else Some(r.error))]
            && end.table == (if r.Ok? then r.value else m.table)
  {
  }

  // However updates, publishes and deletes interleave, even when a Publish lands
  // between an Update's read and its write, every row keeps the latest
  // publication decision, its creation time and tenant and its last text, no
  // deleted row comes back, and slots stay unique.
  lemma {:induction false} EveryInterleavingIsFaithful(m: Machine, schedule: seq<(nat, int)>)
    requires Faithful(m)
    ensures Faithful(Play(m, schedule))
  {
    if schedule != [] {
      var mid, p := Play(m, schedule[..|schedule| - 1]), schedule[|schedule| - 1].0;
      EveryInterleavingIsFaithful(m, schedule[..|schedule| - 1]);
      StepFaithful(mid, p, schedule[|schedule| - 1].1);
    }
  }

  lemma StepFaithful(m: Machine, p: nat, now: int)
    requires Faithful(m)
    ensures Faithful(Step(m, p, now))
  {
    if p < |m.procs| {
      match m.procs[p]
      case Waiting(call) =>
        if Admissible(call) && call.Create? {
          RunFaithful(m, p, Insert(call.id, Fresh(call.row, now)));
        }
      case Holding(call, seen, _) =>
        if !call.Create? {
          RunFaithful(m, p, Write(call, seen, now));
        }
      case Done(_) =>
    }
  }

  // ----- what each call does -----

  // The row a call leaves when its write takes effect at time now, over the one
  // it finds then; the Update's author is the one it read.
  predicate Leaves(call: Call, seen: Row, found: Row, now: int, left: Row) {
    match call
    case Create(_, r) =>
      && left.tenant == r.tenant && left.kind == r.kind && left.slug == r.slug && left.title == r.title
      && left.body == r.body && left.format == (if r.format == "" then "markdown" else r.format)
      && left.author == r.author && left.publishedAt == r.publishedAt
      && left.createdAt == (if r.createdAt == 0 then now else r.createdAt)
      && left.updatedAt == (if r.updatedAt == 0 then left.createdAt else r.updatedAt)
    case Update(_, r) =>
      left == found.(kind := r.kind, slug := r.slug, title := r.title, body := r.body,
                     format := if r.format == "" then "markdown" else r.format, author := seen.author, updatedAt := now)
    case Publish(_, _) => left == found.(publishedAt := Some(now), updatedAt := now)
    case Unpublish(_, _) => left == found.(publishedAt := None, updatedAt := now)
    case Delete(_, _) => false
  }

  // A call that reports success has changed its own row so, and no other.
  lemma CallsTakeEffect(m: Machine, p: nat, now: int)
    requires p < |m.procs| && !m.procs[p].Done? && Step(m, p, now).procs[p] == Done(None)
    requires m.procs[p].Holding? ==> !m.procs[p].call.Create?
    ensures var call, next := m.procs[p].call, Step(m, p, now).table;
            && (call.Create? <==> m.procs[p].Waiting?)
            && (call.Create? <==> call.id !in m.table)
            && (if call.Delete? then next == m.table - {call.id}
                else
                  var seen := if call.Create? then call.row else m.procs[p].seen;
                  && call.id in next
                  && Leaves(call, seen, if call.Create? then call.row else m.table[call.id], now, next[call.id])
                  && next - {call.id} == m.table - {call.id})
  {
  }

  // A call that does not changes nothing, and says why.
  lemma RefusedCallsChangeNothing(m: Machine, p: nat, now: int)
    requires p < |m.procs| && !m.procs[p].Done?
    ensures var call, proc := m.procs[p].call, Step(m, p, now).procs[p];
            && (proc != Done(None) ==> Step(m, p, now).table == m.table)
            && (m.procs[p].Waiting? ==> (proc == Done(Some(Invalid)) <==> !Accepted(call)))
            && (m.procs[p].Waiting? && Accepted(call) && !call.Create? ==>
                  (proc == Done(Some(NotFound)) <==> call.id !in m.table || m.table[call.id].tenant != TenantOf(call)))
            && (m.procs[p].Waiting? && Accepted(call) && call.Create? ==>
                  && (proc == Done(Some(Duplicate)) <==> call.id in m.table)
                  && (proc == Done(Some(SlugTaken)) <==> call.id !in m.table && HasSlot(m.table, call.id, call.row)))
            && (m.procs[p].Holding? && !call.Create? ==>
                  && (proc == Done(Some(NotFound)) <==>
                        call.id !in m.table || m.table[call.id].tenant != TenantOf(call))
                  && (proc == Done(Some(SlugTaken)) <==>
                        && call.Update? && call.id in m.table && m.table[call.id].tenant == TenantOf(call)
                        && HasSlot(m.table, call.id, call.row)))
  {
    var call := m.procs[p].call;
    AcceptedIsAdmissible(call);
    if call.Create? {
      assert SameSlots(m.table, call.id, call.row, Fresh(call.row, now));
    } else if call.Update? && call.id in m.table {
      assert SameSlots(m.table, call.id, call.row, m.table[call.id].(kind := call.row.kind, slug := call.row.slug));
    }
  }

  // Another row has this tenant, kind and slug.
  predicate HasSlot(table: Table, id: string, r: Row) {
    exists k | k in table && k != id ::
      table[k].tenant == r.tenant && table[k].kind == r.kind && table[k].slug == r.slug
  }

  predicate SameSlots(table: Table, id: string, r: Row, q: Row) {
    r.tenant == q.tenant && r.kind == q.kind && r.slug == q.slug ==> HasSlot(table, id, r) == SlotTaken(table, id, q)
  }

  // What the calls' arguments must satisfy.
  predicate Accepted(call: Call) {
    (call.Create? || call.Update? ==>
       var r := call.row;
       && Text.TrimSpace(r.tenant) != "" && Text.TrimSpace(r.kind) != "" && Text.TrimSpace(r.slug) != ""
       && Text.TrimSpace(r.title) != ""
       && Text.ByteLen(r.slug) <= 200 && Text.ByteLen(r.kind) <= 50 && Text.ByteLen(r.title) <= 300
       && r.format in {"", "markdown", "html", "text"})
    && (call.Update? ==> Text.TrimSpace(call.id) != "")
  }

  lemma AcceptedIsAdmissible(call: Call)
    ensures Accepted(call) <==> Admissible(call)
  {
  }

  // ----- every acknowledged call is in the log -----

  // The statement does what the call asked for.
  predicate Answers(call: Call, st: Statement) {
    match call
    case Create(id, row) =>
      && st.Insert? && st.id == id && st.row.tenant == row.tenant && st.row.publishedAt == row.publishedAt
      && SameText(st.row, row.(format := if row.format == "" then "markdown" else row.format))
    case Update(id, row) =>
      && st.UpdateRow? && st.id == id && st.row.tenant == row.tenant
      && SameText(st.row, row.(format := if row.format == "" then "markdown" else row.format, author := st.row.author))
    case Publish(id, tenant) => st.SetPublished? && st == SetPublished(id, tenant, Some(st.now), st.now)
    case Unpublish(id, tenant) => st.SetPublished? && st == SetPublished(id, tenant, None, st.now)
    case Delete(id, tenant) => st == DeleteRow(id, tenant)
  }

  // A logged statement of process p does what its call asked for.
  predicate Logged(log: seq<Statement>, runners: seq<nat>, p: nat, call: Call)
    requires |runners| == |log|
  {
    exists i | 0 <= i < |log| :: runners[i] == p && Answers(call, log[i])
  }

  // Where process p, which was to serve the call, stands.
  predicate Accounted(call: Call, proc: Proc, p: nat, log: seq<Statement>, runners: seq<nat>)
    requires |runners| == |log|
  {
    match proc
    case Waiting(c) => c == call && p !in runners
    case Holding(c, _, _) => c == call && !call.Create? && p !in runners
    case Done(None) => Logged(log, runners, p, call)
    case Done(_) => p !in runners
  }

  ghost predicate AllAccounted(calls: seq<Call>, m: Machine) {
    && |m.procs| == |calls| && |m.runners| == |m.log| && NoDuplicates(m.runners)
    && forall p | 0 <= p < |calls| :: Accounted(calls[p], m.procs[p], p, m.log, m.runners)
  }

  lemma OthersAccounted(call: Call, proc: Proc, q: nat, m: Machine, p: nat, st: Statement)
    requires |m.runners| == |m.log| && p < |m.procs| && q != p && Accounted(call, proc, q, m.log, m.runners)
    ensures var next := Run(m, p, st); |next.runners| == |next.log| && Accounted(call, proc, q, next.log, next.runners)
  {
    var next := Run(m, p, st);
    if proc == Done(None) {
      var i :| 0 <= i < |m.log| && m.runners[i] == q && Answers(call, m.log[i]);
      assert next.runners[i] == q && next.log[i] == m.log[i];
    }
  }

  lemma RunAccounted(calls: seq<Call>, m: Machine, p: nat, st: Statement)
    requires AllAccounted(calls, m) && p < |calls| && p !in m.runners && Answers(calls[p], st)
    ensures AllAccounted(calls, Run(m, p, st))
  {
    var next := Run(m, p, st);
    forall q | 0 <= q < |calls| ensures Accounted(calls[q], next.procs[q], q, next.log, next.runners) {
      if q != p {
        OthersAccounted(calls[q], m.procs[q], q, m, p, st);
      } else if next.procs[p] == Done(None) {
        assert next.runners[|m.log|] == p && next.log[|m.log|] == st;
      }
    }
  }

  lemma StepAccounted(calls: seq<Call>, m: Machine, p: nat, now: int)
    requires AllAccounted(calls, m)
    ensures AllAccounted(calls, Step(m, p, now))
  {
    if p < |m.procs| {
      assert Accounted(calls[p], m.procs[p], p, m.log, m.runners);
      match m.procs[p]
      case Waiting(call) =>
        if Admissible(call) && call.Create? {
          RunAccounted(calls, m, p, Insert(call.id, Fresh(call.row, now)));
        }
      case Holding(call, seen, _) => RunAccounted(calls, m, p, Write(call, seen, now));
      case Done(_) =>
    }
  }

  // In every interleaving the log that the table shows has one entry for each
  // call that reported success, run by its own process and doing what it asked,
  // and none for any other call.
  lemma {:induction false} AcknowledgedCallsAreLogged(calls: seq<Call>, m: Machine, schedule: seq<(nat, int)>)
    requires AllAccounted(calls, m)
    ensures AllAccounted(calls, Play(m, schedule))
    ensures var end := Play(m, schedule);
            && NoDuplicates(end.runners)
            && forall p | 0 <= p < |calls| :: (end.procs[p] == Done(None) <==> p in end.runners) &&
                 (end.procs[p] == Done(None) ==> Logged(end.log, end.runners, p, calls[p]))
  {
    if schedule != [] {
      var front, last := schedule[..|schedule| - 1], schedule[|schedule| - 1];
      AcknowledgedCallsAreLogged(calls, m, front);
      StepAccounted(calls, Play(m, front), last.0, last.1);
    }
    var end := Play(m, schedule);
    forall p | 0 <= p < |calls|
      ensures (end.procs[p] == Done(None) <==> p in end.runners) &&
              (end.procs[p] == Done(None) ==> Logged(end.log, end.runners, p, calls[p]))
    {
      assert Accounted(calls[p], end.procs[p], p, end.log, end.runners);
    }
  }

  // ----- authorship -----

  // Each row carries the author of the insert that brought it.
  ghost predicate Attributed(m: Machine) {
    forall id | id in m.table :: Origin(m.log, id).Some? && m.table[id].author == Origin(m.log, id).value.author
  }

  // Each row read carries the author of the insert in force when it was read.
  ghost predicate ReadTruly(m: Machine) {
    forall p | 0 <= p < |m.procs| && m.procs[p].Holding? ::
      var proc := m.procs[p];
      && proc.at <= |m.log| && Origin(m.log[..proc.at], proc.call.id).Some?
      && proc.seen.author == Origin(m.log[..proc.at], proc.call.id).value.author
  }

  // If process p is about to complete an Update, the insert in force now has the
  // author of the one in force at its Get.
  predicate Steady(m: Machine, p: nat, now: int) {
    && p < |m.procs| && m.procs[p].Holding? && m.procs[p].call.Update?
    && Execute(m.table, Write(m.procs[p].call, m.procs[p].seen, now)).Ok?
    ==>
      && m.procs[p].at <= |m.log|
      && SameAuthor(Origin(m.log[..m.procs[p].at], m.procs[p].call.id), Origin(m.log, m.procs[p].call.id))
  }

  predicate SameAuthor(a: Option<Row>, b: Option<Row>) {
    a.Some? && b.Some? && a.value.author == b.value.author
  }

  ghost predicate AlwaysAttributed(m: Machine, schedule: seq<(nat, int)>) {
    forall k | 0 <= k <= |schedule| :: Attributed(Play(m, schedule[..k]))
  }

  ghost predicate AlwaysSteady(m: Machine, schedule: seq<(nat, int)>) {
    forall k | 0 <= k < |schedule| :: Steady(Play(m, schedule[..k]), schedule[k].0, schedule[k].1)
  }

  lemma RunAttributed(m: Machine, p: nat, st: Statement)
    requires Attributed(m) && p < |m.procs| && Execute(m.table, st).Ok?
    ensures Attributed(Run(m, p, st)) <==>
            (st.UpdateRow? ==> Origin(m.log, st.id).Some? && st.row.author == Origin(m.log, st.id).value.author)
  {
    var next := Run(m, p, st);
    assert (m.log + [st])[..|m.log|] == m.log;
    if st.UpdateRow? {
      assert st.id in next.table && next.table[st.id].author == st.row.author;
    }
  }

  lemma StepReadsTruly(m: Machine, p: nat, now: int)
    requires Attributed(m) && ReadTruly(m)
    ensures ReadTruly(Step(m, p, now))
  {
    var next := Step(m, p, now);
    forall q | 0 <= q < |next.procs| && next.procs[q].Holding?
      ensures var proc := next.procs[q];
              && proc.at <= |next.log| && Origin(next.log[..proc.at], proc.call.id).Some?
              && proc.seen.author == Origin(next.log[..proc.at], proc.call.id).value.author
    {
      if m.procs[q].Holding? {
        assert next.procs[q] == m.procs[q] && next.log[..m.procs[q].at] == m.log[..m.procs[q].at];
      } else {
        assert next.log[..|m.log|] == m.log;
      }
    }
  }

  // A step keeps every row attributed exactly when it is steady.
  lemma StepAttributed(m: Machine, p: nat, now: int)
    requires Attributed(m) && ReadTruly(m)
    ensures Attributed(Step(m, p, now)) <==> Steady(m, p, now)
  {
    if p < |m.procs| {
      match m.procs[p]
      case Waiting(call) =>
        if Admissible(call) && call.Create? && Execute(m.table, Insert(call.id, Fresh(call.row, now))).Ok? {
          RunAttributed(m, p, Insert(call.id, Fresh(call.row, now)));
        }
      case Holding(call, seen, _) =>
        if !call.Create? && Execute(m.table, Write(call, seen, now)).Ok? {
          RunAttributed(m, p, Write(call, seen, now));
        }
      case Done(_) =>
    }
  }

  // Over a whole schedule every row keeps its insert's author, at every point,
  // exactly when for each Update that succeeds the insert in force at its Get and
  // the one in force at its write have one author.
  lemma {:induction false} AuthorsAreKeptExactly(m: Machine, schedule: seq<(nat, int)>)
    requires Attributed(m) && ReadTruly(m)
    ensures AlwaysAttributed(m, schedule) <==> AlwaysSteady(m, schedule)
    ensures AlwaysAttributed(m, schedule) ==> ReadTruly(Play(m, schedule))
  {
    assert schedule[..|schedule|] == schedule;
    if schedule != [] {
      var front, last := schedule[..|schedule| - 1], schedule[|schedule| - 1];
      AuthorsAreKeptExactly(m, front);
      AttributedOneMore(m, schedule);
      SteadyOneMore(m, schedule);
      if AlwaysAttributed(m, front) {
        assert front[..|front|] == front;
        StepReadsTruly(Play(m, front), last.0, last.1);
        StepAttributed(Play(m, front), last.0, last.1);
      }
    }
  }

  lemma AttributedOneMore(m: Machine, schedule: seq<(nat, int)>)
    requires schedule != []
    ensures AlwaysAttributed(m, schedule) <==>
            AlwaysAttributed(m, schedule[..|schedule| - 1]) && Attributed(Play(m, schedule))
  {
    var front := schedule[..|schedule| - 1];
    assert schedule[..|schedule|] == schedule;
    assert forall k | 0 <= k <= |front| :: front[..k] == schedule[..k];
  }

  lemma SteadyOneMore(m: Machine, schedule: seq<(nat, int)>)
    requires schedule != []
    ensures var front, last := schedule[..|schedule| - 1], schedule[|schedule| - 1];
            AlwaysSteady(m, schedule) <==> AlwaysSteady(m, front) && Steady(Play(m, front), last.0, last.1)
  {
    var front := schedule[..|schedule| - 1];
    assert forall k | 0 <= k <= |front| :: front[..k] == schedule[..k];
  }

  predicate NoReuse(log: seq<Statement>) {
    forall i, j | 0 <= i < j < |log| :: !(log[i].Insert? && log[j].Insert? && log[i].id == log[j].id)
  }

  lemma {:induction false} NewIdHasNoOrigin(log: seq<Statement>, st: Statement)
    requires st.Insert? && NoReuse(log + [st])
    ensures Origin(log, st.id).None?
  {
    if log != [] {
      var front := log[..|log| - 1];
      var all := log + [st];
      assert all[|log| - 1] == log[|log| - 1] && all[|log|] == st;
      forall i, j | 0 <= i < j < |front + [st]|
        ensures !((front + [st])[i].Insert? && (front + [st])[j].Insert? &&
                (front + [st])[i].id == (front + [st])[j].id)
      {
        assert (front + [st])[i] == all[i];
        assert (front + [st])[j] == all[if j < |front| then j else |log|];
      }
      NewIdHasNoOrigin(front, st);
    }
  }

  lemma {:induction false} OriginStays(log: seq<Statement>, at: nat, id: string)
    requires NoReuse(log) && at <= |log| && Origin(log[..at], id).Some?
    ensures Origin(log, id) == Origin(log[..at], id)
  {
    if at == |log| {
      assert log[..at] == log;
    } else {
      var front, last := log[..|log| - 1], log[|log| - 1];
      assert front[..at] == log[..at];
      OriginStays(front, at, id);
      if last.Insert? {
        assert front + [last] == log;
        NewIdHasNoOrigin(front, last);
      }
    }
  }

  lemma NoReuseIsSteady(m: Machine, p: nat, now: int)
    requires ReadTruly(m) && NoReuse(m.log)
    ensures Steady(m, p, now)
  {
    if p < |m.procs| && m.procs[p].Holding? {
      OriginStays(m.log, m.procs[p].at, m.procs[p].call.id);
    }
  }

  // In particular, as long as no id is inserted twice, an Update never changes
  // who a row's author is, however stale the row it read.
  lemma {:induction false} AuthorsAreKept(m: Machine, schedule: seq<(nat, int)>)
    requires Attributed(m) && ReadTruly(m) && NoReuse(Play(m, schedule).log)
    ensures Attributed(Play(m, schedule)) && ReadTruly(Play(m, schedule))
  {
    if schedule != [] {
      var front := schedule[..|schedule| - 1];
      var mid, last := Play(m, front), schedule[|schedule| - 1];
      LogGrows(mid, last.0, last.1);
      forall i, j | 0 <= i < j < |mid.log|
        ensures !(mid.log[i].Insert? && mid.log[j].Insert? && mid.log[i].id == mid.log[j].id)
      {
        var log := Play(m, schedule).log;
        assert mid.log[i] == log[i] && mid.log[j] == log[j];
      }
      AuthorsAreKept(m, front);
      NoReuseIsSteady(mid, last.0, last.1);
      StepAttributed(mid, last.0, last.1);
      StepReadsTruly(mid, last.0, last.1);
    }
  }

  lemma LogGrows(m: Machine, p: nat, now: int)
    ensures m.log <= Step(m, p, now).log
  {
  }

  lemma OnlyRow(id: string, row: Row, st: Statement)
    requires st.id == id && (st.UpdateRow? ==> st.row.tenant == row.tenant) &&
             (st.DeleteRow? ==> st.tenant == row.tenant)
    ensures st.Insert? ==> Execute(map[], st) == Ok(map[id := st.row])
    ensures st.DeleteRow? ==> Execute(map[id := row], st) == Ok(map[])
    ensures st.UpdateRow? ==>
              Execute(map[id := row], st)
              == Ok(map[id := row.(kind := st.row.kind, slug := st.row.slug, title := st.row.title, body := st.row.body,
                                   format := st.row.format, author := st.row.author, updatedAt := st.now)])
  {
    var table: Table := map[id := row];
    assert table - {id} == map[];
    if st.UpdateRow? {
      var next := row.(kind := st.row.kind, slug := st.row.slug, title := st.row.title, body := st.row.body,
                       format := st.row.format, author := st.row.author, updatedAt := st.now);
      assert table[id := next] == map[id := next];
    }
  }

  lemma CreateStep(m: Machine, p: nat, now: int)
    requires p < |m.procs| && m.procs[p].Waiting? && m.procs[p].call.Create? && m.table == map[]
    requires Admissible(m.procs[p].call)
    ensures var id, row := m.procs[p].call.id, Fresh(m.procs[p].call.row, now);
            Step(m, p, now) ==
            Machine(map[id := row], m.procs[p := Done(None)], m.log + [Insert(id, row)], m.runners + [p])
  {
    OnlyRow(m.procs[p].call.id, m.procs[p].call.row, Insert(m.procs[p].call.id, Fresh(m.procs[p].call.row, now)));
  }

  lemma ReadStep(m: Machine, p: nat, now: int, id: string, row: Row)
    requires p < |m.procs| && m.procs[p].Waiting? && !m.procs[p].call.Create? && Admissible(m.procs[p].call)
    requires m.table == map[id := row] && m.procs[p].call.id == id && TenantOf(m.procs[p].call) == row.tenant
    ensures Step(m, p, now) == m.(procs := m.procs[p := Holding(m.procs[p].call, row, |m.log|)])
  {
  }

  lemma DeleteStep(m: Machine, p: nat, now: int, id: string, row: Row)
    requires p < |m.procs| && m.procs[p].Holding? && m.procs[p].call == Delete(id, row.tenant) &&
             m.table == map[id := row]
    ensures Step(m, p, now) ==
            Machine(map[], m.procs[p := Done(None)], m.log + [DeleteRow(id, row.tenant)], m.runners + [p])
  {
    OnlyRow(id, row, DeleteRow(id, row.tenant));
  }

  lemma UpdateStep(m: Machine, p: nat, now: int, id: string, row: Row)
    requires p < |m.procs| && m.procs[p].Holding? && m.procs[p].call.Update? && m.procs[p].call.id == id
    requires m.table == map[id := row] && m.procs[p].call.row.tenant == row.tenant
    ensures var next := Step(m, p, now);
            && next.procs == m.procs[p := Done(None)] && id in next.table
            && next.table[id].author == m.procs[p].seen.author && Origin(next.log, id) == Origin(m.log, id)
  {
    var st := Write(m.procs[p].call, m.procs[p].seen, now);
    OnlyRow(id, row, st);
    assert (m.log + [st])[..|m.log|] == m.log;
  }

  // Two authors use one id in turn: a Create, an Update that reads the row, a
  // Delete, a second Create, and only then the Update's write.
  function ReuseStart(id: string, first: Row, second: Row, edit: Row): Machine {
    Machine(map[], [Waiting(Create(id, first)), Waiting(Update(id, edit)),
                    Waiting(Delete(id, first.tenant)), Waiting(Create(id, second))], [], [])
  }

  const REUSE: seq<(nat, int)> := [(0, 1), (1, 2), (2, 3), (2, 4), (3, 5), (1, 6)]

  lemma PlayOneMore(m: Machine, schedule: seq<(nat, int)>, k: nat)
    requires k < |schedule|
    ensures Play(m, schedule[..0]) == m
    ensures Play(m, schedule[..k + 1]) == Step(Play(m, schedule[..k]), schedule[k].0, schedule[k].1)
  {
    assert schedule[..k + 1][..k] == schedule[..k];
  }

  // After the first Create, after both Gets, and after the second Create.
  function ReuseMade(id: string, first: Row, second: Row, edit: Row): Machine {
    Machine(map[id := Fresh(first, 1)],
            [Done(None), Waiting(Update(id, edit)), Waiting(Delete(id, first.tenant)), Waiting(Create(id, second))],
            [Insert(id, Fresh(first, 1))], [0])
  }

  function ReuseRead(id: string, first: Row, second: Row, edit: Row): Machine {
    var row := Fresh(first, 1);
    Machine(map[id := row],
            [Done(None), Holding(Update(id, edit), row, 1), Holding(Delete(id, first.tenant), row, 1),
              Waiting(Create(id, second))],
            [Insert(id, row)], [0])
  }

  function ReuseRemade(id: string, first: Row, second: Row, edit: Row): Machine {
    var row, anew := Fresh(first, 1), Fresh(second, 5);
    Machine(map[id := anew], [Done(None), Holding(Update(id, edit), row, 1), Done(None), Done(None)],
            [Insert(id, row), DeleteRow(id, first.tenant), Insert(id, anew)], [0, 2, 3])
  }

  lemma ReuseMakes(id: string, first: Row, second: Row, edit: Row)
    requires ContentValid(first)
    ensures Play(ReuseStart(id, first, second, edit), REUSE[..1]) == ReuseMade(id, first, second, edit)
  {
    PlayOneMore(ReuseStart(id, first, second, edit), REUSE, 0);
    CreateStep(ReuseStart(id, first, second, edit), 0, 1);
  }

  lemma ReuseReads(id: string, first: Row, second: Row, edit: Row)
    requires ContentValid(edit) && !Text.Blank(id) && first.tenant == edit.tenant
    ensures Step(Step(ReuseMade(id, first, second, edit), 1, 2), 2, 3) == ReuseRead(id, first, second, edit)
  {
    var made := ReuseMade(id, first, second, edit);
    ReadStep(made, 1, 2, id, Fresh(first, 1));
    ReadStep(Step(made, 1, 2), 2, 3, id, Fresh(first, 1));
  }

  lemma ReuseRemakes(id: string, first: Row, second: Row, edit: Row)
    requires ContentValid(second)
    ensures Step(Step(ReuseRead(id, first, second, edit), 2, 4), 3, 5) == ReuseRemade(id, first, second, edit)
  {
    var held := ReuseRead(id, first, second, edit);
    DeleteStep(held, 2, 4, id, Fresh(first, 1));
    CreateStep(Step(held, 2, 4), 3, 5);
  }

  lemma ReusePlays(id: string, first: Row, second: Row, edit: Row) returns (schedule: seq<(nat, int)>)
    requires ContentValid(first) && ContentValid(second) && ContentValid(edit) && !Text.Blank(id)
    requires first.tenant == edit.tenant
    ensures Play(ReuseStart(id, first, second, edit), schedule) == Step(ReuseRemade(id, first, second, edit), 1, 6)
  {
    schedule := REUSE;
    var start := ReuseStart(id, first, second, edit);
    ReuseMakes(id, first, second, edit);
    ReuseReads(id, first, second, edit);
    ReuseRemakes(id, first, second, edit);
    PlayOneMore(start, REUSE, 1);
    PlayOneMore(start, REUSE, 2);
    PlayOneMore(start, REUSE, 3);
    PlayOneMore(start, REUSE, 4);
    PlayOneMore(start, REUSE, 5);
    assert REUSE[..6] == REUSE;
  }

  // The Update succeeded, and the row another insert brought carries the author it read.
  predicate Usurped(m: Machine, id: string, author: string, origin: Row) {
    |m.procs| == 4 && m.procs[1] == Done(None) && id in m.table && m.table[id].author == author &&
      Origin(m.log, id) == Some(origin)
  }

  lemma ReuseUsurps(id: string, first: Row, second: Row, edit: Row)
    requires second.tenant == edit.tenant
    ensures Usurped(Step(ReuseRemade(id, first, second, edit), 1, 6), id, first.author, Fresh(second, 5))
  {
    UpdateStep(ReuseRemade(id, first, second, edit), 1, 6, id, Fresh(second, 5));
  }

  lemma ReuseEnds(id: string, first: Row, second: Row, edit: Row) returns (schedule: seq<(nat, int)>)
    requires ContentValid(first) && ContentValid(second) && ContentValid(edit) && !Text.Blank(id)
    requires first.tenant == second.tenant == edit.tenant
    ensures Usurped(Play(ReuseStart(id, first, second, edit), schedule), id, first.author, Fresh(second, 5))
  {
    schedule := ReusePlays(id, first, second, edit);
    ReuseUsurps(id, first, second, edit);
  }

  lemma UsurpedIsUnsteady(m: Machine, schedule: seq<(nat, int)>, id: string, author: string, origin: Row)
    requires Attributed(m) && ReadTruly(m)
    requires Usurped(Play(m, schedule), id, author, origin) && author != origin.author
    ensures !Attributed(Play(m, schedule)) && !AlwaysSteady(m, schedule)
  {
    AttributedAtTheEnd(m, schedule);
    AuthorsAreKeptExactly(m, schedule);
  }

  // The failing family: an Update that read a row since deleted writes the old
  // author onto the row another author inserted under the same id.
  lemma ReusedIdTakesOldAuthor(id: string, first: Row, second: Row, edit: Row) returns (schedule: seq<(nat, int)>)
    requires ContentValid(first) && ContentValid(second) && ContentValid(edit) && !Text.Blank(id)
    requires first.tenant == second.tenant == edit.tenant && first.author != second.author
    ensures var start := ReuseStart(id, first, second, edit);
            && Usurped(Play(start, schedule), id, first.author, Fresh(second, 5))
            && !Attributed(Play(start, schedule)) && !AlwaysSteady(start, schedule)
  {
    schedule := ReuseEnds(id, first, second, edit);
    UsurpedIsUnsteady(ReuseStart(id, first, second, edit), schedule, id, first.author, Fresh(second, 5));
  }

  lemma AttributedAtTheEnd(m: Machine, schedule: seq<(nat, int)>)
    ensures AlwaysAttributed(m, schedule) ==> Attributed(Play(m, schedule))
  {
    assert schedule[..|schedule|] == schedule;
  }
}
