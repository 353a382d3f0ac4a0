/** pkg/audit/store: one filter compiled for two SQL dialects over an append-only log. */
module AuditQuery {
  import opened Sequences
  import Text

  const DEFAULT_LIMIT := 100
  const MAX_LIMIT := 1000

  // time.Time, with 0 for the zero time.
  const ZERO_TIME := 0

  datatype Event = Event(id: string, tenant: string, actor: string, action: string, resource: string,
                         severity: string, details: string, emittedAt: int)

  // A field at its zero value means "any".
  datatype QueryFilter = QueryFilter(tenant: string, actor: string, action: string, since: int, until: int,
                                     limit: int, offset: int)

  // ----- SQL, as far as the builders use it -----

  datatype Column = TenantId | Actor | Action | EmittedAt
  datatype Operator = Equals | AtLeast | Below
  datatype Mark = Question | Dollar(n: nat)
  datatype Clause = Clause(column: Column, op: Operator, mark: Mark)

  // SELECT ... WHERE c1 AND c2 ... ORDER BY emitted_at ASC LIMIT m OFFSET m
  datatype Statement = Statement(clauses: seq<Clause>, limit: Mark, offset: Mark)

  datatype Arg = Str(s: string) | Time(t: int) | Number(n: int)

  // A clause with its argument in place.
  datatype Test = Test(column: Column, op: Operator, arg: Arg)

  // The placeholders in the order the text has them.
  function Marks(st: Statement): seq<Mark> {
    seq(|st.clauses|, i requires 0 <= i < |st.clauses| => st.clauses[i].mark) + [st.limit, st.offset]
  }

  // A positional driver gives the i-th ? the i-th argument and takes no others.
  function BindPositional(marks: seq<Mark>, args: seq<Arg>): Option<seq<Arg>> {
    if |marks| == |args| && forall m | m in marks :: m == Question then Some(args) else None
  }

  predicate Numbered(marks: seq<Mark>, args: seq<Arg>) {
    && (forall m | m in marks :: m.Dollar? && 1 <= m.n <= |args|)
    && (forall n: nat | 1 <= n <= |args| :: Dollar(n) in marks)
  }

  // A numbered driver gives $n the n-th argument and wants every argument used.
  function BindNumbered(marks: seq<Mark>, args: seq<Arg>): Option<seq<Arg>> {
    if Numbered(marks, args) then
      Some(seq(|marks|, i requires 0 <= i < |marks| => assert marks[i] in marks; args[marks[i].n - 1]))
    else None
  }

  predicate Holds(t: Test, e: Event) {
    match (t.column, t.op, t.arg)
    case (TenantId, Equals, Str(s)) => e.tenant == s
    case (Actor, Equals, Str(s)) => e.actor == s
    case (Action, Equals, Str(s)) => e.action == s
    case (EmittedAt, AtLeast, Time(t)) => e.emittedAt >= t
    case (EmittedAt, Below, Time(t)) => e.emittedAt < t
    case _ => false
  }

  predicate AllHold(tests: seq<Test>, e: Event) {
    forall t | t in tests :: Holds(t, e)
  }

  predicate NotLater(a: Event, b: Event) {
    a.emittedAt <= b.emittedAt
  }

  // How the engine lays out the rows of one query. ORDER BY emitted_at leaves
  // rows with equal times in any order, and in another at the next query.
  type Order = seq<Event> -> seq<Event>

  ghost predicate IsOrder(ord: Order) {
    forall s :: multiset(ord(s)) == multiset(s) && Sorted(NotLater, ord(s))
  }

  // What the engine returns for a statement whose placeholders were bound.
  function Execute(st: Statement, bound: Option<seq<Arg>>, log: seq<Event>, ord: Order): Option<seq<Event>> {
    var n := |st.clauses|;
    if bound.None? || |bound.value| != n + 2 || !bound.value[n].Number? || !bound.value[n + 1].Number?
       || bound.value[n].n < 0 || bound.value[n + 1].n < 0 then None
    else
      var tests := seq(n, i requires 0 <= i < n => Test(st.clauses[i].column, st.clauses[i].op, bound.value[i]));
      Some(Page(ord(Filter(e => AllHold(tests, e), log)), bound.value[n].n, bound.value[n + 1].n))
  }

  // ----- the filter itself -----

  function EffectiveLimit(f: QueryFilter): (n: nat)
    ensures 1 <= n <= MAX_LIMIT
  {
    if f.limit <= 0 then DEFAULT_LIMIT else if f.limit > MAX_LIMIT then MAX_LIMIT else f.limit
  }

  function EffectiveOffset(f: QueryFilter): nat {
    if f.offset < 0 then 0 else f.offset
  }

  predicate Matches(f: QueryFilter, e: Event) {
    && e.tenant == f.tenant
    && (f.actor != "" ==> e.actor == f.actor)
    && (f.action != "" ==> e.action == f.action)
    && (f.since != ZERO_TIME ==> f.since <= e.emittedAt)
    && (f.until != ZERO_TIME ==> e.emittedAt < f.until)
  }

  function Matching(f: QueryFilter, log: seq<Event>): seq<Event> {
    Filter(e => Matches(f, e), log)
  }

  // Everything the filter selects, oldest first.
  function Selected(f: QueryFilter, log: seq<Event>, ord: Order): seq<Event> {
    if Text.Blank(f.tenant) then [] else ord(Matching(f, log))
  }

  // What Query promises, with no SQL in sight.
  function Answer(f: QueryFilter, log: seq<Event>, ord: Order): seq<Event> {
    Page(Selected(f, log, ord), EffectiveLimit(f), EffectiveOffset(f))
  }

  // ----- the two compilers -----

  // The filter as a list of tests, and with the page bounds as an argument list.
  function Tests(f: QueryFilter): seq<Test> {
    [Test(TenantId, Equals, Str(f.tenant))]
    + (if f.actor != "" then [Test(Actor, Equals, Str(f.actor))] else [])
    + (if f.action != "" then [Test(Action, Equals, Str(f.action))] else [])
    + (if f.since != ZERO_TIME then [Test(EmittedAt, AtLeast, Time(f.since))] else [])
    + (if f.until != ZERO_TIME then [Test(EmittedAt, Below, Time(f.until))] else [])
  }

  // clauses and args, read together with every mark resolved in its dialect, are these tests.
  ghost predicate SpellsPositional(clauses: seq<Clause>, args: seq<Arg>, tests: seq<Test>) {
    && |clauses| == |args| == |tests|
    && forall i | 0 <= i < |tests| ::
         tests[i] == Test(clauses[i].column, clauses[i].op, args[i]) && clauses[i].mark == Question
  }

  ghost predicate SpellsNumbered(clauses: seq<Clause>, args: seq<Arg>, tests: seq<Test>) {
    && |clauses| == |args| == |tests|
    && forall i | 0 <= i < |tests| ::
         tests[i] == Test(clauses[i].column, clauses[i].op, args[i]) && clauses[i].mark == Dollar(i + 1)
  }

  method ClampPage(f: QueryFilter) returns (limit: int, offset: int)
    ensures limit == EffectiveLimit(f) && offset == EffectiveOffset(f)
  {
    limit := f.limit;
    if limit <= 0 {
      limit := DEFAULT_LIMIT;
    }
    if limit > MAX_LIMIT {
      limit := MAX_LIMIT;
    }
    offset := f.offset;
    if offset < 0 {
      offset := 0;
    }
  }

  method CompileSqlite(f: QueryFilter) returns (st: Statement, args: seq<Arg>)
    ensures |args| == |st.clauses| + 2
    ensures SpellsPositional(st.clauses, args[..|st.clauses|], Tests(f))
    ensures st.limit == st.offset == Question
    ensures args[|st.clauses|..] == [Number(EffectiveLimit(f)), Number(EffectiveOffset(f))]
  {
    var limit, offset := ClampPage(f);
    var clauses := [Clause(TenantId, Equals, Question)];
    args := [Str(f.tenant)];
    if f.actor != "" {
      clauses, args := clauses + [Clause(Actor, Equals, Question)], args + [Str(f.actor)];
    }
    if f.action != "" {
      clauses, args := clauses + [Clause(Action, Equals, Question)], args + [Str(f.action)];
    }
    if f.since != ZERO_TIME {
      clauses, args := clauses + [Clause(EmittedAt, AtLeast, Question)], args + [Time(f.since)];
    }
    if f.until != ZERO_TIME {
      clauses, args := clauses + [Clause(EmittedAt, Below, Question)], args + [Time(f.until)];
    }
    assert SpellsPositional(clauses, args, Tests(f));
    ghost var bound := args;
    args := args + [Number(limit), Number(offset)];
    assert args[..|clauses|] == bound;
    st := Statement(clauses, Question, Question);
  }

  method CompilePostgres(f: QueryFilter) returns (st: Statement, args: seq<Arg>)
    ensures |args| == |st.clauses| + 2
    ensures SpellsNumbered(st.clauses, args[..|st.clauses|], Tests(f))
    ensures st.limit == Dollar(|args| - 1) && st.offset == Dollar(|args|)
    ensures args[|st.clauses|..] == [Number(EffectiveLimit(f)), Number(EffectiveOffset(f))]
  {
    var limit, offset := ClampPage(f);
    var clauses := [Clause(TenantId, Equals, Dollar(1))];
    args := [Str(f.tenant)];
    var next := 2;
    if f.actor != "" {
      clauses, args := clauses + [Clause(Actor, Equals, Dollar(next))], args + [Str(f.actor)];
      next := next + 1;
    }
    if f.action != "" {
      clauses, args := clauses + [Clause(Action, Equals, Dollar(next))], args + [Str(f.action)];
      next := next + 1;
    }
    if f.since != ZERO_TIME {
      clauses, args := clauses + [Clause(EmittedAt, AtLeast, Dollar(next))], args + [Time(f.since)];
      next := next + 1;
    }
    if f.until != ZERO_TIME {
      clauses, args := clauses + [Clause(EmittedAt, Below, Dollar(next))], args + [Time(f.until)];
      next := next + 1;
    }
    assert SpellsNumbered(clauses, args, Tests(f));
    ghost var bound := args;
    st := Statement(clauses, Dollar(next), Dollar(next + 1));
    args := args + [Number(limit), Number(offset)];
    assert args[..|clauses|] == bound;
  }

  // ----- both mean the filter -----

  lemma TestsMeanMatches(f: QueryFilter, e: Event)
    ensures AllHold(Tests(f), e) <==> Matches(f, e)
  {
    var ts := Tests(f);
    assert Test(TenantId, Equals, Str(f.tenant)) in ts;
    if f.actor != "" {
      assert Test(Actor, Equals, Str(f.actor)) in ts;
    }
    if f.action != "" {
      assert Test(Action, Equals, Str(f.action)) in ts;
    }
    if f.since != ZERO_TIME {
      assert Test(EmittedAt, AtLeast, Time(f.since)) in ts;
    }
    if f.until != ZERO_TIME {
      assert Test(EmittedAt, Below, Time(f.until)) in ts;
    }
  }

  lemma ExecuteMeansAnswer(st: Statement, args: seq<Arg>, f: QueryFilter, log: seq<Event>, ord: Order)
    requires !Text.Blank(f.tenant)
    requires var n := |st.clauses|;
             && |args| == n + 2 && n == |Tests(f)|
             && args[n..] == [Number(EffectiveLimit(f)), Number(EffectiveOffset(f))]
             && forall i | 0 <= i < n :: Tests(f)[i] == Test(st.clauses[i].column, st.clauses[i].op, args[i])
    ensures Execute(st, Some(args), log, ord) == Some(Answer(f, log, ord))
  {
    var n := |st.clauses|;
    var tests := seq(n, i requires 0 <= i < n => Test(st.clauses[i].column, st.clauses[i].op, args[i]));
    assert tests == Tests(f);
    assert args[n] == args[n..][0] && args[n + 1] == args[n..][1];
    forall e | e in log ensures AllHold(tests, e) == Matches(f, e) {
      TestsMeanMatches(f, e);
    }
    FilterAgree(e => AllHold(tests, e), e => Matches(f, e), log);
  }

  // The positional text and its argument list mean the filter.
  lemma PositionalMeansFilter(st: Statement, args: seq<Arg>, f: QueryFilter, log: seq<Event>, ord: Order)
    requires !Text.Blank(f.tenant)
    requires |args| == |st.clauses| + 2
    requires SpellsPositional(st.clauses, args[..|st.clauses|], Tests(f)) && st.limit == st.offset == Question
    requires args[|st.clauses|..] == [Number(EffectiveLimit(f)), Number(EffectiveOffset(f))]
    ensures Execute(st, BindPositional(Marks(st), args), log, ord) == Some(Answer(f, log, ord))
  {
    forall m | m in Marks(st) ensures m == Question {
    }
    ExecuteMeansAnswer(st, args, f, log, ord);
  }

  // The numbered text and its argument list mean the same filter.
  lemma NumberedMeansFilter(st: Statement, args: seq<Arg>, f: QueryFilter, log: seq<Event>, ord: Order)
    requires !Text.Blank(f.tenant)
    requires |args| == |st.clauses| + 2
    requires SpellsNumbered(st.clauses, args[..|st.clauses|], Tests(f))
    requires st.limit == Dollar(|args| - 1) && st.offset == Dollar(|args|)
    requires args[|st.clauses|..] == [Number(EffectiveLimit(f)), Number(EffectiveOffset(f))]
    ensures Execute(st, BindNumbered(Marks(st), args), log, ord) == Some(Answer(f, log, ord))
  {
    var marks := Marks(st);
    assert |marks| == |args| && forall i | 0 <= i < |marks| :: marks[i] == Dollar(i + 1);
    forall n: nat | 1 <= n <= |args| ensures Dollar(n) in marks {
      assert marks[n - 1] == Dollar(n);
    }
    var bound := BindNumbered(marks, args);
    assert bound.Some? && |bound.value| == |args| && forall i | 0 <= i < |args| :: bound.value[i] == args[i];
    assert bound.value == args;
    ExecuteMeansAnswer(st, args, f, log, ord);
  }

  // ----- what the answer is -----

  // Answers are the tenant's own matching events, oldest first, at most a page.
  lemma AnswerIsSound(f: QueryFilter, log: seq<Event>, ord: Order)
    requires IsOrder(ord)
    ensures var out := Answer(f, log, ord);
            && |out| <= EffectiveLimit(f)
            && Sorted(NotLater, out)
            && forall e | e in out :: e in log && Matches(f, e) && !Text.Blank(e.tenant)
  {
    var all := Selected(f, log, ord);
    if !Text.Blank(f.tenant) {
      forall e | e in all ensures e in log && Matches(f, e) {
        assert e in multiset(all);
        FilterMember(e => Matches(f, e), log, e);
      }
    }
    assert forall e | e in Answer(f, log, ord) :: e in all;
  }

  // Events of other tenants, wherever they were appended, change no answer.
  lemma OtherTenantsAreInvisible(f: QueryFilter, log: seq<Event>, ord: Order)
    ensures Answer(f, log, ord) == Answer(f, Filter((e: Event) => e.tenant == f.tenant, log), ord)
  {
    FilterTwice(f, log);
  }

  lemma {:induction false} FilterTwice(f: QueryFilter, log: seq<Event>)
    ensures Matching(f, log) == Matching(f, Filter((e: Event) => e.tenant == f.tenant, log))
  {
    if log != [] {
      FilterTwice(f, log[1..]);
      var own := Filter((e: Event) => e.tenant == f.tenant, log);
      if log[0].tenant == f.tenant {
        assert own == [log[0]] + Filter((e: Event) => e.tenant == f.tenant, log[1..]);
      }
    }
  }

  // ----- pages -----

  // An answer has as many events as there are from its offset on, at most the
  // limit; 100 stands in for a limit of 0 or less and 1000 bounds it.
  lemma AnswerLength(f: QueryFilter, log: seq<Event>, ord: Order)
    requires IsOrder(ord) && !Text.Blank(f.tenant)
    ensures var size := if f.limit <= 0 then 100 else if f.limit > 1000 then 1000 else f.limit;
            var left := |Matching(f, log)| - (if f.offset < 0 then 0 else f.offset);
            |Answer(f, log, ord)| == if left <= 0 then 0 else if left < size then left else size
  {
    OrderOf(Matching(f, log), ord);
    SameLength(Matching(f, log), ord(Matching(f, log)));
  }

  // The answers at offsets 0, limit, 2 * limit, ..., joined; each query has its own order.
  function AnswerPages(f: QueryFilter, log: seq<Event>, limit: nat, ords: seq<Order>): seq<Event> {
    if ords == [] then []
    else
      var k := |ords| - 1;
      AnswerPages(f, log, limit, ords[..k]) + Answer(f.(offset := Offset(limit, k)), log, ords[k])
  }

  ghost predicate AllOrders(ords: seq<Order>) {
    forall k | 0 <= k < |ords| :: IsOrder(ords[k])
  }

  // A page ends between two events of one time.
  predicate TieAt(s: seq<Event>, b: nat) {
    0 < b < |s| && s[b - 1].emittedAt == s[b].emittedAt
  }

  // No page of n ends between two matching events of one time.
  predicate NoTieAcross(f: QueryFilter, log: seq<Event>, limit: nat, n: nat) {
    forall k: nat | k < n :: !TieAt(StableSort(NotLater, Matching(f, log)), Offset(limit, k))
  }

  lemma AnswerIsPage(f: QueryFilter, log: seq<Event>, offset: nat, ord: Order)
    requires !Text.Blank(f.tenant)
    ensures Answer(f.(offset := offset), log, ord) == Page(ord(Matching(f, log)), EffectiveLimit(f), offset)
  {
    var g := f.(offset := offset);
    FilterAgree(e => Matches(f, e), e => Matches(g, e), log);
  }

  lemma OldestFirst(s: seq<Event>)
    ensures Sorted(NotLater, StableSort(NotLater, s)) && multiset(StableSort(NotLater, s)) == multiset(s)
  {
    StableSortSorts(NotLater, s);
    StableSortPermutes(NotLater, s);
  }

  lemma FilterKeepsMultiset(p: Event -> bool, s: seq<Event>, o: seq<Event>)
    requires multiset(s) == multiset(o)
    ensures multiset(Filter(p, s)) == multiset(Filter(p, o))
  {
    forall e ensures multiset(Filter(p, s))[e] == multiset(Filter(p, o))[e] {
      FilterCounts(p, s, e);
      FilterCounts(p, o, e);
    }
  }

  function Before(t: int): Event -> bool {
    (e: Event) => e.emittedAt < t
  }

  // In time order, the events before t come first.
  lemma {:induction false} EarlierFirst(s: seq<Event>, t: int)
    requires Sorted(NotLater, s)
    ensures var c := |Filter(Before(t), s)|;
            && c <= |s| && Filter(Before(t), s) == s[..c]
            && (forall i | 0 <= i < c :: s[i].emittedAt < t) && (forall i | c <= i < |s| :: s[i].emittedAt >= t)
  {
    if s != [] {
      EarlierFirst(s[1..], t);
      if s[0].emittedAt >= t {
        FilterNone(Before(t), s);
      }
    }
  }

  // Up to a boundary no tie crosses, every order has the same events.
  lemma SamePrefix(s: seq<Event>, o: seq<Event>, b: nat)
    requires Sorted(NotLater, s) && Sorted(NotLater, o) && multiset(s) == multiset(o)
    requires b <= |s| && !TieAt(s, b)
    ensures |o| == |s| && multiset(o[..b]) == multiset(s[..b])
  {
    SameLength(s, o);
    if b == |s| {
      assert s[..b] == s && o[..b] == o;
    } else if b > 0 {
      var t := s[b].emittedAt;
      EarlierFirst(s, t);
      EarlierFirst(o, t);
      FilterKeepsMultiset(Before(t), s, o);
      SameLength(Filter(Before(t), s), Filter(Before(t), o));
      assert NotLater(s[b - 1], s[b]);
    }
  }

  lemma SameLength(s: seq<Event>, o: seq<Event>)
    requires multiset(s) == multiset(o)
    ensures |s| == |o|
  {
    assert |multiset(s)| == |s| && |multiset(o)| == |o|;
  }

  function Upto(s: seq<Event>, b: nat): seq<Event> {
    if b <= |s| then s[..b] else s
  }

  lemma PageIsSlice(o: seq<Event>, limit: nat, b: nat)
    ensures Upto(o, b) + Page(o, limit, b) == Upto(o, b + limit)
  {
  }

  lemma UptoSame(s: seq<Event>, o: seq<Event>, b: nat)
    requires Sorted(NotLater, s) && Sorted(NotLater, o) && multiset(s) == multiset(o) && !TieAt(s, b)
    ensures multiset(Upto(o, b)) == multiset(Upto(s, b))
  {
    SameLength(s, o);
    if b <= |s| {
      SamePrefix(s, o, b);
    }
  }

  // One page, as the difference of two such prefixes.
  lemma PageIsDifference(s: seq<Event>, o: seq<Event>, limit: nat, b: nat)
    requires Sorted(NotLater, s) && Sorted(NotLater, o) && multiset(s) == multiset(o)
    requires !TieAt(s, b) && !TieAt(s, b + limit)
    ensures multiset(Upto(s, b)) + multiset(Page(o, limit, b)) == multiset(Upto(s, b + limit))
  {
    UptoSame(s, o, b);
    UptoSame(s, o, b + limit);
    PageIsSlice(o, limit, b);
  }

  lemma OrderOf(all: seq<Event>, ord: Order)
    requires IsOrder(ord)
    ensures multiset(ord(all)) == multiset(all) && Sorted(NotLater, ord(all))
  {
  }

  lemma AnswerIsDifference(f: QueryFilter, log: seq<Event>, s: seq<Event>, limit: nat, b: nat, ord: Order)
    requires !Text.Blank(f.tenant) && limit == EffectiveLimit(f) && IsOrder(ord)
    requires multiset(s) == multiset(Matching(f, log)) && Sorted(NotLater, s) && !TieAt(s, b) && !TieAt(s, b + limit)
    ensures multiset(Upto(s, b)) + multiset(Answer(f.(offset := b), log, ord)) == multiset(Upto(s, b + limit))
  {
    AnswerIsPage(f, log, b, ord);
    OrderOf(Matching(f, log), ord);
    PageIsDifference(s, ord(Matching(f, log)), limit, b);
  }

  lemma JoinSame(a: seq<Event>, u: seq<Event>, page: seq<Event>, v: seq<Event>)
    requires multiset(a) == multiset(u) && multiset(u) + multiset(page) == multiset(v)
    ensures multiset(a + page) == multiset(v)
  {
  }

  lemma {:induction false} PagesCover(f: QueryFilter, log: seq<Event>, s: seq<Event>, limit: nat, ords: seq<Order>)
    requires !Text.Blank(f.tenant) && limit == EffectiveLimit(f) && AllOrders(ords)
    requires multiset(s) == multiset(Matching(f, log)) && Sorted(NotLater, s)
    requires forall k: nat | k <= |ords| :: !TieAt(s, Offset(limit, k))
    ensures multiset(AnswerPages(f, log, limit, ords)) == multiset(Upto(s, Offset(limit, |ords|)))
  {
    if ords != [] {
      var k := |ords| - 1;
      var b := Offset(limit, k);
      PagesCover(f, log, s, limit, ords[..k]);
      assert Offset(limit, k + 1) == b + limit;
      AnswerIsDifference(f, log, s, limit, b, ords[k]);
      JoinSame(AnswerPages(f, log, limit, ords[..k]), Upto(s, b), Answer(f.(offset := b), log, ords[k]),
        Upto(s, b + limit));
    }
  }

  lemma NoTieTiles(f: QueryFilter, log: seq<Event>, limit: nat, ords: seq<Order>)
    requires !Text.Blank(f.tenant) && limit == EffectiveLimit(f) && AllOrders(ords)
    requires Offset(limit, |ords|) >= |Matching(f, log)| && NoTieAcross(f, log, limit, |ords|)
    ensures multiset(AnswerPages(f, log, limit, ords)) == multiset(Matching(f, log))
  {
    OldestFirst(Matching(f, log));
    SameLength(Matching(f, log), StableSort(NotLater, Matching(f, log)));
    var s := StableSort(NotLater, Matching(f, log));
    assert !TieAt(s, Offset(limit, |ords|));
    PagesCover(f, log, s, limit, ords);
    assert Upto(s, Offset(limit, |ords|)) == s;
  }

  // ----- a tie across a boundary -----

  function ByTime(): Order {
    (s: seq<Event>) => StableSort(NotLater, s)
  }

  // Time order, but with the events around b of one selection exchanged.
  function Exchanged(all: seq<Event>, b: nat): Order {
    (s: seq<Event>) =>
      var o := StableSort(NotLater, s);
      if s == all && 0 < b < |o| then o[b - 1 := o[b]][b := o[b - 1]] else o
  }

  lemma ExchangeSorts(o: seq<Event>, b: nat)
    requires Sorted(NotLater, o) && TieAt(o, b)
    ensures var x := o[b - 1 := o[b]][b := o[b - 1]]; multiset(x) == multiset(o) && Sorted(NotLater, x)
  {
    var x := o[b - 1 := o[b]][b := o[b - 1]];
    forall i | 0 <= i < |o| ensures x[i].emittedAt == o[i].emittedAt {
    }
    forall i, j | 0 <= i < j < |x| ensures NotLater(x[i], x[j]) {
      assert NotLater(o[i], o[j]);
    }
  }

  lemma ByTimeIsOrder()
    ensures IsOrder(ByTime())
  {
    forall s ensures multiset(ByTime()(s)) == multiset(s) && Sorted(NotLater, ByTime()(s)) {
      OldestFirst(s);
    }
  }

  lemma ExchangedIsOrder(all: seq<Event>, b: nat)
    requires TieAt(StableSort(NotLater, all), b)
    ensures IsOrder(Exchanged(all, b))
  {
    forall s ensures multiset(Exchanged(all, b)(s)) == multiset(s) && Sorted(NotLater, Exchanged(all, b)(s)) {
      OldestFirst(s);
      if s == all {
        ExchangeSorts(StableSort(NotLater, all), b);
      }
    }
  }

  lemma {:induction false} ByTimePages(f: QueryFilter, log: seq<Event>, limit: nat, n: nat)
    requires !Text.Blank(f.tenant) && limit == EffectiveLimit(f)
    ensures AnswerPages(f, log, limit, seq(n, _ => ByTime())) == Pages(StableSort(NotLater, Matching(f, log)), limit, n)
  {
    if n > 0 {
      var ords := seq(n, _ => ByTime());
      assert ords[..n - 1] == seq(n - 1, _ => ByTime());
      ByTimePages(f, log, limit, n - 1);
      AnswerIsPage(f, log, Offset(limit, n - 1), ords[n - 1]);
    }
  }

  lemma {:induction false} PagesPrefix(f: QueryFilter, log: seq<Event>, limit: nat, ords: seq<Order>, k: nat)
    requires k <= |ords|
    ensures AnswerPages(f, log, limit, ords[..k]) <= AnswerPages(f, log, limit, ords)
  {
    if k < |ords| {
      assert ords[..|ords| - 1][..k] == ords[..k];
      PagesPrefix(f, log, limit, ords[..|ords| - 1], k);
    } else {
      assert ords[..k] == ords;
    }
  }

  // Every query in time order, but page k with the events around its start exchanged.
  function TieOrders(all: seq<Event>, b: nat, n: nat, k: nat): seq<Order> {
    seq(n, i requires 0 <= i < n => TieOrder(all, b, i, k))
  }

  function TieOrder(all: seq<Event>, b: nat, i: nat, k: nat): Order {
    if i == k then Exchanged(all, b) else ByTime()
  }

  lemma OneMorePage(f: QueryFilter, log: seq<Event>, limit: nat, ords: seq<Order>, k: nat)
    requires k < |ords|
    ensures AnswerPages(f, log, limit, ords[..k + 1]) ==
            AnswerPages(f, log, limit, ords[..k]) + Answer(f.(offset := Offset(limit, k)), log, ords[k])
  {
    assert ords[..k + 1][..k] == ords[..k];
  }

  lemma TwiceIn(a: seq<Event>, b: seq<Event>, whole: seq<Event>, e: Event)
    requires e in a && e in b && a + b <= whole
    ensures multiset(whole)[e] >= 2
  {
    assert whole == a + b + whole[|a + b|..];
  }

  lemma EarlyPages(f: QueryFilter, log: seq<Event>, limit: nat, n: nat, k: nat)
    requires !Text.Blank(f.tenant) && limit == EffectiveLimit(f) && k < n
    requires TieAt(StableSort(NotLater, Matching(f, log)), Offset(limit, k))
    ensures var all, b := Matching(f, log), Offset(limit, k);
            StableSort(NotLater, all)[b - 1] in AnswerPages(f, log, limit, TieOrders(all, b, n, k)[..k])
  {
    var all, b := Matching(f, log), Offset(limit, k);
    var s := StableSort(NotLater, all);
    assert TieOrders(all, b, n, k)[..k] == seq(k, _ => ByTime());
    ByTimePages(f, log, limit, k);
    PagesTile(s, limit, k);
    assert s[..b][b - 1] == s[b - 1];
  }

  lemma TiedPage(f: QueryFilter, log: seq<Event>, limit: nat, b: nat)
    requires !Text.Blank(f.tenant) && limit == EffectiveLimit(f) && TieAt(StableSort(NotLater, Matching(f, log)), b)
    ensures StableSort(NotLater, Matching(f, log))[b - 1] in
            Answer(f.(offset := b), log, Exchanged(Matching(f, log), b))
  {
    var all := Matching(f, log);
    AnswerIsPage(f, log, b, Exchanged(all, b));
    assert Page(Exchanged(all, b)(all), limit, b)[0] == StableSort(NotLater, all)[b - 1];
  }

  lemma TieOrdersAreOrders(all: seq<Event>, b: nat, n: nat, k: nat)
    requires TieAt(StableSort(NotLater, all), b)
    ensures AllOrders(TieOrders(all, b, n, k))
  {
    ExchangedIsOrder(all, b);
    ByTimeIsOrder();
  }

  lemma TiedTwice(f: QueryFilter, log: seq<Event>, limit: nat, ords: seq<Order>, k: nat, e: Event)
    requires k < |ords| && e in AnswerPages(f, log, limit, ords[..k])
    requires e in Answer(f.(offset := Offset(limit, k)), log, ords[k])
    ensures multiset(AnswerPages(f, log, limit, ords))[e] >= 2
  {
    OneMorePage(f, log, limit, ords, k);
    PagesPrefix(f, log, limit, ords, k + 1);
    TwiceIn(AnswerPages(f, log, limit, ords[..k]), Answer(f.(offset := Offset(limit, k)), log, ords[k]),
            AnswerPages(f, log, limit, ords), e);
  }

  // If page k begins between two events of one time, the queries may return one of them twice.
  lemma TieRepeats(f: QueryFilter, log: seq<Event>, limit: nat, n: nat, k: nat) returns (ords: seq<Order>)
    requires !Text.Blank(f.tenant) && limit == EffectiveLimit(f) && k < n
    requires TieAt(StableSort(NotLater, Matching(f, log)), Offset(limit, k))
    ensures |ords| == n && AllOrders(ords)
    ensures var s := StableSort(NotLater, Matching(f, log));
            multiset(AnswerPages(f, log, limit, ords))[s[Offset(limit, k) - 1]] >= 2
  {
    var all, b := Matching(f, log), Offset(limit, k);
    ords := TieOrders(all, b, n, k);
    TieOrdersAreOrders(all, b, n, k);
    EarlyPages(f, log, limit, n, k);
    TiedPage(f, log, limit, b);
    TiedTwice(f, log, limit, ords, k, StableSort(NotLater, all)[b - 1]);
  }

  // ----- exactly when pages tile -----

  // Enough pages at the effective limit join to every matching event exactly
  // once, however each query orders equal times, exactly when no page ends
  // between two matching events of one time.
  lemma AnswersTile(f: QueryFilter, log: seq<Event>, limit: nat, n: nat)
    requires !Text.Blank(f.tenant) && NoDuplicates(log) && limit == EffectiveLimit(f)
    requires Offset(limit, n) >= |Matching(f, log)|
    ensures (forall ords: seq<Order> | |ords| == n && AllOrders(ords) ::
               multiset(AnswerPages(f, log, limit, ords)) == multiset(Matching(f, log)))
            <==> NoTieAcross(f, log, limit, n)
  {
    if NoTieAcross(f, log, limit, n) {
      forall ords: seq<Order> | |ords| == n && AllOrders(ords)
        ensures multiset(AnswerPages(f, log, limit, ords)) == multiset(Matching(f, log))
      {
        NoTieTiles(f, log, limit, ords);
      }
    } else {
      var k: nat :| k < n && TieAt(StableSort(NotLater, Matching(f, log)), Offset(limit, k));
      var ords := TieRepeats(f, log, limit, n, k);
      FilterKeepsDistinct(e => Matches(f, e), log);
      OnceEach(Matching(f, log));
      assert multiset(AnswerPages(f, log, limit, ords)) != multiset(Matching(f, log));
    }
  }

  predicate DistinctTimes(s: seq<Event>) {
    forall i, j | 0 <= i < j < |s| :: s[i].emittedAt != s[j].emittedAt
  }

  // With distinct times there is one order, and the pages join to it.
  lemma DistinctTimesTile(f: QueryFilter, log: seq<Event>, limit: nat, ords: seq<Order>)
    requires !Text.Blank(f.tenant) && limit == EffectiveLimit(f) && AllOrders(ords)
    requires DistinctTimes(Matching(f, log)) && Offset(limit, |ords|) >= |Matching(f, log)|
    ensures AnswerPages(f, log, limit, ords) == StableSort(NotLater, Matching(f, log))
  {
    var all := Matching(f, log);
    OldestFirst(all);
    SameLength(all, StableSort(NotLater, all));
    DistinctTimesPages(f, log, limit, ords);
    PagesTile(StableSort(NotLater, all), limit, |ords|);
  }

  lemma {:induction false} DistinctTimesPages(f: QueryFilter, log: seq<Event>, limit: nat, ords: seq<Order>)
    requires !Text.Blank(f.tenant) && limit == EffectiveLimit(f) && AllOrders(ords) && DistinctTimes(Matching(f, log))
    ensures AnswerPages(f, log, limit, ords) == Pages(StableSort(NotLater, Matching(f, log)), limit, |ords|)
  {
    if ords != [] {
      var k := |ords| - 1;
      DistinctTimesPages(f, log, limit, ords[..k]);
      AnswerIsPage(f, log, Offset(limit, k), ords[k]);
      assert IsOrder(ords[k]);
      OneOrder(Matching(f, log), ords[k](Matching(f, log)));
    }
  }

  lemma OneOrderAt(s: seq<Event>, o: seq<Event>, b: nat)
    requires b < |s| && |o| == |s| && multiset(o[..b]) == multiset(s[..b]) &&
             multiset(o[..b + 1]) == multiset(s[..b + 1])
    ensures o[b] == s[b]
  {
    assert s[..b + 1] == s[..b] + [s[b]] && o[..b + 1] == o[..b] + [o[b]];
    assert multiset(o[..b]) + multiset{s[b]} == multiset(o[..b]) + multiset{o[b]};
    assert (multiset(o[..b]) + multiset{s[b]})[o[b]] == (multiset(o[..b]) + multiset{o[b]})[o[b]];
  }

  lemma OneOrder(all: seq<Event>, o: seq<Event>)
    requires DistinctTimes(all) && multiset(o) == multiset(all) && Sorted(NotLater, o)
    ensures o == StableSort(NotLater, all)
  {
    var s := StableSort(NotLater, all);
    OldestFirst(all);
    SameLength(s, o);
    StaysDistinct(all, s);
    forall b | 0 <= b < |s| ensures o[b] == s[b] {
      SamePrefix(s, o, b);
      SamePrefix(s, o, b + 1);
      OneOrderAt(s, o, b);
    }
  }

  lemma StaysDistinct(all: seq<Event>, s: seq<Event>)
    requires DistinctTimes(all) && multiset(s) == multiset(all)
    ensures forall b | 0 < b < |s| :: !TieAt(s, b)
  {
    OnceEach(all);
    OnceEach(s);
    forall b | 0 < b < |s| ensures s[b - 1].emittedAt != s[b].emittedAt {
      assert s[b - 1] in multiset(s) && s[b] in multiset(s) && s[b - 1] != s[b];
      var i, j :| 0 <= i < |all| && 0 <= j < |all| && all[i] == s[b - 1] && all[j] == s[b];
      assert all[if i < j then i else j].emittedAt != all[if i < j then j else i].emittedAt;
    }
  }

  // ----- the store -----

  datatype AppendError = DuplicateId

  class EventLog {
    var rows: seq<Event>

    // The primary key.
    ghost predicate Valid()
      reads this
    {
      forall i, j | 0 <= i < j < |rows| :: rows[i].id != rows[j].id
    }

    constructor ()
      ensures Valid() && rows == []
    {
      rows := [];
    }

    method Append(e: Event, now: int) returns (err: Option<AppendError>)
      requires Valid()
      modifies this
      ensures Valid()
      ensures err.None? <==> forall r | r in old(rows) :: r.id != e.id
      ensures rows == if err.Some? then old(rows)
                      else old(rows) + [if e.emittedAt == ZERO_TIME then e.(emittedAt := now) else e]
    {
      if exists r | r in rows :: r.id == e.id {
        return Some(DuplicateId);
      }
      rows := rows + [if e.emittedAt == ZERO_TIME then e.(emittedAt := now) else e];
      return None;
    }

    method QuerySqlite(f: QueryFilter, ord: Order) returns (out: seq<Event>)
      ensures out == Answer(f, rows, ord)
    {
      if Text.Blank(f.tenant) {
        return [];
      }
      var st, args := CompileSqlite(f);
      PositionalMeansFilter(st, args, f, rows, ord);
      out := Execute(st, BindPositional(Marks(st), args), rows, ord).value;
    }

    method QueryPostgres(f: QueryFilter, ord: Order) returns (out: seq<Event>)
      ensures out == Answer(f, rows, ord)
    {
      if Text.Blank(f.tenant) {
        return [];
      }
      var st, args := CompilePostgres(f);
      NumberedMeansFilter(st, args, f, rows, ord);
      out := Execute(st, BindNumbered(Marks(st), args), rows, ord).value;
    }
  }
}
