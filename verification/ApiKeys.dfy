/** pkg/apikey: issuing, verifying and revoking API keys over one table. */
module ApiKeys {
  import opened Sequences
  import Text

  const KEY_PREFIX := "pk"
  const PREFIX_LENGTH := 12
  const SECRET_LENGTH := 43
  const MAX_SCOPES := 50
  const MAX_SCOPE_BYTES := 100
  const RESERVED: set<string> := {"admin", "console:access"}

  const DEFAULT_SCOPES: seq<string> :=
    ["api-keys:read", "api-keys:write", "audit:read", "content:read", "content:write", "metrics:read",
     "notifications:read", "notifications:write", "tenants:read", "tenants:write", "users:read", "users:write"]

  // An ideal hash: it verifies exactly the plaintext it was made from.
  datatype Digest = Digest(of: string)

  datatype Row = Row(id: string, tenant: string, user: string, name: string, prefix: string, hash: Digest,
                     scopes: seq<string>, lastUsed: Option<int>, revokedAt: Option<int>, expiresAt: Option<int>,
                     createdAt: int)

  datatype ScopeError = TooMany | EmptyScope | TooLong | Reserved(scope: string) | Unknown(scope: string)

  datatype IssueError =
    | MissingTenant | MissingUser | MissingName
    | BadScope(reason: ScopeError)
    | GenerationFailed | HashFailed | StoreFailed | Duplicate

  datatype VerifyError = InvalidKey | KeyRevoked | KeyExpired | LookupFailed

  datatype RevokeError = RevokeBlank | NotFound | RevokeFailed

  datatype ListError = ListBlank | ListFailed

  // How the statements of a Revoke fare: all work; the update fails; its count of
  // rows cannot be had; the read after a count of zero fails.
  datatype RevokeFault = Works | UpdateFails | CountFails | ReadFails

  // The random source, hasher and store as one Issue meets them; None is a failed read.
  datatype Source = Source(secret: Option<string>, id: Option<string>, hashes: bool, stores: bool)

  predicate IsBase64Url(c: char) {
    'a' <= c <= 'z' || 'A' <= c <= 'Z' || '0' <= c <= '9' || c == '-' || c == '_'
  }

  // What generateSecret and generateID promise: 43 and 16 base64url characters.
  predicate Generated(src: Source) {
    && (src.secret.Some? ==> |src.secret.value| == SECRET_LENGTH && forall c | c in src.secret.value :: IsBase64Url(c))
    && (src.id.Some? ==> |src.id.value| == 16 && forall c | c in src.id.value :: IsBase64Url(c))
  }

  // ----- scopes -----

  // The complaint about one trimmed scope, in the order the code checks.
  function Complaint(allowed: set<string>, scope: string): Option<ScopeError> {
    if scope == [] then Some(EmptyScope)
    else if Text.ByteLen(scope) > MAX_SCOPE_BYTES then Some(TooLong)
    else if scope in RESERVED then Some(Reserved(scope))
    else if scope !in allowed then Some(Unknown(scope))
    else None
  }

  function NormalizeFrom(allowed: set<string>, scopes: seq<string>, out: seq<string>): Result<seq<string>, ScopeError> {
    if scopes == [] then Ok(out)
    else
      var scope := Text.TrimSpace(scopes[0]);
      if Complaint(allowed, scope).Some? then Err(Complaint(allowed, scope).value)
      else NormalizeFrom(allowed, scopes[1..], if scope in out then out else out + [scope])
  }

  function Normalized(allowed: set<string>, scopes: seq<string>): Result<seq<string>, ScopeError> {
    if |scopes| > MAX_SCOPES then Err(TooMany) else NormalizeFrom(allowed, scopes, [])
  }

  method NormalizeScopes(allowed: set<string>, scopes: seq<string>) returns (r: Result<seq<string>, ScopeError>)
    ensures r == Normalized(allowed, scopes)
  {
    if |scopes| > MAX_SCOPES {
      return Err(TooMany);
    }
    var out: seq<string>, seen: set<string> := [], {};
    var i := 0;
    while i < |scopes|
      invariant 0 <= i <= |scopes|
      invariant forall s :: s in seen <==> s in out
      invariant NormalizeFrom(allowed, scopes, []) == NormalizeFrom(allowed, scopes[i..], out)
    {
      assert scopes[i..][1..] == scopes[i + 1..];
      var scope := Text.TrimSpace(scopes[i]);
      if scope == [] {
        return Err(EmptyScope);
      }
      if Text.ByteLen(scope) > MAX_SCOPE_BYTES {
        return Err(TooLong);
      }
      if scope in RESERVED {
        return Err(Reserved(scope));
      }
      if scope !in allowed {
        return Err(Unknown(scope));
      }
      if scope !in seen {
        seen, out := seen + {scope}, out + [scope];
      }
      i := i + 1;
    }
    return Ok(out);
  }

  ghost predicate Granted(allowed: set<string>, scopes: seq<string>) {
    NoDuplicates(scopes) && forall s | s in scopes :: s in allowed && s !in RESERVED
  }

  // Each element once, at its first occurrence.
  function Distinct(s: seq<string>): seq<string> {
    if s == [] then []
    else
      var front := Distinct(s[..|s| - 1]);
      if s[|s| - 1] in front then front else front + [s[|s| - 1]]
  }

  function Trims(s: seq<string>): seq<string> {
    seq(|s|, i requires 0 <= i < |s| => Text.TrimSpace(s[i]))
  }

  lemma {:induction false} DistinctMembers(s: seq<string>)
    ensures NoDuplicates(Distinct(s)) && forall x :: x in Distinct(s) <==> x in s
  {
    if s != [] {
      DistinctMembers(s[..|s| - 1]);
      assert s == s[..|s| - 1] + [s[|s| - 1]];
    }
  }

  // A trimmed scope that may be granted from this catalog.
  predicate Grantable(allowed: set<string>, scope: string) {
    0 < |scope| && Text.ByteLen(scope) <= 100 && scope !in {"admin", "console:access"} && scope in allowed
  }

  // The error for a scope that may not.
  predicate Blames(allowed: set<string>, scope: string, e: ScopeError) {
    match e
    case EmptyScope => scope == ""
    case TooLong => Text.ByteLen(scope) > 100
    case Reserved(r) => r == scope && Text.ByteLen(scope) <= 100 && scope in {"admin", "console:access"}
    case Unknown(u) =>
      && u == scope && 0 < |scope| && Text.ByteLen(scope) <= 100
      && scope !in {"admin", "console:access"} && scope !in allowed
    case TooMany => false
  }

  lemma ComplaintBlames(allowed: set<string>, scope: string)
    ensures Complaint(allowed, scope).None? <==> Grantable(allowed, scope)
    ensures forall e :: Complaint(allowed, scope) == Some(e) <==> Blames(allowed, scope, e)
  {
    var reserved: set<string> := {"admin", "console:access"};
    assert RESERVED == reserved && "" !in reserved;
    forall e ensures Complaint(allowed, scope) == Some(e) <==> Blames(allowed, scope, e) {
    }
  }

  lemma TrimsOfNext(allowed: set<string>, names: seq<string>)
    requires names != []
    ensures var first, rest := Text.TrimSpace(names[0]), Trims(names[1..]);
            && Trims(names) == [first] + rest
            && ((forall s | s in Trims(names) :: Grantable(allowed, s)) <==>
                Grantable(allowed, first) && forall s | s in rest :: Grantable(allowed, s))
  {
    var first, rest := Text.TrimSpace(names[0]), Trims(names[1..]);
    assert Trims(names) == [first] + rest;
    assert forall s :: s in Trims(names) <==> s == first || s in rest;
  }

  lemma {:induction false} NormalizeFromMeans(allowed: set<string>, done: seq<string>, scopes: seq<string>)
    ensures var r := NormalizeFrom(allowed, scopes, Distinct(done));
            && (r.Ok? <==> forall s | s in Trims(scopes) :: Grantable(allowed, s))
            && (r.Ok? ==> r.value == Distinct(done + Trims(scopes)))
    decreases scopes
  {
    if scopes == [] {
      assert done + Trims(scopes) == done;
    } else {
      var first, rest := Text.TrimSpace(scopes[0]), scopes[1..];
      ComplaintBlames(allowed, first);
      TrimsOfNext(allowed, scopes);
      assert (done + [first])[..|done|] == done;
      NormalizeFromMeans(allowed, done + [first], rest);
      assert done + [first] + Trims(rest) == done + Trims(scopes);
    }
  }

  // The first scope that may not be granted decides the error.
  lemma {:induction false} NormalizeFromReports(allowed: set<string>, scopes: seq<string>, out: seq<string>, i: nat)
    requires i < |scopes| && !Grantable(allowed, Text.TrimSpace(scopes[i]))
    requires forall j | 0 <= j < i :: Grantable(allowed, Text.TrimSpace(scopes[j]))
    ensures var r := NormalizeFrom(allowed, scopes, out);
            r.Err? && Blames(allowed, Text.TrimSpace(scopes[i]), r.error)
    decreases i
  {
    ComplaintBlames(allowed, Text.TrimSpace(scopes[0]));
    if i > 0 {
      var scope := Text.TrimSpace(scopes[0]);
      NormalizeFromReports(allowed, scopes[1..], if scope in out then out else out + [scope], i - 1);
    }
  }

  // Scopes are accepted exactly when there are at most 50 and each, trimmed, is
  // in the catalog, not reserved and within bounds; the result keeps first
  // occurrences only.
  lemma NormalizedMeans(allowed: set<string>, scopes: seq<string>)
    ensures Normalized(allowed, scopes).Ok? <==>
            |scopes| <= 50 && forall s | s in Trims(scopes) :: Grantable(allowed, s)
    ensures Normalized(allowed, scopes).Ok? ==>
              Normalized(allowed, scopes).value == Distinct(Trims(scopes)) &&
                Granted(allowed, Normalized(allowed, scopes).value)
  {
    if |scopes| <= 50 {
      AllNormalized(allowed, scopes);
    }
    if forall s | s in Trims(scopes) :: Grantable(allowed, s) {
      DistinctIsGranted(allowed, Trims(scopes));
    }
  }

  lemma AllNormalized(allowed: set<string>, scopes: seq<string>)
    ensures var r := NormalizeFrom(allowed, scopes, []);
            && (r.Ok? <==> forall s | s in Trims(scopes) :: Grantable(allowed, s))
            && (r.Ok? ==> r.value == Distinct(Trims(scopes)))
  {
    NormalizeFromMeans(allowed, [], scopes);
    assert [] + Trims(scopes) == Trims(scopes);
  }

  lemma DistinctIsGranted(allowed: set<string>, scopes: seq<string>)
    requires forall s | s in scopes :: Grantable(allowed, s)
    ensures Granted(allowed, Distinct(scopes))
  {
    DistinctMembers(scopes);
  }

  // Too many scopes are reported first, else the first bad one with its fault.
  lemma NormalizedReports(allowed: set<string>, scopes: seq<string>, i: nat)
    ensures Normalized(allowed, scopes) == Err(TooMany) <==> |scopes| > 50
    ensures |scopes| <= 50 && i < |scopes| && !Grantable(allowed, Text.TrimSpace(scopes[i])) &&
              (forall j | 0 <= j < i :: Grantable(allowed, Text.TrimSpace(scopes[j]))) ==>
              var r := Normalized(allowed, scopes); r.Err? && Blames(allowed, Text.TrimSpace(scopes[i]), r.error)
  {
    if |scopes| <= 50 {
      NeverTooMany(allowed, scopes, []);
      if i < |scopes| && !Grantable(allowed, Text.TrimSpace(scopes[i])) &&
         forall j | 0 <= j < i :: Grantable(allowed, Text.TrimSpace(scopes[j]))
      {
        NormalizeFromReports(allowed, scopes, [], i);
      }
    }
  }

  lemma {:induction false} NeverTooMany(allowed: set<string>, scopes: seq<string>, out: seq<string>)
    ensures NormalizeFrom(allowed, scopes, out) != Err(TooMany)
    decreases scopes
  {
    if scopes != [] {
      var scope := Text.TrimSpace(scopes[0]);
      ComplaintBlames(allowed, scope);
      NeverTooMany(allowed, scopes[1..], if scope in out then out else out + [scope]);
    }
  }

  // buildScopeCatalog over the built-in names followed by the additional ones.
  function CatalogFrom(names: seq<string>, canonical: seq<string>): Result<seq<string>, ScopeError> {
    if names == [] then Ok(canonical)
    else
      var scope := Text.TrimSpace(names[0]);
      if Complaint({scope}, scope).Some? then Err(Complaint({scope}, scope).value)
      else CatalogFrom(names[1..], if scope in canonical then canonical else canonical + [scope])
  }

  // The loop over the built-in and additional names.
  method CollectScopes(names: seq<string>) returns (r: Result<(set<string>, seq<string>), ScopeError>)
    ensures var c := CatalogFrom(names, []);
            && (r.Err? <==> c.Err?)
            && (r.Err? ==> r.error == c.error)
            && (r.Ok? ==> (forall s :: s in r.value.0 <==> s in c.value) && r.value.1 == c.value)
  {
    var allowed: set<string>, canonical: seq<string> := {}, [];
    var i := 0;
    assert names[0..] == names;
    while i < |names|
      invariant 0 <= i <= |names|
      invariant forall s :: s in allowed <==> s in canonical
      invariant CatalogFrom(names, []) == CatalogFrom(names[i..], canonical)
    {
      assert names[i..][1..] == names[i + 1..];
      var scope := Text.TrimSpace(names[i]);
      if scope == [] {
        return Err(EmptyScope);
      }
      if Text.ByteLen(scope) > MAX_SCOPE_BYTES {
        return Err(TooLong);
      }
      if scope in RESERVED {
        return Err(Reserved(scope));
      }
      if scope !in allowed {
        allowed, canonical := allowed + {scope}, canonical + [scope];
      }
      i := i + 1;
    }
    return Ok((allowed, canonical));
  }

  method BuildScopeCatalog(additional: seq<string>) returns (r: Result<(set<string>, seq<string>), ScopeError>)
    ensures var c := CatalogFrom(DEFAULT_SCOPES + additional, []);
            && (r.Err? <==> c.Err?)
            && (r.Err? ==> r.error == c.error)
            && (r.Ok? ==> forall s :: s in r.value.0 <==> s in c.value)
            && (r.Ok? ==> r.value.1 == StableSort(Text.AtMost, c.value))
  {
    r := CollectScopes(DEFAULT_SCOPES + additional);
    if r.Ok? {
      r := Ok((r.value.0, StableSort(Text.AtMost, r.value.1)));
    }
  }

  lemma {:induction false} CatalogFromMeans(done: seq<string>, names: seq<string>)
    ensures var r := CatalogFrom(names, Distinct(done));
            && (r.Ok? <==> forall s | s in Trims(names) :: Grantable({s}, s))
            && (r.Ok? ==> r.value == Distinct(done + Trims(names)))
    decreases names
  {
    if names == [] {
      assert done + Trims(names) == done;
    } else {
      var first, rest := Text.TrimSpace(names[0]), names[1..];
      ComplaintBlames({first}, first);
      TrimsOfNext({first}, names);
      assert forall s :: s in Trims(names) <==> s == first || s in Trims(rest);
      assert (done + [first])[..|done|] == done;
      CatalogFromMeans(done + [first], rest);
      assert done + [first] + Trims(rest) == done + Trims(names);
    }
  }

  lemma PlainScope(s: string)
    requires s != [] && !Text.IsSpace(s[0]) && !Text.IsSpace(s[|s| - 1])
    requires |s| <= MAX_SCOPE_BYTES && (forall c | c in s :: c < '\U{80}') && s !in RESERVED
    ensures Grantable({Text.TrimSpace(s)}, Text.TrimSpace(s))
  {
    Text.TrimSpaceTrims(s);
    Text.ByteLenBounds(s);
  }

  lemma DefaultsAreAcceptable(i: nat)
    requires i < |DEFAULT_SCOPES|
    ensures Grantable({Text.TrimSpace(DEFAULT_SCOPES[i])}, Text.TrimSpace(DEFAULT_SCOPES[i]))
  {
    PlainScope(DEFAULT_SCOPES[i]);
  }

  lemma TrimsOfConcat(a: seq<string>, b: seq<string>, s: string)
    ensures s in Trims(a + b) <==> s in Trims(a) || s in Trims(b)
  {
    assert Trims(a + b) == Trims(a) + Trims(b);
  }

  lemma CatalogIsDistinct(names: seq<string>)
    ensures var r := CatalogFrom(names, []);
            && (r.Ok? <==> forall s | s in Trims(names) :: Grantable({s}, s))
            && (r.Ok? ==> NoDuplicates(r.value) && forall s :: s in r.value <==> s in Trims(names))
  {
    CatalogFromMeans([], names);
    assert [] + Trims(names) == Trims(names);
    DistinctMembers(Trims(names));
  }

  lemma CatalogOver(builtIn: seq<string>, additional: seq<string>)
    requires forall s | s in Trims(builtIn) :: Grantable({s}, s)
    ensures var r := CatalogFrom(builtIn + additional, []);
            && (r.Ok? <==> forall s | s in Trims(additional) :: Grantable({s}, s))
            && (r.Ok? ==> NoDuplicates(r.value) && (forall s :: s in r.value <==> s in Trims(builtIn + additional)))
            && (r.Ok? ==> forall s | s in r.value :: s !in RESERVED)
  {
    var trims := Trims(builtIn + additional);
    CatalogIsDistinct(builtIn + additional);
    forall s ensures s in trims <==> s in Trims(builtIn) || s in Trims(additional) {
      TrimsOfConcat(builtIn, additional, s);
    }
  }

  // The catalog is built exactly when every additional name is nonblank, within
  // bounds and not reserved; it holds the built-in and additional names, each
  // once, and nothing reserved.
  lemma CatalogMeans(additional: seq<string>)
    ensures var r := CatalogFrom(DEFAULT_SCOPES + additional, []);
            && (r.Ok? <==> forall s | s in Trims(additional) :: Grantable({s}, s))
            && (r.Ok? ==> NoDuplicates(r.value))
            && (r.Ok? ==> forall s :: s in r.value <==> s in Trims(DEFAULT_SCOPES + additional))
            && (r.Ok? ==> forall s | s in r.value :: s !in RESERVED)
  {
    forall s | s in Trims(DEFAULT_SCOPES) ensures Grantable({s}, s) {
      var i :| 0 <= i < |DEFAULT_SCOPES| && Text.TrimSpace(DEFAULT_SCOPES[i]) == s;
      DefaultsAreAcceptable(i);
    }
    CatalogOver(DEFAULT_SCOPES, additional);
  }

  // The first name that may not be in a catalog decides the error.
  lemma {:induction false} CatalogReports(names: seq<string>, canonical: seq<string>, i: nat)
    requires i < |names| && !Grantable({Text.TrimSpace(names[i])}, Text.TrimSpace(names[i]))
    requires forall j | 0 <= j < i :: Grantable({Text.TrimSpace(names[j])}, Text.TrimSpace(names[j]))
    ensures var r, scope := CatalogFrom(names, canonical), Text.TrimSpace(names[i]);
            r.Err? && Blames({scope}, scope, r.error)
    decreases i
  {
    var first := Text.TrimSpace(names[0]);
    ComplaintBlames({first}, first);
    if i > 0 {
      CatalogReports(names[1..], if first in canonical then canonical else canonical + [first], i - 1);
    }
  }

  // ----- issuing -----

  // The first 12 characters of the random portion.
  function ParsePrefix(plaintext: string): Option<string> {
    var lead := KEY_PREFIX + "_";
    if !(lead <= plaintext) then None
    else
      var secret := plaintext[|lead|..];
      if |secret| < PREFIX_LENGTH then None else Some(secret[..PREFIX_LENGTH])
  }

  function Plaintext(secret: string): string {
    KEY_PREFIX + "_" + secret
  }

  datatype Request = Request(tenant: string, user: string, name: string, scopes: seq<string>, ttl: int)

  function NewRow(q: Request, scopes: seq<string>, secret: string, id: string, now: int): Row
    requires |secret| >= PREFIX_LENGTH
  {
    Row(id, Text.TrimSpace(q.tenant), Text.TrimSpace(q.user), Text.TrimSpace(q.name), secret[..PREFIX_LENGTH],
        Digest(Plaintext(secret)), scopes, None, None, if q.ttl > 0 then Some(now + q.ttl) else None, now)
  }

  predicate HasId(rows: seq<Row>, id: string) {
    exists r | r in rows :: r.id == id
  }

  // The row an Issue would insert, or why there is none.
  function Issued(allowed: set<string>, rows: seq<Row>, q: Request, src: Source, now: int): Result<Row, IssueError>
    requires Generated(src)
  {
    if Text.Blank(q.tenant) then Err(MissingTenant)
    else if Text.Blank(q.user) then Err(MissingUser)
    else if Text.Blank(q.name) then Err(MissingName)
    else if Normalized(allowed, q.scopes).Err? then Err(BadScope(Normalized(allowed, q.scopes).error))
    else if src.secret.None? then Err(GenerationFailed)
    else if !src.hashes then Err(HashFailed)
    else if src.id.None? then Err(GenerationFailed)
    else if HasId(rows, src.id.value) then Err(Duplicate)
    else if !src.stores then Err(StoreFailed)
    else Ok(NewRow(q, Normalized(allowed, q.scopes).value, src.secret.value, src.id.value, now))
  }

  // A key is issued exactly for named tenant, user and key and acceptable scopes,
  // when nothing outside fails and the id is new.
  lemma IssuesExactly(allowed: set<string>, rows: seq<Row>, q: Request, src: Source, now: int)
    requires Generated(src)
    ensures Issued(allowed, rows, q, src, now).Ok? <==>
            && !Text.Blank(q.tenant) && !Text.Blank(q.user) && !Text.Blank(q.name)
            && |q.scopes| <= 50 && (forall s | s in Trims(q.scopes) :: Grantable(allowed, s))
            && src.secret.Some? && src.hashes && src.id.Some? && !HasId(rows, src.id.value) && src.stores
  {
    NormalizedMeans(allowed, q.scopes);
  }

  // What an issued row holds, field by field.
  lemma IssuedRowHolds(allowed: set<string>, rows: seq<Row>, q: Request, src: Source, now: int)
    requires Generated(src) && Issued(allowed, rows, q, src, now).Ok?
    ensures var row := Issued(allowed, rows, q, src, now).value;
            && row.id == src.id.value
            && row.tenant == Text.TrimSpace(q.tenant) && row.user == Text.TrimSpace(q.user)
            && row.name == Text.TrimSpace(q.name)
            && row.prefix == src.secret.value[..12] && row.hash == Digest("pk_" + src.secret.value)
            && row.scopes == Distinct(Trims(q.scopes))
            && row.createdAt == now && row.revokedAt.None? && row.lastUsed.None?
            && (if q.ttl > 0 then row.expiresAt == Some(now + q.ttl) else row.expiresAt.None?)
  {
    NormalizedMeans(allowed, q.scopes);
    assert Plaintext(src.secret.value) == "pk_" + src.secret.value;
  }

  // Each refusal is reported exactly when it is the first that applies.
  lemma IssueReports(allowed: set<string>, rows: seq<Row>, q: Request, src: Source, now: int)
    requires Generated(src)
    ensures var r := Issued(allowed, rows, q, src, now);
            var named := !Text.Blank(q.tenant) && !Text.Blank(q.user) && !Text.Blank(q.name);
            var scoped := named && Normalized(allowed, q.scopes).Ok?;
            var made := scoped && src.secret.Some? && src.hashes && src.id.Some?;
            && (r == Err(MissingTenant) <==> Text.Blank(q.tenant))
            && (r == Err(MissingUser) <==> !Text.Blank(q.tenant) && Text.Blank(q.user))
            && (r == Err(MissingName) <==> !Text.Blank(q.tenant) && !Text.Blank(q.user) && Text.Blank(q.name))
            && (forall e :: r == Err(BadScope(e)) <==> named && Normalized(allowed, q.scopes) == Err(e))
            && (r == Err(GenerationFailed) <==> scoped && (src.secret.None? || (src.hashes && src.id.None?)))
            && (r == Err(HashFailed) <==> scoped && src.secret.Some? && !src.hashes)
            && (r == Err(Duplicate) <==> made && exists k | k in rows :: k.id == src.id.value)
            && (r == Err(StoreFailed) <==> made && (forall k | k in rows :: k.id != src.id.value) && !src.stores)
  {
  }

  // ----- verifying -----

  // The loop over candidate rows.
  function Examine(rows: seq<Row>, plaintext: string, now: int): Result<Row, VerifyError> {
    if rows == [] then Err(InvalidKey)
    else if rows[0].hash != Digest(plaintext) then Examine(rows[1..], plaintext, now)
    else if rows[0].revokedAt.Some? then Err(KeyRevoked)
    else if rows[0].expiresAt.Some? && now > rows[0].expiresAt.value then Err(KeyExpired)
    else Ok(rows[0].(lastUsed := Some(now)))
  }

  function Verified(rows: seq<Row>, presented: string, now: int): Result<Row, VerifyError> {
    var plaintext := Text.TrimSpace(presented);
    if plaintext == [] then Err(InvalidKey)
    else if ParsePrefix(plaintext).None? then Err(InvalidKey)
    else Examine(Filter((r: Row) => r.prefix == ParsePrefix(plaintext).value, rows), plaintext, now)
  }

  function Touched(rows: seq<Row>, tenant: string, id: string, now: int): seq<Row> {
    seq(|rows|, i requires 0 <= i < |rows| =>
      if rows[i].id == id && rows[i].tenant == tenant then rows[i].(lastUsed := Some(now)) else rows[i])
  }

  function Revoked(rows: seq<Row>, tenant: string, id: string, now: int): seq<Row> {
    seq(|rows|, i requires 0 <= i < |rows| =>
      if rows[i].id == id && rows[i].tenant == tenant && rows[i].revokedAt.None? then rows[i].(revokedAt := Some(now))
      else rows[i])
  }

  predicate Newer(a: Row, b: Row) {
    a.createdAt >= b.createdAt
  }

  function Listed(rows: seq<Row>, tenant: string): seq<Row> {
    StableSort(Newer, Filter((r: Row) => r.tenant == tenant && r.revokedAt.None?, rows))
  }

  // ----- the table after each operation -----

  function AfterIssue(allowed: set<string>, rows: seq<Row>, q: Request, src: Source, now: int): seq<Row>
    requires Generated(src)
  {
    var made := Issued(allowed, rows, q, src, now);
    if made.Ok? then rows + [made.value] else rows
  }

  function AfterVerify(rows: seq<Row>, presented: string, now: int, bumped: bool): seq<Row> {
    var r := Verified(rows, presented, now);
    if r.Ok? && bumped then Touched(rows, r.value.tenant, r.value.id, now) else rows
  }

  function AfterRevoke(rows: seq<Row>, tenant: string, id: string, now: int): seq<Row> {
    if Text.Blank(tenant) || Text.Blank(id) then rows else Revoked(rows, tenant, id, now)
  }

  // Each unrevoked row of the tenant is listed as often as it is stored, and no other row is.
  ghost predicate HoldsLive(listed: seq<Row>, rows: seq<Row>, tenant: string) {
    forall k ::
      multiset(listed)[k] == if k.tenant == tenant && k.revokedAt.None? then multiset(rows)[k] else 0
  }

  // A successful Verify stamps the verified row's last use when the update goes
  // through, and nothing else ever changes.
  lemma VerifyTouchesExactly(rows: seq<Row>, presented: string, now: int, bumped: bool, i: nat)
    requires i < |rows|
    ensures var r, next := Verified(rows, presented, now), AfterVerify(rows, presented, now, bumped);
            && |next| == |rows|
            && next[i] == (if r.Ok? && bumped && rows[i].id == r.value.id && rows[i].tenant == r.value.tenant
                           then rows[i].(lastUsed := Some(now)) else rows[i])
  {
  }

  class KeyService {
    var rows: seq<Row>
    const allowed: set<string>

    constructor (allowed: set<string>)
      ensures rows == [] && this.allowed == allowed
    {
      rows := [];
      this.allowed := allowed;
    }

    method Issue(q: Request, src: Source, now: int) returns (r: Result<(string, Row), IssueError>)
      requires Generated(src)
      modifies this
      ensures var made := Issued(allowed, old(rows), q, src, now);
              && (r.Ok? <==> made.Ok?)
              && (r.Ok? ==> r.value == (Plaintext(src.secret.value), made.value))
              && (r.Err? ==> r.error == made.error)
      ensures rows == AfterIssue(allowed, old(rows), q, src, now)
    {
      var tenant, user, name := Text.TrimSpace(q.tenant), Text.TrimSpace(q.user), Text.TrimSpace(q.name);
      if tenant == [] {
        return Err(MissingTenant);
      }
      if user == [] {
        return Err(MissingUser);
      }
      if name == [] {
        return Err(MissingName);
      }
      var scopes := NormalizeScopes(allowed, q.scopes);
      if scopes.Err? {
        return Err(BadScope(scopes.error));
      }
      if src.secret.None? {
        return Err(GenerationFailed);
      }
      var secret := src.secret.value;
      var plaintext := KEY_PREFIX + "_" + secret;
      var prefix := secret[..PREFIX_LENGTH];
      if !src.hashes {
        return Err(HashFailed);
      }
      if src.id.None? {
        return Err(GenerationFailed);
      }
      var expiresAt: Option<int> := None;
      if q.ttl > 0 {
        expiresAt := Some(now + q.ttl);
      }
      var row := Row(src.id.value, tenant, user, name, prefix, Digest(plaintext), scopes.value, None, None, expiresAt,
        now);
      if exists o | o in rows :: o.id == row.id {
        return Err(Duplicate);
      }
      if !src.stores {
        return Err(StoreFailed);
      }
      rows := rows + [row];
      return Ok((plaintext, row));
    }

    // looks says whether the lookup works, bumped whether the best-effort
    // last_used_at update does.
    method Verify(presented: string, now: int, looks: bool, bumped: bool) returns (r: Result<Row, VerifyError>)
      modifies this
      ensures looks ==> r == Verified(old(rows), presented, now)
      ensures !looks ==>
                r == Err(if ParsePrefix(Text.TrimSpace(presented)).None? then InvalidKey else LookupFailed)
      ensures rows == AfterVerify(old(rows), presented, now, looks && bumped)
    {
      var plaintext := Text.TrimSpace(presented);
      if plaintext == [] {
        return Err(InvalidKey);
      }
      var prefix := ParsePrefix(plaintext);
      if prefix.None? {
        return Err(InvalidKey);
      }
      if !looks {
        return Err(LookupFailed);
      }
      var candidates := Filter((r: Row) => r.prefix == prefix.value, rows);
      assert candidates == Filter((r: Row) => r.prefix == ParsePrefix(plaintext).value, rows) by {
        FilterAgree((r: Row) => r.prefix == prefix.value, (r: Row) => r.prefix == ParsePrefix(plaintext).value, rows);
      }
      var i := 0;
      while i < |candidates|
        invariant 0 <= i <= |candidates|
        invariant rows == old(rows)
        invariant Examine(candidates, plaintext, now) == Examine(candidates[i..], plaintext, now)
      {
        assert candidates[i..][1..] == candidates[i + 1..];
        var row := candidates[i];
        if row.hash == Digest(plaintext) {
          if row.revokedAt.Some? {
            return Err(KeyRevoked);
          }
          if row.expiresAt.Some? && now > row.expiresAt.value {
            return Err(KeyExpired);
          }
          if bumped {
            rows := Touched(rows, row.tenant, row.id, now);
          }
          return Ok(row.(lastUsed := Some(now)));
        }
        i := i + 1;
      }
      return Err(InvalidKey);
    }

    // An update that fails changes nothing. A count that fails reports an error
    // although the row is revoked; a read that fails reports none.
    method Revoke(tenant: string, id: string, now: int, fault: RevokeFault) returns (err: Option<RevokeError>)
      modifies this
      ensures err == Some(RevokeBlank) <==> Text.Blank(tenant) || Text.Blank(id)
      ensures err == Some(RevokeFailed) <==>
              !Text.Blank(tenant) && !Text.Blank(id) && (fault == UpdateFails || fault == CountFails)
      ensures err == Some(NotFound) <==>
              && !Text.Blank(tenant) && !Text.Blank(id) && fault == Works
              && forall r | r in old(rows) :: !(r.id == id && r.tenant == tenant)
      ensures rows == if fault == UpdateFails then old(rows) else AfterRevoke(old(rows), tenant, id, now)
    {
      if Text.Blank(tenant) || Text.Blank(id) {
        return Some(RevokeBlank);
      }
      if fault == UpdateFails {
        return Some(RevokeFailed);
      }
      var affected := exists r | r in rows :: r.id == id && r.tenant == tenant && r.revokedAt.None?;
      rows := Revoked(rows, tenant, id, now);
      if fault == CountFails {
        return Some(RevokeFailed);
      }
      if !affected && fault != ReadFails {
        var known := exists r | r in rows :: r.id == id && r.tenant == tenant;
        RevokedKeepsIds(old(rows), tenant, id, now);
        if !known {
          return Some(NotFound);
        }
      }
      return None;
    }

    // The tenant's unrevoked keys, each as often as it is stored, newest first.
    method List(tenant: string, looks: bool) returns (r: Result<seq<Row>, ListError>)
      ensures r == Err(ListBlank) <==> Text.Blank(tenant)
      ensures r == Err(ListFailed) <==> !Text.Blank(tenant) && !looks
      ensures r.Ok? ==> Sorted(Newer, r.value) && HoldsLive(r.value, rows, tenant)
    {
      if Text.Blank(tenant) {
        return Err(ListBlank);
      }
      if !looks {
        return Err(ListFailed);
      }
      var found := Listed(rows, tenant);
      ListedMeans(rows, tenant);
      var out := [];
      for i := 0 to |found|
        invariant out == found[..i]
      {
        out := out + [found[i]];
      }
      assert found[..|found|] == found;
      return Ok(out);
    }
  }

  lemma RevokedKeepsIds(rows: seq<Row>, tenant: string, id: string, now: int)
    ensures (exists r | r in Revoked(rows, tenant, id, now) :: r.id == id && r.tenant == tenant) <==>
            exists r | r in rows :: r.id == id && r.tenant == tenant
  {
    var next := Revoked(rows, tenant, id, now);
    forall i | 0 <= i < |rows| ensures next[i] in next && rows[i] in rows {
    }
  }

  lemma ListedMeans(rows: seq<Row>, tenant: string)
    ensures Sorted(Newer, Listed(rows, tenant)) && HoldsLive(Listed(rows, tenant), rows, tenant)
  {
    var live := Filter((r: Row) => r.tenant == tenant && r.revokedAt.None?, rows);
    StableSortSorts(Newer, live);
    StableSortPermutes(Newer, live);
    forall k: Row
      ensures multiset(live)[k] == if k.tenant == tenant && k.revokedAt.None? then multiset(rows)[k] else 0
    {
      FilterCounts((r: Row) => r.tenant == tenant && r.revokedAt.None?, rows, k);
    }
  }
}
