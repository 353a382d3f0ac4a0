/** pkg/branding: tenant branding records, validated on the way in and rendered on the way out. */
module Branding {
  import opened Sequences
  import opened Palette
  import opened PaletteLayer
  import Text

  const MAX_LOGO_BYTES := 1048576
  const MAX_DISPLAY_NAME := 120
  const SVG := "image/svg+xml"
  const SNIFFED: set<string> := {"image/png", "image/jpeg", "image/webp"}
  const PROBE_BYTES := 512
  const ZERO_TIME := 0

  type Byte = b: nat | b < 256

  // "<svg"
  const SVG_TAG: seq<Byte> := [60, 115, 118, 103]

  datatype Record = Record(tenant: string, displayName: string, logoData: seq<Byte>, logoContentType: string,
                           logoAlt: string, primaryColor: string, fontKey: string, setupCompletedAt: Option<int>,
                           createdAt: int, updatedAt: int)

  datatype Params = Params(displayName: string, primaryColor: string, fontKey: string, logoAlt: string,
                           logoData: seq<Byte>, logoContentType: string)

  datatype LogoError = TooLarge | NoSvgElement | TypeMismatch | Unsupported

  datatype Failure =
    | TenantRequired | NameRequired | NameTooLong | AltTooLong
    | BadPalette(reason: PaletteError) | RenderFailed | BadLogo(why: LogoError)
    | RecordNotFound | StoreFailed

  // Calls into code outside this model: the power function behind luminance,
  // tokens.CSSVars, and http.DetectContentType.
  datatype World = World(pow: Power, render: Layer -> Option<string>, sniff: seq<Byte> -> string)

  // ----- validation -----

  function DeriveCSS(w: World, primaryHex: string, fontKey: string): Result<string, Failure>
    requires IsPower(w.pow)
  {
    match DerivedLayer(w.pow, primaryHex, fontKey)
    case Err(e) => Err(BadPalette(e))
    case Ok(None) => Ok("")
    case Ok(Some(l)) => if w.render(l).Some? then Ok(w.render(l).value) else Err(RenderFailed)
  }

  function DisplayName(name: string): Result<string, Failure> {
    var t := Text.TrimSpace(name);
    if t == [] then Err(NameRequired) else if |t| > MAX_DISPLAY_NAME then Err(NameTooLong) else Ok(t)
  }

  function LogoAlt(alt: string): Result<string, Failure> {
    var t := Text.TrimSpace(alt);
    if |t| > MAX_DISPLAY_NAME then Err(AltTooLong) else Ok(t)
  }

  predicate TagAt(data: seq<Byte>, i: nat) {
    i + 4 <= |data| && data[i..i + 4] == SVG_TAG
  }

  predicate ContainsTag(data: seq<Byte>) {
    exists i: nat | i < |data| :: TagAt(data, i)
  }

  function Probe(data: seq<Byte>): seq<Byte> {
    if |data| > PROBE_BYTES then data[..PROBE_BYTES] else data
  }

  function LogoProblem(w: World, data: seq<Byte>, contentType: string): Option<LogoError> {
    var declared := Text.TrimSpace(contentType);
    if |data| > MAX_LOGO_BYTES then Some(TooLarge)
    else if declared == SVG then if ContainsTag(Probe(data)) then None else Some(NoSvgElement)
    else if declared in SNIFFED then if w.sniff(data) == declared then None else Some(TypeMismatch)
    else Some(Unsupported)
  }

  // ----- saving -----

  function Existing(table: map<string, Record>, tenant: string): Record {
    if tenant in table then table[tenant] else Record(tenant, "", [], "", "", "", "", None, ZERO_TIME, ZERO_TIME)
  }

  function Stamped(r: Record, now: int): Record {
    if r.setupCompletedAt.Some? then r else r.(setupCompletedAt := Some(now))
  }

  // The first complaint about a submission, before the store is touched.
  function SaveProblem(w: World, tenantId: string, p: Params): Option<Failure>
    requires IsPower(w.pow)
  {
    if Text.Blank(tenantId) then Some(TenantRequired)
    else if DisplayName(p.displayName).Err? then Some(DisplayName(p.displayName).error)
    else if DeriveCSS(w, p.primaryColor, p.fontKey).Err? then Some(DeriveCSS(w, p.primaryColor, p.fontKey).error)
    else if p.logoData != [] && LogoProblem(w, p.logoData, p.logoContentType).Some? then
      Some(BadLogo(LogoProblem(w, p.logoData, p.logoContentType).value))
    else if LogoAlt(p.logoAlt).Err? then Some(LogoAlt(p.logoAlt).error)
    else None
  }

  // The record an accepted submission leaves, over the one already there.
  function SavedOver(prior: Record, p: Params, stamp: int): Record
    requires DisplayName(p.displayName).Ok? && LogoAlt(p.logoAlt).Ok?
  {
    var logo :=
      if p.logoData != [] then prior.(logoData := p.logoData, logoContentType := Text.TrimSpace(p.logoContentType))
      else prior;
    var alt := if p.logoData != [] || prior.logoData != [] then logo.(logoAlt := LogoAlt(p.logoAlt).value) else logo;
    Stamped(alt.(displayName := DisplayName(p.displayName).value, primaryColor := Text.TrimSpace(p.primaryColor),
                 fontKey := Text.TrimSpace(p.fontKey)), stamp)
  }

  // INSERT ... ON CONFLICT DO UPDATE without created_at.
  function Upserted(table: map<string, Record>, r: Record, now: int): map<string, Record> {
    var created :=
      if r.tenant in table then table[r.tenant].createdAt
      else if r.createdAt == ZERO_TIME then now else r.createdAt;
    table[r.tenant := r.(createdAt := created, updatedAt := now)]
  }

  function SkippedRecord(tenant: string, displayName: string, stamp: int): Record {
    Stamped(Record(tenant, displayName, [], "", "", "", "", None, ZERO_TIME, ZERO_TIME), stamp)
  }

  // stamp is the clock when setup is stamped, now when the row is written.
  datatype Op =
    | Save(tenantId: string, params: Params, stamp: int, now: int, loads: bool, stores: bool)
    | Skip(tenantId: string, fallbackName: string, stamp: int, now: int, stores: bool)

  function OpProblem(w: World, op: Op): Option<Failure>
    requires IsPower(w.pow)
  {
    match op
    case Save(tenantId, p, _, _, loads, stores) =>
      if SaveProblem(w, tenantId, p).Some? then SaveProblem(w, tenantId, p)
      else if !loads || !stores then Some(StoreFailed) else None
    case Skip(tenantId, name, _, _, stores) =>
      if Text.Blank(tenantId) then Some(TenantRequired)
      else if DisplayName(name).Err? then Some(DisplayName(name).error)
      else if !stores then Some(StoreFailed) else None
  }

  function Step(w: World, table: map<string, Record>, op: Op): map<string, Record>
    requires IsPower(w.pow)
  {
    if OpProblem(w, op).Some? then table
    else match op
      case Save(tenantId, p, stamp, now, _, _) =>
        Upserted(table, SavedOver(Existing(table, Text.TrimSpace(tenantId)), p, stamp), now)
      case Skip(tenantId, name, stamp, now, _) =>
        Upserted(table, SkippedRecord(Text.TrimSpace(tenantId), DisplayName(name).value, stamp), now)
  }

  // bytes.Contains for the tag.
  method FindTag(data: seq<Byte>) returns (found: bool)
    ensures found <==> ContainsTag(data)
  {
    var i := 0;
    while i + |SVG_TAG| <= |data|
      invariant i <= |data|
      invariant forall j: nat | j < i :: !TagAt(data, j)
    {
      var k := 0;
      while k < |SVG_TAG| && data[i + k] == SVG_TAG[k]
        invariant 0 <= k <= |SVG_TAG|
        invariant forall j | 0 <= j < k :: data[i + j] == SVG_TAG[j]
      {
        k := k + 1;
      }
      if k == |SVG_TAG| {
        assert forall j | 0 <= j < 4 :: data[i..i + 4][j] == SVG_TAG[j];
        assert TagAt(data, i);
        return true;
      }
      assert data[i..i + 4][k] != SVG_TAG[k];
      i := i + 1;
    }
    return false;
  }

  // The bytes from i on read "<svg".
  predicate ReadsTag(data: seq<Byte>, i: nat) {
    && i + 4 <= |data|
    && data[i] == '<' as nat && data[i + 1] == 's' as nat && data[i + 2] == 'v' as nat && data[i + 3] == 'g' as nat
  }

  // The tag starts early enough to end within the first bytes looked at.
  predicate TagWithin(data: seq<Byte>, limit: nat) {
    exists i: nat | i + 4 <= |data| && i + 4 <= limit :: ReadsTag(data, i)
  }

  lemma TagReads(data: seq<Byte>, i: nat)
    ensures TagAt(data, i) <==> ReadsTag(data, i)
  {
    if i + 4 <= |data| {
      var part := data[i..i + 4];
      assert part == [data[i], data[i + 1], data[i + 2], data[i + 3]];
    }
  }

  lemma ProbeFindsEarlyTag(data: seq<Byte>)
    ensures ContainsTag(Probe(data)) <==> TagWithin(data, PROBE_BYTES)
  {
    var probe := Probe(data);
    if i: nat :| i + 4 <= |data| && i + 4 <= PROBE_BYTES && ReadsTag(data, i) {
      TagReads(probe, i);
      assert TagAt(probe, i);
    }
    if i: nat :| i < |probe| && TagAt(probe, i) {
      TagReads(probe, i);
      assert ReadsTag(data, i);
    }
  }

  class BrandingService {
    var table: map<string, Record>
    const w: World

    constructor (w: World)
      ensures table == map[] && this.w == w
    {
      table := map[];
      this.w := w;
    }

    method ValidateLogo(data: seq<Byte>, contentType: string) returns (err: Option<LogoError>)
      ensures err == LogoProblem(w, data, contentType)
      ensures err.None? <==>
              && |data| <= MAX_LOGO_BYTES
              && var declared := Text.TrimSpace(contentType);
                 if declared == SVG then TagWithin(data, PROBE_BYTES)
                 else declared in SNIFFED && w.sniff(data) == declared
    {
      ProbeFindsEarlyTag(data);
      if |data| > MAX_LOGO_BYTES {
        return Some(TooLarge);
      }
      var declared := Text.TrimSpace(contentType);
      if declared == SVG {
        var probe := data;
        if |probe| > PROBE_BYTES {
          probe := probe[..PROBE_BYTES];
        }
        var found := FindTag(probe);
        return if found then None else Some(NoSvgElement);
      }
      if declared in SNIFFED {
        return if w.sniff(data) != declared then Some(TypeMismatch) else None;
      }
      return Some(Unsupported);
    }

    method Upsert(r: Record, now: int)
      modifies this`table
      ensures table == Upserted(old(table), r, now)
    {
      var insertCreatedAt := r.createdAt;
      if insertCreatedAt == ZERO_TIME {
        insertCreatedAt := now;
      }
      if r.tenant in table {
        table := table[r.tenant := r.(createdAt := table[r.tenant].createdAt, updatedAt := now)];
      } else {
        table := table[r.tenant := r.(createdAt := insertCreatedAt, updatedAt := now)];
      }
    }

    method Save(tenantId: string, p: Params, stamp: int, now: int, loads: bool, stores: bool)
        returns (err: Option<Failure>)
      requires IsPower(w.pow)
      modifies this`table
      ensures err == OpProblem(w, Op.Save(tenantId, p, stamp, now, loads, stores))
      ensures table == Step(w, old(table), Op.Save(tenantId, p, stamp, now, loads, stores))
    {
      var tenant := Text.TrimSpace(tenantId);
      if tenant == [] {
        return Some(TenantRequired);
      }
      var displayName := DisplayName(p.displayName);
      if displayName.Err? {
        return Some(displayName.error);
      }
      var css := DeriveCSS(w, p.primaryColor, p.fontKey);
      if css.Err? {
        return Some(css.error);
      }
      var hasNewLogo := |p.logoData| > 0;
      if hasNewLogo {
        var bad := ValidateLogo(p.logoData, p.logoContentType);
        if bad.Some? {
          return Some(BadLogo(bad.value));
        }
      }
      var logoAlt := LogoAlt(p.logoAlt);
      if logoAlt.Err? {
        return Some(logoAlt.error);
      }
      if !loads {
        return Some(StoreFailed);
      }
      var rec := Existing(table, tenant);
      var hasExistingLogo := |rec.logoData| > 0;
      if hasNewLogo {
        rec := rec.(logoData := p.logoData, logoContentType := Text.TrimSpace(p.logoContentType));
      }
      if hasNewLogo || hasExistingLogo {
        rec := rec.(logoAlt := logoAlt.value);
      }
      rec := rec.(displayName := displayName.value, primaryColor := Text.TrimSpace(p.primaryColor),
                  fontKey := Text.TrimSpace(p.fontKey));
      if rec.setupCompletedAt.None? {
        rec := rec.(setupCompletedAt := Some(stamp));
      }
      if !stores {
        return Some(StoreFailed);
      }
      Upsert(rec, now);
      return None;
    }

    method Skip(tenantId: string, fallbackName: string, stamp: int, now: int, stores: bool)
        returns (err: Option<Failure>)
      requires IsPower(w.pow)
      modifies this`table
      ensures err == OpProblem(w, Op.Skip(tenantId, fallbackName, stamp, now, stores))
      ensures table == Step(w, old(table), Op.Skip(tenantId, fallbackName, stamp, now, stores))
    {
      var tenant := Text.TrimSpace(tenantId);
      if tenant == [] {
        return Some(TenantRequired);
      }
      var displayName := DisplayName(fallbackName);
      if displayName.Err? {
        return Some(displayName.error);
      }
      var rec := Record(tenant, displayName.value, [], "", "", "", "", None, ZERO_TIME, ZERO_TIME);
      rec := rec.(setupCompletedAt := Some(stamp));
      if !stores {
        return Some(StoreFailed);
      }
      Upsert(rec, now);
      return None;
    }

    method BrandingCSS(tenantId: string) returns (r: Result<string, Failure>)
      requires IsPower(w.pow)
      ensures r == CssOf(w, table, tenantId)
    {
      var tenant := Text.TrimSpace(tenantId);
      if tenant == [] {
        return Err(TenantRequired);
      }
      if tenant !in table {
        return Ok("");
      }
      return DeriveCSS(w, table[tenant].primaryColor, table[tenant].fontKey);
    }

    method Logo(tenantId: string) returns (r: Result<(seq<Byte>, string), Failure>)
      ensures r == LogoOf(table, tenantId)
    {
      var tenant := Text.TrimSpace(tenantId);
      if tenant == [] {
        return Err(TenantRequired);
      }
      if tenant !in table || |table[tenant].logoData| == 0 {
        return Err(RecordNotFound);
      }
      return Ok((table[tenant].logoData, table[tenant].logoContentType));
    }
  }

  function CssOf(w: World, table: map<string, Record>, tenantId: string): Result<string, Failure>
    requires IsPower(w.pow)
  {
    var tenant := Text.TrimSpace(tenantId);
    if tenant == [] then Err(TenantRequired)
    else if tenant !in table then Ok("")
    else DeriveCSS(w, table[tenant].primaryColor, table[tenant].fontKey)
  }

  function LogoOf(table: map<string, Record>, tenantId: string): Result<(seq<Byte>, string), Failure> {
    var tenant := Text.TrimSpace(tenantId);
    if tenant == [] then Err(TenantRequired)
    else if tenant !in table || table[tenant].logoData == [] then Err(RecordNotFound)
    else Ok((table[tenant].logoData, table[tenant].logoContentType))
  }

  // ----- every stored record is sound -----

  ghost predicate LogoSound(w: World, r: Record) {
    if r.logoData == [] then r.logoContentType == "" && r.logoAlt == ""
    else
      && LogoProblem(w, r.logoData, r.logoContentType).None? && r.logoContentType in SNIFFED + {SVG}
      && |r.logoAlt| <= MAX_DISPLAY_NAME
  }

  ghost predicate RecordSound(w: World, r: Record)
    requires IsPower(w.pow)
  {
    && r.displayName != [] && |r.displayName| <= MAX_DISPLAY_NAME && Text.Trimmed(r.displayName)
    && |r.logoData| <= MAX_LOGO_BYTES && LogoSound(w, r)
    && r.setupCompletedAt.Some?
    && DeriveCSS(w, r.primaryColor, r.fontKey).Ok?
  }

  ghost predicate TableSound(w: World, table: map<string, Record>)
    requires IsPower(w.pow)
  {
    forall t | t in table :: table[t].tenant == t && RecordSound(w, table[t])
  }

  lemma DeriveCSSIgnoresPadding(w: World, primaryHex: string, fontKey: string)
    requires IsPower(w.pow)
    ensures DeriveCSS(w, Text.TrimSpace(primaryHex), Text.TrimSpace(fontKey)) == DeriveCSS(w, primaryHex, fontKey)
  {
    DerivesExactlyAcceptable(w.pow, primaryHex, fontKey);
  }

  lemma AcceptedLogoIsSound(w: World, data: seq<Byte>, contentType: string)
    requires LogoProblem(w, data, contentType).None?
    ensures |data| <= MAX_LOGO_BYTES
    ensures LogoProblem(w, data, Text.TrimSpace(contentType)).None? && Text.TrimSpace(contentType) in SNIFFED + {SVG}
  {
    Text.TrimSpaceIdempotent(contentType);
  }

  lemma SavedOverIsSound(w: World, before: Record, p: Params, stamp: int, tenantId: string)
    requires IsPower(w.pow) && SaveProblem(w, tenantId, p).None?
    requires |before.logoData| <= MAX_LOGO_BYTES && LogoSound(w, before)
    ensures RecordSound(w, SavedOver(before, p, stamp)) && SavedOver(before, p, stamp).tenant == before.tenant
  {
    Text.TrimSpaceTrims(p.displayName);
    DeriveCSSIgnoresPadding(w, p.primaryColor, p.fontKey);
    if p.logoData != [] {
      AcceptedLogoIsSound(w, p.logoData, p.logoContentType);
    }
  }

  lemma NoOverridesRender(w: World)
    requires IsPower(w.pow)
    ensures DeriveCSS(w, "", "") == Ok("")
  {
  }

  lemma SkippedIsSound(w: World, tenant: string, name: string, stamp: int)
    requires IsPower(w.pow) && DisplayName(name).Ok?
    ensures RecordSound(w, SkippedRecord(tenant, DisplayName(name).value, stamp))
    ensures SkippedRecord(tenant, DisplayName(name).value, stamp).tenant == tenant
  {
    Text.TrimSpaceTrims(name);
    NoOverridesRender(w);
  }

  lemma UpsertedIsSound(w: World, table: map<string, Record>, r: Record, now: int)
    requires IsPower(w.pow) && TableSound(w, table) && RecordSound(w, r)
    ensures TableSound(w, Upserted(table, r, now))
  {
  }

  lemma SaveSound(w: World, table: map<string, Record>, op: Op)
    requires IsPower(w.pow) && TableSound(w, table) && op.Save? && OpProblem(w, op).None?
    ensures TableSound(w, Step(w, table, op))
  {
    var prior := Existing(table, Text.TrimSpace(op.tenantId));
    SavedOverIsSound(w, prior, op.params, op.stamp, op.tenantId);
    UpsertedIsSound(w, table, SavedOver(prior, op.params, op.stamp), op.now);
  }

  lemma SkipSound(w: World, table: map<string, Record>, op: Op)
    requires IsPower(w.pow) && TableSound(w, table) && op.Skip? && OpProblem(w, op).None?
    ensures TableSound(w, Step(w, table, op))
  {
    var tenant := Text.TrimSpace(op.tenantId);
    SkippedIsSound(w, tenant, op.fallbackName, op.stamp);
    UpsertedIsSound(w, table, SkippedRecord(tenant, DisplayName(op.fallbackName).value, op.stamp), op.now);
  }

  lemma StepSound(w: World, table: map<string, Record>, op: Op)
    requires IsPower(w.pow) && TableSound(w, table)
    ensures TableSound(w, Step(w, table, op))
  {
    if OpProblem(w, op).None? && op.Save? {
      SaveSound(w, table, op);
    } else if OpProblem(w, op).None? {
      SkipSound(w, table, op);
    }
  }

  function Run(w: World, table: map<string, Record>, ops: seq<Op>): map<string, Record>
    requires IsPower(w.pow)
  {
    if ops == [] then table else Step(w, Run(w, table, ops[..|ops| - 1]), ops[|ops| - 1])
  }

  lemma RunsInTurn(w: World, table: map<string, Record>, ops: seq<Op>, last: Op)
    requires IsPower(w.pow)
    ensures Run(w, table, []) == table && Run(w, table, ops + [last]) == Step(w, Run(w, table, ops), last)
  {
    assert (ops + [last])[..|ops|] == ops;
  }

  // After any run of Save and Skip every stored record is sound, so rendering
  // branding never fails on one.
  lemma {:induction false} StoredRecordsAlwaysRender(w: World, ops: seq<Op>, tenantId: string)
    requires IsPower(w.pow)
    ensures TableSound(w, Run(w, map[], ops))
    ensures !Text.Blank(tenantId) ==> CssOf(w, Run(w, map[], ops), tenantId).Ok?
  {
    if ops != [] {
      StoredRecordsAlwaysRender(w, ops[..|ops| - 1], tenantId);
      StepSound(w, Run(w, map[], ops[..|ops| - 1]), ops[|ops| - 1]);
    }
  }

  // Records are never removed, their creation time never changes, and setup
  // never becomes incomplete again.
  lemma {:induction false} HistoryIsKept(w: World, table: map<string, Record>, ops: seq<Op>, tenant: string)
    requires IsPower(w.pow) && tenant in table && table[tenant].tenant == tenant
    ensures var end := Run(w, table, ops);
            && tenant in end && end[tenant].tenant == tenant
            && end[tenant].createdAt == table[tenant].createdAt
            && (table[tenant].setupCompletedAt.Some? ==> end[tenant].setupCompletedAt.Some?)
  {
    if ops != [] {
      HistoryIsKept(w, table, ops[..|ops| - 1], tenant);
      StepKeepsHistory(w, Run(w, table, ops[..|ops| - 1]), ops[|ops| - 1], tenant);
    }
  }

  lemma StepKeepsHistory(w: World, table: map<string, Record>, op: Op, tenant: string)
    requires IsPower(w.pow) && tenant in table && table[tenant].tenant == tenant
    ensures var end := Step(w, table, op);
            && tenant in end && end[tenant].tenant == tenant
            && end[tenant].createdAt == table[tenant].createdAt
            && (table[tenant].setupCompletedAt.Some? ==> end[tenant].setupCompletedAt.Some?)
  {
  }

  predicate Targets(op: Op, tenant: string) {
    Text.TrimSpace(op.tenantId) == tenant
  }

  // A Skip with a tenant and a name of at most 120 runes, which the store takes.
  predicate SkipGoesThrough(op: Op) {
    && op.Skip? && op.stores && !Text.Blank(op.tenantId)
    && 0 < |Text.TrimSpace(op.fallbackName)| <= MAX_DISPLAY_NAME
  }

  // The completion stamp itself survives exactly the operations that are not such
  // a Skip of that tenant at another time.
  lemma StampSurvivesUnlessSkipped(w: World, table: map<string, Record>, op: Op, tenant: string)
    requires IsPower(w.pow) && TableSound(w, table) && tenant in table
    ensures Step(w, table, op)[tenant].setupCompletedAt == table[tenant].setupCompletedAt <==>
            !(SkipGoesThrough(op) && Targets(op, tenant) && table[tenant].setupCompletedAt != Some(op.stamp))
  {
  }

  // A Save without a new logo keeps the stored one; a Save with one replaces it;
  // other tenants' records are untouched either way.
  lemma SaveAndLogo(w: World, table: map<string, Record>, op: Op, tenant: string)
    requires IsPower(w.pow) && op.Save? && OpProblem(w, op).None? && TableSound(w, table)
    ensures var end := Step(w, table, op);
            && (!Targets(op, tenant) ==> (tenant in end <==> tenant in table))
            && (!Targets(op, tenant) && tenant in table ==> end[tenant] == table[tenant])
            && (Targets(op, tenant) && op.params.logoData == [] ==> LogoOf(end, tenant) == LogoOf(table, tenant))
            && (Targets(op, tenant) && op.params.logoData != [] ==>
                  LogoOf(end, tenant) == Ok((op.params.logoData, Text.TrimSpace(op.params.logoContentType))))
  {
    Text.TrimSpaceIdempotent(op.tenantId);
    Text.TrimSpaceTrims(op.tenantId);
  }

  // The record shows the submission, trimmed; its alternative text whenever
  // there is a logo to describe.
  predicate ShowsParams(r: Record, p: Params) {
    && r.displayName == Text.TrimSpace(p.displayName)
    && r.primaryColor == Text.TrimSpace(p.primaryColor)
    && r.fontKey == Text.TrimSpace(p.fontKey)
    && (r.logoData != [] ==> r.logoAlt == Text.TrimSpace(p.logoAlt))
  }

  lemma SavedOverShows(prior: Record, p: Params, stamp: int)
    requires DisplayName(p.displayName).Ok? && LogoAlt(p.logoAlt).Ok?
    ensures ShowsParams(SavedOver(prior, p, stamp), p) && SavedOver(prior, p, stamp).tenant == prior.tenant
  {
  }

  lemma UpsertStores(table: map<string, Record>, r: Record, now: int, p: Params)
    requires ShowsParams(r, p)
    ensures r.tenant in Upserted(table, r, now) && ShowsParams(Upserted(table, r, now)[r.tenant], p)
  {
  }

  lemma SaveStores(w: World, table: map<string, Record>, op: Op)
    requires IsPower(w.pow) && op.Save? && OpProblem(w, op).None? && TableSound(w, table)
    ensures var end, tenant := Step(w, table, op), Text.TrimSpace(op.tenantId);
            tenant in end && ShowsParams(end[tenant], op.params)
  {
    var prior := Existing(table, Text.TrimSpace(op.tenantId));
    SavedOverShows(prior, op.params, op.stamp);
    UpsertStores(table, SavedOver(prior, op.params, op.stamp), op.now, op.params);
  }

  lemma StoredCss(w: World, table: map<string, Record>, tenantId: string, primaryHex: string, fontKey: string)
    requires IsPower(w.pow) && Text.TrimSpace(tenantId) != [] && Text.TrimSpace(tenantId) in table
    requires table[Text.TrimSpace(tenantId)].primaryColor == Text.TrimSpace(primaryHex)
    requires table[Text.TrimSpace(tenantId)].fontKey == Text.TrimSpace(fontKey)
    ensures CssOf(w, table, tenantId) == DeriveCSS(w, primaryHex, fontKey)
  {
    DeriveCSSIgnoresPadding(w, primaryHex, fontKey);
  }

  // What the overlay of a colour and font renders to, or why it does not.
  predicate Renders(w: World, primaryHex: string, fontKey: string, r: Result<string, Failure>)
    requires IsPower(w.pow)
  {
    match DerivedLayer(w.pow, primaryHex, fontKey)
    case Err(e) => r == Err(BadPalette(e))
    case Ok(None) => r == Ok("")
    case Ok(Some(l)) => (r.Ok? && w.render(l) == Some(r.value)) || (r == Err(RenderFailed) && w.render(l).None?)
  }

  lemma DeriveCSSRenders(w: World, primaryHex: string, fontKey: string)
    requires IsPower(w.pow)
    ensures Renders(w, primaryHex, fontKey, DeriveCSS(w, primaryHex, fontKey))
  {
  }

  // BrandingCSS answers the rendering of the stored colour and font.
  lemma CssIsRendered(w: World, table: map<string, Record>, tenantId: string)
    requires IsPower(w.pow)
    ensures var tenant, r := Text.TrimSpace(tenantId), CssOf(w, table, tenantId);
            && (r == Err(TenantRequired) <==> tenant == "")
            && (tenant != "" && tenant !in table ==> r == Ok(""))
            && (tenant != "" && tenant in table ==> Renders(w, table[tenant].primaryColor, table[tenant].fontKey, r))
  {
    var tenant := Text.TrimSpace(tenantId);
    if tenant in table {
      DeriveCSSRenders(w, table[tenant].primaryColor, table[tenant].fontKey);
    }
  }

  // After an accepted Save the CSS is empty when both fields are blank, and else
  // the rendering of the layer the submission derives.
  lemma SaveIsRendered(w: World, table: map<string, Record>, op: Op)
    requires IsPower(w.pow) && op.Save? && OpProblem(w, op).None? && TableSound(w, table)
    ensures var r, p := CssOf(w, Step(w, table, op), op.tenantId), op.params;
            if Text.Blank(p.primaryColor) && Text.Blank(p.fontKey) then r == Ok("")
            else
              var layer := DerivedLayer(w.pow, p.primaryColor, p.fontKey);
              layer.Ok? && layer.value.Some? && forall css :: r == Ok(css) <==> w.render(layer.value.value) == Some(css)
  {
    var p := op.params;
    SaveStores(w, table, op);
    StoredCss(w, Step(w, table, op), op.tenantId, p.primaryColor, p.fontKey);
    AcceptedDerives(w, op);
    DeriveCSSRenders(w, p.primaryColor, p.fontKey);
    DerivesWhat(w.pow, p.primaryColor, p.fontKey);
  }

  lemma AcceptedDerives(w: World, op: Op)
    requires IsPower(w.pow) && op.Save? && OpProblem(w, op).None?
    ensures DeriveCSS(w, op.params.primaryColor, op.params.fontKey).Ok?
  {
  }

  // ----- what is accepted -----

  predicate LogoAccepted(w: World, data: seq<Byte>, contentType: string) {
    && |data| <= 1048576
    && var declared := Text.TrimSpace(contentType);
       if declared == "image/svg+xml" then TagWithin(data, 512)
       else declared in {"image/png", "image/jpeg", "image/webp"} && w.sniff(data) == declared
  }

  // Which fault a refused logo has.
  lemma LogoReports(w: World, data: seq<Byte>, contentType: string)
    ensures var err, declared := LogoProblem(w, data, contentType), Text.TrimSpace(contentType);
            && (err.None? <==> LogoAccepted(w, data, contentType))
            && (err == Some(TooLarge) <==> |data| > 1048576)
            && (err == Some(NoSvgElement) <==>
                  |data| <= 1048576 && declared == "image/svg+xml" && !TagWithin(data, 512))
            && (err == Some(TypeMismatch) <==>
                  && |data| <= 1048576 && declared in {"image/png", "image/jpeg", "image/webp"}
                  && w.sniff(data) != declared)
  {
    ProbeFindsEarlyTag(data);
  }

  ghost predicate PaletteAccepted(w: World, p: Params)
    requires IsPower(w.pow)
  {
    var layer := DerivedLayer(w.pow, p.primaryColor, p.fontKey);
    layer.Ok? && (layer.value.Some? ==> w.render(layer.value.value).Some?)
  }

  predicate NameAccepted(name: string) {
    0 < |Text.TrimSpace(name)| <= 120
  }

  // A Save is accepted exactly when tenant, name, palette, any new logo and the
  // alternative text are, and the store works; the first fault is reported.
  lemma SaveReports(w: World, op: Op)
    requires IsPower(w.pow) && op.Save?
    ensures var err, p := OpProblem(w, op), op.params;
            var named := !Text.Blank(op.tenantId) && NameAccepted(p.displayName);
            var derived := named && PaletteAccepted(w, p);
            var drawn := derived && (p.logoData != [] ==> LogoAccepted(w, p.logoData, p.logoContentType));
            var told := drawn && |Text.TrimSpace(p.logoAlt)| <= 120;
            && (err == Some(TenantRequired) <==> Text.Blank(op.tenantId))
            && (err == Some(NameRequired) <==> !Text.Blank(op.tenantId) && Text.Blank(p.displayName))
            && (err == Some(NameTooLong) <==> !Text.Blank(op.tenantId) && |Text.TrimSpace(p.displayName)| > 120)
            && (named && !derived ==> err.Some? && Renders(w, p.primaryColor, p.fontKey, Err(err.value)))
            && (derived && !drawn ==>
                  && LogoProblem(w, p.logoData, p.logoContentType).Some?
                  && err == Some(BadLogo(LogoProblem(w, p.logoData, p.logoContentType).value)))
            && (err == Some(AltTooLong) <==> drawn && !told)
            && (err == Some(StoreFailed) <==> told && !(op.loads && op.stores))
            && (err.None? <==> told && op.loads && op.stores)
  {
    DeriveCSSRenders(w, op.params.primaryColor, op.params.fontKey);
    LogoReports(w, op.params.logoData, op.params.logoContentType);
  }

  lemma SkipReports(w: World, op: Op)
    requires IsPower(w.pow) && op.Skip?
    ensures var err := OpProblem(w, op);
            && (err == Some(TenantRequired) <==> Text.Blank(op.tenantId))
            && (err == Some(NameRequired) <==> !Text.Blank(op.tenantId) && Text.Blank(op.fallbackName))
            && (err == Some(NameTooLong) <==> !Text.Blank(op.tenantId) && |Text.TrimSpace(op.fallbackName)| > 120)
            && (err == Some(StoreFailed) <==> !Text.Blank(op.tenantId) && NameAccepted(op.fallbackName) && !op.stores)
            && (err.None? <==> SkipGoesThrough(op))
  {
  }

  // ----- timestamps -----

  // Whatever is written is stamped now, created then or earlier, and completes
  // setup at the time of the first Save, or of the last Skip.
  lemma WriteStamps(w: World, table: map<string, Record>, op: Op)
    requires IsPower(w.pow) && OpProblem(w, op).None? && TableSound(w, table)
    ensures var end, tenant := Step(w, table, op), Text.TrimSpace(op.tenantId);
            && tenant in end && end[tenant].updatedAt == op.now
            && end[tenant].createdAt == (if tenant in table then table[tenant].createdAt else op.now)
            && end[tenant].setupCompletedAt ==
               (if op.Save? && tenant in table then table[tenant].setupCompletedAt else Some(op.stamp))
  {
  }

  // A logo is answered exactly when the tenant's record has one.
  lemma LogoIsStored(table: map<string, Record>, tenantId: string, data: seq<Byte>, contentType: string)
    ensures var tenant, r := Text.TrimSpace(tenantId), LogoOf(table, tenantId);
            && (r == Ok((data, contentType)) <==>
                  && tenant != "" && tenant in table && data != []
                  && table[tenant].logoData == data && table[tenant].logoContentType == contentType)
            && (r == Err(TenantRequired) <==> tenant == "")
            && (r.Err? && tenant != "" ==> r == Err(RecordNotFound))
  {
  }

  // An accepted Skip leaves the tenant without logo and overrides.
  lemma SkipClears(w: World, table: map<string, Record>, op: Op)
    requires IsPower(w.pow) && op.Skip? && OpProblem(w, op).None?
    ensures var end, tenant := Step(w, table, op), Text.TrimSpace(op.tenantId);
            && CssOf(w, end, op.tenantId) == Ok("") && LogoOf(end, op.tenantId) == Err(RecordNotFound)
            && tenant in end && end[tenant].displayName == Text.TrimSpace(op.fallbackName)
            && forall other | other in table && other != tenant :: other in end && end[other] == table[other]
  {
    NoOverridesRender(w);
  }
}
